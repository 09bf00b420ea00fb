/**
 * Converting all the configurations of a node (`apiToFRR`, internal/controller/api_to_config.go).
 * This is the specification the loops of ConvertLoops are proved against.
 */
module Conversion {
  import opened Ordering
  import opened Configs
  import opened Merge
  import opened Api
  import opened Translate

  // ---- raw snippets

  datatype Raw = Raw(priority: int, name: string, config: string)

  predicate RawLe(a: Raw, b: Raw) {
    if a.priority == b.priority then StrLe(a.name, b.name) else a.priority < b.priority
  }

  function InsertRaw(r: Raw, s: seq<Raw>): (t: seq<Raw>) {
    if s == [] || RawLe(r, s[0]) then [r] + s else [s[0]] + InsertRaw(r, s[1..])
  }

  /** Snippets by priority, then by configuration name. */
  function SortRaws(s: seq<Raw>): (t: seq<Raw>) {
    if s == [] then [] else InsertRaw(s[|s| - 1], SortRaws(s[..|s| - 1]))
  }

  function Concat(s: seq<Raw>): (t: string) {
    if s == [] then "" else Concat(s[..|s| - 1]) + s[|s| - 1].config + "\n"
  }

  function JoinRaws(s: seq<Raw>): (t: string) { Concat(SortRaws(s)) }

  function RawsOf(c: ApiConfig): (s: seq<Raw>) {
    if c.rawConfig != "" then [Raw(c.rawPriority, c.name, c.rawConfig)] else []
  }

  // ---- the fold

  /** What has been gathered from the configurations read so far. */
  datatype State = State(routers: map<string, Router>, profiles: map<string, BfdProfile>, raws: seq<Raw>)

  /** One translated router: merged with itself, then into the router of its VRF. */
  function AddRouter(m: map<string, Router>, r: Router): (res: Result<map<string, Router>>) {
    var self :- MergeRouters(r, r);
    if r.vrf !in m then Ok(m[r.vrf := self])
    else
      var merged :- MergeRouters(m[r.vrf], self);
      Ok(m[r.vrf := merged])
  }

  function AddRouters(m: map<string, Router>, rs: seq<Router>): (res: Result<map<string, Router>>) {
    if rs == [] then Ok(m)
    else
      var before :- AddRouters(m, rs[..|rs| - 1]);
      AddRouter(before, rs[|rs| - 1])
  }

  /** A profile name may come back in another configuration, but only with the same values. */
  function AddProfiles(m: map<string, BfdProfile>, ps: seq<BfdProfile>): (res: Result<map<string, BfdProfile>>) {
    if ps == [] then Ok(m)
    else
      var before :- AddProfiles(m, ps[..|ps| - 1]);
      var p := ps[|ps| - 1];
      if p.name in before && before[p.name] != p then Err else Ok(before[p.name := p])
  }

  function AddConfig(env: Env, st: State, c: ApiConfig): (res: Result<State>) {
    var rs :- TranslateConfig(env, c);
    var profiles :- AddProfiles(st.profiles, c.bfdProfiles);
    var routers :- AddRouters(st.routers, rs);
    Ok(State(routers, profiles, st.raws + RawsOf(c)))
  }

  function Fold(env: Env, cs: seq<ApiConfig>): (res: Result<State>) {
    if cs == [] then Ok(State(map[], map[], []))
    else
      var st :- Fold(env, cs[..|cs| - 1]);
      AddConfig(env, st, cs[|cs| - 1])
  }

  // ---- EVPN validation of the merged routers

  predicate NeedsNeighbor(e: Evpn) {
    e.advertiseVNIs == Some(VNIS_ALL) || e.advertiseSVI || |e.l2| > 0
  }

  predicate HasEvpnNeighbor(r: Router) {
    exists n | n in r.neighbors :: EVPN_FAMILY in n.addressFamilies
  }

  /** The one requirement another configuration can meet. */
  predicate NeighborPresent(r: Router) {
    r.evpn.Some? && NeedsNeighbor(r.evpn.value) ==> HasEvpnNeighbor(r)
  }

  predicate L3Alone(r: Router) {
    r.evpn.Some? && r.evpn.value.l3.Some? ==> r.neighbors == []
  }

  function VniUses(r: Router): (s: seq<nat>) {
    if r.evpn.None? then []
    else
      seq(|r.evpn.value.l2|, i requires 0 <= i < |r.evpn.value.l2| => r.evpn.value.l2[i].vni) +
      (if r.evpn.value.l3.Some? then [r.evpn.value.l3.value.vni] else [])
  }

  predicate Distinct(s: seq<nat>) { forall i, j | 0 <= i < j < |s| :: s[i] != s[j] }

  /** Every VNI number is used once, over all VRFs and both kinds. */
  predicate UniqueVNIs(m: map<string, Router>) {
    && (forall v | v in m :: Distinct(VniUses(m[v])))
    && (forall v, w | v in m && w in m && v != w :: forall x | x in VniUses(m[v]) :: x !in VniUses(m[w]))
  }

  predicate EvpnUndisputed(m: map<string, Router>) {
    (forall v | v in m :: L3Alone(m[v])) && UniqueVNIs(m)
  }

  predicate NeighborsPresent(m: map<string, Router>) {
    forall v | v in m :: NeighborPresent(m[v])
  }

  /** `validateEVPN` */
  predicate ValidEvpn(m: map<string, Router>) { NeighborsPresent(m) && EvpnUndisputed(m) }

  // ---- the conversion

  function Render(st: State): (c: FrrConfig) {
    FrrConfig("", "", SortByName(st.routers), SortByName(st.profiles), JoinRaws(st.raws))
  }

  /** `apiToFRR` */
  function Convert(env: Env, cs: seq<ApiConfig>): (res: Result<FrrConfig>) {
    var st :- Fold(env, cs);
    if ValidEvpn(st.routers) then Ok(Render(st)) else Err
  }

  /** Everything but the requirement that some configuration supplies an EVPN neighbor. */
  predicate Undisputed(env: Env, cs: seq<ApiConfig>) {
    Fold(env, cs).Ok? && EvpnUndisputed(Fold(env, cs).value.routers)
  }
}

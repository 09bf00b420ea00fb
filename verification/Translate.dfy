/**
 * Translating one API object into FRR terms (internal/controller/api_to_config.go), before
 * anything is merged.
 */
module Translate {
  import opened Decimal
  import opened Communities
  import opened Configs
  import opened Api
  import opened Ordering

  // ---- address families (internal/ipfamily)

  function CidrFamily(net: Net, p: string): (f: Family) {
    match net.cidr(p)
    case None => Unknown
    case Some(c) => if c.v6 then IPv6 else IPv4
  }

  function FilterPrefixes(net: Net, ps: seq<string>, f: Family): (r: seq<string>)
    ensures forall p :: p in r <==> p in ps && (f == DualStack || CidrFamily(net, p) == f)
  {
    if f == DualStack || ps == [] then ps
    else
      var rest := FilterPrefixes(net, ps[..|ps| - 1], f);
      var p := ps[|ps| - 1];
      assert ps == ps[..|ps| - 1] + [p];
      if CidrFamily(net, p) == f then rest + [p] else rest
  }

  predicate MatchesPrefix(net: Net, f: Family, p: string) { f == DualStack || CidrFamily(net, p) == f }

  function NeighborFamily(net: Net, n: ApiNeighbor): (r: Result<Family>) {
    if n.address != "" && net.ip(n.address).None? then Err
    else if n.iface != "" || n.dualStack then Ok(DualStack)
    else if n.address == "" then Ok(Unknown)
    else Ok(if net.ip(n.address).value then IPv6 else IPv4)
  }

  predicate HasFamily(neighbor: Family, f: Family) { neighbor == DualStack || neighbor == f }

  // ---- what a neighbor is told

  function PrefixesToAdvertise(net: Net, a: Advertise, inRouter: seq<string>, f: Family): (r: set<string>) {
    if a.mode == ALLOW_ALL then (set p | p in FilterPrefixes(net, inRouter, f))
    else set p | p in a.prefixes && CidrFamily(net, p) == f
  }

  function NextHops(net: Net, family: Family, a: Advertise): (r: Result<(string, string)>) {
    if a.nextHopV4 != "" && (net.ip(a.nextHopV4) != Some(false) || !HasFamily(family, IPv4)) then Err
    else if a.nextHopV6 != "" && (net.ip(a.nextHopV6) != Some(true) || !HasFamily(family, IPv6)) then Err
    else Ok((a.nextHopV4, a.nextHopV6))
  }

  /** A local preference or a community, with the prefixes it is to be set on. */
  datatype TagEntry = TagEntry(tag: Tag, prefixes: seq<string>)

  function PrefEntries(es: seq<LocalPrefPrefixes>): (r: seq<TagEntry>) {
    seq(|es|, i requires 0 <= i < |es| => TagEntry(LocalPref(es[i].localPref), es[i].prefixes))
  }

  function CommunityEntries(es: seq<CommunityPrefixes>): (r: Result<seq<TagEntry>>)
    ensures r.Ok? ==> forall e | e in r.value :: e.tag.Comm?
  {
    if es == [] then Ok([])
    else
      var rest :- CommunityEntries(es[..|es| - 1]);
      var last := es[|es| - 1];
      match Parse(last.community)
      case Good(c) => Ok(rest + [TagEntry(Comm(c), last.prefixes)])
      case _ => Err
  }

  predicate NoDuplicates(s: seq<string>) { forall i, j | 0 <= i < j < |s| :: s[i] != s[j] }

  /**
   * `prefixesWithLocalPrefToFRR` and `prefixesWithCommunityToFRR` for one address family: the
   * lists are added to `toAdd`, keyed by tag and family.
   */
  function BuildLists(net: Net, id: string, f: Family, advertised: set<string>,
                      toAdd: map<string, PrefixList>, es: seq<TagEntry>): (r: Result<map<string, PrefixList>>) {
    if es == [] then Ok(toAdd)
    else
      var m :- BuildLists(net, id, f, advertised, toAdd, es[..|es| - 1]);
      AddEntry(net, id, f, advertised, m, es[|es| - 1])
  }

  function AddEntry(net: Net, id: string, f: Family, advertised: set<string>,
                    m: map<string, PrefixList>, e: TagEntry): (r: Result<map<string, PrefixList>>) {
    var family := FrrFamily(f);
    var key := ListKey(e.tag, family);
    var ps := FilterPrefixes(net, e.prefixes, f);
    if key in m then Err
    else if ps == [] then Ok(m)
    else if !(forall p | p in ps :: p in advertised) || !NoDuplicates(ps) then Err
    else Ok(m[key := PrefixList(ListName(id, e.tag, family), family, (set p | p in ps), e.tag)])
  }

  /** The lists of every family the neighbor has, IPv4 first. */
  function TagLists(net: Net, id: string, family: Family, a: Advertise, inRouter: seq<string>, es: seq<TagEntry>)
    : (r: Result<seq<PrefixList>>)
  {
    var v4 := PrefixesToAdvertise(net, a, inRouter, IPv4);
    var v6 := PrefixesToAdvertise(net, a, inRouter, IPv6);
    if family == DualStack then
      var m :- BuildLists(net, id, IPv4, v4, map[], es);
      var m6 :- BuildLists(net, id, IPv6, v6, m, es);
      Ok(SortByName(m6))
    else
      var advertised := if family == IPv4 then v4 else if family == IPv6 then v6 else {};
      var m :- BuildLists(net, id, family, advertised, map[], es);
      Ok(SortByName(m))
  }

  /** `toAdvertiseToFRR` */
  function Outgoing(net: Net, id: string, family: Family, a: Advertise,
                    inRouter: seq<string>): (r: Result<AllowedOut>) {
    var hops :- NextHops(net, family, a);
    var prefs :- TagLists(net, id, family, a, inRouter, PrefEntries(a.withLocalPref));
    var es :- CommunityEntries(a.withCommunity);
    var communities :- TagLists(net, id, family, a, inRouter, es);
    Ok(AllowedOut(
      if HasFamily(family, IPv4) then SortStrings(PrefixesToAdvertise(net, a, inRouter, IPv4)) else [],
      if HasFamily(family, IPv6) then SortStrings(PrefixesToAdvertise(net, a, inRouter, IPv6)) else [],
      hops.0, hops.1, prefs, communities))
  }

  // ---- what a neighbor may tell us

  predicate SelectorLengthsOk(mask: nat, le: nat, ge: nat) {
    || (ge == 0 && le == 0)
    || (&& !(le > 0 && ge > le)
        && !(le > 0 && mask > le)
        && !(ge > 0 && mask > ge))
  }

  function FilterForSelector(net: Net, s: Selector): (r: Result<Filter>) {
    match net.cidr(s.prefix)
    case None => Err
    case Some(c) =>
      if !SelectorLengthsOk(c.maskLength, s.le, s.ge) then Err
      else Ok(Filter(CidrFamily(net, s.prefix), s.prefix, s.le, s.ge))
  }

  function SelectorFilters(net: Net, ss: seq<Selector>): (r: Result<seq<Filter>>) {
    if ss == [] then Ok([])
    else
      var rest :- SelectorFilters(net, ss[..|ss| - 1]);
      var f :- FilterForSelector(net, ss[|ss| - 1]);
      Ok(rest + [f])
  }

  predicate FilterLe(a: Filter, b: Filter) {
    if a.prefix != b.prefix then StrLe(a.prefix, b.prefix)
    else if a.le != b.le then a.le < b.le
    else a.ge <= b.ge
  }

  function InsertFilter(f: Filter, s: seq<Filter>): (r: seq<Filter>)
    ensures forall x :: x in r <==> x == f || x in s
  {
    if s == [] || FilterLe(f, s[0]) then [f] + s
    else
      var r := [s[0]] + InsertFilter(f, s[1..]);
      assert s == [s[0]] + s[1..];
      r
  }

  function SortFilters(s: seq<Filter>): (r: seq<Filter>)
    ensures forall x :: x in r <==> x in s
  {
    if s == [] then []
    else
      assert s == s[..|s| - 1] + [s[|s| - 1]];
      InsertFilter(s[|s| - 1], SortFilters(s[..|s| - 1]))
  }

  function OfFamily(fs: seq<Filter>, v4: bool): (r: seq<Filter>)
    ensures forall x :: x in r <==> x in fs && (x.ipFamily == IPv4) == v4
  {
    if fs == [] then []
    else
      assert fs == fs[..|fs| - 1] + [fs[|fs| - 1]];
      var rest := OfFamily(fs[..|fs| - 1], v4);
      if (fs[|fs| - 1].ipFamily == IPv4) == v4 then rest + [fs[|fs| - 1]] else rest
  }

  /** `toReceiveToFRR` */
  function Incoming(net: Net, r: Receive): (res: Result<AllowedIn>) {
    if r.mode == ALLOW_ALL then Ok(AllowedIn(true, [], []))
    else
      var fs :- SelectorFilters(net, r.prefixes);
      Ok(AllowedIn(false, SortFilters(OfFamily(fs, true)), SortFilters(OfFamily(fs, false))))
  }

  // ---- neighbors

  function AsnFor(n: ApiNeighbor): (s: string) { if n.dynamicASN != "" then n.dynamicASN else Dec(n.asn) }

  function NeighborName(n: ApiNeighbor): (s: string) {
    AsnFor(n) + "@" + (if n.address == "" then n.iface else n.address)
  }

  /** Whole seconds of a duration, rounding towards zero as Go does. */
  function Seconds(d: int): (s: int)
    ensures d >= 0 ==> s >= 0 && s * 1_000_000_000 <= d < (s + 1) * 1_000_000_000
    ensures d < 0 ==> s <= 0 && (s - 1) * 1_000_000_000 < d <= s * 1_000_000_000
  {
    if d >= 0 then d / 1_000_000_000 else -((-d) / 1_000_000_000)
  }

  function ParseTimers(hold: Option<int>, keepalive: Option<int>): (r: Result<(Option<int>, Option<int>)>) {
    if hold.Some? != keepalive.Some? then Err
    else if hold.None? then Ok((None, None))
    else if Seconds(hold.value) != 0 && Seconds(hold.value) < 3 then Err
    else if keepalive.value > hold.value then Err
    else Ok((Some(Seconds(hold.value)), Some(Seconds(keepalive.value))))
  }

  function PasswordFor(n: ApiNeighbor, secrets: map<string, Secret>): (r: Result<string>) {
    if n.password != "" && n.passwordSecret != "" then Err
    else if n.password != "" then Ok(n.password)
    else if n.passwordSecret == "" then Ok("")
    else if n.passwordSecret !in secrets then Err
    else if !secrets[n.passwordSecret].basicAuth || secrets[n.passwordSecret].password.None? then Err
    else Ok(secrets[n.passwordSecret].password.value)
  }

  predicate IdentityOk(n: ApiNeighbor, profiles: set<string>) {
    && (n.address == "") != (n.iface == "")
    && (n.bfdProfile != "" ==> n.bfdProfile in profiles)
    && (n.asn == 0) != (n.dynamicASN == "")
    && (n.dynamicASN == "" || n.dynamicASN == INTERNAL_ASN || n.dynamicASN == EXTERNAL_ASN)
  }

  /** `neighborToFRR` */
  function TranslateNeighbor(env: Env, n: ApiNeighbor, inRouter: seq<string>, vrf: string, profiles: set<string>)
    : (r: Result<Neighbor>)
  {
    if !IdentityOk(n, profiles) then Err
    else
      var family :- NeighborFamily(env.net, n);
      var timers :- ParseTimers(n.holdTime, n.keepaliveTime);
      var password :- PasswordFor(n, env.secrets);
      var outgoing :- Outgoing(env.net, NeighborID(n.address, n.iface, vrf), family, n.toAdvertise, inRouter);
      var incoming :- Incoming(env.net, n.toReceive);
      Ok(Neighbor(
        family, NeighborName(n), AsnFor(n), n.sourceAddress, n.address, n.iface, n.port,
        timers.0, timers.1, if n.connectTime.Some? then Some(Seconds(n.connectTime.value)) else None,
        password, n.bfdProfile, n.gracefulRestart, n.ebgpMultiHop, n.localASN, vrf,
        incoming, outgoing, env.alwaysBlock, n.addressFamilies))
  }

  // ---- routers

  predicate PrefixesFit(net: Net, ps: seq<string>, f: Family) {
    forall p | p in ps :: CidrFamily(net, p) != Unknown && MatchesPrefix(net, f, p)
  }

  /** No prefix is listed with two different local preferences. */
  predicate OnePreference(es: seq<LocalPrefPrefixes>) {
    forall e, g | e in es && g in es :: forall p | p in e.prefixes && p in g.prefixes :: e.localPref == g.localPref
  }

  predicate OutgoingOk(net: Net, inRouter: seq<string>, n: ApiNeighbor) {
    var family := NeighborFamily(net, n);
    && family.Ok?
    && (forall e | e in n.toAdvertise.withLocalPref :: PrefixesFit(net, e.prefixes, family.value))
    && OnePreference(n.toAdvertise.withLocalPref)
    && (forall e | e in n.toAdvertise.withCommunity :: PrefixesFit(net, e.prefixes, family.value))
    && (n.toAdvertise.mode != ALLOW_ALL ==>
          && PrefixesFit(net, n.toAdvertise.prefixes, family.value)
          && forall p | p in n.toAdvertise.prefixes :: p in inRouter)
  }

  /** `validateOutgoingPrefixes` */
  predicate ValidOutgoing(net: Net, inRouter: seq<string>, r: ApiRouter) {
    forall n | n in r.neighbors :: OutgoingOk(net, inRouter, n)
  }

  function TranslateNeighbors(env: Env, ns: seq<ApiNeighbor>, r: ApiRouter, inRouter: seq<string>,
                              profiles: set<string>)
    : (res: Result<seq<Neighbor>>)
  {
    if ns == [] then Ok([])
    else
      var rest :- TranslateNeighbors(env, ns[..|ns| - 1], r, inRouter, profiles);
      var n := ns[|ns| - 1];
      if n.localASN != 0 && n.asn != 0 && n.asn == r.asn then Err
      else
        var t :- TranslateNeighbor(env, n, inRouter, r.vrf, profiles);
        Ok(rest + [t])
  }

  /** `routerToFRRConfig` */
  function TranslateRouter(env: Env, r: ApiRouter, inRouter: seq<string>,
                           profiles: set<string>): (res: Result<Router>) {
    var neighbors :- TranslateNeighbors(env, r.neighbors, r, inRouter, profiles);
    Ok(Router(r.asn, r.id, neighbors, r.vrf, FilterPrefixes(env.net, r.prefixes, IPv4),
              FilterPrefixes(env.net, r.prefixes, IPv6), r.imports, r.evpn))
  }

  /** `prefixesForVRFs`: the last router of a VRF within one configuration wins. */
  function PrefixesForVRFs(rs: seq<ApiRouter>): (m: map<string, seq<string>>) {
    if rs == [] then map[]
    else PrefixesForVRFs(rs[..|rs| - 1])[rs[|rs| - 1].vrf := rs[|rs| - 1].prefixes]
  }

  const DEFAULT_VRF := "default"

  /** "default" when importing, empty when declaring. */
  function ImportedVRF(v: string): (r: string) { if v == DEFAULT_VRF then "" else v }

  function ImportedPrefixes(imports: seq<string>, byVRF: map<string, seq<string>>): (r: Result<seq<string>>) {
    if imports == [] then Ok([])
    else
      var rest :- ImportedPrefixes(imports[..|imports| - 1], byVRF);
      var v := ImportedVRF(imports[|imports| - 1]);
      if v !in byVRF then Err else Ok(rest + byVRF[v])
  }

  predicate ValidImports(imports: seq<string>, byVRF: map<string, seq<string>>) {
    forall v | v in imports :: v == DEFAULT_VRF || v in byVRF
  }

  predicate ValidPrefixes(net: Net, ps: seq<string>) { forall p | p in ps :: CidrFamily(net, p) != Unknown }

  /** One router of a configuration, checked and translated, not yet merged with anything. */
  function RawRouter(env: Env, r: ApiRouter, byVRF: map<string, seq<string>>,
                     profiles: set<string>): (res: Result<Router>) {
    if !ValidPrefixes(env.net, r.prefixes) then Err
    else if !ValidImports(r.imports, byVRF) then Err
    else
      var imported :- ImportedPrefixes(r.imports, byVRF);
      var all := r.prefixes + imported;
      if !ValidOutgoing(env.net, all, r) then Err
      else TranslateRouter(env, r, all, profiles)
  }

  function ProfileNames(ps: seq<BfdProfile>): (r: set<string>) { set p | p in ps :: p.name }

  predicate DistinctProfiles(ps: seq<BfdProfile>) {
    forall i, j | 0 <= i < j < |ps| :: ps[i].name != ps[j].name
  }

  function RawRouters(env: Env, c: ApiConfig, rs: seq<ApiRouter>): (res: Result<seq<Router>>) {
    if rs == [] then Ok([])
    else
      var rest :- RawRouters(env, c, rs[..|rs| - 1]);
      var r :- RawRouter(env, rs[|rs| - 1], PrefixesForVRFs(c.routers), ProfileNames(c.bfdProfiles));
      Ok(rest + [r])
  }

  /** All routers of one configuration, on its own terms. */
  function TranslateConfig(env: Env, c: ApiConfig): (res: Result<seq<Router>>) {
    if !DistinctProfiles(c.bfdProfiles) then Err else RawRouters(env, c, c.routers)
  }
}

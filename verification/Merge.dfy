/**
 * Merging two router configurations (internal/controller/merge.go), on values.
 * The in-place code on shared objects is in MergeInPlace.
 */
module Merge {
  import opened Ordering
  import opened Decimal
  import opened Configs

  const DEFAULT_PORT := 179
  const DEFAULT_HOLD_TIME := 180
  const DEFAULT_KEEPALIVE_TIME := 60
  const DEFAULT_CONNECT_TIME := 60
  const VNIS_DISABLED := "Disabled"

  predicate PtrsEqual<T(==)>(p1: Option<T>, p2: Option<T>, def: T) {
    match (p1, p2)
    case (None, None) => true
    case (None, Some(b)) => b == def
    case (Some(a), None) => a == def
    case (Some(a), Some(b)) => a == b
  }

  /** `sets.List(sets.New(append(a, b...)...))` */
  function Union(a: seq<string>, b: seq<string>): (r: seq<string>)
    ensures StrSorted(r)
    ensures forall x :: x in r <==> x in a || x in b
  {
    SortStrings((set x | x in a) + (set x | x in b))
  }

  /** The map a loop builds when every element overwrites the one stored under its key. */
  function LastByKey<K(==), T>(s: seq<T>, key: T -> K): (m: map<K, T>) {
    if s == [] then map[]
    else LastByKey(s[..|s| - 1], key)[key(s[|s| - 1]) := s[|s| - 1]]
  }

  // ---- outgoing

  function MergeNextHop(curr: string, toMerge: string): (r: Result<string>) {
    if curr == "" then Ok(toMerge)
    else if toMerge == "" || curr == toMerge then Ok(curr)
    else Err
  }

  function AddLists(m: map<string, PrefixList>, lists: seq<PrefixList>): (r: map<string, PrefixList>) {
    if lists == [] then m
    else
      var before := AddLists(m, lists[..|lists| - 1]);
      var l := lists[|lists| - 1];
      var k := KeyOfList(l);
      if k in before
      then before[k := before[k].(prefixes := before[k].prefixes + l.prefixes)]
      else before[k := l]
  }

  /** `mergeLocalPrefPrefixLists` and `mergeCommunityPrefixLists` */
  function MergeLists(curr: seq<PrefixList>, toMerge: seq<PrefixList>): (r: seq<PrefixList>) {
    SortByName(AddLists(LastByKey(curr, KeyOfList), toMerge))
  }

  /** The preference recorded for each prefix; a later list overwrites an earlier one. */
  function PrefForPrefix(lists: seq<PrefixList>): (m: map<string, u32>) {
    if lists == [] then map[]
    else
      var l := lists[|lists| - 1];
      PrefForPrefix(lists[..|lists| - 1]) +
      (map p | p in l.prefixes :: if l.tag.LocalPref? then l.tag.pref else 0)
  }

  predicate PrefsAgree(m: map<string, u32>, lists: seq<PrefixList>) {
    forall l | l in lists :: forall p | p in l.prefixes ::
      p in m && l.tag.LocalPref? ==> m[p] == l.tag.pref
  }

  function MergeAllowedOut(r: AllowedOut, t: AllowedOut): (res: Result<AllowedOut>) {
    var nh4 :- MergeNextHop(r.nextHopV4, t.nextHopV4);
    var nh6 :- MergeNextHop(r.nextHopV6, t.nextHopV6);
    if !PrefsAgree(PrefForPrefix(r.localPrefs), t.localPrefs) then Err
    else Ok(AllowedOut(Union(r.v4, t.v4), Union(r.v6, t.v6), nh4, nh6,
                       MergeLists(r.localPrefs, t.localPrefs),
                       MergeLists(r.communities, t.communities)))
  }

  // ---- incoming

  function MergeFilters(curr: seq<Filter>, toMerge: seq<Filter>): (r: seq<Filter>) {
    SortByName(LastByKey(curr + toMerge, FilterKey))
  }

  function MergeAllowedIn(r: AllowedIn, t: AllowedIn): (res: AllowedIn) {
    if r.all || t.all then AllowedIn(true, [], [])
    else AllowedIn(false, MergeFilters(r.v4, t.v4), MergeFilters(r.v6, t.v6))
  }

  // ---- neighbors

  predicate NeighborsCompatible(a: Neighbor, b: Neighbor) {
    && ID(a) == ID(b)
    && a.asn == b.asn
    && PtrsEqual(a.port, b.port, DEFAULT_PORT)
    && a.srcAddr == b.srcAddr
    && a.password == b.password
    && !(a.bfdProfile != "" && b.bfdProfile != "" && a.bfdProfile != b.bfdProfile)
    && a.ebgpMultiHop == b.ebgpMultiHop
    && a.ipFamily == b.ipFamily
    && PtrsEqual(a.holdTime, b.holdTime, DEFAULT_HOLD_TIME)
    && PtrsEqual(a.keepaliveTime, b.keepaliveTime, DEFAULT_KEEPALIVE_TIME)
    && PtrsEqual(a.connectTime, b.connectTime, DEFAULT_CONNECT_TIME)
    && a.localASN == b.localASN
  }

  function ClearDefault(p: Option<int>, def: int): (r: Option<int>) { if p == Some(def) then None else p }

  /** `cleanNeighborDefaults` */
  function CleanDefaults(n: Neighbor): (r: Neighbor) {
    n.(port := ClearDefault(n.port, DEFAULT_PORT),
       holdTime := ClearDefault(n.holdTime, DEFAULT_HOLD_TIME),
       keepaliveTime := ClearDefault(n.keepaliveTime, DEFAULT_KEEPALIVE_TIME),
       connectTime := ClearDefault(n.connectTime, DEFAULT_CONNECT_TIME))
  }

  /** `mergeIntoNeighbor`: the value `dest` holds afterwards. */
  function MergeNeighbors(dest: Neighbor, src: Neighbor): (r: Result<Neighbor>) {
    if !NeighborsCompatible(dest, src) then Err
    else
      var outgoing :- MergeAllowedOut(dest.outgoing, src.outgoing);
      Ok(CleanDefaults(dest.(
        bfdProfile := if dest.bfdProfile == "" then src.bfdProfile else dest.bfdProfile,
        outgoing := outgoing,
        incoming := MergeAllowedIn(dest.incoming, src.incoming),
        addressFamilies := Union(dest.addressFamilies, src.addressFamilies))))
  }

  /** The map by ID that `mergeNeighborsLists` builds when no two listed neighbors share an object. */
  function FoldNeighbors(all: seq<Neighbor>): (r: Result<map<string, Neighbor>>) {
    if all == [] then Ok(map[])
    else
      var m :- FoldNeighbors(all[..|all| - 1]);
      var n := all[|all| - 1];
      if ID(n) !in m then Ok(m[ID(n) := n])
      else
        var merged :- MergeNeighbors(m[ID(n)], n);
        Ok(m[ID(n) := merged])
  }

  function MergeNeighborLists(first: seq<Neighbor>, second: seq<Neighbor>): (r: Result<seq<Neighbor>>) {
    var m :- FoldNeighbors(first + second);
    Ok(SortByName(m))
  }

  // ---- EVPN

  function MergeRTs(a: seq<string>, b: seq<string>): (r: seq<string>) {
    if a == [] && b == [] then []
    else if a == [] then b
    else if b == [] then a
    else Union(a, b)
  }

  function MergeVniProps(a: VniProps, b: VniProps): (r: Result<VniProps>) {
    if a.rd != "" && b.rd != "" && a.rd != b.rd then Err
    else if (a.importRTs == []) != (b.importRTs == []) then Err
    else if (a.exportRTs == []) != (b.exportRTs == []) then Err
    else Ok(VniProps(if a.rd == "" then b.rd else a.rd,
                     MergeRTs(a.importRTs, b.importRTs), MergeRTs(a.exportRTs, b.exportRTs)))
  }

  function VniOf(v: L2Vni): (n: nat) { v.vni }

  function AddL2(m: map<nat, L2Vni>, vs: seq<L2Vni>): (r: Result<map<nat, L2Vni>>) {
    if vs == [] then Ok(m)
    else
      var before :- AddL2(m, vs[..|vs| - 1]);
      var v := vs[|vs| - 1];
      if v.vni !in before then Ok(before[v.vni := v])
      else
        var props :- MergeVniProps(before[v.vni].props, v.props);
        Ok(before[v.vni := L2Vni(before[v.vni].vni, props)])
  }

  function MergeL2(a: seq<L2Vni>, b: seq<L2Vni>): (r: Result<seq<L2Vni>>) {
    if a == [] && b == [] then Ok([])
    else if a == [] then Ok(b)
    else if b == [] then Ok(a)
    else
      var m :- AddL2(LastByKey(a, VniOf), b);
      Ok(SortByNumber(m))
  }

  function MergeL3(a: Option<L3Vni>, b: Option<L3Vni>): (r: Result<Option<L3Vni>>) {
    if a.None? then Ok(b)
    else if b.None? then Ok(a)
    else if a.value.vni != b.value.vni then Err
    else
      var props :- MergeVniProps(a.value.props, b.value.props);
      Ok(Some(L3Vni(a.value.vni, props, Union(a.value.advertisePrefixes, b.value.advertisePrefixes))))
  }

  function MergeEvpn(a: Option<Evpn>, b: Option<Evpn>): (r: Result<Option<Evpn>>) {
    if a.None? then Ok(b)
    else if b.None? then Ok(a)
    else if !PtrsEqual(a.value.advertiseVNIs, b.value.advertiseVNIs, VNIS_DISABLED) then Err
    else if a.value.advertiseSVI != b.value.advertiseSVI then Err
    else
      var l2 :- MergeL2(a.value.l2, b.value.l2);
      var l3 :- MergeL3(a.value.l3, b.value.l3);
      Ok(Some(Evpn(if a.value.advertiseVNIs.None? then b.value.advertiseVNIs else a.value.advertiseVNIs,
                   a.value.advertiseSVI, l2, l3)))
  }

  // ---- routers

  predicate RoutersCompatible(r: Router, t: Router) {
    && r.vrf == t.vrf
    && r.asn == t.asn
    && !(r.id != "" && t.id != "" && r.id != t.id)
  }

  /** `mergeRouterConfigs`, when the two routers share no neighbor object. */
  function MergeRouters(r: Router, t: Router): (res: Result<Router>) {
    if !RoutersCompatible(r, t) then Err
    else
      var neighbors :- MergeNeighborLists(r.neighbors, t.neighbors);
      var evpn :- MergeEvpn(r.evpn, t.evpn);
      Ok(Router(r.asn, if r.id == "" then t.id else r.id, neighbors, r.vrf,
                Union(r.v4, t.v4), Union(r.v6, t.v6), Union(r.importVRFs, t.importVRFs), evpn))
  }
}

/** The list merges of internal/controller/merge.go as the loops they are. */
module MergeLoops {
  import opened Ordering
  import opened Decimal
  import opened Configs
  import opened Merge

  /** `mergeLocalPrefPrefixLists` and `mergeCommunityPrefixLists` */
  method MergePrefixLists(curr: seq<PrefixList>, toMerge: seq<PrefixList>) returns (r: seq<PrefixList>)
    ensures r == MergeLists(curr, toMerge)
  {
    hide ListKey;
    var allMap: map<string, PrefixList> := map[];
    for i := 0 to |curr|
      invariant allMap == LastByKey(curr[..i], KeyOfList)
    {
      assert curr[..i + 1][..i] == curr[..i];
      allMap := allMap[KeyOfList(curr[i]) := curr[i]];
    }
    assert curr[..|curr|] == curr;
    for i := 0 to |toMerge|
      invariant allMap == AddLists(LastByKey(curr, KeyOfList), toMerge[..i])
    {
      assert toMerge[..i + 1][..i] == toMerge[..i];
      var k := KeyOfList(toMerge[i]);
      if k !in allMap {
        allMap := allMap[k := toMerge[i]];
      } else {
        var addTo := allMap[k];
        allMap := allMap[k := addTo.(prefixes := addTo.prefixes + toMerge[i].prefixes)];
      }
    }
    assert toMerge[..|toMerge|] == toMerge;
    r := SortByName(allMap);
  }

  function PrefOf(l: PrefixList): (p: u32) { if l.tag.LocalPref? then l.tag.pref else 0 }

  /** The preferences of the first side, prefix by prefix, in any order within a list. */
  method CollectPrefs(lists: seq<PrefixList>) returns (m: map<string, u32>)
    ensures m == PrefForPrefix(lists)
  {
    m := map[];
    for i := 0 to |lists|
      invariant m == PrefForPrefix(lists[..i])
    {
      assert lists[..i + 1][..i] == lists[..i];
      var l := lists[i];
      var rest := l.prefixes;
      ghost var before := m;
      while rest != {}
        invariant rest <= l.prefixes
        invariant m == before + (map p | p in l.prefixes - rest :: PrefOf(l))
        decreases rest
      {
        var p :| p in rest;
        m := m[p := PrefOf(l)];
        rest := rest - {p};
      }
      assert l.prefixes - {} == l.prefixes;
    }
    assert lists[..|lists|] == lists;
  }

  /** The check of `mergeAllowedOut` that no prefix gets two local preferences. */
  method CheckPrefs(m: map<string, u32>, lists: seq<PrefixList>) returns (ok: bool)
    ensures ok == PrefsAgree(m, lists)
  {
    for i := 0 to |lists|
      invariant PrefsAgree(m, lists[..i])
    {
      var l := lists[i];
      var rest := l.prefixes;
      while rest != {}
        invariant rest <= l.prefixes
        invariant forall p | p in l.prefixes - rest && p in m && l.tag.LocalPref? :: m[p] == l.tag.pref
        decreases rest
      {
        var p :| p in rest;
        if p in m && l.tag.LocalPref? && m[p] != l.tag.pref {
          assert l in lists && p in l.prefixes;
          return false;
        }
        rest := rest - {p};
      }
      assert lists[..i + 1] == lists[..i] + [l];
    }
    assert lists[..|lists|] == lists;
    return true;
  }

  method MergeOutgoing(r: AllowedOut, t: AllowedOut) returns (res: Result<AllowedOut>)
    ensures res == MergeAllowedOut(r, t)
  {
    hide PrefsAgree, PrefForPrefix, MergeLists;
    var nh4 := MergeNextHop(r.nextHopV4, t.nextHopV4);
    if nh4.Err? { return Err; }
    var nh6 := MergeNextHop(r.nextHopV6, t.nextHopV6);
    if nh6.Err? { return Err; }
    var prefs := CollectPrefs(r.localPrefs);
    var agree := CheckPrefs(prefs, t.localPrefs);
    if !agree { return Err; }
    var communities := MergePrefixLists(r.communities, t.communities);
    var localPrefs := MergePrefixLists(r.localPrefs, t.localPrefs);
    return Ok(AllowedOut(Union(r.v4, t.v4), Union(r.v6, t.v6), nh4.value, nh6.value, localPrefs, communities));
  }

  /** `mergeIncomingFilters` */
  method MergeIncomingFilters(curr: seq<Filter>, toMerge: seq<Filter>) returns (r: seq<Filter>)
    ensures r == MergeFilters(curr, toMerge)
  {
    hide FilterKey;
    var all := curr + toMerge;
    var mergedIn: map<string, Filter> := map[];
    for i := 0 to |all|
      invariant mergedIn == LastByKey(all[..i], FilterKey)
    {
      assert all[..i + 1][..i] == all[..i];
      mergedIn := mergedIn[FilterKey(all[i]) := all[i]];
    }
    assert all[..|all|] == all;
    r := SortByName(mergedIn);
  }

  method MergeIncoming(r: AllowedIn, t: AllowedIn) returns (res: AllowedIn)
    ensures res == MergeAllowedIn(r, t)
  {
    if r.all || t.all { return AllowedIn(true, [], []); }
    var v4 := MergeIncomingFilters(r.v4, t.v4);
    var v6 := MergeIncomingFilters(r.v6, t.v6);
    return AllowedIn(false, v4, v6);
  }

  /** `mergeL2VNIs` */
  method MergeL2VNIs(a: seq<L2Vni>, b: seq<L2Vni>) returns (r: Result<seq<L2Vni>>)
    ensures r == MergeL2(a, b)
  {
    hide MergeVniProps;
    if a == [] && b == [] { return Ok([]); }
    if a == [] { return Ok(b); }
    if b == [] { return Ok(a); }
    var byVNI: map<nat, L2Vni> := map[];
    for i := 0 to |a|
      invariant byVNI == LastByKey(a[..i], VniOf)
    {
      assert a[..i + 1][..i] == a[..i];
      byVNI := byVNI[a[i].vni := a[i]];
    }
    assert a[..|a|] == a;
    for i := 0 to |b|
      invariant AddL2(LastByKey(a, VniOf), b[..i]) == Ok(byVNI)
    {
      assert b[..i + 1][..i] == b[..i];
      var v := b[i];
      if v.vni !in byVNI {
        byVNI := byVNI[v.vni := v];
      } else {
        var props := MergeVniProps(byVNI[v.vni].props, v.props);
        if props.Err? {
          AddL2Fails(LastByKey(a, VniOf), b, i + 1);
          return Err;
        }
        byVNI := byVNI[v.vni := L2Vni(byVNI[v.vni].vni, props.value)];
      }
    }
    assert b[..|b|] == b;
    return Ok(SortByNumber(byVNI));
  }

  /** `mergeEVPNConfigs` and `mergeL3VNIs` */
  method MergeEvpnConfigs(a: Option<Evpn>, b: Option<Evpn>) returns (r: Result<Option<Evpn>>)
    ensures r == MergeEvpn(a, b)
  {
    hide MergeL2, MergeVniProps, Union;
    if a.None? { return Ok(b); }
    if b.None? { return Ok(a); }
    if !PtrsEqual(a.value.advertiseVNIs, b.value.advertiseVNIs, VNIS_DISABLED) { return Err; }
    if a.value.advertiseSVI != b.value.advertiseSVI { return Err; }
    var l2 := MergeL2VNIs(a.value.l2, b.value.l2);
    if l2.Err? { return Err; }
    var l3 := MergeL3(a.value.l3, b.value.l3);
    if l3.Err? { return Err; }
    var advertiseVNIs := if a.value.advertiseVNIs.None? then b.value.advertiseVNIs else a.value.advertiseVNIs;
    return Ok(Some(Evpn(advertiseVNIs, a.value.advertiseSVI, l2.value, l3.value)));
  }

  lemma {:induction false} AddL2Fails(m: map<nat, L2Vni>, vs: seq<L2Vni>, i: nat)
    requires i <= |vs| && AddL2(m, vs[..i]).Err?
    ensures AddL2(m, vs).Err?
    decreases |vs| - i
  {
    hide MergeVniProps;
    if i == |vs| {
      assert vs[..i] == vs;
    } else {
      assert vs[..i + 1][..i] == vs[..i];
      AddL2Fails(m, vs, i + 1);
    }
  }
}

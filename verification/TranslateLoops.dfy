/** The validation and translation loops of internal/controller/api_to_config.go. */
module TranslateLoops {
  import opened Ordering
  import opened Decimal
  import opened Configs
  import opened Api
  import opened Translate

  // ---- tagged prefixes

  /** The inner loop: every prefix must be advertised, and listed once. */
  method CollectPrefixes(ps: seq<string>, advertised: set<string>) returns (r: Result<set<string>>)
    ensures r.Ok? <==> (forall p | p in ps :: p in advertised) && NoDuplicates(ps)
    ensures r.Ok? ==> r.value == set p | p in ps
  {
    var found: set<string> := {};
    for i := 0 to |ps|
      invariant found == set p | p in ps[..i]
      invariant forall p | p in ps[..i] :: p in advertised
      invariant NoDuplicates(ps[..i])
    {
      if ps[i] !in advertised { return Err; }
      if ps[i] in found {
        var j :| 0 <= j < i && ps[..i][j] == ps[i];
        assert ps[j] == ps[i];
        return Err;
      }
      found := found + {ps[i]};
      assert ps[..i + 1] == ps[..i] + [ps[i]];
    }
    assert ps[..|ps|] == ps;
    return Ok(found);
  }

  /** `prefixesWithLocalPrefToFRR` and `prefixesWithCommunityToFRR` */
  method BuildTagLists(net: Net, id: string, f: Family, advertised: set<string>,
                       toAdd: map<string, PrefixList>, es: seq<TagEntry>) returns (r: Result<map<string, PrefixList>>)
    ensures r == BuildLists(net, id, f, advertised, toAdd, es)
  {
    hide ListKey, ListName, FilterPrefixes;
    var m := toAdd;
    for i := 0 to |es|
      invariant BuildLists(net, id, f, advertised, toAdd, es[..i]) == Ok(m)
    {
      assert es[..i + 1][..i] == es[..i];
      var family := FrrFamily(f);
      var key := ListKey(es[i].tag, family);
      if key in m {
        BuildListsFails(net, id, f, advertised, toAdd, es, i + 1);
        return Err;
      }
      var ps := FilterPrefixes(net, es[i].prefixes, f);
      if |ps| == 0 { continue; }
      var prefixes := CollectPrefixes(ps, advertised);
      if prefixes.Err? {
        BuildListsFails(net, id, f, advertised, toAdd, es, i + 1);
        return Err;
      }
      m := m[key := PrefixList(ListName(id, es[i].tag, family), family, prefixes.value, es[i].tag)];
    }
    assert es[..|es|] == es;
    return Ok(m);
  }

  lemma {:induction false} BuildListsFails(net: Net, id: string, f: Family, advertised: set<string>,
                                           toAdd: map<string, PrefixList>, es: seq<TagEntry>, i: nat)
    requires i <= |es| && BuildLists(net, id, f, advertised, toAdd, es[..i]).Err?
    ensures BuildLists(net, id, f, advertised, toAdd, es).Err?
    decreases |es| - i
  {
    hide AddEntry;
    if i == |es| {
      assert es[..i] == es;
    } else {
      assert es[..i + 1][..i] == es[..i];
      BuildListsFails(net, id, f, advertised, toAdd, es, i + 1);
    }
  }

  /** `toAdvertiseToFRR`: preferences and communities are built side by side, family by family. */
  method ToAdvertise(net: Net, id: string, family: Family, a: Advertise, inRouter: seq<string>)
    returns (r: Result<AllowedOut>)
    ensures r == Outgoing(net, id, family, a, inRouter)
  {
    hide NextHops, BuildLists, PrefixesToAdvertise, PrefEntries, CommunityEntries, SortByName, SortStrings;
    var v4 := PrefixesToAdvertise(net, a, inRouter, IPv4);
    var v6 := PrefixesToAdvertise(net, a, inRouter, IPv6);
    var hops := NextHops(net, family, a);
    if hops.Err? { return Err; }
    var prefEntries := PrefEntries(a.withLocalPref);
    var communityEntries := CommunityEntries(a.withCommunity);
    if communityEntries.Err? { return Err; }
    var families := if family == DualStack then [IPv4, IPv6] else [family];
    var prefs: map<string, PrefixList> := map[];
    var communities: map<string, PrefixList> := map[];
    for i := 0 to |families|
      invariant ForFamilies(net, id, families[..i], v4, v6, prefEntries) == Ok(prefs)
      invariant ForFamilies(net, id, families[..i], v4, v6, communityEntries.value) == Ok(communities)
    {
      assert families[..i + 1][..i] == families[..i];
      var advertised := Advertised(families[i], v4, v6);
      var p := BuildTagLists(net, id, families[i], advertised, prefs, prefEntries);
      if p.Err? {
        FamiliesFail(net, id, family, a, inRouter, families, prefEntries, i + 1);
        return Err;
      }
      prefs := p.value;
      var c := BuildTagLists(net, id, families[i], advertised, communities, communityEntries.value);
      if c.Err? {
        FamiliesFail(net, id, family, a, inRouter, families, communityEntries.value, i + 1);
        return Err;
      }
      communities := c.value;
    }
    assert families[..|families|] == families;
    FamiliesListed(net, id, family, a, inRouter, prefEntries);
    FamiliesListed(net, id, family, a, inRouter, communityEntries.value);
    return Ok(AllowedOut(
      if HasFamily(family, IPv4) then SortStrings(v4) else [],
      if HasFamily(family, IPv6) then SortStrings(v6) else [],
      hops.value.0, hops.value.1, SortByName(prefs), SortByName(communities)));
  }

  function Advertised(f: Family, v4: set<string>, v6: set<string>): (r: set<string>) {
    if f == IPv4 then v4 else if f == IPv6 then v6 else {}
  }

  ghost function ForFamilies(net: Net, id: string, families: seq<Family>, v4: set<string>, v6: set<string>,
                             es: seq<TagEntry>)
    : (r: Result<map<string, PrefixList>>)
  {
    if families == [] then Ok(map[])
    else
      var m :- ForFamilies(net, id, families[..|families| - 1], v4, v6, es);
      var f := families[|families| - 1];
      BuildLists(net, id, f, Advertised(f, v4, v6), m, es)
  }

  /** The families one after the other give the lists of the neighbor. */
  lemma FamiliesListed(net: Net, id: string, family: Family, a: Advertise, inRouter: seq<string>, es: seq<TagEntry>)
    ensures var v4, v6 := PrefixesToAdvertise(net, a, inRouter, IPv4), PrefixesToAdvertise(net, a, inRouter, IPv6);
            var m := ForFamilies(net, id, if family == DualStack then [IPv4, IPv6] else [family], v4, v6, es);
            TagLists(net, id, family, a, inRouter, es) == if m.Ok? then Ok(SortByName(m.value)) else Err
  {
    hide BuildLists, PrefixesToAdvertise, SortByName;
    var v4, v6 := PrefixesToAdvertise(net, a, inRouter, IPv4), PrefixesToAdvertise(net, a, inRouter, IPv6);
    assert [IPv4, IPv6][..1] == [IPv4] && [IPv4][..0] == [] && [family][..0] == [];
    assert ForFamilies(net, id, [IPv4], v4, v6, es) == BuildLists(net, id, IPv4, v4, map[], es);
  }

  lemma {:induction false} FamiliesFail(net: Net, id: string, family: Family, a: Advertise, inRouter: seq<string>,
                                        families: seq<Family>, es: seq<TagEntry>, i: nat)
    requires families == if family == DualStack then [IPv4, IPv6] else [family]
    requires i <= |families|
    requires ForFamilies(net, id, families[..i], PrefixesToAdvertise(net, a, inRouter, IPv4),
                         PrefixesToAdvertise(net, a, inRouter, IPv6), es).Err?
    ensures TagLists(net, id, family, a, inRouter, es).Err?
    decreases |families| - i
  {
    hide BuildLists, PrefixesToAdvertise, SortByName, TagLists;
    if i == |families| {
      assert families[..i] == families;
      FamiliesListed(net, id, family, a, inRouter, es);
    } else {
      assert families[..i + 1][..i] == families[..i];
      FamiliesFail(net, id, family, a, inRouter, families, es, i + 1);
    }
  }

  // ---- incoming filters

  /** The loop of `toReceiveToFRR`. */
  method ToReceive(net: Net, r: Receive) returns (res: Result<AllowedIn>)
    ensures res == Incoming(net, r)
  {
    hide FilterForSelector, SortFilters;
    if r.mode == ALLOW_ALL { return Ok(AllowedIn(true, [], [])); }
    var v4: seq<Filter> := [];
    var v6: seq<Filter> := [];
    ghost var fs: seq<Filter> := [];
    for i := 0 to |r.prefixes|
      invariant SelectorFilters(net, r.prefixes[..i]) == Ok(fs)
      invariant v4 == OfFamily(fs, true) && v6 == OfFamily(fs, false)
    {
      assert r.prefixes[..i + 1][..i] == r.prefixes[..i];
      var filter := FilterForSelector(net, r.prefixes[i]);
      if filter.Err? {
        SelectorsFail(net, r.prefixes, i + 1);
        return Err;
      }
      assert (fs + [filter.value])[..|fs|] == fs;
      fs := fs + [filter.value];
      if filter.value.ipFamily == IPv4 {
        v4 := v4 + [filter.value];
        continue;
      }
      v6 := v6 + [filter.value];
    }
    assert r.prefixes[..|r.prefixes|] == r.prefixes;
    return Ok(AllowedIn(false, SortFilters(v4), SortFilters(v6)));
  }

  lemma {:induction false} SelectorsFail(net: Net, ss: seq<Selector>, i: nat)
    requires i <= |ss| && SelectorFilters(net, ss[..i]).Err?
    ensures SelectorFilters(net, ss).Err?
    decreases |ss| - i
  {
    hide FilterForSelector;
    if i == |ss| {
      assert ss[..i] == ss;
    } else {
      assert ss[..i + 1][..i] == ss[..i];
      SelectorsFail(net, ss, i + 1);
    }
  }

  // ---- prefixes of a router

  /** `prefixesForVRFs` */
  method CollectForVRFs(rs: seq<ApiRouter>) returns (m: map<string, seq<string>>)
    ensures m == PrefixesForVRFs(rs)
  {
    m := map[];
    for i := 0 to |rs|
      invariant m == PrefixesForVRFs(rs[..i])
    {
      assert rs[..i + 1][..i] == rs[..i];
      m := m[rs[i].vrf := rs[i].prefixes];
    }
    assert rs[..|rs|] == rs;
  }

  /** `importedPrefixes` */
  method CollectImported(imports: seq<string>, byVRF: map<string, seq<string>>) returns (r: Result<seq<string>>)
    ensures r == ImportedPrefixes(imports, byVRF)
  {
    var res: seq<string> := [];
    for i := 0 to |imports|
      invariant ImportedPrefixes(imports[..i], byVRF) == Ok(res)
    {
      assert imports[..i + 1][..i] == imports[..i];
      var vrf := imports[i];
      if vrf == DEFAULT_VRF { vrf := ""; }
      if vrf !in byVRF {
        ImportsFail(imports, byVRF, i + 1);
        return Err;
      }
      res := res + byVRF[vrf];
    }
    assert imports[..|imports|] == imports;
    return Ok(res);
  }

  lemma {:induction false} ImportsFail(imports: seq<string>, byVRF: map<string, seq<string>>, i: nat)
    requires i <= |imports| && ImportedPrefixes(imports[..i], byVRF).Err?
    ensures ImportedPrefixes(imports, byVRF).Err?
    decreases |imports| - i
  {
    if i == |imports| {
      assert imports[..i] == imports;
    } else {
      assert imports[..i + 1][..i] == imports[..i];
      ImportsFail(imports, byVRF, i + 1);
    }
  }

  // ---- validateOutgoingPrefixes

  /** `validatePrefixesForNeighborFamily` */
  method CheckPrefixesFit(net: Net, ps: seq<string>, f: Family) returns (ok: bool)
    ensures ok == PrefixesFit(net, ps, f)
  {
    for i := 0 to |ps|
      invariant PrefixesFit(net, ps[..i], f)
    {
      if CidrFamily(net, ps[i]) == Unknown || !MatchesPrefix(net, f, ps[i]) {
        assert ps[i] in ps;
        return false;
      }
      assert ps[..i + 1] == ps[..i] + [ps[i]];
    }
    assert ps[..|ps|] == ps;
    return true;
  }

  /** The preference last recorded for every prefix is the preference of every entry that lists it. */
  ghost predicate Recorded(m: map<string, u32>, es: seq<LocalPrefPrefixes>) {
    && (forall e | e in es :: forall p | p in e.prefixes :: p in m && m[p] == e.localPref)
    && (forall p | p in m :: exists e :: e in es && p in e.prefixes)
  }

  lemma RecordedAgree(m: map<string, u32>, es: seq<LocalPrefPrefixes>)
    requires Recorded(m, es)
    ensures OnePreference(es)
  {}

  method RecordEntry(m: map<string, u32>, ghost es: seq<LocalPrefPrefixes>, e: LocalPrefPrefixes)
    returns (r: Result<map<string, u32>>)
    requires Recorded(m, es)
    ensures r.Ok? ==> Recorded(r.value, es + [e])
    ensures r.Err? ==> !OnePreference(es + [e])
  {
    var now := m;
    for i := 0 to |e.prefixes|
      invariant m.Keys <= now.Keys && forall p | p in m :: now[p] == m[p]
      invariant forall p | p in e.prefixes[..i] :: p in now && now[p] == e.localPref
      invariant forall p | p in now :: p in m || p in e.prefixes[..i]
    {
      var p := e.prefixes[i];
      if p in now && now[p] != e.localPref {
        assert p in m;
        ghost var g :| g in es && p in g.prefixes;
        assert g in es + [e] && e in es + [e];
        assert g.localPref == m[p];
        return Err;
      }
      now := now[p := e.localPref];
      assert e.prefixes[..i + 1] == e.prefixes[..i] + [p];
    }
    assert e.prefixes[..|e.prefixes|] == e.prefixes;
    assert forall g | g in es + [e] :: g in es || g == e;
    assert e in es + [e];
    assert forall g | g in es :: g in es + [e];
    return Ok(now);
  }

  /** The loop over the entries with a local preference. */
  method CheckOnePreference(net: Net, es: seq<LocalPrefPrefixes>, f: Family) returns (ok: bool)
    ensures ok <==> (forall e | e in es :: PrefixesFit(net, e.prefixes, f)) && OnePreference(es)
  {
    hide PrefixesFit;
    var localPrefForPrefix: map<string, u32> := map[];
    for i := 0 to |es|
      invariant forall e | e in es[..i] :: PrefixesFit(net, e.prefixes, f)
      invariant Recorded(localPrefForPrefix, es[..i])
    {
      assert es[..i + 1] == es[..i] + [es[i]];
      var fit := CheckPrefixesFit(net, es[i].prefixes, f);
      if !fit { assert es[i] in es; return false; }
      var recorded := RecordEntry(localPrefForPrefix, es[..i], es[i]);
      if recorded.Err? {
        assert forall e | e in es[..i + 1] :: e in es;
        return false;
      }
      localPrefForPrefix := recorded.value;
    }
    assert es[..|es|] == es;
    RecordedAgree(localPrefForPrefix, es);
    return true;
  }

  method CheckCommunities(net: Net, es: seq<CommunityPrefixes>, f: Family) returns (ok: bool)
    ensures ok <==> forall e | e in es :: PrefixesFit(net, e.prefixes, f)
  {
    hide PrefixesFit;
    for i := 0 to |es|
      invariant forall e | e in es[..i] :: PrefixesFit(net, e.prefixes, f)
    {
      var fit := CheckPrefixesFit(net, es[i].prefixes, f);
      if !fit { assert es[i] in es; return false; }
      assert es[..i + 1] == es[..i] + [es[i]];
    }
    assert es[..|es|] == es;
    return true;
  }

  method CheckAllIn(ps: seq<string>, inRouter: set<string>) returns (ok: bool)
    ensures ok <==> forall p | p in ps :: p in inRouter
  {
    for i := 0 to |ps|
      invariant forall p | p in ps[..i] :: p in inRouter
    {
      if ps[i] !in inRouter { return false; }
      assert ps[..i + 1] == ps[..i] + [ps[i]];
    }
    assert ps[..|ps|] == ps;
    return true;
  }

  /** `validateOutgoingPrefixes` */
  method ValidateOutgoingPrefixes(net: Net, inRouter: seq<string>, r: ApiRouter) returns (ok: bool)
    ensures ok == ValidOutgoing(net, inRouter, r)
  {
    hide PrefixesFit, OnePreference, NeighborFamily;
    var prefixesSet := set p | p in inRouter;
    var ns := r.neighbors;
    for i := 0 to |ns|
      invariant forall n | n in ns[..i] :: OutgoingOk(net, inRouter, n)
    {
      var n := ns[i];
      assert n in ns;
      assert ns[..i + 1] == ns[..i] + [n];
      var family := NeighborFamily(net, n);
      if family.Err? { return false; }
      ok := CheckOnePreference(net, n.toAdvertise.withLocalPref, family.value);
      if !ok { return; }
      ok := CheckCommunities(net, n.toAdvertise.withCommunity, family.value);
      if !ok { return; }
      if n.toAdvertise.mode == ALLOW_ALL { continue; }
      ok := CheckPrefixesFit(net, n.toAdvertise.prefixes, family.value);
      if !ok { return; }
      ok := CheckAllIn(n.toAdvertise.prefixes, prefixesSet);
      if !ok { return; }
    }
    assert ns[..|ns|] == ns;
    return true;
  }
}

/** What the translation of one router guarantees before anything is merged. */
module TranslateFacts {
  import opened Ordering
  import opened Decimal
  import opened Configs
  import opened Facts
  import opened MergeFacts
  import opened RouterFacts
  import opened Api
  import opened Translate

  function FamilyOf(v6: bool): (f: Family) { if v6 then IPv6 else IPv4 }

  // ---- the tag builders

  /** `l` was built from one of the entries, out of advertised prefixes only. */
  ghost predicate BuiltFrom(l: PrefixList, es: seq<TagEntry>, id: string, f: Family, advertised: set<string>) {
    && l.ipFamily == FrrFamily(f) && l.name == ListName(id, l.tag, l.ipFamily) && l.prefixes != {}
    && l.prefixes <= advertised
    && exists e :: e in es && e.tag == l.tag && forall p | p in l.prefixes :: p in e.prefixes
  }

  ghost predicate BuiltMap(m: map<string, PrefixList>, toAdd: map<string, PrefixList>, es: seq<TagEntry>,
                           id: string, f: Family, advertised: set<string>) {
    && (forall k | k in toAdd :: k in m && m[k] == toAdd[k])
    && (forall k | k in m && k !in toAdd :: KeyOfList(m[k]) == k && BuiltFrom(m[k], es, id, f, advertised))
  }

  lemma BuiltFromMore(l: PrefixList, es: seq<TagEntry>, e: TagEntry, id: string, f: Family, advertised: set<string>)
    requires BuiltFrom(l, es, id, f, advertised)
    ensures BuiltFrom(l, es + [e], id, f, advertised)
  {
    hide ListName, FrrFamily;
    var g :| g in es && g.tag == l.tag && forall p | p in l.prefixes :: p in g.prefixes;
    assert g in es + [e];
  }

  lemma AddEntryFacts(net: Net, id: string, f: Family, advertised: set<string>, m: map<string, PrefixList>,
                      es: seq<TagEntry>, e: TagEntry)
    requires AddEntry(net, id, f, advertised, m, e).Ok?
    ensures var r := AddEntry(net, id, f, advertised, m, e).value;
            && (forall k | k in m :: k in r && r[k] == m[k])
            && (forall k | k in r && k !in m :: KeyOfList(r[k]) == k && BuiltFrom(r[k], es + [e], id, f, advertised))
  {
    hide ListKey, ListName, FrrFamily, NoDuplicates;
    var ps := FilterPrefixes(net, e.prefixes, f);
    assert e in es + [e];
    if ps != [] {
      var l := PrefixList(ListName(id, e.tag, FrrFamily(f)), FrrFamily(f), (set p | p in ps), e.tag);
      assert ps[0] in l.prefixes;
      assert BuiltFrom(l, es + [e], id, f, advertised);
    }
  }

  lemma {:induction false} BuildListsFacts(net: Net, id: string, f: Family, advertised: set<string>,
                                           toAdd: map<string, PrefixList>, es: seq<TagEntry>)
    requires BuildLists(net, id, f, advertised, toAdd, es).Ok?
    ensures BuiltMap(BuildLists(net, id, f, advertised, toAdd, es).value, toAdd, es, id, f, advertised)
  {
    hide KeyOfList, AddEntry, BuiltFrom;
    if es != [] {
      var before, e := es[..|es| - 1], es[|es| - 1];
      assert es == before + [e];
      BuildListsFacts(net, id, f, advertised, toAdd, before);
      var m0 := BuildLists(net, id, f, advertised, toAdd, before).value;
      AddEntryFacts(net, id, f, advertised, m0, before, e);
      forall k | k in m0 && k !in toAdd ensures BuiltFrom(m0[k], es, id, f, advertised) {
        BuiltFromMore(m0[k], before, e, id, f, advertised);
      }
    }
  }

  /** A rendered list belongs to a family of the neighbor and holds only what is advertised there. */
  ghost predicate GoodList(l: PrefixList, es: seq<TagEntry>, id: string, family: Family, v4: set<string>,
                           v6: set<string>) {
    || (HasFamily(family, IPv4) && BuiltFrom(l, es, id, IPv4, v4))
    || (HasFamily(family, IPv6) && BuiltFrom(l, es, id, IPv6, v6))
  }

  lemma TagListsFacts(net: Net, id: string, family: Family, a: Advertise, inRouter: seq<string>, es: seq<TagEntry>,
                      prefs: bool)
    requires family != Unknown
    requires forall e | e in es :: e.tag.LocalPref? == prefs
    requires TagLists(net, id, family, a, inRouter, es).Ok?
    ensures var ls := TagLists(net, id, family, a, inRouter, es).value;
            && ListsOk(ls, id, prefs)
            && forall l | l in ls ::
                 GoodList(l, es, id, family, PrefixesToAdvertise(net, a, inRouter, IPv4),
                          PrefixesToAdvertise(net, a, inRouter, IPv6))
  {
    hide ListKey, ListName, BuildLists, BuiltFrom, PrefixesToAdvertise;
    var v4, v6 := PrefixesToAdvertise(net, a, inRouter, IPv4), PrefixesToAdvertise(net, a, inRouter, IPv6);
    if family == DualStack {
      BuildListsFacts(net, id, IPv4, v4, map[], es);
      var m := BuildLists(net, id, IPv4, v4, map[], es).value;
      BuildListsFacts(net, id, IPv6, v6, m, es);
      var m6 := BuildLists(net, id, IPv6, v6, m, es).value;
      RenderGood(m6, es, id, family, v4, v6, prefs);
    } else {
      var advertised := if family == IPv4 then v4 else v6;
      BuildListsFacts(net, id, family, advertised, map[], es);
      RenderGood(BuildLists(net, id, family, advertised, map[], es).value, es, id, family, v4, v6, prefs);
    }
  }

  lemma RenderGood(m: map<string, PrefixList>, es: seq<TagEntry>, id: string, family: Family, v4: set<string>,
                   v6: set<string>, prefs: bool)
    requires forall e | e in es :: e.tag.LocalPref? == prefs
    requires forall k | k in m :: KeyOfList(m[k]) == k && GoodList(m[k], es, id, family, v4, v6)
    ensures ListsOk(SortByName(m), id, prefs)
    ensures forall l | l in SortByName(m) :: GoodList(l, es, id, family, v4, v6)
  {
    hide ListKey, ListName;
    var ls := SortByName(m);
    SortByNameSorted(m, KeyOfList);
    forall l | l in ls ensures GoodList(l, es, id, family, v4, v6) && ListOk(l, id, prefs) {
      var k :| k in m && m[k] == l;
    }
  }

  // ---- outgoing

  ghost predicate GoodLists(ls: seq<PrefixList>, o: AllowedOut, family: Family) {
    forall l | l in ls ::
      || (l.ipFamily == "ip" && HasFamily(family, IPv4) && forall p | p in l.prefixes :: p in o.v4)
      || (l.ipFamily == "ipv6" && HasFamily(family, IPv6) && forall p | p in l.prefixes :: p in o.v6)
  }

  ghost predicate SoundOut(net: Net, o: AllowedOut, family: Family, inRouter: seq<string>) {
    && (forall p | p in o.v4 :: p in inRouter && CidrFamily(net, p) == IPv4 && HasFamily(family, IPv4))
    && (forall p | p in o.v6 :: p in inRouter && CidrFamily(net, p) == IPv6 && HasFamily(family, IPv6))
    && (o.nextHopV4 != "" ==> HasFamily(family, IPv4))
    && (o.nextHopV6 != "" ==> HasFamily(family, IPv6))
    && GoodLists(o.localPrefs, o, family) && GoodLists(o.communities, o, family)
  }

  lemma ToAdvertiseFits(net: Net, a: Advertise, inRouter: seq<string>, f: Family)
    requires f == IPv4 || f == IPv6
    requires a.mode != ALLOW_ALL ==> forall p | p in a.prefixes :: p in inRouter
    ensures forall p | p in PrefixesToAdvertise(net, a, inRouter, f) :: p in inRouter && CidrFamily(net, p) == f
  {}

  lemma AreGood(ls: seq<PrefixList>, es: seq<TagEntry>, id: string, o: AllowedOut, family: Family, v4: set<string>,
                v6: set<string>)
    requires forall l | l in ls :: GoodList(l, es, id, family, v4, v6)
    requires HasFamily(family, IPv4) ==> forall p | p in v4 :: p in o.v4
    requires HasFamily(family, IPv6) ==> forall p | p in v6 :: p in o.v6
    ensures GoodLists(ls, o, family)
  {
    hide ListName;
  }

  lemma OnePreferenceHolds(ls: seq<PrefixList>, es: seq<LocalPrefPrefixes>, id: string, family: Family, v4: set<string>,
                           v6: set<string>)
    requires OnePreference(es)
    requires forall l | l in ls :: GoodList(l, PrefEntries(es), id, family, v4, v6)
    ensures SamePref(ls, ls)
  {
    hide ListName;
    forall f, g, x, y, p | TaggedIn(ls, f, LocalPref(x), p) && TaggedIn(ls, g, LocalPref(y), p) ensures x == y {
      PreferenceEntry(ls, es, id, family, v4, v6, f, x, p);
      PreferenceEntry(ls, es, id, family, v4, v6, g, y, p);
    }
  }

  lemma PreferenceEntry(ls: seq<PrefixList>, es: seq<LocalPrefPrefixes>, id: string, family: Family,
                        v4: set<string>, v6: set<string>, f: string, x: u32, p: string)
    requires forall l | l in ls :: GoodList(l, PrefEntries(es), id, family, v4, v6)
    requires TaggedIn(ls, f, LocalPref(x), p)
    ensures exists e :: e in es && e.localPref == x && p in e.prefixes
  {
    hide ListName;
    var l :| l in ls && l.ipFamily == f && l.tag == LocalPref(x) && p in l.prefixes;
    assert exists e :: e in PrefEntries(es) && e.tag == l.tag && forall p | p in l.prefixes :: p in e.prefixes;
    var t :| t in PrefEntries(es) && t.tag == l.tag && forall p | p in l.prefixes :: p in t.prefixes;
    var i :| 0 <= i < |es| && PrefEntries(es)[i] == t;
    assert es[i] in es;
  }

  lemma OutgoingFacts(net: Net, id: string, family: Family, a: Advertise, inRouter: seq<string>)
    requires family != Unknown && Outgoing(net, id, family, a, inRouter).Ok?
    requires OnePreference(a.withLocalPref)
    requires a.mode != ALLOW_ALL ==> forall p | p in a.prefixes :: p in inRouter
    ensures WfOut(Outgoing(net, id, family, a, inRouter).value, id)
    ensures SoundOut(net, Outgoing(net, id, family, a, inRouter).value, family, inRouter)
  {
    hide ListKey, ListName, TagLists, GoodList, GoodLists, PrefixesToAdvertise, SamePref, ListsOk, OnePreference;
    var o := Outgoing(net, id, family, a, inRouter).value;
    var v4, v6 := PrefixesToAdvertise(net, a, inRouter, IPv4), PrefixesToAdvertise(net, a, inRouter, IPv6);
    ToAdvertiseFits(net, a, inRouter, IPv4);
    ToAdvertiseFits(net, a, inRouter, IPv6);
    var pes, ces := PrefEntries(a.withLocalPref), CommunityEntries(a.withCommunity).value;
    TagListsFacts(net, id, family, a, inRouter, pes, true);
    TagListsFacts(net, id, family, a, inRouter, ces, false);
    AreGood(o.localPrefs, pes, id, o, family, v4, v6);
    AreGood(o.communities, ces, id, o, family, v4, v6);
    OnePreferenceHolds(o.localPrefs, a.withLocalPref, id, family, v4, v6);
  }

  // ---- neighbors

  /** The guarantees of a translated neighbor that survive every merge, as facts. */
  ghost predicate SoundNeighbor(net: Net, n: Neighbor, inRouter: seq<string>, profiles: set<string>) {
    && (forall v6, p | NeighborSays(n, Advertises(v6, p)) ::
          p in inRouter && CidrFamily(net, p) == FamilyOf(v6) && HasFamily(n.ipFamily, FamilyOf(v6)))
    && (forall f, t, p | NeighborSays(n, Tagged(f, t, p)) ::
          ListFamily(f) && NeighborSays(n, Advertises(f == "ipv6", p)))
    && (forall v6, h | NeighborSays(n, NextHop(v6, h)) :: HasFamily(n.ipFamily, FamilyOf(v6)))
    && (forall p | NeighborSays(n, UsesBfd(p)) :: p in profiles)
  }

  lemma SoundOutTagged(net: Net, o: AllowedOut, family: Family, inRouter: seq<string>, f: string, t: Tag, p: string)
    requires SoundOut(net, o, family, inRouter) && TaggedIn(Lists(o, t), f, t, p)
    ensures ListFamily(f) && p in (if f == "ipv6" then o.v6 else o.v4)
  {
    var l :| l in Lists(o, t) && l.ipFamily == f && l.tag == t && p in l.prefixes;
    assert GoodLists(Lists(o, t), o, family);
  }

  lemma TranslateNeighborFacts(env: Env, n: ApiNeighbor, inRouter: seq<string>, vrf: string, profiles: set<string>)
    requires TranslateNeighbor(env, n, inRouter, vrf, profiles).Ok? && OutgoingOk(env.net, inRouter, n)
    ensures var t := TranslateNeighbor(env, n, inRouter, vrf, profiles).value;
            WfNeighbor(t) && t.vrf == vrf && SoundNeighbor(env.net, t, inRouter, profiles)
  {
    hide Outgoing, Incoming, NeighborID, AsnFor, ParseTimers, PasswordFor, ListsOk, SamePref, SoundOut, GoodLists,
         TaggedIn;
    var t := TranslateNeighbor(env, n, inRouter, vrf, profiles).value;
    OutgoingFacts(env.net, NeighborID(n.address, n.iface, vrf), t.ipFamily, n.toAdvertise, inRouter);
    IncomingAll(env.net, n.toReceive);
    forall f, g, p | NeighborSays(t, Tagged(f, g, p))
      ensures ListFamily(f) && NeighborSays(t, Advertises(f == "ipv6", p))
    {
      SoundOutTagged(env.net, t.outgoing, t.ipFamily, inRouter, f, g, p);
    }
    SoundOutParts(env.net, t.outgoing, t.ipFamily, inRouter);
  }

  lemma SoundOutParts(net: Net, o: AllowedOut, family: Family, inRouter: seq<string>)
    requires SoundOut(net, o, family, inRouter)
    ensures forall p | p in o.v4 :: p in inRouter && CidrFamily(net, p) == IPv4 && HasFamily(family, IPv4)
    ensures forall p | p in o.v6 :: p in inRouter && CidrFamily(net, p) == IPv6 && HasFamily(family, IPv6)
    ensures o.nextHopV4 != "" ==> HasFamily(family, IPv4)
    ensures o.nextHopV6 != "" ==> HasFamily(family, IPv6)
  {}

  lemma IncomingAll(net: Net, r: Receive)
    requires Incoming(net, r).Ok?
    ensures Incoming(net, r).value.all ==> Incoming(net, r).value.v4 == [] && Incoming(net, r).value.v6 == []
  {}

  // ---- routers

  lemma {:induction false} TranslateNeighborsFacts(env: Env, ns: seq<ApiNeighbor>, r: ApiRouter, inRouter: seq<string>,
                                                   profiles: set<string>)
    requires TranslateNeighbors(env, ns, r, inRouter, profiles).Ok?
    requires forall n | n in ns :: OutgoingOk(env.net, inRouter, n)
    ensures forall t | t in TranslateNeighbors(env, ns, r, inRouter, profiles).value ::
              WfNeighbor(t) && t.vrf == r.vrf && SoundNeighbor(env.net, t, inRouter, profiles)
  {
    hide TranslateNeighbor, WfNeighbor, SoundNeighbor, OutgoingOk;
    if ns != [] {
      var before, n := ns[..|ns| - 1], ns[|ns| - 1];
      TranslateNeighborsFacts(env, before, r, inRouter, profiles);
      TranslateNeighborFacts(env, n, inRouter, r.vrf, profiles);
      var ts, rest := TranslateNeighbors(env, ns, r, inRouter, profiles).value,
          TranslateNeighbors(env, before, r, inRouter, profiles).value;
      assert ts == rest + [ts[|rest|]];
    }
  }

  /** The prefixes a router may advertise: its own and those of the VRFs it imports. */
  ghost predicate Reachable(p: string, r: ApiRouter, byVRF: map<string, seq<string>>) {
    p in r.prefixes || exists v :: v in r.imports && ImportedVRF(v) in byVRF && p in byVRF[ImportedVRF(v)]
  }

  lemma {:induction false} ImportedPrefixesFacts(imports: seq<string>, byVRF: map<string, seq<string>>)
    requires ImportedPrefixes(imports, byVRF).Ok?
    ensures forall p | p in ImportedPrefixes(imports, byVRF).value ::
              exists v :: v in imports && ImportedVRF(v) in byVRF && p in byVRF[ImportedVRF(v)]
  {
    if imports != [] {
      var before, v := imports[..|imports| - 1], imports[|imports| - 1];
      ImportedPrefixesFacts(before, byVRF);
      forall p | p in ImportedPrefixes(imports, byVRF).value
        ensures exists v :: v in imports && ImportedVRF(v) in byVRF && p in byVRF[ImportedVRF(v)] {
        if p in ImportedPrefixes(before, byVRF).value {
          var w :| w in before && ImportedVRF(w) in byVRF && p in byVRF[ImportedVRF(w)];
          assert w in imports;
        } else {
          assert v in imports;
        }
      }
    }
  }

  /** A translated neighbor advertises only what its router can reach. */
  ghost predicate SoundIn(net: Net, n: Neighbor, r: ApiRouter, byVRF: map<string, seq<string>>, profiles: set<string>) {
    exists inRouter :: ReachableAll(inRouter, r, byVRF) && SoundNeighbor(net, n, inRouter, profiles)
  }

  ghost predicate ReachableAll(ps: seq<string>, r: ApiRouter, byVRF: map<string, seq<string>>) {
    forall p | p in ps :: Reachable(p, r, byVRF)
  }

  ghost predicate SoundRouter(net: Net, t: Router, r: ApiRouter, byVRF: map<string, seq<string>>,
                              profiles: set<string>) {
    && t.vrf == r.vrf && t.importVRFs == r.imports && t.evpn == r.evpn
    && (forall v6, p :: RouterSays(t, Network(v6, p)) <==> p in r.prefixes && CidrFamily(net, p) == FamilyOf(v6))
    && (forall n | n in t.neighbors :: SoundIn(net, n, r, byVRF, profiles))
  }

  lemma RawRouterFacts(env: Env, r: ApiRouter, byVRF: map<string, seq<string>>, profiles: set<string>)
    requires RawRouter(env, r, byVRF, profiles).Ok?
    ensures WfRouter(RawRouter(env, r, byVRF, profiles).value)
    ensures SoundRouter(env.net, RawRouter(env, r, byVRF, profiles).value, r, byVRF, profiles)
  {
    hide WfNeighbor, SoundNeighbor, OutgoingOk, TranslateNeighbors, Reachable, CidrFamily;
    var t := RawRouter(env, r, byVRF, profiles).value;
    var all := r.prefixes + ImportedPrefixes(r.imports, byVRF).value;
    TranslateNeighborsFacts(env, r.neighbors, r, all, profiles);
    AllReachable(r, byVRF);
  }

  lemma AllReachable(r: ApiRouter, byVRF: map<string, seq<string>>)
    requires ImportedPrefixes(r.imports, byVRF).Ok?
    ensures ReachableAll(r.prefixes + ImportedPrefixes(r.imports, byVRF).value, r, byVRF)
  {
    ImportedPrefixesFacts(r.imports, byVRF);
  }
}

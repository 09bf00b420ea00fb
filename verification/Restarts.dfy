/**
 * Graceful restart is neither compared nor merged.  In the result it is that of the first description
 * of the neighbor, reading the configurations in order.
 */
module Restarts {
  import opened Ordering
  import opened Configs
  import opened Merge
  import opened Facts
  import opened NeighborFacts
  import opened RouterFacts
  import opened Api
  import opened Translate
  import opened Conversion
  import opened FoldFacts
  import opened ConvertFacts
  import opened Origins

  // ---- merged routers

  /** Everything the routers seen for a VRF describe, in reading order. */
  ghost function Described(seen: seq<Router>, vrf: string): (ns: seq<Neighbor>) {
    if seen == [] then []
    else
      var r := seen[|seen| - 1];
      Described(seen[..|seen| - 1], vrf) + (if r.vrf == vrf then r.neighbors else [])
  }

  lemma DescribedStep(seen: seq<Router>, r: Router, vrf: string)
    ensures Described(seen + [r], vrf) == Described(seen, vrf) + (if r.vrf == vrf then r.neighbors else [])
  {
    assert (seen + [r])[..|seen|] == seen;
  }

  lemma {:induction false} DescribedMember(seen: seq<Router>, vrf: string, n: Neighbor)
    ensures n in Described(seen, vrf) <==> exists r :: r in seen && r.vrf == vrf && n in r.neighbors
  {
    if seen != [] {
      var before, r := seen[..|seen| - 1], seen[|seen| - 1];
      assert seen == before + [r];
      DescribedMember(before, vrf, n);
      if t :| t in before && t.vrf == vrf && n in t.neighbors { assert t in seen; }
      assert r in seen;
    }
  }

  /** Each held neighbor takes after the first description of its ID. */
  ghost predicate FirstsHeld(m: map<string, Router>, seen: seq<Router>) {
    forall v, n | v in m && n in m[v].neighbors :: First(Described(seen, v), n)
  }

  lemma FirstOfDoubledList(ns: seq<Neighbor>, n: Neighbor)
    requires First(ns + ns, n)
    ensures First(ns, n)
  {
    hide ID, FirstWins;
    var d :| FirstListed(ns + ns, d) && FirstWins(n, d);
    var i :| 0 <= i < |ns + ns| && (ns + ns)[i] == d && forall j | 0 <= j < i :: ID((ns + ns)[j]) != ID(d);
    var k := IndexInFirst(ns, i);
    assert (ns + ns)[k] == d == ns[k];
    assert k == i;
    forall j | 0 <= j < k ensures ID(ns[j]) != ID(d) { assert ns[j] == (ns + ns)[j]; }
  }

  lemma FirstExtends(a: seq<Neighbor>, b: seq<Neighbor>, n: Neighbor)
    requires First(a, n)
    ensures First(a + b, n)
  {
    hide ID, FirstWins;
    var d :| FirstListed(a, d) && FirstWins(n, d);
    var i :| 0 <= i < |a| && a[i] == d && forall j | 0 <= j < i :: ID(a[j]) != ID(d);
    assert (a + b)[i] == d && forall j | 0 <= j < i :: (a + b)[j] == a[j];
    assert FirstListed(a + b, d);
  }

  lemma FirstAppended(a: seq<Neighbor>, b: seq<Neighbor>, n: Neighbor)
    requires First(b, n) && !HasID(a, ID(n))
    ensures First(a + b, n)
  {
    hide ID;
    var d :| FirstListed(b, d) && FirstWins(n, d);
    FirstWinsID(n, d);
    var i :| 0 <= i < |b| && b[i] == d && forall j | 0 <= j < i :: ID(b[j]) != ID(d);
    var k := |a| + i;
    assert (a + b)[k] == d;
    forall j | 0 <= j < k ensures ID((a + b)[j]) != ID(d) {
      if j < |a| { assert (a + b)[j] == a[j] && a[j] in a; } else { assert (a + b)[j] == b[j - |a|]; }
    }
    assert FirstListed(a + b, d);
  }

  lemma FirstWinsID(n: Neighbor, d: Neighbor)
    requires FirstWins(n, d)
    ensures ID(n) == ID(d)
  {}

  lemma FirstThrough(ns: seq<Neighbor>, n: Neighbor, d: Neighbor)
    requires FirstWins(n, d) && First(ns, d)
    ensures First(ns, n)
  {
    hide FirstListed;
    var e :| FirstListed(ns, e) && FirstWins(d, e);
  }

  /** Two lists one after the other, each in place of the descriptions it stands for. */
  lemma FirstJoined(a: seq<Neighbor>, b: seq<Neighbor>, x: seq<Neighbor>, y: seq<Neighbor>, n: Neighbor)
    requires First(a + b, n)
    requires (forall k | k in a :: First(x, k)) && (forall k | k in b :: First(y, k)) &&
             forall k | k in x :: HasID(a, ID(k))
    ensures First(x + y, n)
  {
    hide ID, FirstWins, First, HasID, FirstListed;
    var d := FirstOne(a + b, n);
    if d in a {
      FirstThrough(x, n, d);
      FirstExtends(x, y, n);
    } else {
      NotInFirst(a, b, d);
      assert d in b;
      FirstThrough(y, n, d);
      FirstWinsID(n, d);
      forall k | k in x ensures ID(k) != ID(n) { SomeID(a, ID(k), d); }
      NoneHasID(x, ID(n));
      FirstAppended(x, y, n);
    }
  }

  lemma FirstOne(ns: seq<Neighbor>, n: Neighbor) returns (d: Neighbor)
    requires First(ns, n)
    ensures FirstListed(ns, d) && FirstWins(n, d) && d in ns
  {
    hide FirstWins, ID;
    d :| FirstListed(ns, d) && FirstWins(n, d);
  }

  lemma NotInFirst(a: seq<Neighbor>, b: seq<Neighbor>, d: Neighbor)
    requires FirstListed(a + b, d) && d !in a
    ensures !HasID(a, ID(d)) && d in b
  {
    hide ID;
    var i :| 0 <= i < |a + b| && (a + b)[i] == d && forall j | 0 <= j < i :: ID((a + b)[j]) != ID(d);
    assert i >= |a|;
    forall k | k in a ensures ID(k) != ID(d) {
      var j :| 0 <= j < |a| && a[j] == k;
      assert (a + b)[j] == k;
    }
  }

  lemma SomeID(a: seq<Neighbor>, id: string, d: Neighbor)
    requires HasID(a, id) && !HasID(a, ID(d))
    ensures id != ID(d)
  {}

  lemma NoneHasID(x: seq<Neighbor>, id: string)
    requires forall k | k in x :: ID(k) != id
    ensures !HasID(x, id)
  {}

  /** Whatever was described for a VRF has its ID among the neighbors held. */
  lemma DescribedHeld(m: Router, seen: seq<Router>, vrf: string, k: Neighbor)
    requires RouterStands(m, seen, vrf) && k in Described(seen, vrf)
    ensures HasID(m.neighbors, ID(k))
  {
    hide ID, NormalRouter, FiltersStand, Described;
    DescribedMember(seen, vrf, k);
    var f := Peer(ID(k), HasSession(SessionOf(k)));
    assert NeighborSays(k, HasSession(SessionOf(k)));
    var r :| r in seen && r.vrf == vrf && k in r.neighbors;
    assert RouterSays(r, f);
    assert SeenSays(seen, vrf, f) && RouterSays(m, f);
  }

  lemma SelfFirsts(r: Router)
    requires WfRouter(r) && MergeRouters(r, r).Ok?
    ensures forall n | n in MergeRouters(r, r).value.neighbors :: First(r.neighbors, n)
  {
    hide MergeRouters, WfRouter, NormalRouter, First, RouterSays, ListsFilter, FiltersAgree;
    SelfMergeNormalises(r);
    forall n | n in MergeRouters(r, r).value.neighbors
      ensures First(r.neighbors, n)
    {
      FirstOfDoubledList(r.neighbors, n);
    }
  }

  lemma AddRouterFirsts(m: map<string, Router>, seen: seq<Router>, r: Router)
    requires RoutersInv(m, seen) && FirstsHeld(m, seen) && WfRouter(r) && AddRouter(m, r).Ok?
    ensures FirstsHeld(AddRouter(m, r).value, seen + [r])
  {
    hide MergeRouters, WfRouter, NormalRouter, First, RouterSays, Described, SeenVRF, FiltersStand, ListsFilter,
         FiltersAgree, HasID;
    var s, g, now := MergeRouters(r, r).value, AddRouter(m, r).value, seen + [r];
    SelfFirsts(r);
    SelfMergeNormalises(r);
    forall v, n | v in g && n in g[v].neighbors ensures First(Described(now, v), n) {
      DescribedStep(seen, r, v);
      if v != r.vrf {
        assert First(Described(seen, v), n) && Described(seen, v) + [] == Described(seen, v);
      } else if v in m {
        MergeRoutersFacts(m[v], s);
        forall k | k in Described(seen, v) ensures HasID(m[v].neighbors, ID(k)) { DescribedHeld(m[v], seen, v, k); }
        FirstJoined(m[v].neighbors, s.neighbors, Described(seen, v), r.neighbors, n);
      } else {
        NothingDescribed(m, seen, v);
        assert [] + r.neighbors == r.neighbors;
      }
    }
  }

  lemma NothingDescribed(m: map<string, Router>, seen: seq<Router>, v: string)
    requires RoutersInv(m, seen) && v !in m
    ensures Described(seen, v) == []
  {
    hide RouterStands, Described;
    NobodyOfVRF(seen, v);
    NoRouterDescribes(seen, v);
  }

  lemma {:induction false} NoRouterDescribes(seen: seq<Router>, v: string)
    requires forall t | t in seen :: t.vrf != v
    ensures Described(seen, v) == []
  {
    if seen != [] {
      assert seen == seen[..|seen| - 1] + [seen[|seen| - 1]];
      NoRouterDescribes(seen[..|seen| - 1], v);
    }
  }

  lemma {:induction false} AddRoutersFirsts(m: map<string, Router>, seen: seq<Router>, rs: seq<Router>)
    requires RoutersInv(m, seen) && ClashFree(seen) && FirstsHeld(m, seen) && (forall r | r in rs :: WfRouter(r)) &&
              AddRouters(m, rs).Ok?
    ensures FirstsHeld(AddRouters(m, rs).value, seen + rs)
  {
    hide RoutersInv, ClashFree, WfRouter, FitsIn, AddRouter, FirstsHeld;
    if rs == [] {
      assert seen + rs == seen;
    } else {
      var before, r := rs[..|rs| - 1], rs[|rs| - 1];
      assert seen + rs == (seen + before) + [r];
      AddRoutersFirsts(m, seen, before);
      AddRoutersFacts(m, seen, before);
      AddRouterFirsts(AddRouters(m, before).value, seen + before, r);
    }
  }

  lemma {:induction false} FoldFirsts(env: Env, cs: seq<ApiConfig>)
    requires Fold(env, cs).Ok?
    ensures FirstsHeld(Fold(env, cs).value.routers, TranslateAll(env, cs))
  {
    hide TranslateConfig, FirstsHeld, AddRouters, AddProfiles, RoutersInv, ProfilesInv, WfRouter, ClashFree,
         TranslateAll, AllProfiles, AllRaws, ProfilesAgree;
    if cs == [] {
      NoFirsts(env);
    } else {
      var before, c := cs[..|cs| - 1], cs[|cs| - 1];
      FoldFirsts(env, before);
      FoldUnderstood(env, before);
      var rs, st := TranslateConfig(env, c).value, Fold(env, before).value;
      forall r | r in rs ensures WfRouter(r) { TranslatedWf(env, c, r); }
      AddRoutersFirsts(st.routers, TranslateAll(env, before), rs);
      TranslateAllStep(env, cs);
    }
  }

  lemma NoFirsts(env: Env)
    ensures FirstsHeld(map[], TranslateAll(env, []))
  {}

  lemma TranslateAllStep(env: Env, cs: seq<ApiConfig>)
    requires cs != [] && TranslateConfig(env, cs[|cs| - 1]).Ok?
    ensures TranslateAll(env, cs) == TranslateAll(env, cs[..|cs| - 1]) + TranslateConfig(env, cs[|cs| - 1]).value
  {
    hide TranslateConfig;
  }

  // ---- the API objects

  /** Everything a list of routers describes for a VRF, in reading order. */
  function DescribedBy(rs: seq<ApiRouter>, vrf: string): (ns: seq<ApiNeighbor>) {
    if rs == [] then []
    else
      var r := rs[|rs| - 1];
      DescribedBy(rs[..|rs| - 1], vrf) + (if r.vrf == vrf then r.neighbors else [])
  }

  function Descriptions(cs: seq<ApiConfig>, vrf: string): (ns: seq<ApiNeighbor>) {
    if cs == [] then [] else Descriptions(cs[..|cs| - 1], vrf) + DescribedBy(cs[|cs| - 1].routers, vrf)
  }

  /** The first description of a neighbor. */
  function FirstFor(ns: seq<ApiNeighbor>, vrf: string, id: string): (r: Option<ApiNeighbor>)
    ensures r.Some? ==> r.value in ns && NeighborID(r.value.address, r.value.iface, vrf) == id
    ensures r.None? ==> forall n | n in ns :: NeighborID(n.address, n.iface, vrf) != id
  {
    if ns == [] then None
    else
      var n := ns[|ns| - 1];
      assert ns == ns[..|ns| - 1] + [n];
      var before := FirstFor(ns[..|ns| - 1], vrf, id);
      if before.Some? then before else if NeighborID(n.address, n.iface, vrf) == id then Some(n) else None
  }

  lemma AlignedConcat(env: Env, a: seq<Neighbor>, x: seq<ApiNeighbor>, b: seq<Neighbor>, y: seq<ApiNeighbor>,
                      vrf: string)
    requires Aligned(env, a, x, vrf) && Aligned(env, b, y, vrf)
    ensures Aligned(env, a + b, x + y, vrf)
  {}

  lemma {:induction false} RoutersAligned(env: Env, c: ApiConfig, rs: seq<ApiRouter>, vrf: string)
    requires RawRouters(env, c, rs).Ok?
    ensures Aligned(env, Described(RawRouters(env, c, rs).value, vrf), DescribedBy(rs, vrf), vrf)
  {
    hide RawRouter, Aligned, PrefixesForVRFs, ProfileNames;
    if rs == [] {
      assert Aligned(env, [], [], vrf) by { NoneAligned(env, vrf); }
    } else {
      var before, r := rs[..|rs| - 1], rs[|rs| - 1];
      RoutersAligned(env, c, before, vrf);
      RouterAligned(env, r, PrefixesForVRFs(c.routers), ProfileNames(c.bfdProfiles));
      var ts, t := RawRouters(env, c, before).value,
          RawRouter(env, r, PrefixesForVRFs(c.routers), ProfileNames(c.bfdProfiles)).value;
      DescribedStep(ts, t, vrf);
      NoneAligned(env, vrf);
      AlignedConcat(env, Described(ts, vrf), DescribedBy(before, vrf),
                    if r.vrf == vrf then t.neighbors else [], if r.vrf == vrf then r.neighbors else [], vrf);
    }
  }

  lemma NoneAligned(env: Env, vrf: string)
    ensures Aligned(env, [], [], vrf)
  {}

  lemma {:induction false} DescribedConcat(a: seq<Router>, b: seq<Router>, vrf: string)
    ensures Described(a + b, vrf) == Described(a, vrf) + Described(b, vrf)
  {
    if b == [] {
      assert a + b == a;
    } else {
      var c, r := b[..|b| - 1], b[|b| - 1];
      assert a + b == (a + c) + [r];
      DescribedConcat(a, c, vrf);
      DescribedStep(a + c, r, vrf);
    }
  }

  lemma {:induction false} AllAligned(env: Env, cs: seq<ApiConfig>, vrf: string)
    requires Translates(env, cs)
    ensures Aligned(env, Described(TranslateAll(env, cs), vrf), Descriptions(cs, vrf), vrf)
  {
    hide TranslateConfig, Aligned, TranslateAll, Described, DescribedBy;
    if cs == [] {
      NothingTranslated(env, vrf);
    } else {
      var before, c := cs[..|cs| - 1], cs[|cs| - 1];
      assert c in cs && forall x | x in before :: x in cs;
      AllAligned(env, before, vrf);
      ConfigAligned(env, c, vrf);
      TranslateAllStep(env, cs);
      DescribedConcat(TranslateAll(env, before), TranslateConfig(env, c).value, vrf);
      AlignedConcat(env, Described(TranslateAll(env, before), vrf), Descriptions(before, vrf),
                    Described(TranslateConfig(env, c).value, vrf), DescribedBy(c.routers, vrf), vrf);
    }
  }

  lemma NothingTranslated(env: Env, vrf: string)
    ensures Aligned(env, Described(TranslateAll(env, []), vrf), [], vrf)
  {}

  lemma ConfigAligned(env: Env, c: ApiConfig, vrf: string)
    requires TranslateConfig(env, c).Ok?
    ensures Aligned(env, Described(TranslateConfig(env, c).value, vrf), DescribedBy(c.routers, vrf), vrf)
  {
    hide RawRouters, Aligned;
    RoutersAligned(env, c, c.routers, vrf);
  }

  // ---- the first description

  lemma {:induction false} FirstAligned(env: Env, ts: seq<Neighbor>, ns: seq<ApiNeighbor>, vrf: string, i: nat)
    requires Aligned(env, ts, ns, vrf) && i < |ts| && forall j | 0 <= j < i :: ID(ts[j]) != ID(ts[i])
    ensures FirstFor(ns, vrf, ID(ts[i])) == Some(ns[i])
  {
    hide NeighborID;
    var id := ID(ts[i]);
    forall j | 0 <= j < |ns|
      ensures NeighborID(ns[j].address, ns[j].iface, vrf) == ID(ts[j])
    {
      assert FromApi(env, ts[j], ns[j], vrf);
    }
    FirstAt(ns, vrf, id, i);
  }

  lemma {:induction false} FirstAt(ns: seq<ApiNeighbor>, vrf: string, id: string, i: nat)
    requires i < |ns| && NeighborID(ns[i].address, ns[i].iface, vrf) == id
    requires forall j | 0 <= j < i :: NeighborID(ns[j].address, ns[j].iface, vrf) != id
    ensures FirstFor(ns, vrf, id) == Some(ns[i])
    decreases |ns|
  {
    hide NeighborID;
    var before := ns[..|ns| - 1];
    if i < |before| {
      FirstAt(before, vrf, id, i);
    } else {
      forall n | n in before ensures NeighborID(n.address, n.iface, vrf) != id {
        var j :| 0 <= j < |before| && before[j] == n;
        assert ns[j] == n;
      }
      assert FirstFor(before, vrf, id).None?;
    }
  }

  /** In every result graceful restart is that of the first description of the neighbor. */
  lemma RestartIsFirst(env: Env, cs: seq<ApiConfig>, r: Router, n: Neighbor)
    requires Convert(env, cs).Ok? && r in Convert(env, cs).value.routers && n in r.neighbors
    ensures FirstFor(Descriptions(cs, r.vrf), r.vrf, ID(n)).Some?
    ensures n.gracefulRestart == FirstFor(Descriptions(cs, r.vrf), r.vrf, ID(n)).value.gracefulRestart
  {
    hide Convert, TranslateAll, Fold, ValidEvpn, NormalMap, StateInv, Described, Descriptions, FirstFor, ID, First;
    hide Aligned, Translates;
    ResultParts(env, cs);
    FoldFirsts(env, cs);
    var m := Fold(env, cs).value.routers;
    var v :| v in m && m[v] == r;
    HeldUnder(env, cs, v);
    AllAligned(env, cs, v);
    FirstDepicted(env, Described(TranslateAll(env, cs), v), Descriptions(cs, v), v, n);
  }

  lemma FirstDepicted(env: Env, ts: seq<Neighbor>, ns: seq<ApiNeighbor>, v: string, n: Neighbor)
    requires Aligned(env, ts, ns, v) && First(ts, n)
    ensures FirstFor(ns, v, ID(n)).Some? && n.gracefulRestart == FirstFor(ns, v, ID(n)).value.gracefulRestart
  {
    hide FirstFor, ID, First;
    var d := FirstOne(ts, n);
    FirstWinsID(n, d);
    var i :| 0 <= i < |ts| && ts[i] == d && forall j | 0 <= j < i :: ID(ts[j]) != ID(d);
    FirstAligned(env, ts, ns, v, i);
    assert FromApi(env, ts[i], ns[i], v);
  }

  lemma HeldUnder(env: Env, cs: seq<ApiConfig>, v: string)
    requires Fold(env, cs).Ok? && StateInv(env, cs, Fold(env, cs).value) && v in Fold(env, cs).value.routers
    ensures Fold(env, cs).value.routers[v].vrf == v
  {
    hide Fold, TranslateAll, AllProfiles, AllRaws, NormalRouter, FiltersStand, RouterSays, SeenSays;
    assert RouterStands(Fold(env, cs).value.routers[v], TranslateAll(env, cs), v);
  }

  // ---- the configurations one by one

  /** The first descriptions of a neighbor in any two configurations that describe it agree on graceful restart. */
  ghost predicate RestartsSettled(cs: seq<ApiConfig>) {
    forall a, b, vrf, id | a in cs && b in cs && FirstIn(a, vrf, id).Some? && FirstIn(b, vrf, id).Some? ::
      FirstIn(a, vrf, id).value.gracefulRestart == FirstIn(b, vrf, id).value.gracefulRestart
  }

  /** The first description of a neighbor within one configuration. */
  function FirstIn(c: ApiConfig, vrf: string, id: string): (r: Option<ApiNeighbor>) {
    FirstFor(DescribedBy(c.routers, vrf), vrf, id)
  }

  /** Reading either list, the first description of a neighbor says the same about graceful restart. */
  ghost predicate ReadAlike(cs: seq<ApiConfig>, ds: seq<ApiConfig>) {
    forall vrf, id :: var a, b := FirstFor(Descriptions(cs, vrf), vrf, id), FirstFor(Descriptions(ds, vrf), vrf, id);
      a.Some? && b.Some? ==> a.value.gracefulRestart == b.value.gracefulRestart
  }

  lemma {:induction false} FirstForConcat(a: seq<ApiNeighbor>, b: seq<ApiNeighbor>, vrf: string, id: string)
    ensures FirstFor(a + b, vrf, id) ==
              if FirstFor(a, vrf, id).Some? then FirstFor(a, vrf, id) else FirstFor(b, vrf, id)
  {
    hide NeighborID;
    if b == [] {
      assert a + b == a;
    } else {
      var c, n := b[..|b| - 1], b[|b| - 1];
      FirstForConcat(a, c, vrf, id);
      assert (a + b)[..|a + b| - 1] == a + c && (a + b)[|a + b| - 1] == n;
    }
  }

  lemma {:induction false} FirstFromConfig(cs: seq<ApiConfig>, vrf: string, id: string) returns (c: ApiConfig)
    requires FirstFor(Descriptions(cs, vrf), vrf, id).Some?
    ensures c in cs && FirstIn(c, vrf, id) == FirstFor(Descriptions(cs, vrf), vrf, id)
  {
    hide DescribedBy, FirstFor;
    assert cs != [] by { NobodyDescribes(vrf, id); }
    var before, last := cs[..|cs| - 1], cs[|cs| - 1];
    FirstForConcat(Descriptions(before, vrf), DescribedBy(last.routers, vrf), vrf, id);
    if FirstFor(Descriptions(before, vrf), vrf, id).Some? { c := FirstFromConfig(before, vrf, id); } else { c := last; }
  }

  lemma NobodyDescribes(vrf: string, id: string)
    ensures FirstFor(Descriptions([], vrf), vrf, id).None?
  {}

  lemma {:induction false} DescriptionsConcat(a: seq<ApiConfig>, b: seq<ApiConfig>, vrf: string)
    ensures Descriptions(a + b, vrf) == Descriptions(a, vrf) + Descriptions(b, vrf)
  {
    hide DescribedBy;
    if b == [] {
      assert a + b == a;
    } else {
      var c, x := b[..|b| - 1], b[|b| - 1];
      DescriptionsConcat(a, c, vrf);
      assert (a + b)[..|a + b| - 1] == a + c && (a + b)[|a + b| - 1] == x;
    }
  }

  /** The configuration read first decides about the neighbors it describes. */
  lemma FirstOfFront(a: ApiConfig, rest: seq<ApiConfig>, vrf: string, id: string)
    requires FirstIn(a, vrf, id).Some?
    ensures FirstFor(Descriptions([a] + rest, vrf), vrf, id) == FirstIn(a, vrf, id)
  {
    hide DescribedBy, FirstFor;
    DescriptionsConcat([a], rest, vrf);
    assert [a][..0] == [];
    assert Descriptions([a], vrf) == [] + DescribedBy(a.routers, vrf) == DescribedBy(a.routers, vrf);
    FirstForConcat(DescribedBy(a.routers, vrf), Descriptions(rest, vrf), vrf, id);
  }

  /** A described neighbor is in the result. */
  lemma DescribedOccurs(env: Env, cs: seq<ApiConfig>, a: ApiConfig, vrf: string, id: string)
    returns (r: Router, n: Neighbor)
    requires Convert(env, cs).Ok? && a in cs && FirstIn(a, vrf, id).Some?
    ensures r in Convert(env, cs).value.routers && r.vrf == vrf && n in r.neighbors && ID(n) == id
  {
    hide Convert, TranslateConfig, DescribedBy, FirstFor, Described, Consistent, Supplied, ConfigSays;
    ConversionTheorem(env, cs);
    TranslatedIn(env, cs, a);
    ConfigAligned(env, a, vrf);
    var d := SessionDescribed(env, a, vrf, id);
    var f := At(vrf, Peer(id, HasSession(SessionOf(d))));
    assert SaidBy(env, cs, f);
    ResultTheorem(env, cs, f);
    assert ResultSays(Convert(env, cs).value, f);
    r :| r in Convert(env, cs).value.routers && r.vrf == vrf && RouterSays(r, f.fact);
    n :| n in r.neighbors && ID(n) == id && NeighborSays(n, HasSession(SessionOf(d)));
  }

  lemma TranslatedIn(env: Env, cs: seq<ApiConfig>, a: ApiConfig)
    requires Consistent(env, cs) && a in cs
    ensures TranslateConfig(env, a).Ok?
  {
    hide TranslateConfig, Contradict;
  }

  lemma SessionDescribed(env: Env, a: ApiConfig, vrf: string, id: string) returns (d: Neighbor)
    requires TranslateConfig(env, a).Ok? && FirstIn(a, vrf, id).Some?
    requires Aligned(env, Described(TranslateConfig(env, a).value, vrf), DescribedBy(a.routers, vrf), vrf)
    ensures ConfigSays(env, a, At(vrf, Peer(id, HasSession(SessionOf(d)))))
  {
    hide TranslateConfig, DescribedBy, FirstFor, Described, SessionOf;
    var ts, ns := Described(TranslateConfig(env, a).value, vrf), DescribedBy(a.routers, vrf);
    var n := FirstIn(a, vrf, id).value;
    var i :| 0 <= i < |ns| && ns[i] == n;
    d := ts[i];
    assert FromApi(env, d, n, vrf) && ID(d) == id && d in ts;
    DescribedMember(TranslateConfig(env, a).value, vrf, d);
    var r :| r in TranslateConfig(env, a).value && r.vrf == vrf && d in r.neighbors;
    assert NeighborSays(d, HasSession(SessionOf(d)));
    assert PeerSays(r.neighbors, id, HasSession(SessionOf(d)));
    assert RouterSays(r, Peer(id, HasSession(SessionOf(d))));
  }
}

/** The fold over routers and configurations realises the union of what they say. */
module FoldFacts {
  import opened Configs
  import opened Merge
  import opened Facts
  import opened MergeFacts
  import opened NeighborFacts
  import opened RouterFacts
  import opened Conversion

  // ---- what a list of translated routers says about one VRF

  ghost predicate SeenSays(seen: seq<Router>, vrf: string, f: RouterFact) {
    exists r :: r in seen && r.vrf == vrf && RouterSays(r, f)
  }

  ghost predicate SeenLists(seen: seq<Router>, vrf: string, id: string, v6: bool, x: Filter) {
    exists r :: r in seen && r.vrf == vrf && ListsFilter(r.neighbors, id, v6, x)
  }

  /** No two different filters listed for the neighbor share a key. */
  ghost predicate SeenAgree(seen: seq<Router>, vrf: string, id: string) {
    forall v6, x, y | SeenLists(seen, vrf, id, v6, x) && SeenLists(seen, vrf, id, v6, y) ::
      FilterKey(x) == FilterKey(y) ==> x == y
  }

  ghost predicate SeenFrom(seen: seq<Router>, vrf: string, n: Neighbor) {
    exists r, d :: r in seen && r.vrf == vrf && d in r.neighbors && ID(d) == ID(n) && FirstWins(n, d)
  }

  ghost predicate SeenVRF(seen: seq<Router>, vrf: string) { exists r :: r in seen && r.vrf == vrf }

  /** `m` is the router that stands for all the routers seen for `vrf`. */
  ghost predicate RouterStands(m: Router, seen: seq<Router>, vrf: string) {
    && m.vrf == vrf && NormalRouter(m)
    && (forall f | !IsAccept(f) :: RouterSays(m, f) <==> SeenSays(seen, vrf, f))
    && FiltersStand(m.neighbors, seen, vrf)
  }

  ghost predicate FiltersStand(ns: seq<Neighbor>, seen: seq<Router>, vrf: string) {
    && (forall n | n in ns :: SeenFrom(seen, vrf, n))
    && (forall id, v6, x | ListsFilter(ns, id, v6, x) :: SeenLists(seen, vrf, id, v6, x))
    && (forall id, v6, x | SeenAgree(seen, vrf, id) && SeenLists(seen, vrf, id, v6, x) &&
          !PeerSays(ns, id, AcceptsAll) ::
          ListsFilter(ns, id, v6, x))
  }

  ghost predicate RoutersInv(m: map<string, Router>, seen: seq<Router>) {
    && (forall v :: v in m <==> SeenVRF(seen, v))
    && (forall v | v in m :: RouterStands(m[v], seen, v))
  }

  /** No two routers of one VRF contradict each other, nor any router itself. */
  ghost predicate ClashFree(seen: seq<Router>) {
    forall r, t | r in seen && t in seen && r.vrf == t.vrf :: !RoutersClash(r, t)
  }

  ghost predicate FitsIn(seen: seq<Router>, r: Router) {
    !RoutersClash(r, r) && forall t | t in seen && t.vrf == r.vrf :: !RoutersClash(t, r)
  }

  lemma RoutersClashSymmetric(r: Router, t: Router)
    requires RoutersClash(r, t)
    ensures RoutersClash(t, r)
  {
    hide RouterSays;
    var f, g :| RouterSays(r, f) && RouterSays(t, g) && RouterConflict(f, g);
    RouterConflictSymmetric(f, g);
  }

  lemma RouterConflictSymmetric(f: RouterFact, g: RouterFact)
    requires RouterConflict(f, g)
    ensures RouterConflict(g, f)
  {}

  lemma ClashFreeStep(seen: seq<Router>, r: Router)
    ensures ClashFree(seen + [r]) <==> ClashFree(seen) && FitsIn(seen, r)
  {
    hide RoutersClash;
    var all := seen + [r];
    assert forall t :: t in all <==> t in seen || t == r;
    if ClashFree(seen) && FitsIn(seen, r) {
      forall a, b | a in all && b in all && a.vrf == b.vrf ensures !RoutersClash(a, b) {
        if RoutersClash(a, b) { RoutersClashSymmetric(a, b); }
      }
    }
  }

  // ---- filters and first-listed fields through two merges

  lemma SelfStands(s: seq<Neighbor>, r: Router, vrf: string)
    requires NeighborsJoin(s, r.neighbors + r.neighbors) && r.vrf == vrf
    ensures FiltersStand(s, [r], vrf)
  {
    hide ID, FirstWins, FilterKey, PeerSays;
    var ns := r.neighbors + r.neighbors;
    assert r in [r];
    forall id, v6, x
      ensures ListsFilter(ns, id, v6, x) <==> SeenLists([r], vrf, id, v6, x)
    {
      DoubledLists(r, id, v6, x);
    }
    forall n | n in s ensures SeenFrom([r], vrf, n) {
      FirstIsListed(ns, n);
      var d :| d in ns && ID(d) == ID(n) && FirstWins(n, d);
      assert d in r.neighbors;
    }
    forall id | SeenAgree([r], vrf, id) ensures FiltersAgree(ns, id) { SelfAgree(r, id); }
  }

  lemma FirstIsListed(ns: seq<Neighbor>, n: Neighbor)
    requires First(ns, n)
    ensures exists d :: d in ns && ID(d) == ID(n) && FirstWins(n, d)
  {
    var d :| FirstListed(ns, d) && FirstWins(n, d);
    assert d in ns;
  }

  lemma DoubledLists(r: Router, id: string, v6: bool, x: Filter)
    ensures ListsFilter(r.neighbors + r.neighbors, id, v6, x) <==> SeenLists([r], r.vrf, id, v6, x)
  {
    hide ID, Filters;
    assert r in [r];
    assert forall n :: n in r.neighbors + r.neighbors <==> n in r.neighbors;
  }

  lemma SelfAgree(r: Router, id: string)
    requires SeenAgree([r], r.vrf, id)
    ensures FiltersAgree(r.neighbors + r.neighbors, id)
  {
    hide FilterKey, Filters, SeenLists;
    var ns := r.neighbors + r.neighbors;
    forall n, k | n in ns && k in ns && ID(n) == id && ID(k) == id ensures KeysAgree(n.incoming, k.incoming) {
      forall v6, x, y | x in Filters(n.incoming, v6) && y in Filters(k.incoming, v6) && FilterKey(x) == FilterKey(y)
        ensures x == y
      {
        DoubledLists(r, id, v6, x); DoubledLists(r, id, v6, y);
        assert ListsFilter(ns, id, v6, x) && ListsFilter(ns, id, v6, y);
      }
    }
  }

  lemma JoinedLists(a: seq<Neighbor>, b: seq<Neighbor>, id: string, v6: bool, x: Filter)
    ensures ListsFilter(a + b, id, v6, x) <==> ListsFilter(a, id, v6, x) || ListsFilter(b, id, v6, x)
  {
    hide ID, Filters;
    assert forall n :: n in a + b <==> n in a || n in b;
  }

  lemma SeenListsStep(seen: seq<Router>, r: Router, vrf: string, id: string, v6: bool, x: Filter)
    requires r.vrf == vrf
    ensures SeenLists(seen + [r], vrf, id, v6, x) <==> SeenLists(seen, vrf, id, v6, x) || SeenLists([r], vrf, id, v6, x)
  {
    hide ListsFilter;
    assert r in [r];
    assert forall t :: t in seen + [r] <==> t in seen || t in [r];
  }

  lemma SeenAgreeParts(seen: seq<Router>, r: Router, id: string)
    requires SeenAgree(seen + [r], r.vrf, id)
    ensures SeenAgree(seen, r.vrf, id) && SeenAgree([r], r.vrf, id)
  {
    hide FilterKey, SeenLists;
    forall v6, x { SeenListsStep(seen, r, r.vrf, id, v6, x); }
  }

  lemma JoinAgree(a: seq<Neighbor>, b: seq<Neighbor>, seen: seq<Router>, r: Router, id: string)
    requires FiltersStand(a, seen, r.vrf) && FiltersStand(b, [r], r.vrf)
    requires SeenAgree(seen + [r], r.vrf, id)
    ensures FiltersAgree(a + b, id)
  {
    hide FilterKey, Filters, SeenLists, SeenFrom, PeerSays;
    forall n, k | n in a + b && k in a + b && ID(n) == id && ID(k) == id ensures KeysAgree(n.incoming, k.incoming) {
      forall v6, x, y | x in Filters(n.incoming, v6) && y in Filters(k.incoming, v6) && FilterKey(x) == FilterKey(y)
        ensures x == y
      {
        assert ListsFilter(a + b, id, v6, x) && ListsFilter(a + b, id, v6, y);
        JoinedLists(a, b, id, v6, x); JoinedLists(a, b, id, v6, y);
        SeenListsStep(seen, r, r.vrf, id, v6, x); SeenListsStep(seen, r, r.vrf, id, v6, y);
      }
    }
  }

  lemma JoinStands(m: seq<Neighbor>, a: seq<Neighbor>, b: seq<Neighbor>, seen: seq<Router>, r: Router)
    requires FiltersStand(a, seen, r.vrf) && FiltersStand(b, [r], r.vrf) && NeighborsJoin(m, a + b)
    requires forall id | PeerSays(a, id, AcceptsAll) || PeerSays(b, id, AcceptsAll) :: PeerSays(m, id, AcceptsAll)
    ensures FiltersStand(m, seen + [r], r.vrf)
  {
    hide FilterKey, ListsFilter, SeenLists, PeerSays, SeenAgree, FiltersAgree;
    var vrf := r.vrf;
    forall n | n in m ensures SeenFrom(seen + [r], vrf, n) { JoinFrom(m, a, b, seen, r, n); }
    forall id, v6, x | ListsFilter(m, id, v6, x) ensures SeenLists(seen + [r], vrf, id, v6, x) {
      JoinedLists(a, b, id, v6, x);
      SeenListsStep(seen, r, vrf, id, v6, x);
    }
    forall id, v6, x
      | SeenAgree(seen + [r], vrf, id) && SeenLists(seen + [r], vrf, id, v6, x) && !PeerSays(m, id, AcceptsAll)
      ensures ListsFilter(m, id, v6, x)
    {
      JoinAgree(a, b, seen, r, id);
      SeenAgreeParts(seen, r, id);
      JoinedLists(a, b, id, v6, x);
      SeenListsStep(seen, r, vrf, id, v6, x);
    }
  }

  lemma JoinFrom(m: seq<Neighbor>, a: seq<Neighbor>, b: seq<Neighbor>, seen: seq<Router>, r: Router, n: Neighbor)
    requires FiltersStand(a, seen, r.vrf) && FiltersStand(b, [r], r.vrf) && NeighborsJoin(m, a + b) && n in m
    ensures SeenFrom(seen + [r], r.vrf, n)
  {
    hide ID, ListsFilter, SeenLists, PeerSays, SeenAgree, FiltersAgree;
    FirstIsListed(a + b, n);
    var d :| d in a + b && ID(d) == ID(n) && FirstWins(n, d);
    if d in a {
      var t, e :| t in seen && t.vrf == r.vrf && e in t.neighbors && ID(e) == ID(d) && FirstWins(d, e);
      assert t in seen + [r] && FirstWins(n, e);
    } else {
      assert d in b;
      var t, e :| t in [r] && t.vrf == r.vrf && e in t.neighbors && ID(e) == ID(d) && FirstWins(d, e);
      assert t in seen + [r] && FirstWins(n, e);
    }
  }

  // ---- one router

  lemma SelfMergeStands(r: Router)
    requires WfRouter(r)
    ensures MergeRouters(r, r).Ok? <==> !RoutersClash(r, r)
    ensures MergeRouters(r, r).Ok? ==> RouterStands(MergeRouters(r, r).value, [r], r.vrf)
  {
    hide RouterSays, NormalRouter, RoutersClash, NeighborsJoin, FiltersStand, MergeRouters;
    SelfMergeNormalises(r);
    if MergeRouters(r, r).Ok? {
      SelfStands(MergeRouters(r, r).value.neighbors, r, r.vrf);
      assert r in [r];
    }
  }

  lemma StandClash(m: Router, seen: seq<Router>, s: Router, r: Router)
    requires RouterStands(m, seen, r.vrf) && RouterStands(s, [r], r.vrf)
    ensures RoutersClash(m, s) <==> exists t :: t in seen && t.vrf == r.vrf && RoutersClash(t, r)
  {
    hide RouterSays, NormalRouter, FiltersStand;
    if RoutersClash(m, s) {
      var f, g :| RouterSays(m, f) && RouterSays(s, g) && RouterConflict(f, g);
      ConflictsAreNotAccepts(f, g);
      assert SeenSays(seen, r.vrf, f) && SeenSays([r], r.vrf, g);
      var t :| t in seen && t.vrf == r.vrf && RouterSays(t, f);
      assert RoutersClash(t, r);
    }
    if t :| t in seen && t.vrf == r.vrf && RoutersClash(t, r) {
      var f, g :| RouterSays(t, f) && RouterSays(r, g) && RouterConflict(f, g);
      ConflictsAreNotAccepts(f, g);
      assert r in [r];
      assert SeenSays(seen, r.vrf, f) && SeenSays([r], r.vrf, g);
    }
  }

  lemma ConflictsAreNotAccepts(f: RouterFact, g: RouterFact)
    requires RouterConflict(f, g)
    ensures !IsAccept(f) && !IsAccept(g)
  {}

  lemma SeenSaysStep(seen: seq<Router>, r: Router, vrf: string, f: RouterFact)
    ensures SeenSays(seen + [r], vrf, f) <==> SeenSays(seen, vrf, f) || (r.vrf == vrf && RouterSays(r, f))
    ensures SeenVRF(seen + [r], vrf) <==> SeenVRF(seen, vrf) || r.vrf == vrf
  {
    hide RouterSays;
    assert r in seen + [r];
    assert forall t :: t in seen + [r] <==> t in seen || t == r;
  }

  lemma MergeStand(m: Router, seen: seq<Router>, s: Router, r: Router)
    requires RouterStands(m, seen, r.vrf) && RouterStands(s, [r], r.vrf)
    ensures MergeRouters(m, s).Ok? <==> !RoutersClash(m, s)
    ensures MergeRouters(m, s).Ok? ==> RouterStands(MergeRouters(m, s).value, seen + [r], r.vrf)
  {
    hide NormalRouter, RoutersClash, NeighborsJoin, FiltersStand, MergeRouters, SeenSays, RouterSays;
    MergeRoutersFacts(m, s);
    if MergeRouters(m, s).Ok? {
      var j := MergeRouters(m, s).value;
      forall f | !IsAccept(f) ensures RouterSays(j, f) <==> SeenSays(seen + [r], r.vrf, f) {
        SeenSaysStep(seen, r, r.vrf, f);
        OnlySays(r, r.vrf, f);
      }
      forall id | PeerSays(m.neighbors, id, AcceptsAll) || PeerSays(s.neighbors, id, AcceptsAll)
        ensures PeerSays(j.neighbors, id, AcceptsAll)
      {
        PeerAsRouter(m, id, AcceptsAll); PeerAsRouter(s, id, AcceptsAll); PeerAsRouter(j, id, AcceptsAll);
      }
      JoinStands(j.neighbors, m.neighbors, s.neighbors, seen, r);
    }
  }

  lemma OnlySays(r: Router, vrf: string, f: RouterFact)
    ensures SeenSays([r], vrf, f) <==> r.vrf == vrf && RouterSays(r, f)
  {
    hide RouterSays;
    assert r in [r];
  }

  lemma StandsElsewhere(m: Router, seen: seq<Router>, vrf: string, r: Router)
    requires RouterStands(m, seen, vrf) && r.vrf != vrf
    ensures RouterStands(m, seen + [r], vrf)
  {
    hide NormalRouter, RouterSays, ListsFilter, PeerSays, FilterKey, FirstWins, ID;
    var all := seen + [r];
    assert forall t :: t in all <==> t in seen || t == r;
    forall f ensures SeenSays(all, vrf, f) <==> SeenSays(seen, vrf, f) { SeenSaysStep(seen, r, vrf, f); }
    forall id, v6, x ensures SeenLists(all, vrf, id, v6, x) <==> SeenLists(seen, vrf, id, v6, x) {}
    forall n | n in m.neighbors ensures SeenFrom(all, vrf, n) { assert SeenFrom(seen, vrf, n); }
    forall id ensures SeenAgree(all, vrf, id) <==> SeenAgree(seen, vrf, id) {}
  }

  lemma RoutersInvStep(m: map<string, Router>, seen: seq<Router>, r: Router, j: Router)
    requires RoutersInv(m, seen) && RouterStands(j, seen + [r], r.vrf)
    ensures RoutersInv(m[r.vrf := j], seen + [r])
  {
    hide RouterStands, SeenVRF;
    forall v ensures v in m[r.vrf := j] <==> SeenVRF(seen + [r], v) { SeenSaysStep(seen, r, v, Asn(0)); }
    forall v | v in m && v != r.vrf ensures RouterStands(m[v], seen + [r], v) { StandsElsewhere(m[v], seen, v, r); }
  }

  lemma FirstOfVRF(seen: seq<Router>, s: Router, r: Router)
    requires RouterStands(s, [r], r.vrf) && !SeenVRF(seen, r.vrf)
    ensures RouterStands(s, seen + [r], r.vrf)
  {
    hide NormalRouter, RouterSays, ListsFilter, PeerSays, FilterKey, FirstWins, ID;
    var all, vrf := seen + [r], r.vrf;
    assert forall t :: t in all && t.vrf == vrf <==> t in [r] && t.vrf == vrf;
    forall f ensures SeenSays(all, vrf, f) <==> SeenSays([r], vrf, f) {}
    forall id, v6, x ensures SeenLists(all, vrf, id, v6, x) <==> SeenLists([r], vrf, id, v6, x) {}
    forall n | n in s.neighbors ensures SeenFrom(all, vrf, n) { assert SeenFrom([r], vrf, n); }
    forall id ensures SeenAgree(all, vrf, id) <==> SeenAgree([r], vrf, id) {}
  }

  lemma AddRouterFacts(m: map<string, Router>, seen: seq<Router>, r: Router)
    requires RoutersInv(m, seen) && WfRouter(r)
    ensures AddRouter(m, r).Ok? <==> FitsIn(seen, r)
    ensures AddRouter(m, r).Ok? ==> RoutersInv(AddRouter(m, r).value, seen + [r])
  {
    hide RouterStands, SeenVRF, MergeRouters, RoutersClash, WfRouter;
    SelfMergeStands(r);
    if MergeRouters(r, r).Ok? {
      var s := MergeRouters(r, r).value;
      if r.vrf in m {
        StandClash(m[r.vrf], seen, s, r);
        MergeStand(m[r.vrf], seen, s, r);
        if MergeRouters(m[r.vrf], s).Ok? { RoutersInvStep(m, seen, r, MergeRouters(m[r.vrf], s).value); }
      } else {
        NobodyOfVRF(seen, r.vrf);
        FirstOfVRF(seen, s, r);
        RoutersInvStep(m, seen, r, s);
      }
    }
  }

  lemma NobodyOfVRF(seen: seq<Router>, vrf: string)
    requires !SeenVRF(seen, vrf)
    ensures forall t | t in seen :: t.vrf != vrf
  {}

  // ---- a list of routers

  lemma {:induction false} AddRoutersFacts(m: map<string, Router>, seen: seq<Router>, rs: seq<Router>)
    requires RoutersInv(m, seen) && ClashFree(seen) && forall r | r in rs :: WfRouter(r)
    ensures AddRouters(m, rs).Ok? <==> ClashFree(seen + rs)
    ensures AddRouters(m, rs).Ok? ==> RoutersInv(AddRouters(m, rs).value, seen + rs)
  {
    hide RoutersInv, ClashFree, WfRouter, FitsIn, AddRouter;
    if rs == [] {
      assert seen + rs == seen;
    } else {
      var before, r := rs[..|rs| - 1], rs[|rs| - 1];
      AddRoutersFacts(m, seen, before);
      assert seen + rs == (seen + before) + [r];
      ClashFreeStep(seen + before, r);
      if AddRouters(m, before).Ok? { AddRouterFacts(AddRouters(m, before).value, seen + before, r); }
    }
  }

  // ---- profiles

  ghost predicate ProfilesAgree(ps: seq<BfdProfile>) {
    forall p, q | p in ps && q in ps && p.name == q.name :: p == q
  }

  ghost predicate ProfilesInv(m: map<string, BfdProfile>, seen: seq<BfdProfile>) {
    && (forall p | p in seen :: p.name in m && m[p.name] == p)
    && (forall k | k in m :: m[k] in seen && m[k].name == k)
  }

  lemma {:induction false} AddProfilesFacts(m: map<string, BfdProfile>, seen: seq<BfdProfile>, ps: seq<BfdProfile>)
    requires ProfilesInv(m, seen)
    ensures AddProfiles(m, ps).Ok? <==> ProfilesAgree(seen + ps)
    ensures AddProfiles(m, ps).Ok? ==> ProfilesInv(AddProfiles(m, ps).value, seen + ps)
  {
    if ps == [] {
      assert seen + ps == seen;
    } else {
      var before, p := ps[..|ps| - 1], ps[|ps| - 1];
      AddProfilesFacts(m, seen, before);
      var a, b := seen + before, seen + ps;
      assert b == a + [p];
      assert forall q :: q in b <==> q in a || q == p;
      if ProfilesAgree(b) {
        assert ProfilesAgree(a);
      }
    }
  }
}

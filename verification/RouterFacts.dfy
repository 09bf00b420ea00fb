/**
 * Merging routers of one VRF.  The merge fails exactly when the two routers contradict each
 * other, and otherwise says what either of them says; merging a freshly converted router with
 * itself is a normaliser.
 */
module RouterFacts {
  import opened Ordering
  import opened Configs
  import opened Merge
  import opened Facts
  import opened MergeFacts
  import opened NeighborFacts
  import opened EvpnFacts

  /** A router as it comes out of the conversion, before it is merged with itself. */
  ghost predicate WfRouter(r: Router) {
    WfNeighbors(r.neighbors) && forall n | n in r.neighbors :: n.vrf == r.vrf
  }

  /** The form every merge leaves a router in. */
  ghost predicate NormalRouter(r: Router) {
    && WfRouter(r)
    && StrSorted(r.v4) && StrSorted(r.v6) && StrSorted(r.importVRFs)
    && NameSorted(r.neighbors, ID) && (forall n | n in r.neighbors :: NormalNeighbor(n))
    && NormalEvpn(r.evpn)
  }

  ghost predicate RoutersClash(r: Router, t: Router) {
    exists f, g :: RouterSays(r, f) && RouterSays(t, g) && RouterConflict(f, g)
  }

  ghost predicate IsAccept(f: RouterFact) { f.Peer? && f.peer.Accepts? }

  /** `m` says what `r` or `t` says.  Filters with a shared key may hide one another. */
  ghost predicate RouterJoin(m: Router, r: Router, t: Router) {
    && m.vrf == r.vrf
    && (forall f | !IsAccept(f) :: RouterSays(m, f) <==> RouterSays(r, f) || RouterSays(t, f))
    && NeighborsJoin(m.neighbors, r.neighbors + t.neighbors)
  }

  ghost predicate NeighborsJoin(ms: seq<Neighbor>, ns: seq<Neighbor>) {
    && (forall n | n in ms :: First(ns, n))
    && (forall id, v6, x | ListsFilter(ms, id, v6, x) :: ListsFilter(ns, id, v6, x))
    && (forall id, v6, x | FiltersAgree(ns, id) && ListsFilter(ns, id, v6, x) && !PeerSays(ms, id, AcceptsAll) ::
          ListsFilter(ms, id, v6, x))
  }

  // ---- neighbor lists

  ghost predicate ListsClash(a: seq<Neighbor>, b: seq<Neighbor>) {
    exists n, k :: n in a && k in b && ID(n) == ID(k) && PeersClash(n, k)
  }

  lemma Rendered(m: map<string, Neighbor>, ns: seq<Neighbor>, id: string, f: PeerFact)
    requires FoldInv(m, ns)
    ensures PeerSays(SortByName(m), id, f) <==> id in m && NeighborSays(m[id], f)
  {
    hide ID, NeighborSays, HasID;
    var s := SortByName(m);
    if PeerSays(s, id, f) {
      var n :| n in s && ID(n) == id && NeighborSays(n, f);
      var k :| k in m && m[k] == n;
      assert ID(m[k]) == k;
    }
    if id in m && NeighborSays(m[id], f) { assert m[id] in s && ID(m[id]) == id; }
  }

  lemma RenderedSays(m: map<string, Neighbor>, ns: seq<Neighbor>, id: string, f: PeerFact)
    requires FoldInv(m, ns) && !f.Accepts?
    ensures PeerSays(SortByName(m), id, f) <==> PeerSays(ns, id, f)
  {
    hide ID, NeighborSays, First, Repeated, FiltersAgree, NormalNeighbor, WfNeighbor, ListsFilter;
    Rendered(m, ns, id, f);
    if PeerSays(ns, id, f) {
      var n :| n in ns && ID(n) == id && NeighborSays(n, f);
      assert HasID(ns, id);
      assert id in m;
    }
  }

  lemma RenderedLists(m: map<string, Neighbor>, ns: seq<Neighbor>, id: string, v6: bool, x: Filter)
    requires FoldInv(m, ns) && ListsFilter(SortByName(m), id, v6, x)
    ensures ListsFilter(ns, id, v6, x)
  {
    hide ID, Repeated, NormalNeighbor, WfNeighbor, First, FiltersAgree, Filters, HasID, PeerSays, NeighborSays;
    var n :| n in SortByName(m) && ID(n) == id && x in Filters(n.incoming, v6);
    var k :| k in m && m[k] == n;
    assert Stands(m[k], ns, k);
  }

  lemma RenderedKeeps(m: map<string, Neighbor>, ns: seq<Neighbor>, id: string, v6: bool, x: Filter)
    requires FoldInv(m, ns) && FiltersAgree(ns, id) && ListsFilter(ns, id, v6, x)
    requires !PeerSays(SortByName(m), id, AcceptsAll)
    ensures ListsFilter(SortByName(m), id, v6, x)
  {
    hide ID, Repeated, NormalNeighbor, WfNeighbor, First, FiltersAgree, Filters, HasID, PeerSays, NeighborSays;
    ListedHasID(ns, id, v6, x);
    Rendered(m, ns, id, AcceptsAll);
    SaysAll(m[id]);
    assert Stands(m[id], ns, id);
    assert m[id] in SortByName(m) && ID(m[id]) == id;
  }

  lemma RenderedFirst(m: map<string, Neighbor>, ns: seq<Neighbor>, n: Neighbor)
    requires FoldInv(m, ns) && n in SortByName(m)
    ensures First(ns, n)
  {
    hide ID, Repeated, NormalNeighbor, WfNeighbor, First, FiltersAgree, Filters, HasID, PeerSays, NeighborSays;
    var k :| k in m && m[k] == n;
    assert Stands(m[k], ns, k);
  }

  lemma RenderedFilters(m: map<string, Neighbor>, ns: seq<Neighbor>)
    requires FoldInv(m, ns)
    ensures NeighborsJoin(SortByName(m), ns)
  {
    hide FoldInv, First, FiltersAgree, ListsFilter, PeerSays;
    var ms := SortByName(m);
    forall n | n in ms ensures First(ns, n) { RenderedFirst(m, ns, n); }
    forall id, v6, x | ListsFilter(ms, id, v6, x)
      ensures ListsFilter(ns, id, v6, x)
    {
      RenderedLists(m, ns, id, v6, x);
    }
    forall id, v6, x | FiltersAgree(ns, id) && ListsFilter(ns, id, v6, x) && !PeerSays(ms, id, AcceptsAll)
      ensures ListsFilter(ms, id, v6, x)
    {
      RenderedKeeps(m, ns, id, v6, x);
    }
  }

  lemma ListedHasID(ns: seq<Neighbor>, id: string, v6: bool, x: Filter)
    requires ListsFilter(ns, id, v6, x)
    ensures HasID(ns, id)
  {}

  lemma RenderedNormal(m: map<string, Neighbor>, ns: seq<Neighbor>, vrf: string)
    requires FoldInv(m, ns) && forall n | n in ns :: n.vrf == vrf
    requires (forall n | n in ns :: NormalNeighbor(n)) || (forall id | HasID(ns, id) :: Repeated(ns, id))
    ensures var s := SortByName(m);
            NameSorted(s, ID) && forall n | n in s :: WfNeighbor(n) && NormalNeighbor(n) && n.vrf == vrf
  {
    hide ID, NormalNeighbor, WfNeighbor, FiltersAgree, Filters, ListsFilter, PeerSays;
    SortByNameSorted(m, ID);
    forall n | n in SortByName(m) ensures WfNeighbor(n) && NormalNeighbor(n) && n.vrf == vrf {
      var k :| k in m && m[k] == n;
      assert Stands(m[k], ns, k);
      var d :| FirstListed(ns, d) && FirstWins(n, d);
    }
  }

  /** What merging the lists gives, whenever the fold over their concatenation is understood. */
  lemma MergeListsJoin(a: seq<Neighbor>, b: seq<Neighbor>, vrf: string)
    requires WfNeighbors(a + b) && forall n | n in a + b :: n.vrf == vrf
    requires (forall n | n in a + b :: NormalNeighbor(n)) || (forall id | HasID(a + b, id) :: Repeated(a + b, id))
    ensures MergeNeighborLists(a, b).Ok? <==> NoClash(a + b)
    ensures MergeNeighborLists(a, b).Ok? ==>
              var s := MergeNeighborLists(a, b).value;
              && NameSorted(s, ID) && WfNeighbors(s)
              && (forall n | n in s :: NormalNeighbor(n) && n.vrf == vrf)
              && (forall id, f: PeerFact | !f.Accepts? :: PeerSays(s, id, f) <==>
                    PeerSays(a, id, f) || PeerSays(b, id, f))
              && NeighborsJoin(s, a + b)
  {
    hide ID, NormalNeighbor, WfNeighbor, FoldInv, NoClash, HasID, Repeated, NeighborsJoin, NeighborSays, NameSorted;
    FoldNeighborsFacts(a + b);
    if FoldNeighbors(a + b).Ok? {
      var m := FoldNeighbors(a + b).value;
      RenderedNormal(m, a + b, vrf);
      RenderedFilters(m, a + b);
      forall id, f: PeerFact | !f.Accepts?
        ensures PeerSays(SortByName(m), id, f) <==> PeerSays(a, id, f) || PeerSays(b, id, f)
      {
        RenderedSays(m, a + b, id, f);
        assert forall n :: n in a + b <==> n in a || n in b;
      }
    }
  }

  lemma NormalListsClash(a: seq<Neighbor>, b: seq<Neighbor>)
    requires NameSorted(a, ID) && NameSorted(b, ID)
    ensures NoClash(a + b) <==> !ListsClash(a, b)
  {
    hide ID, PeersClash;
    var all := a + b;
    if ListsClash(a, b) {
      var n, k :| n in a && k in b && ID(n) == ID(k) && PeersClash(n, k);
      var i :| 0 <= i < |a| && a[i] == n;
      var j :| 0 <= j < |b| && b[j] == k;
      assert all[i] == n && all[|a| + j] == k;
      assert !NoClash(all);
    } else {
      forall i, j | 0 <= i < j < |a| ensures ID(all[i]) != ID(all[j]) { assert all[i] == a[i] && all[j] == a[j]; }
      forall i, j | |a| <= i < j < |all|
        ensures ID(all[i]) != ID(all[j])
      {
        assert all[i] == b[i - |a|] && all[j] == b[j - |a|];
      }
      forall i, j | 0 <= i < j < |all| && ID(all[i]) == ID(all[j]) ensures !PeersClash(all[i], all[j]) {
        assert i < |a| <= j;
        assert all[i] == a[i] && all[j] == b[j - |a|];
      }
    }
  }

  lemma SelfListsClash(a: seq<Neighbor>)
    ensures NoClash(a + a) <==> !ListsClash(a, a)
    ensures forall id | HasID(a + a, id) :: Repeated(a + a, id)
  {
    hide ID, PeersClash;
    var all := a + a;
    if ListsClash(a, a) {
      var n, k :| n in a && k in a && ID(n) == ID(k) && PeersClash(n, k);
      var i :| 0 <= i < |a| && a[i] == n;
      var j :| 0 <= j < |a| && a[j] == k;
      assert all[i] == n && all[|a| + j] == k;
      assert !NoClash(all);
    } else {
      forall i, j | 0 <= i < j < |all| && ID(all[i]) == ID(all[j]) ensures !PeersClash(all[i], all[j]) {
        assert all[i] in a && all[j] in a;
      }
    }
    forall id | HasID(all, id) ensures Repeated(all, id) {
      var n :| n in all && ID(n) == id;
      var i :| 0 <= i < |a| && a[i] == n;
      assert all[i] == n && all[|a| + i] == n;
    }
  }

  // ---- routers

  ghost predicate RoutersAgree(r: Router, t: Router) {
    && r.asn == t.asn && FlatAgree(r.id, t.id)
    && !ListsClash(r.neighbors, t.neighbors)
    && EvpnAgree(r.evpn, t.evpn)
  }

  lemma ClashingRouters(r: Router, t: Router, f: RouterFact, g: RouterFact)
    requires RouterSays(r, f) && RouterSays(t, g) && RouterConflict(f, g)
    ensures RoutersClash(r, t)
  {}

  lemma AgreeIsNoRoutersClash(r: Router, t: Router)
    ensures RoutersAgree(r, t) <==> !RoutersClash(r, t)
  {
    hide RoutersClash;
    if RoutersClash(r, t) { RoutersClashDisagree(r, t); }
    if !RoutersAgree(r, t) { RoutersDisagree(r, t); }
  }

  lemma RoutersClashDisagree(r: Router, t: Router)
    requires RoutersClash(r, t)
    ensures !RoutersAgree(r, t)
  {
    hide ID, NeighborSays, EvpnSays, PeerConflict, EvpnAgree;
    var f, g :| RouterSays(r, f) && RouterSays(t, g) && RouterConflict(f, g);
    if f.Peer? {
      var n :| n in r.neighbors && ID(n) == f.id && NeighborSays(n, f.peer);
      var k :| k in t.neighbors && ID(k) == g.id && NeighborSays(k, g.peer);
      ClashWitness(n, k, f.peer, g.peer);
    } else if !f.Asn? && !f.RouterId? {
      ClashingEvpns(r.evpn, t.evpn, f, g);
      EvpnAgreeIsNoClash(r.evpn, t.evpn);
    }
  }

  lemma RoutersDisagree(r: Router, t: Router)
    requires !RoutersAgree(r, t)
    ensures RoutersClash(r, t)
  {
    hide ID, NeighborSays, EvpnAgree, RoutersClash, PeerConflict, EvpnSays;
    if r.asn != t.asn {
      ClashingRouters(r, t, Asn(r.asn), Asn(t.asn));
    } else if !FlatAgree(r.id, t.id) {
      ClashingRouters(r, t, RouterId(r.id), RouterId(t.id));
    } else if ListsClash(r.neighbors, t.neighbors) {
      var n, k :| n in r.neighbors && k in t.neighbors && ID(n) == ID(k) && PeersClash(n, k);
      var f, g :| NeighborSays(n, f) && NeighborSays(k, g) && PeerConflict(f, g);
      assert PeerSays(r.neighbors, ID(n), f) && PeerSays(t.neighbors, ID(k), g);
      ClashingRouters(r, t, Peer(ID(n), f), Peer(ID(k), g));
    } else {
      EvpnAgreeIsNoClash(r.evpn, t.evpn);
      var f, g :| EvpnSays(r.evpn, f) && EvpnSays(t.evpn, g) && RouterConflict(f, g);
      EvpnFactsOnly(r.evpn, f); EvpnFactsOnly(t.evpn, g);
      ClashingRouters(r, t, f, g);
    }
  }

  lemma EvpnFactsOnly(e: Option<Evpn>, f: RouterFact)
    requires EvpnSays(e, f)
    ensures !f.Asn? && !f.RouterId? && !f.Network? && !f.Imports? && !f.Peer?
  {}

  /** The common part of merging two normal routers and of merging a router with itself. */
  lemma MergeUnderstood(r: Router, t: Router)
    requires r.vrf == t.vrf && WfRouter(r) && WfRouter(t)
    requires (NormalEvpn(r.evpn) && NormalEvpn(t.evpn)) || r.evpn == t.evpn
    requires (forall n | n in r.neighbors + t.neighbors :: NormalNeighbor(n)) ||
             (forall id | HasID(r.neighbors + t.neighbors, id) :: Repeated(r.neighbors + t.neighbors, id))
    requires NoClash(r.neighbors + t.neighbors) <==> !ListsClash(r.neighbors, t.neighbors)
    ensures MergeRouters(r, t).Ok? <==> !RoutersClash(r, t)
    ensures MergeRouters(r, t).Ok? ==>
              NormalRouter(MergeRouters(r, t).value) && RouterJoin(MergeRouters(r, t).value, r, t)
  {
    hide ID, NormalNeighbor, NormalEvpn, WfNeighbor, EvpnAgree, ListsClash, RoutersClash, EvpnSays, PeerSays,
         RouterSays, MergeNeighborLists, MergeEvpn, NoClash, HasID, Repeated, NeighborsJoin, NameSorted, EvpnJoin,
         StrSorted;
    AgreeIsNoRoutersClash(r, t);
    MergeListsJoin(r.neighbors, t.neighbors, r.vrf);
    MergeEvpnFacts(r.evpn, t.evpn);
    if MergeRouters(r, t).Ok? {
      var m := MergeRouters(r, t).value;
      forall f | !IsAccept(f) ensures RouterSays(m, f) <==> RouterSays(r, f) || RouterSays(t, f) {
        if f.Peer? {
          assert !f.peer.Accepts?;
        }
        EvpnJoinAt(m.evpn, r.evpn, t.evpn, f);
        RouterJoinAt(m, r, t, f);
      }
    }
  }

  lemma RouterJoinAt(m: Router, r: Router, t: Router, f: RouterFact)
    requires r.asn == t.asn && FlatAgree(r.id, t.id) && m.asn == r.asn && m.id == FlatJoin(r.id, t.id)
    requires m.v4 == Union(r.v4, t.v4) && m.v6 == Union(r.v6, t.v6) && m.importVRFs == Union(r.importVRFs, t.importVRFs)
    requires f.Peer? ==>
              (PeerSays(m.neighbors, f.id, f.peer) <==>
               PeerSays(r.neighbors, f.id, f.peer) || PeerSays(t.neighbors, f.id, f.peer))
    requires EvpnSays(m.evpn, f) <==> EvpnSays(r.evpn, f) || EvpnSays(t.evpn, f)
    ensures RouterSays(m, f) <==> RouterSays(r, f) || RouterSays(t, f)
  {
    hide EvpnSays, PeerSays, Union;
  }

  lemma EvpnJoinAt(m: Option<Evpn>, a: Option<Evpn>, b: Option<Evpn>, f: RouterFact)
    requires EvpnJoin(m, a, b)
    ensures EvpnSays(m, f) <==> EvpnSays(a, f) || EvpnSays(b, f)
  {
    hide EvpnSays;
  }

  /**
   * Two routers in normal form merge exactly when they do not contradict each other; the result
   * is again in normal form and says what either says.
   */
  lemma MergeRoutersFacts(r: Router, t: Router)
    requires NormalRouter(r) && NormalRouter(t) && r.vrf == t.vrf
    ensures MergeRouters(r, t).Ok? <==> !RoutersClash(r, t)
    ensures MergeRouters(r, t).Ok? ==>
              NormalRouter(MergeRouters(r, t).value) && RouterJoin(MergeRouters(r, t).value, r, t)
  {
    hide ID, NormalNeighbor, NormalEvpn, WfNeighbor, ListsClash, RoutersClash, NoClash, HasID, Repeated, NameSorted;
    NormalListsClash(r.neighbors, t.neighbors);
    MergeUnderstood(r, t);
  }

  /**
   * `validateRouterConfig`: merging a converted router with itself rejects exactly the routers
   * that contradict themselves, and otherwise brings them into normal form without changing
   * what they say.
   */
  lemma SelfMergeNormalises(r: Router)
    requires WfRouter(r)
    ensures MergeRouters(r, r).Ok? <==> !RoutersClash(r, r)
    ensures MergeRouters(r, r).Ok? ==>
              NormalRouter(MergeRouters(r, r).value) && RouterJoin(MergeRouters(r, r).value, r, r)
  {
    hide ID, NormalNeighbor, NormalEvpn, WfNeighbor, ListsClash, RoutersClash, NoClash, HasID, Repeated, NameSorted;
    SelfListsClash(r.neighbors);
    MergeUnderstood(r, r);
  }

  lemma MergedNeighbors(r: Router, t: Router)
    requires MergeRouters(r, t).Ok?
    ensures MergeNeighborLists(r.neighbors, t.neighbors) == Ok(MergeRouters(r, t).value.neighbors)
  {
    hide MergeNeighborLists, MergeEvpn, Union;
  }
}

/**
 * `validateRouterConfig` as a normaliser: a router in normal form merges with itself to itself,
 * so running it again changes nothing.
 */
module Normalising {
  import opened Ordering
  import opened Configs
  import opened Merge
  import opened Facts
  import opened MergeFacts
  import opened NeighborFacts
  import opened EvpnFacts
  import opened RouterFacts
  import opened NormalForms

  lemma SameID(ns: seq<Neighbor>, n: Neighbor, k: Neighbor)
    requires NameSorted(ns, ID) && n in ns && k in ns && ID(n) == ID(k)
    ensures n == k
  {
    hide ID;
    var i :| 0 <= i < |ns| && ns[i] == k;
    var j :| 0 <= j < |ns| && ns[j] == n;
  }

  lemma AgreesWithItself(n: Neighbor)
    requires WfNeighbor(n)
    ensures !PeersClash(n, n)
  {
    hide ListsOk, SamePref, PeersClash;
    AgreeIsNoClash(n, n);
  }

  lemma NormalEvpnAgrees(e: Option<Evpn>)
    requires NormalEvpn(e)
    ensures EvpnAgree(e, e)
  {
    hide VnisClash, NormalProps, NormalL3;
    if e.Some? {
      var l2 := e.value.l2;
      forall v, w | v in l2 && w in l2 && v.vni == w.vni ensures !VnisClash(v.props, w.props) {
        var i :| 0 <= i < |l2| && l2[i] == v;
        var j :| 0 <= j < |l2| && l2[j] == w;
        assert VniOf(v) == VniOf(w);
        NoSelfClash(v.props);
      }
      if e.value.l3.Some? { NoSelfClash(e.value.l3.value.props); }
    }
  }

  /** A router in normal form does not contradict itself. */
  lemma NormalIsConsistent(m: Router)
    requires NormalRouter(m)
    ensures !RoutersClash(m, m)
  {
    hide ID, WfNeighbor, NormalNeighbor, NameSorted, StrSorted, RoutersClash, EvpnAgree, PeersClash, NormalEvpn;
    AgreeIsNoRoutersClash(m, m);
    NormalEvpnAgrees(m.evpn);
    forall n, k | n in m.neighbors && k in m.neighbors && ID(n) == ID(k) ensures !PeersClash(n, k) {
      SameID(m.neighbors, n, k);
      AgreesWithItself(n);
    }
  }

  lemma SortedFiltersAgree(i: AllowedIn)
    requires NormalIn(i)
    ensures KeysAgree(i, i)
  {
    hide FilterKey;
    forall v6, x, y | x in Filters(i, v6) && y in Filters(i, v6) && FilterKey(x) == FilterKey(y) ensures x == y {
      var fs := Filters(i, v6);
      var j :| 0 <= j < |fs| && fs[j] == x;
      var k :| 0 <= k < |fs| && fs[k] == y;
      assert NameSorted(fs, FilterKey);
    }
  }

  lemma NormalFiltersAgree(ns: seq<Neighbor>, id: string)
    requires NameSorted(ns, ID) && forall n | n in ns :: NormalNeighbor(n)
    ensures FiltersAgree(ns + ns, id)
  {
    hide ID, FilterKey, NormalOut, NormalIn, StrSorted, KeysAgree, NameSorted;
    forall n, k | n in ns + ns && k in ns + ns && ID(n) == id && ID(k) == id
      ensures KeysAgree(n.incoming, k.incoming)
    {
      SameID(ns, n, k);
      SortedFiltersAgree(n.incoming);
    }
  }

  lemma ListedTwice(ns: seq<Neighbor>, id: string, v6: bool, x: Filter)
    ensures ListsFilter(ns + ns, id, v6, x) <==> ListsFilter(ns, id, v6, x)
  {
    hide ID, Filters;
    assert forall n :: n in ns + ns <==> n in ns;
  }

  lemma ListingIsNotAll(ns: seq<Neighbor>, id: string, v6: bool, x: Filter)
    requires NameSorted(ns, ID) && (forall n | n in ns :: WfNeighbor(n)) && ListsFilter(ns, id, v6, x)
    ensures !PeerSays(ns, id, AcceptsAll)
  {
    hide ID, ListsOk, SamePref;
    var n :| n in ns && ID(n) == id && x in Filters(n.incoming, v6);
    forall k | k in ns && ID(k) == id ensures !NeighborSays(k, AcceptsAll) { SameID(ns, n, k); }
  }

  lemma SelfMergeSaysSame(m: Router, v: Router)
    requires NormalRouter(m) && NormalRouter(v) && RouterJoin(v, m, m)
    ensures SameSaid(v, m)
  {
    hide ID, NeighborSays, RouterSays, NormalNeighbor, NormalEvpn, NameSorted, StrSorted, ListsFilter, FiltersAgree,
         PeerSays, WfNeighbor, First;
    var ns := m.neighbors;
    forall id, v6, x ensures ListsFilter(v.neighbors, id, v6, x) <==> ListsFilter(ns, id, v6, x) {
      NormalFiltersAgree(ns, id);
      ListedTwice(ns, id, v6, x);
      if ListsFilter(ns, id, v6, x) {
        ListingIsNotAll(ns, id, v6, x);
        assert !IsAccept(Peer(id, AcceptsAll));
        PeerAsRouter(v, id, AcceptsAll); PeerAsRouter(m, id, AcceptsAll);
      }
    }
  }

  lemma FirstOfTwo(ns: seq<Neighbor>, n: Neighbor, k: Neighbor)
    requires NameSorted(ns, ID) && First(ns + ns, n) && k in ns && ID(k) == ID(n)
    ensures FirstWins(n, k)
  {
    hide NameSorted;
    var d :| FirstListed(ns + ns, d) && FirstWins(n, d);
    assert d in ns + ns;
    assert d in ns;
    SameID(ns, d, k);
  }

  /** Running the self-merge again changes nothing, graceful restart included. */
  lemma SelfMergeIdempotent(m: Router)
    requires NormalRouter(m)
    ensures MergeRouters(m, m) == Ok(m)
  {
    hide ID, NormalNeighbor, NormalEvpn, NameSorted, StrSorted, RoutersClash, WfNeighbor, MergeRouters, SameSaid, First;
    NormalIsConsistent(m);
    SelfMergeNormalises(m);
    var v := MergeRouters(m, m).value;
    SelfMergeSaysSame(m, v);
    forall n, k | n in v.neighbors && k in m.neighbors && ID(n) == ID(k) ensures FirstWins(n, k) {
      FirstOfTwo(m.neighbors, n, k);
    }
    RouterUnique(v, m);
    SameButRestart(v, m);
  }

  lemma SameButRestart(v: Router, m: Router)
    requires ScrubRouter(v) == ScrubRouter(m)
    requires forall n, k | n in v.neighbors && k in m.neighbors && ID(n) == ID(k) :: FirstWins(n, k)
    ensures v == m
  {
    var a, b := v.neighbors, m.neighbors;
    assert ScrubAll(a) == ScrubAll(b);
    assert |a| == |ScrubAll(a)| && |b| == |ScrubAll(b)|;
    forall i | 0 <= i < |a| ensures a[i] == b[i] {
      assert Scrub(a[i]) == ScrubAll(a)[i] == ScrubAll(b)[i] == Scrub(b[i]);
      ScrubKeepsID(a[i]); ScrubKeepsID(b[i]);
      assert a[i] in a && b[i] in b;
      assert FirstWins(a[i], b[i]);
    }
    assert a == b;
  }

  /** In normal form, being compatible up to defaults is being equal. */
  lemma NormalComparesPlainly(a: Neighbor, b: Neighbor)
    requires NormalNeighbor(a) && NormalNeighbor(b)
    ensures PtrsEqual(a.port, b.port, DEFAULT_PORT) <==> a.port == b.port
    ensures PtrsEqual(a.holdTime, b.holdTime, DEFAULT_HOLD_TIME) <==> a.holdTime == b.holdTime
    ensures PtrsEqual(a.keepaliveTime, b.keepaliveTime, DEFAULT_KEEPALIVE_TIME) <==> a.keepaliveTime == b.keepaliveTime
    ensures PtrsEqual(a.connectTime, b.connectTime, DEFAULT_CONNECT_TIME) <==> a.connectTime == b.connectTime
  {
    hide NormalOut, NormalIn, StrSorted;
  }

  /** The conversion sets both timers or none. */
  predicate TimersPaired(n: Neighbor) { n.holdTime.Some? <==> n.keepaliveTime.Some? }

  /**
   * Clearing defaults one by one does not change what the timers mean.  It leaves one of two timers
   * without the other if and only if exactly one of them has its default.
   */
  lemma CleanDefaultsKeepsMeaning(n: Neighbor)
    ensures SessionOf(CleanDefaults(n)) == SessionOf(n)
    ensures TimersPaired(n) ==>
              (TimersPaired(CleanDefaults(n)) <==>
                 ((n.holdTime == Some(DEFAULT_HOLD_TIME)) == (n.keepaliveTime == Some(DEFAULT_KEEPALIVE_TIME))))
  {}

  const UNICAST := "unicast"

  /** The template activates unicast when it is listed, and when nothing is. */
  predicate ActivatesUnicast(n: Neighbor) { n.addressFamilies == [] || UNICAST in n.addressFamilies }

  /**
   * Address families are merged as plain sets, so a neighbor whose empty list meant unicast loses
   * it to one that lists others: activation is the union if and only if that does not happen.
   */
  lemma UnicastMerged(d: Neighbor, s: Neighbor)
    requires MergeNeighbors(d, s).Ok?
    ensures (ActivatesUnicast(MergeNeighbors(d, s).value) <==> ActivatesUnicast(d) || ActivatesUnicast(s)) <==>
            ((d.addressFamilies == []) == (s.addressFamilies == []) || UNICAST in d.addressFamilies ||
             UNICAST in s.addressFamilies)
  {
    hide MergeAllowedOut, MergeAllowedIn, NeighborsCompatible, Union;
    var a, b := d.addressFamilies, s.addressFamilies;
    var u := Union(a, b);
    assert MergeNeighbors(d, s).value.addressFamilies == u;
    if a != [] { assert a[0] in u; }
    if b != [] { assert b[0] in u; }
    if u != [] { assert u[0] in a || u[0] in b; }
  }

  /** It does happen: one neighbor lists nothing, the other only EVPN. */
  lemma UnicastLost()
    ensures var d, s := SILENT, SILENT.(addressFamilies := ["evpn"]);
            MergeNeighbors(d, s).Ok? && ActivatesUnicast(d) && !ActivatesUnicast(MergeNeighbors(d, s).value)
  {
    hide MergeAllowedIn, MergeAllowedOut, MergeNeighbors;
    var d, s := SILENT, SILENT.(addressFamilies := ["evpn"]);
    MergeNeighborsOk(d, s);
    UnicastMerged(d, s);
  }
}

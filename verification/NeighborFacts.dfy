/** Merging neighbors: one into another, and a whole list by ID. */
module NeighborFacts {
  import opened Configs
  import opened Merge
  import opened Facts
  import opened MergeFacts

  // ---- one neighbor into another

  ghost predicate PeersClash(a: Neighbor, b: Neighbor) {
    exists f, g :: NeighborSays(a, f) && NeighborSays(b, g) && PeerConflict(f, g)
  }

  /** The absence of a clash, written out field by field. */
  ghost predicate Agree(a: Neighbor, b: Neighbor) {
    && SessionOf(a) == SessionOf(b)
    && FlatAgree(a.bfdProfile, b.bfdProfile)
    && OutAgree(a.outgoing, b.outgoing)
  }

  lemma AgreeIsNoClash(a: Neighbor, b: Neighbor)
    ensures Agree(a, b) <==> !PeersClash(a, b)
  {
    if !Agree(a, b) { DisagreeClashes(a, b); }
    if PeersClash(a, b) {
      var f, g :| NeighborSays(a, f) && NeighborSays(b, g) && PeerConflict(f, g);
    }
  }

  lemma ClashWitness(a: Neighbor, b: Neighbor, f: PeerFact, g: PeerFact)
    requires NeighborSays(a, f) && NeighborSays(b, g) && PeerConflict(f, g)
    ensures PeersClash(a, b)
  {}

  lemma DisagreeClashes(a: Neighbor, b: Neighbor)
    requires !Agree(a, b)
    ensures PeersClash(a, b)
  {
    hide PeersClash, SessionOf, TaggedIn;
    var o, p := a.outgoing, b.outgoing;
    if SessionOf(a) != SessionOf(b) {
      ClashWitness(a, b, HasSession(SessionOf(a)), HasSession(SessionOf(b)));
    } else if !FlatAgree(a.bfdProfile, b.bfdProfile) {
      ClashWitness(a, b, UsesBfd(a.bfdProfile), UsesBfd(b.bfdProfile));
    } else if !FlatAgree(o.nextHopV4, p.nextHopV4) {
      ClashWitness(a, b, NextHop(false, o.nextHopV4), NextHop(false, p.nextHopV4));
    } else if !FlatAgree(o.nextHopV6, p.nextHopV6) {
      ClashWitness(a, b, NextHop(true, o.nextHopV6), NextHop(true, p.nextHopV6));
    } else {
      var f, g, x, y, q :| TaggedIn(o.localPrefs, f, LocalPref(x), q) && TaggedIn(p.localPrefs, g, LocalPref(y), q) &&
          x != y;
      ClashWitness(a, b, Tagged(f, LocalPref(x), q), Tagged(g, LocalPref(y), q));
    }
  }

  lemma MergeNeighborsOk(d: Neighbor, s: Neighbor)
    requires WfNeighbor(d) && WfNeighbor(s) && ID(d) == ID(s)
    ensures MergeNeighbors(d, s).Ok? <==> Agree(d, s)
  {
    hide ListsOk, SamePref, MergeAllowedOut, MergeAllowedIn, CleanDefaults, ID, Union;
    MergeAllowedOutOk(d.outgoing, s.outgoing, ID(d));
  }

  /** Fields no merge compares or joins: the first neighbor's value stays. */
  ghost predicate FirstWins(m: Neighbor, d: Neighbor) {
    && m.name == d.name && m.addr == d.addr && m.iface == d.iface && m.vrf == d.vrf && m.asn == d.asn
    && m.gracefulRestart == d.gracefulRestart && m.alwaysBlock == d.alwaysBlock
  }

  ghost predicate NeighborJoin(m: Neighbor, d: Neighbor, s: Neighbor) {
    && FirstWins(m, d)
    && (forall f: PeerFact | !f.Accepts? :: NeighborSays(m, f) <==> NeighborSays(d, f) || NeighborSays(s, f))
    && InJoin(m.incoming, d.incoming, s.incoming)
  }

  lemma MergeNeighborsWf(d: Neighbor, s: Neighbor)
    requires WfNeighbor(d) && WfNeighbor(s) && ID(d) == ID(s) && Agree(d, s)
    ensures MergeNeighbors(d, s).Ok?
    ensures var m := MergeNeighbors(d, s).value;
            && WfNeighbor(m) && NormalNeighbor(m) && FirstWins(m, d) && SessionOf(m) == SessionOf(d)
            && m.bfdProfile == FlatJoin(d.bfdProfile, s.bfdProfile)
            && (forall a :: a in m.addressFamilies <==> a in d.addressFamilies || a in s.addressFamilies)
            && OutJoin(m.outgoing, d.outgoing, s.outgoing)
            && InJoin(m.incoming, d.incoming, s.incoming)
  {
    hide ListsOk, SamePref, MergeAllowedOut, MergeAllowedIn, Union, OutJoin, InJoin, NormalOut, NormalIn;
    MergeNeighborsOk(d, s);
    MergeAllowedOutFacts(d.outgoing, s.outgoing, ID(d));
    MergeAllowedInFacts(d.incoming, s.incoming);
    InJoinAll(MergeAllowedIn(d.incoming, s.incoming), d.incoming, s.incoming);
  }

  lemma InJoinAll(m: AllowedIn, r: AllowedIn, t: AllowedIn)
    requires InJoin(m, r, t)
    ensures m.all ==> m.v4 == [] && m.v6 == []
    ensures m.all <==> r.all || t.all
  {}

  lemma JoinSays(m: Neighbor, d: Neighbor, s: Neighbor, f: PeerFact)
    requires Agree(d, s) && !f.Accepts?
    requires SessionOf(m) == SessionOf(d) && m.bfdProfile == FlatJoin(d.bfdProfile, s.bfdProfile)
    requires forall a :: a in m.addressFamilies <==> a in d.addressFamilies || a in s.addressFamilies
    requires OutJoin(m.outgoing, d.outgoing, s.outgoing) && InJoin(m.incoming, d.incoming, s.incoming)
    ensures NeighborSays(m, f) <==> NeighborSays(d, f) || NeighborSays(s, f)
  {
    hide SamePref, TaggedIn, SessionOf;
    if f.Tagged? {
      assert forall o :: OutTagged(o, f.family, f.tag, f.prefix) <==>
          TaggedIn(Lists(o, f.tag), f.family, f.tag, f.prefix);
    }
  }

  lemma MergeNeighborsFacts(d: Neighbor, s: Neighbor)
    requires WfNeighbor(d) && WfNeighbor(s) && ID(d) == ID(s)
    ensures MergeNeighbors(d, s).Ok? <==> !PeersClash(d, s)
    ensures MergeNeighbors(d, s).Ok? ==>
              var m := MergeNeighbors(d, s).value;
              WfNeighbor(m) && NormalNeighbor(m) && ID(m) == ID(d) && NeighborJoin(m, d, s)
  {
    hide WfNeighbor, NormalNeighbor, NeighborSays, PeersClash, Agree, MergeNeighbors, SessionOf, OutJoin, InJoin;
    MergeNeighborsOk(d, s);
    AgreeIsNoClash(d, s);
    if MergeNeighbors(d, s).Ok? {
      var m := MergeNeighbors(d, s).value;
      MergeNeighborsWf(d, s);
      forall f: PeerFact | !f.Accepts? ensures NeighborSays(m, f) <==> NeighborSays(d, f) || NeighborSays(s, f) {
        JoinSays(m, d, s, f);
      }
    }
  }

  // ---- a list of neighbors, by ID

  ghost predicate WfNeighbors(ns: seq<Neighbor>) { forall n | n in ns :: WfNeighbor(n) }

  ghost predicate NoClash(ns: seq<Neighbor>) {
    forall i, j | 0 <= i < j < |ns| && ID(ns[i]) == ID(ns[j]) :: !PeersClash(ns[i], ns[j])
  }

  ghost predicate ClashesWithSome(ns: seq<Neighbor>, n: Neighbor) {
    exists k :: k in ns && ID(k) == ID(n) && PeersClash(k, n)
  }

  ghost predicate HasID(ns: seq<Neighbor>, id: string) { exists n :: n in ns && ID(n) == id }

  ghost predicate Repeated(ns: seq<Neighbor>, id: string) {
    exists i, j :: 0 <= i < j < |ns| && ID(ns[i]) == id && ID(ns[j]) == id
  }

  ghost predicate ListsFilter(ns: seq<Neighbor>, id: string, v6: bool, x: Filter) {
    exists n :: n in ns && ID(n) == id && x in Filters(n.incoming, v6)
  }

  /** No two descriptions of the neighbor hide each other's filters behind a shared key. */
  ghost predicate FiltersAgree(ns: seq<Neighbor>, id: string) {
    forall n, k | n in ns && k in ns && ID(n) == id && ID(k) == id :: KeysAgree(n.incoming, k.incoming)
  }

  /** `d` is the first neighbor listed under its ID. */
  ghost predicate FirstListed(ns: seq<Neighbor>, d: Neighbor) {
    exists i :: 0 <= i < |ns| && ns[i] == d && forall j | 0 <= j < i :: ID(ns[j]) != ID(d)
  }

  ghost predicate First(ns: seq<Neighbor>, m: Neighbor) {
    exists d :: FirstListed(ns, d) && FirstWins(m, d)
  }

  /** `m` is the neighbor that stands for all the ones listed under `id`. */
  ghost predicate Stands(m: Neighbor, ns: seq<Neighbor>, id: string) {
    && ID(m) == id && WfNeighbor(m) && First(ns, m)
    && (forall f: PeerFact | !f.Accepts? :: NeighborSays(m, f) <==> PeerSays(ns, id, f))
    && (forall v6, x | x in Filters(m.incoming, v6) :: ListsFilter(ns, id, v6, x))
    && (FiltersAgree(ns, id) && !m.incoming.all ==>
        forall v6, x | ListsFilter(ns, id, v6, x) :: x in Filters(m.incoming, v6))
    && (Repeated(ns, id) || (forall n | n in ns :: NormalNeighbor(n)) ==> NormalNeighbor(m))
    && (Repeated(ns, id) || m in ns)
  }

  ghost predicate FoldInv(m: map<string, Neighbor>, ns: seq<Neighbor>) {
    && (forall id :: id in m <==> HasID(ns, id))
    && (forall id | id in m :: Stands(m[id], ns, id))
  }

  lemma StandsClash(m: Neighbor, ns: seq<Neighbor>, n: Neighbor)
    requires Stands(m, ns, ID(n))
    ensures PeersClash(m, n) <==> ClashesWithSome(ns, n)
  {
    hide ID, NeighborSays, First, FirstListed, ListsFilter, FiltersAgree, Repeated, NormalNeighbor, WfNeighbor;
    if PeersClash(m, n) {
      var f, g :| NeighborSays(m, f) && NeighborSays(n, g) && PeerConflict(f, g);
      assert PeerSays(ns, ID(n), f);
      var k :| k in ns && ID(k) == ID(n) && NeighborSays(k, f);
      ClashWitness(k, n, f, g);
    }
    if ClashesWithSome(ns, n) {
      var k :| k in ns && ID(k) == ID(n) && PeersClash(k, n);
      var f, g :| NeighborSays(k, f) && NeighborSays(n, g) && PeerConflict(f, g);
      assert PeerSays(ns, ID(n), f);
    }
  }

  lemma NoClashStep(ns: seq<Neighbor>, n: Neighbor)
    ensures NoClash(ns + [n]) <==> NoClash(ns) && !ClashesWithSome(ns, n)
  {
    hide ID, PeersClash;
    var all := ns + [n];
    if ClashesWithSome(ns, n) {
      var k :| k in ns && ID(k) == ID(n) && PeersClash(k, n);
      var i :| 0 <= i < |ns| && ns[i] == k;
      assert all[i] == k && all[|ns|] == n;
      assert !NoClash(all);
    }
    if NoClash(all) {
      forall i, j | 0 <= i < j < |ns| && ID(ns[i]) == ID(ns[j]) ensures !PeersClash(ns[i], ns[j]) {
        assert all[i] == ns[i] && all[j] == ns[j];
      }
    }
    if NoClash(ns) && !ClashesWithSome(ns, n) {
      forall i, j | 0 <= i < j < |all| && ID(all[i]) == ID(all[j]) ensures !PeersClash(all[i], all[j]) {
        assert all[i] == ns[i] && all[i] in ns;
      }
    }
  }

  lemma RepeatedOther(ns: seq<Neighbor>, id: string, n: Neighbor)
    requires ID(n) != id
    ensures Repeated(ns + [n], id) <==> Repeated(ns, id)
  {
    hide ID;
    var all := ns + [n];
    if Repeated(all, id) {
      var i, j :| 0 <= i < j < |all| && ID(all[i]) == id && ID(all[j]) == id;
      assert all[i] == ns[i] && all[j] == ns[j];
    }
    if Repeated(ns, id) {
      var i, j :| 0 <= i < j < |ns| && ID(ns[i]) == id && ID(ns[j]) == id;
      assert all[i] == ns[i] && all[j] == ns[j];
    }
  }

  lemma FiltersAgreePrefix(ns: seq<Neighbor>, n: Neighbor, id: string)
    requires FiltersAgree(ns + [n], id)
    ensures FiltersAgree(ns, id)
    ensures ID(n) == id ==> KeysAgree(n.incoming, n.incoming)
    ensures ID(n) == id ==> forall k | k in ns && ID(k) == id :: KeysAgree(k.incoming, n.incoming)
  {
    hide ID, KeysAgree;
    assert forall k | k in ns :: k in ns + [n];
    assert n in ns + [n];
  }

  lemma PeerSaysStep(ns: seq<Neighbor>, n: Neighbor, id: string, f: PeerFact)
    ensures PeerSays(ns + [n], id, f) <==> PeerSays(ns, id, f) || (ID(n) == id && NeighborSays(n, f))
  {
    hide ID, NeighborSays;
    assert n in ns + [n];
    assert forall k :: k in ns + [n] <==> k in ns || k == n;
  }

  lemma ListsFilterStep(ns: seq<Neighbor>, n: Neighbor, id: string, v6: bool, x: Filter)
    ensures ListsFilter(ns + [n], id, v6, x) <==>
              ListsFilter(ns, id, v6, x) || (ID(n) == id && x in Filters(n.incoming, v6))
  {
    hide ID, Filters;
    assert n in ns + [n];
    assert forall k :: k in ns + [n] <==> k in ns || k == n;
  }

  /** A neighbor under another ID changes nothing. */
  lemma StandsOther(m: Neighbor, ns: seq<Neighbor>, id: string, n: Neighbor)
    requires Stands(m, ns, id) && ID(n) != id
    ensures Stands(m, ns + [n], id)
  {
    hide ID, NeighborSays, NormalNeighbor, WfNeighbor, First, FiltersAgree, ListsFilter, PeerSays, Repeated, Filters;
    var all := ns + [n];
    assert forall k | k in ns :: k in all;
    FirstKept(ns, n, m);
    RepeatedOther(ns, id, n);
    forall f: PeerFact ensures PeerSays(all, id, f) <==> PeerSays(ns, id, f) { PeerSaysStep(ns, n, id, f); }
    forall v6, x
      ensures ListsFilter(all, id, v6, x) <==> ListsFilter(ns, id, v6, x)
    {
      ListsFilterStep(ns, n, id, v6, x);
    }
    if FiltersAgree(all, id) { FiltersAgreePrefix(ns, n, id); }
  }

  lemma FirstKept(ns: seq<Neighbor>, n: Neighbor, m: Neighbor)
    requires First(ns, m)
    ensures First(ns + [n], m)
  {
    hide ID, FirstWins;
    var d :| FirstListed(ns, d) && FirstWins(m, d);
    var i :| 0 <= i < |ns| && ns[i] == d && forall j | 0 <= j < i :: ID(ns[j]) != ID(d);
    var all := ns + [n];
    assert all[i] == d;
    forall j | 0 <= j < i ensures ID(all[j]) != ID(d) { assert all[j] == ns[j]; }
    assert FirstListed(all, d);
  }

  lemma StandsNew(ns: seq<Neighbor>, n: Neighbor)
    requires WfNeighbor(n) && !HasID(ns, ID(n))
    ensures Stands(n, ns + [n], ID(n))
  {
    hide ID, NeighborSays, NormalNeighbor, WfNeighbor, KeysAgree;
    var all := ns + [n];
    assert forall k :: k in all <==> k in ns || k == n;
    assert all[|ns|] == n;
    forall j | 0 <= j < |ns| ensures ID(all[j]) != ID(n) { assert all[j] in ns; }
    assert FirstListed(all, n);
    assert First(all, n);
    assert !Repeated(all, ID(n));
  }

  /** Merging one more description of the neighbor into the one that stands for the earlier ones. */
  lemma StandsMerged(d: Neighbor, ns: seq<Neighbor>, n: Neighbor, m: Neighbor)
    requires Stands(d, ns, ID(n)) && HasID(ns, ID(n)) && WfNeighbor(n)
    requires WfNeighbor(m) && NormalNeighbor(m) && ID(m) == ID(d) && NeighborJoin(m, d, n)
    requires MergeNeighbors(d, n) == Ok(m)
    ensures Stands(m, ns + [n], ID(n))
  {
    hide ID, NeighborSays, NormalNeighbor, WfNeighbor, MergeNeighbors, FirstWins, InJoin, First, ListsFilter, PeerSays,
         FiltersAgree, Filters, Repeated;
    var all, id := ns + [n], ID(n);
    FirstOf(m, d, ns);
    FirstKept(ns, n, m);
    forall f: PeerFact
      ensures PeerSays(all, id, f) <==> PeerSays(ns, id, f) || NeighborSays(n, f)
    {
      PeerSaysStep(ns, n, id, f);
    }
    FiltersMerged(d, ns, n, m);
    RepeatedStep(ns, n);
  }

  lemma RepeatedStep(ns: seq<Neighbor>, n: Neighbor)
    requires HasID(ns, ID(n))
    ensures Repeated(ns + [n], ID(n))
  {
    hide ID;
    var all := ns + [n];
    var k :| k in ns && ID(k) == ID(n);
    var i :| 0 <= i < |ns| && ns[i] == k;
    assert all[i] == k && all[|ns|] == n;
  }

  lemma FirstOf(m: Neighbor, d: Neighbor, ns: seq<Neighbor>)
    requires First(ns, d) && FirstWins(m, d)
    ensures First(ns, m)
  {
    var e :| FirstListed(ns, e) && FirstWins(d, e);
    assert FirstWins(m, e);
  }

  /** Filters that come from descriptions which agree on keys agree on keys. */
  lemma ListedAgree(d: AllowedIn, e: AllowedIn, ns: seq<Neighbor>, id: string)
    requires FiltersAgree(ns, id)
    requires forall v6, x | x in Filters(d, v6) || x in Filters(e, v6) :: ListsFilter(ns, id, v6, x)
    ensures KeysAgree(d, e)
  {
    hide ID, Filters, FilterKey;
    forall v6, x, y | x in Filters(d, v6) && y in Filters(e, v6) && FilterKey(x) == FilterKey(y) ensures x == y {
      var k :| k in ns && ID(k) == id && x in Filters(k.incoming, v6);
      var l :| l in ns && ID(l) == id && y in Filters(l.incoming, v6);
      assert KeysAgree(k.incoming, l.incoming);
    }
  }

  lemma FiltersMerged(d: Neighbor, ns: seq<Neighbor>, n: Neighbor, m: Neighbor)
    requires Stands(d, ns, ID(n))
    requires InJoin(m.incoming, d.incoming, n.incoming) && MergeNeighbors(d, n) == Ok(m)
    ensures forall v6, x | x in Filters(m.incoming, v6) :: ListsFilter(ns + [n], ID(n), v6, x)
    ensures FiltersAgree(ns + [n], ID(n)) && !m.incoming.all ==>
              forall v6, x | ListsFilter(ns + [n], ID(n), v6, x) :: x in Filters(m.incoming, v6)
  {
    hide ID, NeighborSays, NormalNeighbor, WfNeighbor, First, MergeAllowedIn, MergeNeighbors, Filters, KeysAgree,
         ListsFilter, FiltersAgree, PeerSays, Repeated;
    var all, id := ns + [n], ID(n);
    forall v6, x ensures ListsFilter(all, id, v6, x) <==> ListsFilter(ns, id, v6, x) || x in Filters(n.incoming, v6) {
      ListsFilterStep(ns, n, id, v6, x);
    }
    if FiltersAgree(all, id) && !m.incoming.all {
      FiltersAgreePrefix(ns, n, id);
      MergedIncoming(d, n);
      ListedAgree(d.incoming, d.incoming, all, id);
      ListedAgree(d.incoming, n.incoming, all, id);
      forall v6, x | ListsFilter(all, id, v6, x) ensures x in Filters(m.incoming, v6) {
        MergeAllowedInKeeps(d.incoming, n.incoming, v6, x);
      }
    }
  }

  lemma MergedIncoming(d: Neighbor, n: Neighbor)
    requires MergeNeighbors(d, n).Ok?
    ensures MergeNeighbors(d, n).value.incoming == MergeAllowedIn(d.incoming, n.incoming)
  {
    hide MergeAllowedIn, MergeAllowedOut, ID, Union;
  }

  lemma HasIDStep(ns: seq<Neighbor>, n: Neighbor, id: string)
    ensures HasID(ns + [n], id) <==> HasID(ns, id) || ID(n) == id
  {
    assert n in ns + [n];
    assert forall k :: k in ns + [n] <==> k in ns || k == n;
  }

  lemma FoldStep(m: map<string, Neighbor>, ns: seq<Neighbor>, n: Neighbor, x: Neighbor)
    requires FoldInv(m, ns) && Stands(x, ns + [n], ID(n))
    ensures FoldInv(m[ID(n) := x], ns + [n])
  {
    hide ID, Stands, HasID;
    forall id ensures id in m[ID(n) := x] <==> HasID(ns + [n], id) { HasIDStep(ns, n, id); }
    forall id | id in m && id != ID(n) ensures Stands(m[id], ns + [n], id) { StandsOther(m[id], ns, id, n); }
  }

  /** One more neighbor: the fold goes on exactly when it clashes with none of the earlier ones. */
  lemma FoldOne(m: map<string, Neighbor>, ns: seq<Neighbor>, n: Neighbor)
    requires FoldInv(m, ns) && WfNeighbor(n)
    ensures ID(n) !in m ==> !ClashesWithSome(ns, n) && FoldInv(m[ID(n) := n], ns + [n])
    ensures ID(n) in m ==> (MergeNeighbors(m[ID(n)], n).Ok? <==> !ClashesWithSome(ns, n))
    ensures ID(n) in m && MergeNeighbors(m[ID(n)], n).Ok? ==>
              FoldInv(m[ID(n) := MergeNeighbors(m[ID(n)], n).value], ns + [n])
  {
    hide ID, Stands, HasID, WfNeighbor, MergeNeighbors, ClashesWithSome, PeersClash;
    if ID(n) in m {
      StandsClash(m[ID(n)], ns, n);
      MergeStanding(m[ID(n)], ns, n);
      if MergeNeighbors(m[ID(n)], n).Ok? { FoldStep(m, ns, n, MergeNeighbors(m[ID(n)], n).value); }
    } else {
      NobodyClashes(ns, n);
      StandsNew(ns, n);
      FoldStep(m, ns, n, n);
    }
  }

  lemma FoldNothing()
    ensures FoldNeighbors([]) == Ok(map[]) && NoClash([]) && FoldInv(map[], [])
  {
    hide Stands, ID, PeersClash;
  }

  lemma {:induction false} FoldNeighborsFacts(ns: seq<Neighbor>)
    requires WfNeighbors(ns)
    ensures FoldNeighbors(ns).Ok? <==> NoClash(ns)
    ensures FoldNeighbors(ns).Ok? ==> FoldInv(FoldNeighbors(ns).value, ns)
  {
    hide NoClash, FoldInv, WfNeighbor, FoldNeighbors;
    if ns == [] {
      FoldNothing();
    } else {
      var before, n := ns[..|ns| - 1], ns[|ns| - 1];
      FoldNeighborsFacts(before);
      FoldNeighborsLast(before, n);
      assert ns == before + [n];
    }
  }

  lemma FoldNeighborsLast(before: seq<Neighbor>, n: Neighbor)
    requires WfNeighbor(n)
    requires FoldNeighbors(before).Ok? <==> NoClash(before)
    requires FoldNeighbors(before).Ok? ==> FoldInv(FoldNeighbors(before).value, before)
    ensures var ns := before + [n];
            && (FoldNeighbors(ns).Ok? <==> NoClash(ns))
            && (FoldNeighbors(ns).Ok? ==> FoldInv(FoldNeighbors(ns).value, ns))
  {
    hide ID, NoClash, WfNeighbor, MergeNeighbors, ClashesWithSome, FoldInv;
    var ns := before + [n];
    assert ns[..|ns| - 1] == before && ns[|ns| - 1] == n;
    NoClashStep(before, n);
    if FoldNeighbors(before).Ok? { FoldOne(FoldNeighbors(before).value, before, n); }
  }

  lemma NobodyClashes(ns: seq<Neighbor>, n: Neighbor)
    requires !HasID(ns, ID(n))
    ensures !ClashesWithSome(ns, n)
  {}

  lemma MergeStanding(d: Neighbor, ns: seq<Neighbor>, n: Neighbor)
    requires Stands(d, ns, ID(n)) && HasID(ns, ID(n)) && WfNeighbor(n)
    ensures MergeNeighbors(d, n).Ok? <==> !PeersClash(d, n)
    ensures MergeNeighbors(d, n).Ok? ==> Stands(MergeNeighbors(d, n).value, ns + [n], ID(n))
  {
    hide ID, NormalNeighbor, WfNeighbor, NeighborJoin, MergeNeighbors, PeersClash;
    assert WfNeighbor(d) && ID(d) == ID(n);
    MergeNeighborsFacts(d, n);
    if MergeNeighbors(d, n).Ok? {
      StandsMerged(d, ns, n, MergeNeighbors(d, n).value);
    }
  }
}

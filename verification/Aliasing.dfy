/**
 * What `mergeNeighborsLists` does to objects.  The list may name an object more than once, as
 * when a router is merged with itself, and merging changes the first object of each ID while the
 * list is still being read.  Each of those objects nevertheless ends up standing for all the values
 * listed under its ID on entry.  When it also equals their merge is the subject of `Sharing`.
 */
module Aliasing {
  import opened Configs
  import opened Merge
  import opened Facts
  import opened MergeFacts
  import opened NeighborFacts
  import opened NormalForms
  import opened Normalising

  /** The object that stands for each ID, and what every object holds. */
  datatype Heap<K(==)> = Heap(dest: map<string, K>, store: map<K, Neighbor>)

  /** The loop of `mergeNeighborsLists` over the objects `all`, starting from the contents `store`. */
  ghost function Exec<K>(all: seq<K>, store: map<K, Neighbor>): (r: Result<Heap<K>>)
    requires Stored(all, store)
    ensures r.Ok? ==> r.value.store.Keys == store.Keys && forall id | id in r.value.dest :: r.value.dest[id] in store
  {
    if all == [] then Ok(Heap(map[], store))
    else
      var h :- Exec(all[..|all| - 1], store);
      ExecOne(h, all[|all| - 1])
  }

  ghost predicate Stored<K>(all: seq<K>, store: map<K, Neighbor>) { forall k | k in all :: k in store }

  ghost predicate Ready<K>(h: Heap<K>, x: K) { x in h.store && forall id | id in h.dest :: h.dest[id] in h.store }

  ghost function ExecOne<K>(h: Heap<K>, x: K): (r: Result<Heap<K>>)
    requires Ready(h, x)
    ensures r.Ok? ==>
              r.value.store.Keys == h.store.Keys && forall id | id in r.value.dest :: r.value.dest[id] in h.store
  {
    var id := ID(h.store[x]);
    if id !in h.dest then Ok(h.(dest := h.dest[id := x]))
    else
      var merged :- MergeNeighbors(h.store[h.dest[id]], h.store[x]);
      Ok(h.(store := h.store[h.dest[id] := merged]))
  }

  /** The values the listed objects held on entry. */
  ghost function Vals<K>(all: seq<K>, store: map<K, Neighbor>): (vs: seq<Neighbor>)
    requires Stored(all, store)
    ensures |vs| == |all| && forall i | 0 <= i < |all| :: vs[i] == store[all[i]]
  {
    seq(|all|, i requires 0 <= i < |all| => store[all[i]])
  }

  ghost predicate WfStore<K>(store: map<K, Neighbor>) { forall k | k in store :: WfNeighbor(store[k]) }

  /** `x` is the first listed object with its ID. */
  ghost predicate FirstObject<K>(all: seq<K>, store: map<K, Neighbor>, id: string, x: K)
    requires Stored(all, store)
  {
    exists i :: 0 <= i < |all| && all[i] == x && ID(store[x]) == id && forall j | 0 <= j < i :: ID(store[all[j]]) != id
  }

  /** The object that stands for each listed ID is the first one, and holds the join of the entry values. */
  ghost predicate DestInv<K>(h: Heap<K>, all: seq<K>, store: map<K, Neighbor>)
    requires Stored(all, store)
  {
    && (forall id :: id in h.dest <==> HasID(Vals(all, store), id))
    && (forall id | id in h.dest :: h.dest[id] in h.store && FirstObject(all, store, id, h.dest[id]) &&
          Stands(h.store[h.dest[id]], Vals(all, store), id))
  }

  /** No other object has changed, and none has changed its ID. */
  ghost predicate StoreInv<K>(h: Heap<K>, store: map<K, Neighbor>) {
    && h.store.Keys == store.Keys
    && (forall k | k in store :: ID(h.store[k]) == ID(store[k]))
    && (forall k | k in store && k !in h.dest.Values :: h.store[k] == store[k])
  }

  ghost predicate ExecInv<K>(h: Heap<K>, all: seq<K>, store: map<K, Neighbor>)
    requires Stored(all, store)
  {
    DestInv(h, all, store) && StoreInv(h, store)
  }

  // ---- one object

  lemma SelfStanding(m: Neighbor, ns: seq<Neighbor>, n: Neighbor)
    requires Stands(m, ns, ID(n)) && n in ns
    ensures MergeNeighbors(m, m).Ok?
    ensures Stands(MergeNeighbors(m, m).value, ns + [n], ID(n))
    ensures ID(MergeNeighbors(m, m).value) == ID(m)
  {
    hide ID, NeighborSays, NormalNeighbor, WfNeighbor, MergeNeighbors, First, FirstWins, ListsFilter, PeerSays,
         FiltersAgree, Filters, Repeated, InJoin, PeersClash;
    AgreesWithItself(m);
    MergeNeighborsFacts(m, m);
    var s, all, id := MergeNeighbors(m, m).value, ns + [n], ID(n);
    FirstOf(s, m, ns);
    FirstKept(ns, n, s);
    forall f: PeerFact ensures PeerSays(all, id, f) <==> PeerSays(ns, id, f) {
      PeerSaysStep(ns, n, id, f);
      PeerSaysMember(ns, n, f);
    }
    SelfFilters(m, ns, n, s);
    HasIDMember(ns, n);
    RepeatedStep(ns, n);
  }

  lemma HasIDMember(ns: seq<Neighbor>, n: Neighbor)
    requires n in ns
    ensures HasID(ns, ID(n))
  {}

  lemma PeerSaysMember(ns: seq<Neighbor>, n: Neighbor, f: PeerFact)
    requires n in ns
    ensures NeighborSays(n, f) ==> PeerSays(ns, ID(n), f)
  {
    hide NeighborSays;
  }

  lemma SelfFilters(m: Neighbor, ns: seq<Neighbor>, n: Neighbor, s: Neighbor)
    requires Stands(m, ns, ID(n)) && n in ns && MergeNeighbors(m, m) == Ok(s) &&
              InJoin(s.incoming, m.incoming, m.incoming)
    ensures forall v6, x | x in Filters(s.incoming, v6) :: ListsFilter(ns + [n], ID(n), v6, x)
    ensures FiltersAgree(ns + [n], ID(n)) && !s.incoming.all ==>
              forall v6, x | ListsFilter(ns + [n], ID(n), v6, x) :: x in Filters(s.incoming, v6)
  {
    hide ID, NeighborSays, NormalNeighbor, WfNeighbor, MergeNeighbors, MergeAllowedIn, First, KeysAgree, FiltersAgree,
         Filters, Repeated, PeerSays;
    var all, id := ns + [n], ID(n);
    forall v6, x
      ensures ListsFilter(all, id, v6, x) <==> ListsFilter(ns, id, v6, x)
    {
      ListsFilterStep(ns, n, id, v6, x);
    }
    if FiltersAgree(all, id) && !s.incoming.all {
      FiltersAgreePrefix(ns, n, id);
      MergedIncoming(m, m);
      ListedAgree(m.incoming, m.incoming, ns, id);
      forall v6, x | ListsFilter(all, id, v6, x) ensures x in Filters(s.incoming, v6) {
        MergeAllowedInKeeps(m.incoming, m.incoming, v6, x);
      }
    }
  }

  lemma NoClashMember(ns: seq<Neighbor>, n: Neighbor)
    requires NoClash(ns) && n in ns && WfNeighbor(n)
    ensures NoClash(ns + [n])
  {
    hide ID, PeersClash, WfNeighbor, NoClash;
    NoClashStep(ns, n);
    forall k | k in ns && ID(k) == ID(n) ensures !PeersClash(k, n) { NoClashPair(ns, k, n); }
  }

  lemma NoClashPair(ns: seq<Neighbor>, k: Neighbor, n: Neighbor)
    requires NoClash(ns) && n in ns && k in ns && ID(k) == ID(n) && WfNeighbor(n)
    ensures !PeersClash(k, n)
  {
    hide ID, WfNeighbor, NeighborSays;
    var i :| 0 <= i < |ns| && ns[i] == k;
    var j :| 0 <= j < |ns| && ns[j] == n;
    if i == j {
      AgreesWithItself(n);
    } else if j < i {
      if PeersClash(k, n) {
        var f, g :| NeighborSays(k, f) && NeighborSays(n, g) && PeerConflict(f, g);
        ClashWitness(n, k, g, f);
      }
    }
  }

  lemma FirstObjectKept<K>(all: seq<K>, store: map<K, Neighbor>, id: string, y: K, x: K)
    requires Stored(all, store) && x in store && FirstObject(all, store, id, y)
    ensures FirstObject(all + [x], store, id, y)
  {
    hide ID;
    var i :| 0 <= i < |all| && all[i] == y && ID(store[y]) == id && forall j | 0 <= j < i :: ID(store[all[j]]) != id;
    var more := all + [x];
    assert more[i] == y && forall j | 0 <= j < i :: more[j] == all[j];
  }

  lemma FirstObjectNew<K>(all: seq<K>, store: map<K, Neighbor>, x: K)
    requires Stored(all, store) && x in store && !HasID(Vals(all, store), ID(store[x]))
    ensures FirstObject(all + [x], store, ID(store[x]), x)
  {
    hide ID;
    var more, id := all + [x], ID(store[x]);
    assert more[|all|] == x;
    forall j | 0 <= j < |all| ensures ID(store[more[j]]) != id {
      assert more[j] == all[j] && Vals(all, store)[j] in Vals(all, store);
    }
  }

  lemma ValsStep<K>(all: seq<K>, store: map<K, Neighbor>, x: K)
    requires Stored(all, store) && x in store
    ensures Vals(all + [x], store) == Vals(all, store) + [store[x]]
  {}

  /** After one step: `h'` is `h` with object `y` now holding `v` under the ID of `x`. */
  lemma DestStep<K>(h: Heap<K>, all: seq<K>, store: map<K, Neighbor>, x: K, y: K, v: Neighbor)
    requires Stored(all, store) && x in store && DestInv(h, all, store) && y in h.store
    requires FirstObject(all + [x], store, ID(store[x]), y) && Stands(v, Vals(all + [x], store), ID(store[x]))
    ensures DestInv(Heap(h.dest[ID(store[x]) := y], h.store[y := v]), all + [x], store)
  {
    hide ID, Stands, HasID, FirstObject, Vals;
    var id, more := ID(store[x]), all + [x];
    var h' := Heap(h.dest[id := y], h.store[y := v]);
    ValsStep(all, store, x);
    FirstObjectID(more, store, id, y);
    forall i ensures i in h'.dest <==> HasID(Vals(more, store), i) { HasIDStep(Vals(all, store), store[x], i); }
    forall i | i in h'.dest && i != id
      ensures h'.dest[i] in h'.store && FirstObject(more, store, i, h'.dest[i]) &&
                Stands(h'.store[h'.dest[i]], Vals(more, store), i) {
      FirstObjectKept(all, store, i, h.dest[i], x);
      FirstObjectID(all, store, i, h.dest[i]);
      StandsOther(h.store[h.dest[i]], Vals(all, store), i, store[x]);
    }
  }

  lemma StoreStep<K>(h: Heap<K>, store: map<K, Neighbor>, id: string, y: K, v: Neighbor)
    requires StoreInv(h, store) && y in store && ID(store[y]) == id && ID(v) == id
    requires id in h.dest ==> h.dest[id] == y
    ensures StoreInv(Heap(h.dest[id := y], h.store[y := v]), store)
  {
    hide ID;
    var h' := Heap(h.dest[id := y], h.store[y := v]);
    assert h'.dest[id] == y;
    forall i | i in h.dest ensures h.dest[i] in h'.dest.Values { assert i == id || h'.dest[i] == h.dest[i]; }
    assert h.dest.Values <= h'.dest.Values;
  }

  lemma ExecStep<K>(h: Heap<K>, all: seq<K>, store: map<K, Neighbor>, x: K, y: K, v: Neighbor)
    requires Stored(all, store) && x in store && ExecInv(h, all, store) && y in h.store
    requires FirstObject(all + [x], store, ID(store[x]), y) && Stands(v, Vals(all + [x], store), ID(store[x]))
    requires ID(store[x]) in h.dest ==> h.dest[ID(store[x])] == y
    ensures ExecInv(Heap(h.dest[ID(store[x]) := y], h.store[y := v]), all + [x], store)
  {
    hide ID, DestInv, Stands, FirstObject;
    StoreKeys(h, store);
    DestStep(h, all, store, x, y, v);
    FirstObjectID(all + [x], store, ID(store[x]), y);
    StandsID(v, Vals(all + [x], store), ID(store[x]));
    StoreStep(h, store, ID(store[x]), y, v);
  }

  lemma StoreKeys<K>(h: Heap<K>, store: map<K, Neighbor>)
    requires StoreInv(h, store)
    ensures h.store.Keys == store.Keys
  {}

  lemma FirstObjectID<K>(all: seq<K>, store: map<K, Neighbor>, id: string, x: K)
    requires Stored(all, store) && FirstObject(all, store, id, x)
    ensures x in all && ID(store[x]) == id
  {}

  lemma ExecNew<K>(h: Heap<K>, all: seq<K>, store: map<K, Neighbor>, x: K)
    requires Stored(all, store) && x in store && ExecInv(h, all, store) && WfNeighbor(store[x])
    requires ID(store[x]) !in h.dest
    ensures h.store[x] == store[x] && !ClashesWithSome(Vals(all, store), store[x])
    ensures ExecInv(h.(dest := h.dest[ID(store[x]) := x]), all + [x], store)
  {
    hide ID, Stands, HasID, FirstObject, WfNeighbor, ClashesWithSome, StoreInv;
    StoreKeys(h, store);
    NobodyClashes(Vals(all, store), store[x]);
    UnmergedObject(h, all, store, x);
    FirstObjectNew(all, store, x);
    StandsNew(Vals(all, store), store[x]);
    ValsStep(all, store, x);
    ExecStep(h, all, store, x, x, store[x]);
    assert h.store[x := store[x]] == h.store;
  }

  lemma ExecAgain<K>(h: Heap<K>, all: seq<K>, store: map<K, Neighbor>, x: K)
    requires Stored(all, store) && x in store && ExecInv(h, all, store) && x in h.store
    requires ID(store[x]) in h.dest && h.dest[ID(store[x])] == x
    ensures store[x] in Vals(all, store) && MergeNeighbors(h.store[x], h.store[x]).Ok?
    ensures ExecInv(h.(store := h.store[x := MergeNeighbors(h.store[x], h.store[x]).value]), all + [x], store)
  {
    hide ID, Stands, HasID, FirstObject, MergeNeighbors, StoreInv;
    var id := ID(store[x]);
    MemberOf(all, store, id, x);
    SelfStanding(h.store[x], Vals(all, store), store[x]);
    FirstObjectKept(all, store, id, x, x);
    ValsStep(all, store, x);
    ExecStep(h, all, store, x, x, MergeNeighbors(h.store[x], h.store[x]).value);
    assert h.dest[id := x] == h.dest;
  }

  lemma ExecOther<K>(h: Heap<K>, all: seq<K>, store: map<K, Neighbor>, x: K, y: K)
    requires Stored(all, store) && x in store && ExecInv(h, all, store) && WfNeighbor(store[x])
    requires ID(store[x]) in h.dest && h.dest[ID(store[x])] == y && y != x && y in h.store && x in h.store
    ensures h.store[x] == store[x]
    ensures MergeNeighbors(h.store[y], store[x]).Ok? <==> !ClashesWithSome(Vals(all, store), store[x])
    ensures MergeNeighbors(h.store[y], store[x]).Ok? ==>
              ExecInv(h.(store := h.store[y := MergeNeighbors(h.store[y], store[x]).value]), all + [x], store)
  {
    hide ID, Stands, HasID, FirstObject, MergeNeighbors, WfNeighbor, ClashesWithSome, PeersClash, StoreInv;
    var id, ns, n := ID(store[x]), Vals(all, store), store[x];
    UnmergedObject(h, all, store, x);
    StandsClash(h.store[y], ns, n);
    MergeStanding(h.store[y], ns, n);
    if MergeNeighbors(h.store[y], n).Ok? {
      FirstObjectKept(all, store, id, y, x);
      ValsStep(all, store, x);
      ExecStep(h, all, store, x, y, MergeNeighbors(h.store[y], n).value);
      assert h.dest[id := y] == h.dest;
    }
  }

  lemma ExecOneFacts<K>(h: Heap<K>, all: seq<K>, store: map<K, Neighbor>, x: K)
    requires Stored(all, store) && x in store && ExecInv(h, all, store) && WfStore(store) && NoClash(Vals(all, store))
    requires Ready(h, x)
    ensures ExecOne(h, x).Ok? <==> NoClash(Vals(all + [x], store))
    ensures ExecOne(h, x).Ok? ==> ExecInv(ExecOne(h, x).value, all + [x], store)
  {
    hide ID, NoClash, WfNeighbor, MergeNeighbors, Vals, ClashesWithSome, ExecInv;
    var id, ns, n := ID(store[x]), Vals(all, store), store[x];
    SameIDs(h, all, store, x);
    ValsStep(all, store, x);
    NoClashStep(ns, n);
    if id !in h.dest {
      ExecNew(h, all, store, x);
    } else if h.dest[id] == x {
      ExecAgain(h, all, store, x);
      NoClashMember(ns, n);
    } else {
      ExecOther(h, all, store, x, h.dest[id]);
    }
  }

  lemma SameIDs<K>(h: Heap<K>, all: seq<K>, store: map<K, Neighbor>, x: K)
    requires Stored(all, store) && x in store && ExecInv(h, all, store) && x in h.store
    ensures ID(h.store[x]) == ID(store[x])
  {
    hide ID, DestInv;
  }

  lemma StandsID(m: Neighbor, ns: seq<Neighbor>, id: string)
    requires Stands(m, ns, id)
    ensures ID(m) == id
  {}

  lemma MemberOf<K>(all: seq<K>, store: map<K, Neighbor>, id: string, x: K)
    requires Stored(all, store) && FirstObject(all, store, id, x)
    ensures store[x] in Vals(all, store)
  {
    var i :| 0 <= i < |all| && all[i] == x && ID(store[x]) == id && forall j | 0 <= j < i :: ID(store[all[j]]) != id;
    assert Vals(all, store)[i] == store[x];
  }

  /** An object that is not the one standing for its ID still holds its entry value. */
  lemma UnmergedObject<K>(h: Heap<K>, all: seq<K>, store: map<K, Neighbor>, x: K)
    requires Stored(all, store) && x in store && ExecInv(h, all, store)
    requires x in h.store && (ID(store[x]) in h.dest ==> h.dest[ID(store[x])] != x)
    ensures h.store[x] == store[x]
  {
    hide ID, Stands, HasID, FirstObject;
    if x in h.dest.Values {
      var i :| i in h.dest && h.dest[i] == x;
      FirstObjectID(all, store, i, h.dest[i]);
    }
  }

  // ---- the whole list

  lemma ExecNothing<K>(store: map<K, Neighbor>)
    ensures ExecInv(Heap(map[], store), [], store) && NoClash(Vals([], store))
  {
    hide ID, Stands;
  }

  /**
   * Whatever the list shares, the loop fails exactly when two of the entry values clash, only the
   * first object of each ID changes, and it ends up standing for all the entry values of its ID.
   */
  lemma {:induction false} ExecStands<K>(all: seq<K>, store: map<K, Neighbor>)
    requires Stored(all, store) && WfStore(store)
    ensures Exec(all, store).Ok? <==> NoClash(Vals(all, store))
    ensures Exec(all, store).Ok? ==> ExecInv(Exec(all, store).value, all, store)
  {
    hide ExecInv, NoClash, WfStore, ExecOne;
    if all == [] {
      ExecNothing(store);
    } else {
      var before, x := all[..|all| - 1], all[|all| - 1];
      assert all == before + [x];
      ExecStands(before, store);
      ValsStep(before, store, x);
      NoClashStep(Vals(before, store), store[x]);
      if Exec(before, store).Ok? { ExecOneFacts(Exec(before, store).value, before, store, x); }
    }
  }

  // ---- uniqueness

  lemma FirstUnique(ns: seq<Neighbor>, a: Neighbor, b: Neighbor)
    requires First(ns, a) && First(ns, b) && ID(a) == ID(b)
    ensures FirstWins(a, b)
  {
    var d :| FirstListed(ns, d) && FirstWins(a, d);
    var e :| FirstListed(ns, e) && FirstWins(b, e);
    var i :| 0 <= i < |ns| && ns[i] == d && forall j | 0 <= j < i :: ID(ns[j]) != ID(d);
    var j :| 0 <= j < |ns| && ns[j] == e && forall k | 0 <= k < j :: ID(ns[k]) != ID(e);
    assert ID(d) == ID(e);
    assert i == j;
  }

  lemma OnlyMember(ns: seq<Neighbor>, a: Neighbor, b: Neighbor)
    requires a in ns && b in ns && ID(a) == ID(b) && !Repeated(ns, ID(a))
    ensures a == b
  {
    hide ID;
    var i :| 0 <= i < |ns| && ns[i] == a;
    var j :| 0 <= j < |ns| && ns[j] == b;
  }

  /** Two neighbors that stand for the same list and hold the same filters are equal. */
  lemma StandsUnique(a: Neighbor, b: Neighbor, ns: seq<Neighbor>, id: string)
    requires Stands(a, ns, id) && Stands(b, ns, id) && SameFilters(a, b)
    ensures a == b
  {
    hide ID, NeighborSays, NormalNeighbor, WfNeighbor, First, ListsFilter, PeerSays, FiltersAgree, Filters, Repeated,
         SameFilters;
    if !Repeated(ns, id) {
      OnlyMember(ns, a, b);
    } else {
      FirstUnique(ns, a, b);
      NeighborUnique(a, b);
      assert a == Scrub(a).(gracefulRestart := a.gracefulRestart);
      assert b == Scrub(b).(gracefulRestart := b.gracefulRestart);
    }
  }

  lemma AgreeingFiltersSame(a: Neighbor, b: Neighbor, ns: seq<Neighbor>, id: string)
    requires Stands(a, ns, id) && Stands(b, ns, id) && FiltersAgree(ns, id)
    ensures SameFilters(a, b)
  {
    hide ID, NormalNeighbor, First, ListsFilter, FiltersAgree, Repeated, ListsOk, SamePref;
    assert NeighborSays(a, AcceptsAll) <==> NeighborSays(b, AcceptsAll);
    SaysAll(a); SaysAll(b);
  }

  /**
   * Any sharing: if no filter hides another behind its key, the loop on objects computes the
   * merge of the entry values.
   */
  lemma AliasedMergeIsPure<K>(all: seq<K>, store: map<K, Neighbor>)
    requires Stored(all, store) && WfStore(store)
    ensures Exec(all, store).Ok? <==> FoldNeighbors(Vals(all, store)).Ok?
    ensures Exec(all, store).Ok? && (forall id :: FiltersAgree(Vals(all, store), id)) ==>
              SameOutcome(Exec(all, store).value, FoldNeighbors(Vals(all, store)).value)
  {
    hide ID, Stands, HasID, NoClash, FirstObject, WfNeighbor, FiltersAgree, Exec, FoldNeighbors;
    var vs := Vals(all, store);
    AllWf(all, store);
    ExecStands(all, store);
    FoldNeighborsFacts(vs);
    if Exec(all, store).Ok? && forall id :: FiltersAgree(vs, id) {
      var h, m := Exec(all, store).value, FoldNeighbors(vs).value;
      forall id | id in h.dest ensures h.store[h.dest[id]] == m[id] {
        AgreeingFiltersSame(h.store[h.dest[id]], m[id], vs, id);
        StandsUnique(h.store[h.dest[id]], m[id], vs, id);
      }
    }
  }

  lemma AllWf<K>(all: seq<K>, store: map<K, Neighbor>)
    requires Stored(all, store) && WfStore(store)
    ensures WfNeighbors(Vals(all, store))
  {
    hide WfNeighbor;
  }

  /** Each ID's object holds the merged value. */
  ghost predicate SameOutcome<K>(h: Heap<K>, m: map<string, Neighbor>) {
    h.dest.Keys == m.Keys && forall id | id in h.dest :: h.dest[id] in h.store && h.store[h.dest[id]] == m[id]
  }
}

/**
 * The two ways the converter calls the merge: a router with itself, where every neighbor object
 * is listed twice, and two routers without common objects.  In both the objects end up holding
 * the pure merge of their entry values, even when filters hide each other behind a shared key.
 */
module SelfMerge {
  import opened Ordering
  import opened Configs
  import opened Merge
  import opened Facts
  import opened MergeFacts
  import opened NeighborFacts
  import opened NormalForms
  import opened Aliasing

  // ---- filters by key

  ghost function ByKey(n: Neighbor, v6: bool): map<string, Filter> { LastByKey(Filters(n.incoming, v6), FilterKey) }

  lemma {:induction false} LastByKeyConcat(a: seq<Filter>, b: seq<Filter>)
    ensures LastByKey(a + b, FilterKey) == LastByKey(a, FilterKey) + LastByKey(b, FilterKey)
  {
    hide FilterKey;
    if b == [] {
      assert a + b == a;
    } else {
      var c := b[..|b| - 1];
      LastByKeyConcat(a, c);
      assert (a + b)[..|a + b| - 1] == a + c;
    }
  }

  lemma RenderedByKey(m: map<string, Filter>)
    requires forall k | k in m :: FilterKey(m[k]) == k
    ensures LastByKey(SortByName(m), FilterKey) == m
  {
    hide FilterKey;
    var s := SortByName(m);
    SortByNameSorted(m, FilterKey);
    LastByKeyDistinct(s, FilterKey);
    LastByKeyProps(s, FilterKey);
    var l := LastByKey(s, FilterKey);
    forall k | k in m ensures k in l && l[k] == m[k] { assert m[k] in s; }
    forall k | k in l ensures k in m { var j :| j in m && m[j] == l[k]; }
  }

  lemma MergeByKey(d: Neighbor, s: Neighbor, v6: bool)
    requires MergeNeighbors(d, s).Ok? && !MergeNeighbors(d, s).value.incoming.all
    ensures !d.incoming.all && !s.incoming.all
    ensures ByKey(MergeNeighbors(d, s).value, v6) == ByKey(d, v6) + ByKey(s, v6)
  {
    hide FilterKey, MergeNeighbors, LastByKey;
    MergedIncoming(d, s);
    var a, b := Filters(d.incoming, v6), Filters(s.incoming, v6);
    LastByKeyConcat(a, b);
    LastByKeyProps(a + b, FilterKey);
    RenderedByKey(LastByKey(a + b, FilterKey));
  }

  lemma SameByKey(a: Neighbor, b: Neighbor)
    requires NormalIn(a.incoming) && NormalIn(b.incoming)
    requires forall v6 :: ByKey(a, v6) == ByKey(b, v6)
    ensures SameFilters(a, b)
  {
    hide FilterKey, LastByKey, NameSorted;
    forall v6, x ensures x in Filters(a.incoming, v6) <==> x in Filters(b.incoming, v6) {
      InByKey(a, v6, x); InByKey(b, v6, x);
      assert ByKey(a, v6) == ByKey(b, v6);
    }
  }

  lemma InByKey(n: Neighbor, v6: bool, x: Filter)
    requires NormalIn(n.incoming)
    ensures x in Filters(n.incoming, v6) <==> FilterKey(x) in ByKey(n, v6) && ByKey(n, v6)[FilterKey(x)] == x
  {
    hide FilterKey;
    var fs := Filters(n.incoming, v6);
    assert NameSorted(fs, FilterKey);
    LastByKeyDistinct(fs, FilterKey);
    LastByKeyProps(fs, FilterKey);
  }

  // ---- the pure side

  /** The filters of all the neighbors listed under `id`, later ones on top. */
  ghost function Sum(ns: seq<Neighbor>, id: string, v6: bool): map<string, Filter> {
    if ns == [] then map[]
    else
      var n := ns[|ns| - 1];
      Sum(ns[..|ns| - 1], id, v6) + (if ID(n) == id then ByKey(n, v6) else map[])
  }

  lemma Assoc<T>(a: map<string, T>, b: map<string, T>, c: map<string, T>)
    ensures (a + b) + c == a + (b + c)
  {}

  lemma {:induction false} SumConcat(a: seq<Neighbor>, b: seq<Neighbor>, id: string, v6: bool)
    ensures Sum(a + b, id, v6) == Sum(a, id, v6) + Sum(b, id, v6)
  {
    hide ID, ByKey;
    if b == [] {
      assert a + b == a;
    } else {
      var c, n := b[..|b| - 1], b[|b| - 1];
      SumConcat(a, c, id, v6);
      assert (a + b)[..|a + b| - 1] == a + c && (a + b)[|a + b| - 1] == n;
      Assoc(Sum(a, id, v6), Sum(c, id, v6), if ID(n) == id then ByKey(n, v6) else map[]);
    }
  }

  lemma {:induction false} NothingSummed(ns: seq<Neighbor>, id: string, v6: bool)
    requires !HasID(ns, id)
    ensures Sum(ns, id, v6) == map[]
  {
    hide ID, ByKey;
    if ns != [] {
      var before := ns[..|ns| - 1];
      assert ns == before + [ns[|ns| - 1]];
      assert ns[|ns| - 1] in ns;
      NothingSummed(before, id, v6);
    }
  }

  lemma {:induction false} FoldSums(ns: seq<Neighbor>, id: string, v6: bool)
    requires WfNeighbors(ns) && FoldNeighbors(ns).Ok? && id in FoldNeighbors(ns).value &&
              !FoldNeighbors(ns).value[id].incoming.all
    ensures ByKey(FoldNeighbors(ns).value[id], v6) == Sum(ns, id, v6)
  {
    hide ID, ByKey, MergeNeighbors, WfNeighbor;
    var before, n := ns[..|ns| - 1], ns[|ns| - 1];
    var m := FoldNeighbors(before).value;
    if id in m && ID(n) == id { MergeByKey(m[id], n, v6); }
    if id in m {
      FoldSums(before, id, v6);
    } else {
      NotYet(before, id);
      NothingSummed(before, id, v6);
      assert map[] + ByKey(n, v6) == ByKey(n, v6);
    }
  }

  lemma NotYet(ns: seq<Neighbor>, id: string)
    requires WfNeighbors(ns) && FoldNeighbors(ns).Ok? && id !in FoldNeighbors(ns).value
    ensures !HasID(ns, id)
  {
    hide ID, WfNeighbor, HasID, Stands;
    FoldNeighborsFacts(ns);
  }

  // ---- the side of the objects

  /** The same sum over objects, leaving out repetitions of the first object of `id`. */
  ghost function ObjectSum<K>(all: seq<K>, store: map<K, Neighbor>, id: string, head: K, v6: bool): map<string, Filter>
    requires Stored(all, store) && head in store
  {
    if all == [] then map[]
    else
      var x := all[|all| - 1];
      ObjectSum(all[..|all| - 1], store, id, head, v6) +
      (if ID(store[x]) == id && x != head then ByKey(store[x], v6) else map[])
  }

  /** What object `y` holds after the list `all`, in terms of entry values. */
  ghost predicate Summed<K>(h: Heap<K>, all: seq<K>, store: map<K, Neighbor>, id: string, v6: bool)
    requires Stored(all, store)
  {
    id in h.dest && h.dest[id] in h.store && h.dest[id] in store &&
    ByKey(h.store[h.dest[id]], v6) == ByKey(store[h.dest[id]], v6) + ObjectSum(all, store, id, h.dest[id], v6)
  }

  lemma ObjectSumStep<K>(all: seq<K>, store: map<K, Neighbor>, id: string, head: K, v6: bool, x: K)
    requires Stored(all, store) && head in store && x in store
    ensures ObjectSum(all + [x], store, id, head, v6) ==
            ObjectSum(all, store, id, head, v6) +
            (if ID(store[x]) == id && x != head then ByKey(store[x], v6) else map[])
  {
    hide ID, ByKey;
    assert (all + [x])[..|all + [x]| - 1] == all;
  }

  /** Merging an object into the one that stands for its ID, which may be itself. */
  lemma SumMerged<K>(h: Heap<K>, all: seq<K>, store: map<K, Neighbor>, x: K, v6: bool, merged: Neighbor)
    requires Stored(all, store) && x in store && ExecInv(h, all, store) && Ready(h, x)
    requires Summed(h, all, store, ID(store[x]), v6)
    requires MergeNeighbors(h.store[h.dest[ID(store[x])]], h.store[x]) == Ok(merged) && !merged.incoming.all
    ensures Summed(h.(store := h.store[h.dest[ID(store[x])] := merged]), all + [x], store, ID(store[x]), v6)
  {
    hide ID, ByKey, MergeNeighbors, ExecInv, ObjectSum;
    var id := ID(store[x]);
    var y := h.dest[id];
    ObjectSumStep(all, store, id, y, v6, x);
    MergeByKey(h.store[y], h.store[x], v6);
    if x != y {
      UnmergedObject(h, all, store, x);
      Assoc(ByKey(store[y], v6), ObjectSum(all, store, id, y, v6), ByKey(store[x], v6));
    }
  }

  lemma SumElsewhere<K>(h: Heap<K>, all: seq<K>, store: map<K, Neighbor>, id: string, x: K, v6: bool)
    requires Stored(all, store) && x in store && ExecInv(h, all, store) && Ready(h, x) && ID(store[x]) != id &&
              ExecOne(h, x).Ok?
    requires Summed(h, all, store, id, v6)
    ensures Summed(ExecOne(h, x).value, all + [x], store, id, v6)
  {
    hide ID, ByKey, MergeNeighbors, ExecInv, ObjectSum, ExecOne;
    ElsewhereKept(h, all, store, id, x);
    ObjectSumStep(all, store, id, h.dest[id], v6, x);
  }

  lemma SumNew<K>(h: Heap<K>, all: seq<K>, store: map<K, Neighbor>, x: K, v6: bool)
    requires Stored(all, store) && x in store && ExecInv(h, all, store) && Ready(h, x) && ID(store[x]) !in h.dest
    ensures Summed(h.(dest := h.dest[ID(store[x]) := x]), all + [x], store, ID(store[x]), v6)
  {
    hide ID, ByKey, ExecInv, ObjectSum;
    var id := ID(store[x]);
    UnmergedObject(h, all, store, x);
    ObjectsAbsent(all, store, id, x, v6, h);
    ObjectSumStep(all, store, id, x, v6, x);
  }

  ghost predicate ListensToAll<K>(h: Heap<K>, id: string) {
    id in h.dest && h.dest[id] in h.store && h.store[h.dest[id]].incoming.all
  }

  lemma {:induction false} ExecSums<K>(all: seq<K>, store: map<K, Neighbor>, id: string, v6: bool)
    requires Stored(all, store) && WfStore(store) && Exec(all, store).Ok?
    requires id in Exec(all, store).value.dest && !ListensToAll(Exec(all, store).value, id)
    ensures Summed(Exec(all, store).value, all, store, id, v6)
  {
    hide ID, ByKey, MergeNeighbors, WfStore, ExecInv, Vals, Summed, ListensToAll;
    if all == [] { return; }
    var before, x := all[..|all| - 1], all[|all| - 1];
    assert all == before + [x];
    var h := Exec(before, store).value;
    ExecStands(before, store);
    ObjectIDs(h, before, store, x);
    if ID(store[x]) != id {
      ListensElsewhere(h, before, store, id, x);
      ExecSums(before, store, id, v6);
      SumElsewhere(h, before, store, id, x, v6);
    } else if id !in h.dest {
      SumNew(h, before, store, x, v6);
    } else {
      var merged := MergeNeighbors(h.store[h.dest[id]], h.store[x]).value;
      ListensMerged(h, id, merged, h.store[x]);
      ExecSums(before, store, id, v6);
      SumMerged(h, before, store, x, v6, merged);
    }
  }

  lemma ListensMerged<K>(h: Heap<K>, id: string, merged: Neighbor, s: Neighbor)
    requires id in h.dest && h.dest[id] in h.store && MergeNeighbors(h.store[h.dest[id]], s) == Ok(merged)
    requires !ListensToAll(h.(store := h.store[h.dest[id] := merged]), id)
    ensures !merged.incoming.all && !ListensToAll(h, id)
  {
    hide MergeNeighbors;
    MergedIncoming(h.store[h.dest[id]], s);
  }

  lemma ListensElsewhere<K>(h: Heap<K>, all: seq<K>, store: map<K, Neighbor>, id: string, x: K)
    requires Stored(all, store) && x in store && ExecInv(h, all, store) && Ready(h, x) && ID(store[x]) != id &&
              ExecOne(h, x).Ok?
    requires id in ExecOne(h, x).value.dest && !ListensToAll(ExecOne(h, x).value, id)
    ensures id in h.dest && !ListensToAll(h, id)
  {
    hide ID, MergeNeighbors, ExecInv;
    ObjectIDs(h, all, store, x);
    assert id in h.dest;
    ElsewhereKept(h, all, store, id, x);
  }

  lemma ElsewhereKept<K>(h: Heap<K>, all: seq<K>, store: map<K, Neighbor>, id: string, x: K)
    requires Stored(all, store) && x in store && ExecInv(h, all, store) && Ready(h, x) && id in h.dest &&
              ID(store[x]) != id
    requires ExecOne(h, x).Ok?
    ensures var g := ExecOne(h, x).value;
            id in g.dest && g.dest[id] == h.dest[id] && g.store[h.dest[id]] == h.store[h.dest[id]]
  {
    hide ID, MergeNeighbors, Stands, HasID, FirstObject;
    FirstObjectID(all, store, id, h.dest[id]);
    if ID(store[x]) in h.dest { FirstObjectID(all, store, ID(store[x]), h.dest[ID(store[x])]); }
  }

  lemma ObjectIDs<K>(h: Heap<K>, all: seq<K>, store: map<K, Neighbor>, x: K)
    requires Stored(all, store) && x in store && ExecInv(h, all, store)
    ensures x in h.store && ID(h.store[x]) == ID(store[x])
  {
    hide ID, DestInv;
  }

  lemma ObjectOfID<K>(h: Heap<K>, all: seq<K>, store: map<K, Neighbor>, id: string)
    requires Stored(all, store) && ExecInv(h, all, store) && id in h.dest
    ensures h.dest[id] in store && ID(store[h.dest[id]]) == id && FirstObject(all, store, id, h.dest[id])
  {
    hide ID, Stands, HasID, FirstObject;
    FirstObjectID(all, store, id, h.dest[id]);
  }

  lemma ObjectsAbsent<K>(all: seq<K>, store: map<K, Neighbor>, id: string, head: K, v6: bool, h: Heap<K>)
    requires Stored(all, store) && head in store && ExecInv(h, all, store) && id !in h.dest
    ensures ObjectSum(all, store, id, head, v6) == map[]
  {
    hide ID, Stands, FirstObject, ObjectSum;
    forall k | k in all ensures ID(store[k]) != id {
      var i :| 0 <= i < |all| && all[i] == k;
      assert Vals(all, store)[i] in Vals(all, store);
      assert !HasID(Vals(all, store), id);
    }
    NoObjectSummed(all, store, id, head, v6);
  }

  lemma {:induction false} NoObjectSummed<K>(all: seq<K>, store: map<K, Neighbor>, id: string, head: K, v6: bool)
    requires Stored(all, store) && head in store && forall k | k in all :: ID(store[k]) != id
    ensures ObjectSum(all, store, id, head, v6) == map[]
  {
    hide ID, ByKey;
    if all != [] { NoObjectSummed(all[..|all| - 1], store, id, head, v6); }
  }

  // ---- a router with itself

  ghost predicate Injective<K>(all: seq<K>) { forall i, j | 0 <= i < j < |all| :: all[i] != all[j] }

  lemma {:induction false} ObjectSumConcat<K>(a: seq<K>, b: seq<K>, store: map<K, Neighbor>, id: string, head: K,
                                              v6: bool)
    requires Stored(a, store) && Stored(b, store) && head in store && Stored(a + b, store)
    ensures ObjectSum(a + b, store, id, head, v6) ==
              ObjectSum(a, store, id, head, v6) + ObjectSum(b, store, id, head, v6)
  {
    hide ID, ByKey;
    if b == [] {
      assert a + b == a;
    } else {
      var c, x := b[..|b| - 1], b[|b| - 1];
      assert Stored(c, store) && Stored(a + c, store);
      ObjectSumConcat(a, c, store, id, head, v6);
      assert (a + b)[..|a + b| - 1] == a + c && (a + b)[|a + b| - 1] == x;
      Assoc(ObjectSum(a, store, id, head, v6), ObjectSum(c, store, id, head, v6),
            if ID(store[x]) == id && x != head then ByKey(store[x], v6) else map[]);
    }
  }

  lemma {:induction false} SumWithoutHead<K>(ns: seq<K>, store: map<K, Neighbor>, id: string, head: K, v6: bool)
    requires Stored(ns, store) && head in store && head !in ns
    ensures ObjectSum(ns, store, id, head, v6) == Sum(Vals(ns, store), id, v6)
  {
    hide ID, ByKey;
    if ns != [] {
      var before, x := ns[..|ns| - 1], ns[|ns| - 1];
      assert ns == before + [x];
      SumWithoutHead(before, store, id, head, v6);
      assert Vals(ns, store)[..|ns| - 1] == Vals(before, store);
    }
  }

  lemma AbsentSum<K>(ns: seq<K>, store: map<K, Neighbor>, id: string, v6: bool)
    requires Stored(ns, store) && forall i | 0 <= i < |ns| :: ID(store[ns[i]]) != id
    ensures Sum(Vals(ns, store), id, v6) == map[]
  {
    hide ID, Sum;
    var vs := Vals(ns, store);
    forall n | n in vs ensures ID(n) != id { var i :| 0 <= i < |vs| && vs[i] == n; }
    NothingSummed(vs, id, v6);
  }

  lemma ValsConcat<K>(a: seq<K>, b: seq<K>, store: map<K, Neighbor>)
    requires Stored(a + b, store)
    ensures Stored(a, store) && Stored(b, store) && Vals(a + b, store) == Vals(a, store) + Vals(b, store)
  {
    assert forall k | k in a :: k in a + b;
    assert forall k | k in b :: k in a + b;
  }

  lemma Parted<K>(ns: seq<K>, at: nat)
    requires at < |ns|
    ensures ns == ns[..at] + ([ns[at]] + ns[at + 1..])
  {}

  lemma OneVal<K>(x: K, store: map<K, Neighbor>)
    requires Stored([x], store) && x in store
    ensures Vals([x], store) == [store[x]]
  {}

  lemma OneSum(n: Neighbor, v6: bool)
    ensures Sum([n], ID(n), v6) == ByKey(n, v6)
  {
    hide ByKey, ID;
    assert [n][..0] == [];
    assert Sum([n], ID(n), v6) == Sum([], ID(n), v6) + ByKey(n, v6);
  }

  lemma HeadSum<K>(head: K, store: map<K, Neighbor>, id: string, v6: bool)
    requires head in store && Stored([head], store)
    ensures ObjectSum([head], store, id, head, v6) == map[]
  {
    assert [head][..0] == [];
  }

  /** The filters of one ID, later on top, are those of the first object under those of the others. */
  lemma HeadFirst<K>(ns: seq<K>, store: map<K, Neighbor>, id: string, head: K, at: nat, v6: bool)
    requires Stored(ns, store) && head in store && ID(store[head]) == id
    requires at < |ns| && ns[at] == head && (forall i | 0 <= i < at :: ID(store[ns[i]]) != id)
    requires forall i | 0 <= i < |ns| && ns[i] == head :: i == at
    ensures Sum(Vals(ns, store), id, v6) == ByKey(store[head], v6) + ObjectSum(ns, store, id, head, v6)
  {
    hide ID, ByKey, Sum, ObjectSum, Vals;
    var pre, post := ns[..at], ns[at + 1..];
    Parted(ns, at);
    ValsConcat(pre, [head] + post, store);
    ValsConcat([head], post, store);
    OneVal(head, store);
    assert head !in post && head !in pre;
    SumWithoutHead(pre, store, id, head, v6);
    SumWithoutHead(post, store, id, head, v6);
    AbsentSum(pre, store, id, v6);
    HeadSum(head, store, id, v6);
    ObjectSumConcat(pre, [head] + post, store, id, head, v6);
    ObjectSumConcat([head], post, store, id, head, v6);
    SumConcat(Vals(pre, store), [store[head]] + Vals(post, store), id, v6);
    SumConcat([store[head]], Vals(post, store), id, v6);
    OneSum(store[head], v6);
    Nothing(ObjectSum(post, store, id, head, v6));
    Nothing(ByKey(store[head], v6) + ObjectSum(post, store, id, head, v6));
  }

  lemma Nothing<T>(a: map<string, T>)
    ensures map[] + a == a
  {}

  lemma FirstOfDoubled<K>(ns: seq<K>, store: map<K, Neighbor>, id: string, y: K) returns (at: nat)
    requires Stored(ns + ns, store) && Stored(ns, store) && Injective(ns) && FirstObject(ns + ns, store, id, y)
    ensures at < |ns| && ns[at] == y && ID(store[y]) == id
    ensures forall i | 0 <= i < at :: ID(store[ns[i]]) != id
    ensures forall i | 0 <= i < |ns| && ns[i] == y :: i == at
  {
    hide ID;
    var all := ns + ns;
    var i :| 0 <= i < |all| && all[i] == y && ID(store[y]) == id && forall j | 0 <= j < i :: ID(store[all[j]]) != id;
    at := IndexInFirst(ns, i);
    assert all[at] == y;
    assert at == i;
    assert forall j | 0 <= j < at :: all[j] == ns[j];
  }

  lemma Absorb<T>(a: map<string, T>, b: map<string, T>)
    ensures (a + b) + b == a + b
    ensures b + b == b
  {}

  /** Both sides end with the same filters. */
  lemma SelfSums<K>(ns: seq<K>, store: map<K, Neighbor>, id: string, y: K, v6: bool)
    requires Stored(ns + ns, store) && Stored(ns, store) && Injective(ns) && y in store &&
              FirstObject(ns + ns, store, id, y)
    ensures ByKey(store[y], v6) + ObjectSum(ns + ns, store, id, y, v6) == Sum(Vals(ns + ns, store), id, v6)
  {
    hide ID, ByKey, Sum, ObjectSum, Vals;
    var at := FirstOfDoubled(ns, store, id, y);
    HeadFirst(ns, store, id, y, at, v6);
    ObjectSumConcat(ns, ns, store, id, y, v6);
    ValsConcat(ns, ns, store);
    SumConcat(Vals(ns, store), Vals(ns, store), id, v6);
    Absorb(ByKey(store[y], v6), ObjectSum(ns, store, id, y, v6));
    Absorb(map[], Sum(Vals(ns, store), id, v6));
  }

  lemma StandsNormal(m: Neighbor, ns: seq<Neighbor>, id: string)
    requires Stands(m, ns, id) && Repeated(ns, id)
    ensures NormalIn(m.incoming) && (m.incoming.all ==> m.incoming.v4 == [] && m.incoming.v6 == [])
  {
    hide First, ListsFilter, FiltersAgree, NormalOut, ListsOk, SamePref;
  }

  lemma StandsAll(a: Neighbor, b: Neighbor, ns: seq<Neighbor>, id: string)
    requires Stands(a, ns, id) && Stands(b, ns, id)
    ensures a.incoming.all == b.incoming.all
  {
    hide ID, NormalNeighbor, First, ListsFilter, FiltersAgree, Repeated, WfNeighbor;
    assert NeighborSays(a, AcceptsAll) <==> NeighborSays(b, AcceptsAll);
    SaysAll(a); SaysAll(b);
  }

  lemma SelfOutcome<K>(ns: seq<K>, store: map<K, Neighbor>, id: string)
    requires Stored(ns + ns, store) && Stored(ns, store) && Injective(ns) && WfStore(store) && Exec(ns + ns, store).Ok?
    requires FoldNeighbors(Vals(ns + ns, store)).Ok? && id in Exec(ns + ns, store).value.dest &&
              id in FoldNeighbors(Vals(ns + ns, store)).value
    ensures var h := Exec(ns + ns, store).value;
            h.dest[id] in h.store && h.store[h.dest[id]] == FoldNeighbors(Vals(ns + ns, store)).value[id]
  {
    hide ID, Stands, HasID, NoClash, FirstObject, WfNeighbor, Exec, FoldNeighbors, ByKey, Sum, ObjectSum, Vals,
         Repeated;
    var all, vs := ns + ns, Vals(ns + ns, store);
    AllWf(all, store);
    ExecStands(all, store);
    FoldNeighborsFacts(vs);
    var h, m := Exec(all, store).value, FoldNeighbors(vs).value;
    var y := h.dest[id];
    var a, b := h.store[y], m[id];
    DoubledRepeats(ns, store, id);
    StandsNormal(a, vs, id); StandsNormal(b, vs, id);
    StandsAll(a, b, vs, id);
    if !a.incoming.all {
      forall v6 ensures ByKey(a, v6) == ByKey(b, v6) {
        ExecSums(all, store, id, v6);
        FoldSums(vs, id, v6);
        ObjectOfID(h, all, store, id);
        SelfSums(ns, store, id, y, v6);
      }
      SameByKey(a, b);
    } else {
      NoFilters(a, b);
    }
    StandsUnique(a, b, vs, id);
  }

  lemma NoFilters(a: Neighbor, b: Neighbor)
    requires a.incoming.v4 == [] && a.incoming.v6 == [] && b.incoming.v4 == [] && b.incoming.v6 == []
    ensures SameFilters(a, b)
  {}

  lemma DoubledRepeats<K>(ns: seq<K>, store: map<K, Neighbor>, id: string)
    requires Stored(ns + ns, store) && HasID(Vals(ns + ns, store), id)
    ensures Repeated(Vals(ns + ns, store), id)
  {
    hide ID;
    var vs := Vals(ns + ns, store);
    var n :| n in vs && ID(n) == id;
    var i :| 0 <= i < |vs| && vs[i] == n;
    var j := if i < |ns| then i else i - |ns|;
    assert vs[j] == vs[j + |ns|] == n;
  }

  /** `mergeNeighborsLists(ns, ns)` on distinct objects is the merge of their values with themselves. */
  lemma SelfMergeIsPure<K>(ns: seq<K>, store: map<K, Neighbor>)
    requires Stored(ns + ns, store) && Stored(ns, store) && Injective(ns) && WfStore(store)
    ensures Exec(ns + ns, store).Ok? <==> FoldNeighbors(Vals(ns + ns, store)).Ok?
    ensures Exec(ns + ns, store).Ok? ==>
              SameOutcome(Exec(ns + ns, store).value, FoldNeighbors(Vals(ns + ns, store)).value)
  {
    hide ID, Stands, HasID, NoClash, FirstObject, WfNeighbor, Exec, FoldNeighbors, Vals;
    var all, vs := ns + ns, Vals(ns + ns, store);
    AllWf(all, store);
    ExecStands(all, store);
    FoldNeighborsFacts(vs);
    if Exec(all, store).Ok? {
      forall id | id in Exec(all, store).value.dest
        ensures Exec(all, store).value.dest[id] in Exec(all, store).value.store
        ensures Exec(all, store).value.store[Exec(all, store).value.dest[id]] == FoldNeighbors(vs).value[id]
      {
        SelfOutcome(ns, store, id);
      }
    }
  }

  // ---- two routers without common objects

  ghost predicate Untouched<K>(h: Heap<K>, store: map<K, Neighbor>, later: K) {
    later in h.store && later in store && h.store[later] == store[later]
  }

  lemma {:induction false} DistinctMergeIsPure<K>(all: seq<K>, store: map<K, Neighbor>)
    requires Stored(all, store) && Injective(all)
    ensures Exec(all, store).Ok? <==> FoldNeighbors(Vals(all, store)).Ok?
    ensures Exec(all, store).Ok? ==> SameOutcome(Exec(all, store).value, FoldNeighbors(Vals(all, store)).value)
    ensures Exec(all, store).Ok? ==>
              DestListed(Exec(all, store).value, all) &&
                forall k | k in store && k !in all :: Untouched(Exec(all, store).value, store, k)
  {
    hide ID, MergeNeighbors;
    if all != [] {
      var before, x := all[..|all| - 1], all[|all| - 1];
      assert all == before + [x];
      assert Injective(before) && x !in before;
      DistinctMergeIsPure(before, store);
      ValsStep(before, store, x);
      FoldLast(Vals(before, store), store[x]);
      if Exec(before, store).Ok? {
        DistinctStep(Exec(before, store).value, FoldNeighbors(Vals(before, store)).value, before, store, x);
      }
    }
  }

  ghost predicate DestListed<K>(h: Heap<K>, all: seq<K>) {
    && (forall id | id in h.dest :: h.dest[id] in all && h.dest[id] in h.store && ID(h.store[h.dest[id]]) == id)
  }

  lemma FoldLast(before: seq<Neighbor>, n: Neighbor)
    ensures FoldNeighbors(before + [n]) ==
            match FoldNeighbors(before) {
              case Err => Err
              case Ok(m) =>
                if ID(n) !in m then Ok(m[ID(n) := n])
                else match MergeNeighbors(m[ID(n)], n) { case Err => Err case Ok(v) => Ok(m[ID(n) := v]) }
            }
  {
    hide ID, MergeNeighbors;
    var ns := before + [n];
    assert ns[..|ns| - 1] == before && ns[|ns| - 1] == n;
  }

  lemma DistinctStep<K>(h: Heap<K>, m: map<string, Neighbor>, before: seq<K>, store: map<K, Neighbor>, x: K)
    requires Stored(before, store) && x in store && x !in before && Ready(h, x) && h.store.Keys == store.Keys
    requires SameOutcome(h, m) && DestListed(h, before) &&
             forall k | k in store && k !in before :: Untouched(h, store, k)
    ensures var n := store[x];
            if ID(n) !in m then
              ExecOne(h, x).Ok? && DistinctOutcome(ExecOne(h, x).value, m[ID(n) := n], before + [x], store)
            else
              && (ExecOne(h, x).Ok? <==> MergeNeighbors(m[ID(n)], n).Ok?)
              && (ExecOne(h, x).Ok? ==>
                  DistinctOutcome(ExecOne(h, x).value, m[ID(n) := MergeNeighbors(m[ID(n)], n).value], before + [x],
                                  store))
  {
    hide MergeNeighbors, ID;
    var n := store[x];
    assert Untouched(h, store, x);
    assert h.store[x] == n;
    if ID(n) in m && MergeNeighbors(m[ID(n)], n).Ok? { MergeKeepsID(m[ID(n)], n); }
  }

  lemma MergeKeepsID(d: Neighbor, s: Neighbor)
    requires MergeNeighbors(d, s).Ok?
    ensures ID(MergeNeighbors(d, s).value) == ID(d)
  {
    hide MergeAllowedOut, MergeAllowedIn, Union;
  }

  ghost predicate DistinctOutcome<K>(h: Heap<K>, m: map<string, Neighbor>, all: seq<K>, store: map<K, Neighbor>) {
    SameOutcome(h, m) && DestListed(h, all) && forall k | k in store && k !in all :: Untouched(h, store, k)
  }
}

/**
 * When the in-place merge of lists that share objects leaves the merge of the entry values.  An object
 * that is listed again after it has been written to contributes what it holds by then; only filters
 * that share a key can show the difference.
 */
module Sharing {
  import opened Ordering
  import opened Configs
  import opened Merge
  import opened Facts
  import opened MergeFacts
  import opened NeighborFacts
  import opened Aliasing
  import opened SelfMerge
  import opened FilterKeys

  /**
   * On entry: the filters of the first object of `id`, topped with those of the other objects listed
   * under it, are the filters of everything listed under it, repetitions included.
   */
  ghost predicate SumsAlike<K>(all: seq<K>, store: map<K, Neighbor>, id: string)
    requires Stored(all, store)
  {
    forall head | head in store && FirstObject(all, store, id, head) ::
      forall v6 :: ByKey(store[head], v6) + ObjectSum(all, store, id, head, v6) == Sum(Vals(all, store), id, v6)
  }

  /** So it is for every listed ID, unless one of its descriptions accepts everything. */
  ghost predicate Alike<K>(all: seq<K>, store: map<K, Neighbor>)
    requires Stored(all, store)
  {
    forall id | HasID(Vals(all, store), id) && !PeerSays(Vals(all, store), id, AcceptsAll) :: SumsAlike(all, store, id)
  }

  lemma OneFirst<K>(all: seq<K>, store: map<K, Neighbor>, id: string, x: K, y: K)
    requires Stored(all, store) && FirstObject(all, store, id, x) && FirstObject(all, store, id, y)
    ensures x == y
  {
    hide ID;
    var i :| 0 <= i < |all| && all[i] == x && ID(store[x]) == id && forall j | 0 <= j < i :: ID(store[all[j]]) != id;
    var k :| 0 <= k < |all| && all[k] == y && ID(store[y]) == id && forall j | 0 <= j < k :: ID(store[all[j]]) != id;
    assert !(i < k) && !(k < i);
  }

  lemma NotRepeated(a: Neighbor, b: Neighbor, ns: seq<Neighbor>, id: string)
    requires Stands(a, ns, id) && Stands(b, ns, id) && !Repeated(ns, id)
    ensures a == b
  {
    hide NeighborSays, NormalNeighbor, WfNeighbor, First, ListsFilter, PeerSays, FiltersAgree, Repeated;
    OnlyMember(ns, a, b);
  }

  /** Equal filters by key make the neighbors equal, and only those. */
  lemma SameIffByKey(a: Neighbor, b: Neighbor, ns: seq<Neighbor>, id: string)
    requires Stands(a, ns, id) && Stands(b, ns, id)
    ensures a == b <==> a.incoming.all || forall v6 :: ByKey(a, v6) == ByKey(b, v6)
  {
    hide Stands, ByKey, Repeated;
    StandsAll(a, b, ns, id);
    if !Repeated(ns, id) {
      NotRepeated(a, b, ns, id);
    } else {
      StandsNormal(a, ns, id); StandsNormal(b, ns, id);
      if a.incoming.all {
        NoFilters(a, b);
        StandsUnique(a, b, ns, id);
      } else if forall v6 :: ByKey(a, v6) == ByKey(b, v6) {
        SameByKey(a, b);
        StandsUnique(a, b, ns, id);
      }
    }
  }

  lemma SaysAllStands(m: Neighbor, ns: seq<Neighbor>, id: string)
    requires Stands(m, ns, id)
    ensures m.incoming.all <==> PeerSays(ns, id, AcceptsAll)
  {
    hide ID, NormalNeighbor, First, ListsFilter, FiltersAgree, Repeated, WfNeighbor;
    SaysAll(m);
  }

  lemma SharedObject<K>(all: seq<K>, store: map<K, Neighbor>, id: string)
    requires Stored(all, store) && WfStore(store) && Exec(all, store).Ok? && FoldNeighbors(Vals(all, store)).Ok?
    requires id in Exec(all, store).value.dest && id in FoldNeighbors(Vals(all, store)).value
    ensures Exec(all, store).value.dest[id] in Exec(all, store).value.store
    ensures Exec(all, store).value.store[Exec(all, store).value.dest[id]] ==
              FoldNeighbors(Vals(all, store)).value[id] <==>
              PeerSays(Vals(all, store), id, AcceptsAll) || SumsAlike(all, store, id)
  {
    hide ID, Stands, HasID, NoClash, FirstObject, WfNeighbor, Exec, FoldNeighbors, ByKey, Sum, ObjectSum, Vals,
         PeerSays;
    var vs := Vals(all, store);
    AllWf(all, store);
    ExecStands(all, store);
    FoldNeighborsFacts(vs);
    var h, m := Exec(all, store).value, FoldNeighbors(vs).value;
    var y := h.dest[id];
    SameIffByKey(h.store[y], m[id], vs, id);
    SaysAllStands(h.store[y], vs, id);
    SaysAllStands(m[id], vs, id);
    if !m[id].incoming.all {
      ObjectOfID(h, all, store, id);
      forall v6
        ensures ByKey(h.store[y], v6) == ByKey(store[y], v6) + ObjectSum(all, store, id, y, v6) &&
                  ByKey(m[id], v6) == Sum(vs, id, v6)
      {
        ExecSums(all, store, id, v6);
        FoldSums(vs, id, v6);
      }
      forall head | head in store && FirstObject(all, store, id, head)
        ensures head == y
      {
        OneFirst(all, store, id, head, y);
      }
    }
  }

  /**
   * Whatever the lists share, the loop on objects and the merge of the entry values succeed together,
   * and they leave the same values if and only if the sums of filters are alike on entry.
   */
  lemma SharedMergeExact<K>(all: seq<K>, store: map<K, Neighbor>)
    requires Stored(all, store) && WfStore(store)
    ensures Exec(all, store).Ok? <==> FoldNeighbors(Vals(all, store)).Ok?
    ensures Exec(all, store).Ok? ==> Exec(all, store).value.dest.Keys == FoldNeighbors(Vals(all, store)).value.Keys
    ensures Exec(all, store).Ok? ==>
              (SameOutcome(Exec(all, store).value, FoldNeighbors(Vals(all, store)).value) <==> Alike(all, store))
  {
    hide ID, Stands, HasID, NoClash, FirstObject, WfNeighbor, Exec, FoldNeighbors, Vals, PeerSays, SumsAlike;
    var vs := Vals(all, store);
    AllWf(all, store);
    ExecStands(all, store);
    FoldNeighborsFacts(vs);
    if Exec(all, store).Ok? {
      var h, m := Exec(all, store).value, FoldNeighbors(vs).value;
      forall id | id in h.dest
        ensures h.dest[id] in h.store && (h.store[h.dest[id]] == m[id] <==>
                                          PeerSays(vs, id, AcceptsAll) || SumsAlike(all, store, id))
      {
        SharedObject(all, store, id);
      }
      assert h.dest.Keys == m.Keys;
    }
  }

  // ---- the merged list

  /** The values of the merged list, in the order of the IDs, when the objects are merged in place. */
  ghost function InPlace<K>(all: seq<K>, store: map<K, Neighbor>): (r: Result<seq<Neighbor>>)
    requires Stored(all, store)
  {
    var h :- Exec(all, store);
    Ok(SortByName(StandingValues(h)))
  }

  ghost function StandingValues<K>(h: Heap<K>): (m: map<string, Neighbor>)
    requires forall id | id in h.dest :: h.dest[id] in h.store
  {
    map id | id in h.dest :: h.store[h.dest[id]]
  }

  lemma SameSorted<T>(a: map<string, T>, b: map<string, T>)
    requires a.Keys == b.Keys
    ensures SortByName(a) == SortByName(b) <==> a == b
  {
    hide SortByName, ListsByName;
    SortByNameLists(a);
    SortByNameLists(b);
    if SortByName(a) == SortByName(b) { ListedSame(SortByName(a), a, b); }
  }

  lemma SameStanding<K>(h: Heap<K>, m: map<string, Neighbor>)
    requires (forall id | id in h.dest :: h.dest[id] in h.store) && h.dest.Keys == m.Keys
    ensures StandingValues(h) == m <==> SameOutcome(h, m)
  {
    if StandingValues(h) == m {
      forall id | id in h.dest ensures h.store[h.dest[id]] == m[id] { assert StandingValues(h)[id] == m[id]; }
    }
  }

  /** So it is for the merged lists: merging in place is merging the values if and only if the sums are alike. */
  lemma InPlaceExact<K>(all: seq<K>, store: map<K, Neighbor>)
    requires Stored(all, store) && WfStore(store)
    ensures InPlace(all, store).Ok? <==> FoldNeighbors(Vals(all, store)).Ok?
    ensures InPlace(all, store).Ok? ==>
              (InPlace(all, store) == Ok(SortByName(FoldNeighbors(Vals(all, store)).value)) <==> Alike(all, store))
  {
    hide Exec, FoldNeighbors, Vals, WfStore, Alike, SameOutcome, SortByName, StandingValues;
    SharedMergeExact(all, store);
    if Exec(all, store).Ok? {
      var h, m := Exec(all, store).value, FoldNeighbors(Vals(all, store)).value;
      SameStanding(h, m);
      StandingKeys(h);
      SameSorted(StandingValues(h), m);
    }
  }

  lemma StandingKeys<K>(h: Heap<K>)
    requires forall id | id in h.dest :: h.dest[id] in h.store
    ensures StandingValues(h).Keys == h.dest.Keys
  {}

  lemma OutcomeInPlace<K>(all: seq<K>, store: map<K, Neighbor>)
    requires Stored(all, store) && Exec(all, store).Ok? && FoldNeighbors(Vals(all, store)).Ok?
    requires SameOutcome(Exec(all, store).value, FoldNeighbors(Vals(all, store)).value)
    ensures InPlace(all, store) == Ok(SortByName(FoldNeighbors(Vals(all, store)).value))
  {
    hide Exec, FoldNeighbors, Vals, SortByName;
    SameStanding(Exec(all, store).value, FoldNeighbors(Vals(all, store)).value);
  }

  // ---- the two shapes the conversion produces

  lemma DistinctAlike<K>(all: seq<K>, store: map<K, Neighbor>)
    requires Stored(all, store) && Injective(all)
    ensures Alike(all, store)
  {
    hide ID, ByKey, Sum, ObjectSum, Vals, HasID, PeerSays;
    forall id, head, v6 | head in store && FirstObject(all, store, id, head)
      ensures ByKey(store[head], v6) + ObjectSum(all, store, id, head, v6) == Sum(Vals(all, store), id, v6) {
      var at :| 0 <= at < |all| && all[at] == head && ID(store[head]) == id &&
        forall j | 0 <= j < at :: ID(store[all[j]]) != id;
      HeadFirst(all, store, id, head, at, v6);
    }
  }

  lemma DoubledAlike<K>(ns: seq<K>, store: map<K, Neighbor>)
    requires Stored(ns + ns, store) && Stored(ns, store) && Injective(ns)
    ensures Alike(ns + ns, store)
  {
    hide ID, ByKey, Sum, ObjectSum, Vals, HasID, PeerSays, FirstObject;
    forall id, head, v6 | head in store && FirstObject(ns + ns, store, id, head)
      ensures ByKey(store[head], v6) + ObjectSum(ns + ns, store, id, head, v6) == Sum(Vals(ns + ns, store), id, v6) {
      SelfSums(ns, store, id, head, v6);
    }
  }

  /** It is enough that no two filters of a neighbor share a key. */
  lemma AgreeingAlike<K>(all: seq<K>, store: map<K, Neighbor>)
    requires Stored(all, store) && WfStore(store) && Exec(all, store).Ok?
    requires forall id :: FiltersAgree(Vals(all, store), id)
    ensures Alike(all, store)
  {
    hide Exec, FoldNeighbors, Vals, WfStore, FiltersAgree, Alike, SameOutcome;
    AliasedMergeIsPure(all, store);
    SharedMergeExact(all, store);
  }

  // ---- an input where they differ

  /** A neighbor that accepts one filter and says nothing else. */
  function Listening(x: Filter): (n: Neighbor) { SILENT.(incoming := AllowedIn(false, [x], [])) }

  lemma OneByKey(x: Filter)
    ensures ByKey(Listening(x), false) == map[FilterKey(x) := x]
  {
    hide FilterKey;
    var s := [x];
    assert s[..|s| - 1] == [];
    assert LastByKey(s[..|s| - 1], FilterKey) == map[];
  }

  lemma Agreeable(x: Filter, y: Filter)
    ensures WfNeighbor(Listening(x)) && !PeersClash(Listening(x), Listening(y))
  {
    hide FilterKey;
    forall f, g | NeighborSays(Listening(x), f) && NeighborSays(Listening(y), g) ensures !PeerConflict(f, g) {}
  }

  lemma StepSum(ns: seq<Neighbor>, n: Neighbor, id: string, v6: bool)
    requires ID(n) == id
    ensures Sum(ns + [n], id, v6) == Sum(ns, id, v6) + ByKey(n, v6)
  {
    hide ID, ByKey;
    assert (ns + [n])[..|ns|] == ns;
  }

  lemma NoneSummed(id: string, v6: bool)
    ensures Sum([], id, v6) == map[]
  {}

  const SHARED := [0, 1, 0]

  function TwoStored(a: Neighbor, b: Neighbor): (store: map<int, Neighbor>) { map[0 := a, 1 := b] }

  lemma SharedVals(a: Neighbor, b: Neighbor)
    ensures Stored(SHARED, TwoStored(a, b)) && Vals(SHARED, TwoStored(a, b)) == [a, b, a]
  {}

  lemma ThreeSum(a: Neighbor, b: Neighbor, x: Filter, y: Filter, k: string)
    requires ID(a) == ID(b) && ByKey(a, false) == map[k := x] && ByKey(b, false) == map[k := y]
    ensures Sum([a, b, a], ID(a), false) == map[k := x]
  {
    hide ID, ByKey, Sum;
    NoneSummed(ID(a), false);
    StepSum([], a, ID(a), false); StepSum([a], b, ID(a), false); StepSum([a, b], a, ID(a), false);
    assert ((map[] + map[k := x]) + map[k := y]) + map[k := x] == map[k := x];
    assert [a, b] + [a] == [a, b, a] && [a] + [b] == [a, b] && [] + [a] == [a];
  }

  lemma TwoSum(a: Neighbor, b: Neighbor)
    requires ID(a) == ID(b)
    ensures Stored(SHARED, TwoStored(a, b)) && ObjectSum(SHARED, TwoStored(a, b), ID(a), 0, false) == ByKey(b, false)
  {
    hide ID, ByKey, ObjectSum;
    var store, id := TwoStored(a, b), ID(a);
    assert ObjectSum([], store, id, 0, false) == map[] by { NoObjectSummed<int>([], store, id, 0, false); }
    ObjectSumStep([], store, id, 0, false, 0);
    ObjectSumStep([0], store, id, 0, false, 1);
    ObjectSumStep([0, 1], store, id, 0, false, 0);
    assert [0, 1] + [0] == SHARED && [0] + [1] == [0, 1] && [] + [0] == [0];
  }

  lemma FirstShared(a: Neighbor, b: Neighbor)
    ensures Stored(SHARED, TwoStored(a, b)) && FirstObject(SHARED, TwoStored(a, b), ID(a), 0)
  {
    hide ID;
    assert SHARED[0] == 0;
  }

  lemma NotAlike()
    ensures var a, b := Listening(NARROW), Listening(WIDE);
            Stored(SHARED, TwoStored(a, b)) && !SumsAlike(SHARED, TwoStored(a, b), ID(a))
  {
    hide FilterKey, ByKey, ID, Listening, ObjectSum, Sum, FirstObject, Vals;
    var a, b := Listening(NARROW), Listening(WIDE);
    SharedVals(a, b);
    SameListener(NARROW, WIDE);
    PrefixesCollide();
    OneByKey(NARROW); OneByKey(WIDE);
    ThreeSum(a, b, NARROW, WIDE, FilterKey(NARROW));
    TwoSum(a, b);
    FirstShared(a, b);
    var k := FilterKey(NARROW);
    assert (map[k := NARROW] + map[k := WIDE])[k] == WIDE != map[k := NARROW][k];
  }

  lemma SharedAgree()
    ensures var a, b := Listening(NARROW), Listening(WIDE);
            && Stored(SHARED, TwoStored(a, b)) && WfStore(TwoStored(a, b)) && NoClash([a, b, a])
            && HasID([a, b, a], ID(a)) && !PeerSays([a, b, a], ID(a), AcceptsAll)
  {
    hide FilterKey, ID, WfNeighbor, PeersClash, Listening, NeighborSays;
    var a, b := Listening(NARROW), Listening(WIDE);
    Agreeable(NARROW, NARROW); Agreeable(NARROW, WIDE); Agreeable(WIDE, NARROW);
    SameListener(NARROW, WIDE);
    assert [a, b, a][0] in [a, b, a];
  }

  /** The list a, b, a: in place the filter of b stays on top, on values that of a comes back. */
  lemma SharedListDiffers()
    ensures var store := TwoStored(Listening(NARROW), Listening(WIDE));
            && Stored(SHARED, store) && WfStore(store) && Exec(SHARED, store).Ok? &&
                 FoldNeighbors(Vals(SHARED, store)).Ok?
            && !SameOutcome(Exec(SHARED, store).value, FoldNeighbors(Vals(SHARED, store)).value)
  {
    hide ID, Exec, FoldNeighbors, Listening, SameOutcome, NoClash, HasID, PeerSays, SumsAlike, WfStore, Vals, ExecInv,
         TwoStored;
    var a, b := Listening(NARROW), Listening(WIDE);
    SharedVals(a, b);
    SharedAgree();
    NotAlike();
    ExecStands(SHARED, TwoStored(a, b));
    SharedMergeExact(SHARED, TwoStored(a, b));
  }

  lemma SameListener(x: Filter, y: Filter)
    ensures ID(Listening(x)) == ID(Listening(y)) && !NeighborSays(Listening(x), AcceptsAll)
    ensures !NeighborSays(Listening(y), AcceptsAll)
  {}
}

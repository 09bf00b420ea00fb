/**
 * internal/controller/merge.go on objects.  Routers refer to neighbor objects; merging
 * writes into the first neighbor of each ID and into the first router, and a router that is
 * validated is merged with itself.
 */
module MergeInPlace {
  import opened Ordering
  import opened Configs
  import opened Merge
  import opened MergeLoops
  import opened Aliasing
  import opened SelfMerge
  import opened Sharing

  class NeighborConfig {
    const identity: Neighbor
    var port: Option<int>
    var holdTime: Option<int>
    var keepaliveTime: Option<int>
    var connectTime: Option<int>
    var bfdProfile: string
    var incoming: AllowedIn
    var outgoing: AllowedOut
    var addressFamilies: seq<string>

    /** What the object holds now; the fields no code assigns are those it was created with. */
    function Value(): (n: Neighbor)
      reads this
      ensures ID(n) == ID(identity)
    {
      identity.(port := port, holdTime := holdTime, keepaliveTime := keepaliveTime, connectTime := connectTime,
                bfdProfile := bfdProfile, incoming := incoming, outgoing := outgoing,
                addressFamilies := addressFamilies)
    }

    constructor (n: Neighbor)
      ensures Value() == n
    {
      identity := n;
      port, holdTime, keepaliveTime, connectTime := n.port, n.holdTime, n.keepaliveTime, n.connectTime;
      bfdProfile, incoming, outgoing, addressFamilies := n.bfdProfile, n.incoming, n.outgoing, n.addressFamilies;
    }

    /** `cleanNeighborDefaults` */
    method CleanNeighborDefaults()
      modifies `port, `holdTime, `keepaliveTime, `connectTime
      ensures Value() == CleanDefaults(old(Value()))
    {
      if port == Some(DEFAULT_PORT) { port := None; }
      if holdTime == Some(DEFAULT_HOLD_TIME) { holdTime := None; }
      if keepaliveTime == Some(DEFAULT_KEEPALIVE_TIME) { keepaliveTime := None; }
      if connectTime == Some(DEFAULT_CONNECT_TIME) { connectTime := None; }
    }

    /** `mergeIntoNeighbor`; `src` may be this very object. */
    method MergeInto(src: NeighborConfig) returns (ok: bool)
      modifies this
      ensures ok <==> MergeNeighbors(old(Value()), old(src.Value())).Ok?
      ensures ok ==> MergeNeighbors(old(Value()), old(src.Value())) == Ok(Value())
    {
      hide MergeAllowedOut, MergeAllowedIn, Union, ID;
      ghost var d, s := Value(), src.Value();
      if !NeighborsCompatible(Value(), src.Value()) { return false; }
      if bfdProfile == "" { bfdProfile := src.bfdProfile; }
      var out := MergeOutgoing(outgoing, src.outgoing);
      if out.Err? {
        outgoing := AllowedOut([], [], "", "", [], []);
        return false;
      }
      outgoing := out.value;
      incoming := MergeIncoming(incoming, src.incoming);
      addressFamilies := Union(addressFamilies, src.addressFamilies);
      assert Value() == d.(bfdProfile := if d.bfdProfile == "" then s.bfdProfile else d.bfdProfile,
                           outgoing := out.value, incoming := MergeAllowedIn(d.incoming, s.incoming),
                           addressFamilies := Union(d.addressFamilies, s.addressFamilies));
      CleanNeighborDefaults();
      return true;
    }
  }

  /** What every listed object holds. */
  ghost function Contents(ns: seq<NeighborConfig>): (store: map<NeighborConfig, Neighbor>)
    reads ns
    ensures Stored(ns, store)
  {
    map n | n in ns :: n.Value()
  }

  /** The object-level fold over the listed objects, from what they hold now. */
  ghost function Outcome(ns: seq<NeighborConfig>): (r: Result<Heap<NeighborConfig>>)
    reads ns
  {
    Exec(ns, Contents(ns))
  }

  ghost predicate HeapShows(h: Heap<NeighborConfig>, ns: seq<NeighborConfig>)
    reads ns
  {
    h.store == Contents(ns)
  }

  ghost function Values(ns: seq<NeighborConfig>): (vs: seq<Neighbor>)
    reads ns
  {
    seq(|ns|, i requires 0 <= i < |ns| reads ns => ns[i].Value())
  }

  lemma {:induction false} ExecFails<K>(all: seq<K>, store: map<K, Neighbor>, i: nat)
    requires Stored(all, store) && i <= |all| && Exec(all[..i], store).Err?
    ensures Exec(all, store).Err?
    decreases |all| - i
  {
    hide ExecOne;
    if i == |all| {
      assert all[..i] == all;
    } else {
      assert all[..i + 1][..i] == all[..i];
      ExecFails(all, store, i + 1);
    }
  }

  lemma LoopStep<K>(all: seq<K>, store: map<K, Neighbor>, i: nat, m: map<string, K>, now: map<K, Neighbor>)
    requires Stored(all, store) && i < |all| && Exec(all[..i], store) == Ok(Heap(m, now))
    ensures all[i] in now
    ensures ID(now[all[i]]) !in m ==> Exec(all[..i + 1], store) == Ok(Heap(m[ID(now[all[i]]) := all[i]], now))
    ensures ID(now[all[i]]) in m ==>
              var dest := m[ID(now[all[i]])];
              dest in now && dest in all &&
              Exec(all[..i + 1], store) ==
                match MergeNeighbors(now[dest], now[all[i]]) {
                  case Err => Err
                  case Ok(v) => Ok(Heap(m, now[dest := v]))
                }
  {
    hide ID, MergeNeighbors;
    assert all[..i + 1][..i] == all[..i];
    ExecKeepsIDs(all[..i], store);
  }

  lemma ExecNone<K>(store: map<K, Neighbor>)
    ensures Exec([], store) == Ok(Heap(map[], store))
  {}

  lemma ContentsOf(all: seq<NeighborConfig>)
    ensures forall n | n in all :: n in Contents(all) && Contents(all)[n] == n.Value()
    ensures forall n | n in Contents(all) :: n in all
  {}

  lemma OneChanged(all: seq<NeighborConfig>, before: map<NeighborConfig, Neighbor>, x: NeighborConfig)
    requires x in all && (forall n | n in before :: n in all)
    requires forall n | n in all && n != x :: n in before && before[n] == n.Value()
    ensures Contents(all) == before[x := x.Value()]
  {}

  /**
   * `mergeNeighborsLists`.  Whatever objects the lists share, the code is the object-level fold of
   * Aliasing: the result holds the first object of each ID, and every object holds what the fold
   * says it does.
   */
  method MergeNeighborsLists(first: seq<NeighborConfig>, toMerge: seq<NeighborConfig>)
    returns (r: Result<seq<NeighborConfig>>)
    modifies first, toMerge
    ensures r.Ok? <==> old(Outcome(first + toMerge)).Ok?
    ensures r.Ok? ==> HeapShows(old(Outcome(first + toMerge)).value, first + toMerge)
    ensures r.Ok? ==> r.value == SortByName(old(Outcome(first + toMerge)).value.dest)
  {
    hide MergeNeighbors, SortByName, ID, Exec, Contents, NeighborConfig.Value;
    var all := first + toMerge;
    ghost var store := Contents(all);
    ExecNone(store);
    if |all| == 0 {
      assert all == [];
      NothingToSort<NeighborConfig>();
      return Ok([]);
    }
    var mergedNeighbors: map<string, NeighborConfig> := map[];
    for i := 0 to |all|
      invariant Exec(all[..i], store) == Ok(Heap(mergedNeighbors, Contents(all)))
    {
      LoopStep(all, store, i, mergedNeighbors, Contents(all));
      var n := all[i];
      ContentsOf(all);
      var id := ID(n.Value());
      if id !in mergedNeighbors {
        mergedNeighbors := mergedNeighbors[id := n];
      } else {
        var dest := mergedNeighbors[id];
        ghost var before := Contents(all);
        var ok := dest.MergeInto(n);
        if !ok {
          ExecFails(all, store, i + 1);
          return Err;
        }
        OneChanged(all, before, dest);
      }
    }
    assert all[..|all|] == all;
    return Ok(SortByName(mergedNeighbors));
  }

  // ---- what the objects of the result are

  lemma {:induction false} ExecKeepsIDs<K>(all: seq<K>, store: map<K, Neighbor>)
    requires Stored(all, store) && Exec(all, store).Ok?
    ensures DestListed(Exec(all, store).value, all)
    ensures forall k | k in store :: ID(Exec(all, store).value.store[k]) == ID(store[k])
  {
    hide ID, MergeNeighbors;
    if all != [] {
      var before, x := all[..|all| - 1], all[|all| - 1];
      ExecKeepsIDs(before, store);
      var h := Exec(before, store).value;
      var id := ID(h.store[x]);
      if id in h.dest { MergeKeepsID(h.store[h.dest[id]], h.store[x]); }
      assert forall k | k in before :: k in all;
    }
  }

  ghost predicate Standing<K>(h: Heap<K>, k: K) { exists id :: id in h.dest && h.dest[id] == k }

  /** The object that stands for an ID is the first one listed with it, and no other object has changed. */
  ghost predicate OnlyFirst<K>(h: Heap<K>, all: seq<K>, store: map<K, Neighbor>)
    requires Stored(all, store)
  {
    && h.store.Keys == store.Keys
    && (forall k | k in store :: ID(h.store[k]) == ID(store[k]))
    && (forall k | k in store && !Standing(h, k) :: h.store[k] == store[k])
    && (forall k | k in all :: ID(store[k]) in h.dest)
    && (forall id | id in h.dest :: FirstObject(all, store, id, h.dest[id]))
  }

  lemma FirstNew<K>(h: Heap<K>, all: seq<K>, store: map<K, Neighbor>, x: K)
    requires Stored(all, store) && x in store && OnlyFirst(h, all, store) && ID(store[x]) !in h.dest
    ensures OnlyFirst(h.(dest := h.dest[ID(store[x]) := x]), all + [x], store)
  {
    hide ID, FirstObject;
    var g, more := h.(dest := h.dest[ID(store[x]) := x]), all + [x];
    forall id | id in g.dest ensures FirstObject(more, store, id, g.dest[id]) {
      if id in h.dest { FirstObjectKept(all, store, id, h.dest[id], x); } else { FirstAtEnd(all, store, x); }
    }
    forall k | k in store && !Standing(g, k) ensures !Standing(h, k) {
      assert forall id | id in h.dest :: id in g.dest && g.dest[id] == h.dest[id];
    }
  }

  lemma FirstAtEnd<K>(all: seq<K>, store: map<K, Neighbor>, x: K)
    requires Stored(all, store) && x in store && forall k | k in all :: ID(store[k]) != ID(store[x])
    ensures FirstObject(all + [x], store, ID(store[x]), x)
  {
    hide ID;
    var more := all + [x];
    assert more[|all|] == x && forall j | 0 <= j < |all| :: more[j] == all[j] && all[j] in all;
  }

  lemma FirstMerged<K>(h: Heap<K>, all: seq<K>, store: map<K, Neighbor>, x: K, v: Neighbor)
    requires Stored(all, store) && x in store && OnlyFirst(h, all, store) && ID(store[x]) in h.dest
    requires h.dest[ID(store[x])] in store && ID(v) == ID(store[h.dest[ID(store[x])]])
    ensures OnlyFirst(h.(store := h.store[h.dest[ID(store[x])] := v]), all + [x], store)
  {
    hide ID, FirstObject;
    var g, more := h.(store := h.store[h.dest[ID(store[x])] := v]), all + [x];
    forall id | id in g.dest ensures FirstObject(more, store, id, g.dest[id]) {
      FirstObjectKept(all, store, id, h.dest[id], x);
    }
    forall k | k in store && !Standing(g, k) ensures g.store[k] == store[k] {
      assert !Standing(h, k);
    }
  }

  lemma {:induction false} ExecChangesFirst<K>(all: seq<K>, store: map<K, Neighbor>)
    requires Stored(all, store) && Exec(all, store).Ok?
    ensures OnlyFirst(Exec(all, store).value, all, store)
  {
    hide ID, MergeNeighbors, OnlyFirst;
    if all == [] {
      NoneFirst(store);
    } else {
      var before, x := all[..|all| - 1], all[|all| - 1];
      assert all == before + [x];
      ExecChangesFirst(before, store);
      ExecKeepsIDs(before, store);
      var h := Exec(before, store).value;
      assert ID(h.store[x]) == ID(store[x]);
      if ID(store[x]) in h.dest {
        var d := h.dest[ID(store[x])];
        MergeKeepsID(h.store[d], h.store[x]);
        FirstMerged(h, before, store, x, MergeNeighbors(h.store[d], h.store[x]).value);
      } else {
        FirstNew(h, before, store, x);
      }
    }
  }

  lemma NoneFirst<K>(store: map<K, Neighbor>)
    ensures OnlyFirst(Heap(map[], store), [], store)
  {}

  /** The result lists every object once. */
  lemma MergedDistinct(h: Heap<NeighborConfig>, all: seq<NeighborConfig>)
    requires DestListed(h, all)
    ensures Injective(SortByName(h.dest))
    ensures forall n | n in SortByName(h.dest) :: n in all
  {
    hide ID, SortByName;
    forall k, l | k in h.dest && l in h.dest && h.dest[k] == h.dest[l] ensures k == l {
      assert ID(h.store[h.dest[k]]) == k && ID(h.store[h.dest[l]]) == l;
    }
    SortByNameDistinct(h.dest);
  }

  lemma MergedValues(h: Heap<NeighborConfig>, m: map<string, Neighbor>, all: seq<NeighborConfig>)
    requires SameOutcome(h, m) && DestListed(h, all) && HeapShows(h, all)
    ensures Values(SortByName(h.dest)) == SortByName(m)
  {
    hide ID, SortByName;
    var objects := SortByName(h.dest);
    SortByNameLength(h.dest);
    SortByNameLength(m);
    forall i | 0 <= i < |objects| ensures objects[i].Value() == SortByName(m)[i] {
      SortByNameAt(h.dest, i);
      SortByNameAt(m, i);
      assert objects[i] in all;
    }
  }

  // ---- routers

  /** Distinct objects, or objects whose values are those of neighbors; they may be shared in any way. */
  ghost predicate Mergeable(first: seq<NeighborConfig>, second: seq<NeighborConfig>)
    reads first, second
  {
    Injective(first + second) || WfStore(Contents(first + second))
  }

  /** The values of the merged list, from what the listed objects hold now. */
  ghost function MergedInPlace(ns: seq<NeighborConfig>): (r: Result<seq<Neighbor>>)
    reads ns
  {
    InPlace(ns, Contents(ns))
  }

  lemma ContentsVals(first: seq<NeighborConfig>, second: seq<NeighborConfig>)
    ensures Vals(first + second, Contents(first + second)) == Values(first) + Values(second)
  {}

  lemma DoubledContents(ns: seq<NeighborConfig>)
    ensures Contents(ns + ns) == Contents(ns)
  {}

  lemma MergeableSucceeds(first: seq<NeighborConfig>, second: seq<NeighborConfig>)
    requires Mergeable(first, second)
    ensures Outcome(first + second).Ok? <==> MergeNeighborLists(Values(first), Values(second)).Ok?
  {
    hide Exec, FoldNeighbors, ID, WfStore, Alike, Injective;
    var all := first + second;
    ContentsVals(first, second);
    if Injective(all) {
      DistinctMergeIsPure(all, Contents(all));
    } else {
      SharedMergeExact(all, Contents(all));
    }
  }

  /**
   * For objects shared in any way: the merged list has the values of the merge of the values if and
   * only if the sums of filters are alike on entry.
   */
  lemma MergedExactly(first: seq<NeighborConfig>, second: seq<NeighborConfig>)
    requires WfStore(Contents(first + second)) && MergedInPlace(first + second).Ok?
    ensures MergedInPlace(first + second) == MergeNeighborLists(Values(first), Values(second)) <==>
              Alike(first + second, Contents(first + second))
  {
    hide Exec, FoldNeighbors, InPlace, Alike, WfStore, SortByName;
    ContentsVals(first, second);
    InPlaceExact(first + second, Contents(first + second));
  }

  /** Lists without a common object are merged as their values are. */
  lemma DistinctMerged(first: seq<NeighborConfig>, second: seq<NeighborConfig>)
    requires Injective(first + second)
    ensures MergedInPlace(first + second) == MergeNeighborLists(Values(first), Values(second))
  {
    hide Exec, FoldNeighbors, Injective, SortByName;
    var all := first + second;
    ContentsVals(first, second);
    DistinctMergeIsPure(all, Contents(all));
    if Exec(all, Contents(all)).Ok? { OutcomeInPlace(all, Contents(all)); }
  }

  /** So is a list of distinct objects with itself. */
  lemma DoubledMerged(ns: seq<NeighborConfig>)
    requires Injective(ns) && WfStore(Contents(ns))
    ensures MergedInPlace(ns + ns) == MergeNeighborLists(Values(ns), Values(ns))
  {
    hide Exec, FoldNeighbors, Injective, SortByName, WfStore;
    ContentsVals(ns, ns);
    DoubledContents(ns);
    SelfMergeIsPure(ns, Contents(ns));
    if Exec(ns + ns, Contents(ns)).Ok? { OutcomeInPlace(ns + ns, Contents(ns)); }
  }

  /** `n` is the first object listed with its ID; IDs never change. */
  ghost predicate FirstOfID(all: seq<NeighborConfig>, n: NeighborConfig) {
    exists i :: 0 <= i < |all| && all[i] == n && forall j | 0 <= j < i :: ID(all[j].identity) != ID(n.identity)
  }

  /** `ns` lists, each once, exactly the objects of `all` that are the first of their ID. */
  ghost predicate TakesFirst(ns: seq<NeighborConfig>, all: seq<NeighborConfig>) {
    && Injective(ns)
    && (forall n | n in ns :: n in all)
    && (forall n | n in all :: n in ns <==> FirstOfID(all, n))
  }

  ghost function BesidesNeighbors(r: Router): (s: Router) { r.(neighbors := []) }

  lemma Besides(r: Router)
    ensures BesidesNeighbors(r) == Router(r.asn, r.id, [], r.vrf, r.v4, r.v6, r.importVRFs, r.evpn)
  {}

  lemma RoutersMerged(r: Router, t: Router)
    ensures MergeRouters(r, t).Ok? <==>
              RoutersCompatible(r, t) && MergeNeighborLists(r.neighbors, t.neighbors).Ok? &&
                  MergeEvpn(r.evpn, t.evpn).Ok?
    ensures MergeRouters(r, t).Ok? ==>
              BesidesNeighbors(MergeRouters(r, t).value) ==
                Router(r.asn, if r.id == "" then t.id else r.id, [], r.vrf, Union(r.v4, t.v4), Union(r.v6, t.v6),
                       Union(r.importVRFs, t.importVRFs), MergeEvpn(r.evpn, t.evpn).value)
  {
    hide MergeNeighborLists, MergeEvpn, RoutersCompatible, Union;
  }

  lemma FirstOfIDUnique(all: seq<NeighborConfig>, a: NeighborConfig, b: NeighborConfig)
    requires FirstOfID(all, a) && FirstOfID(all, b) && ID(a.identity) == ID(b.identity)
    ensures a == b
  {
    hide ID;
    var i :| 0 <= i < |all| && all[i] == a && forall j | 0 <= j < i :: ID(all[j].identity) != ID(a.identity);
    var k :| 0 <= k < |all| && all[k] == b && forall j | 0 <= j < k :: ID(all[j].identity) != ID(b.identity);
    assert !(i < k) && !(k < i);
  }

  lemma FirstObjectIsFirst(all: seq<NeighborConfig>, store: map<NeighborConfig, Neighbor>, id: string,
                           d: NeighborConfig)
    requires Stored(all, store) && FirstObject(all, store, id, d) &&
             forall k | k in all :: ID(store[k]) == ID(k.identity)
    ensures d in all && FirstOfID(all, d) && ID(d.identity) == id
  {
    hide ID;
    var i :| 0 <= i < |all| && all[i] == d && ID(store[d]) == id && forall j | 0 <= j < i :: ID(store[all[j]]) != id;
    forall j | 0 <= j < i ensures ID(all[j].identity) != ID(d.identity) { assert all[j] in all; }
  }

  lemma FirstStandIn(h: Heap<NeighborConfig>, all: seq<NeighborConfig>, store: map<NeighborConfig, Neighbor>,
                     n: NeighborConfig)
    requires Stored(all, store) && OnlyFirst(h, all, store) && n in all &&
             forall k | k in all :: ID(store[k]) == ID(k.identity)
    ensures Standing(h, n) <==> FirstOfID(all, n)
  {
    hide ID, FirstOfID, FirstObject;
    var id := ID(n.identity);
    FirstObjectIsFirst(all, store, id, h.dest[id]);
    if FirstOfID(all, n) { FirstOfIDUnique(all, n, h.dest[id]); }
    if Standing(h, n) { StandingID(h, all, store, n); }
  }

  /** The objects that stand for an ID are the first ones, and the others keep what they hold. */
  lemma FirstStand(all: seq<NeighborConfig>)
    requires Outcome(all).Ok?
    ensures forall n | n in all :: Standing(Outcome(all).value, n) <==> FirstOfID(all, n)
    ensures forall n | n in all && !FirstOfID(all, n) ::
              n in Outcome(all).value.store && Outcome(all).value.store[n] == n.Value()
  {
    hide ID, Exec, Standing, FirstOfID, FirstObject, NeighborConfig.Value;
    var store := Contents(all);
    assert Outcome(all) == Exec(all, store);
    ExecChangesFirst(all, store);
    forall n | n in all ensures Standing(Outcome(all).value, n) <==> FirstOfID(all, n) {
      FirstStandIn(Outcome(all).value, all, store, n);
    }
  }

  lemma StandingID(h: Heap<NeighborConfig>, all: seq<NeighborConfig>, store: map<NeighborConfig, Neighbor>,
                   n: NeighborConfig)
    requires Stored(all, store) && OnlyFirst(h, all, store) && n in store && Standing(h, n)
    ensures ID(store[n]) in h.dest && h.dest[ID(store[n])] == n
  {
    hide ID;
    var id :| id in h.dest && h.dest[id] == n;
    assert FirstObject(all, store, id, n);
  }

  lemma OutcomeMerged(ns: seq<NeighborConfig>)
    requires Outcome(ns).Ok?
    ensures DestListed(Outcome(ns).value, ns)
    ensures MergedInPlace(ns) == Ok(SortByName(StandingValues(Outcome(ns).value)))
  {
    hide Exec, SortByName, ID;
    ExecKeepsIDs(ns, Contents(ns));
  }

  /** The listed objects hold what the outcome says. */
  lemma MergedStanding(h: Heap<NeighborConfig>, all: seq<NeighborConfig>)
    requires DestListed(h, all) && HeapShows(h, all)
    ensures Values(SortByName(h.dest)) == SortByName(StandingValues(h))
  {
    hide SortByName, ID, HeapShows, Values;
    SameStanding(h, StandingValues(h));
    StandingKeys(h);
    MergedValues(h, StandingValues(h), all);
  }

  lemma StandingListed(h: Heap<NeighborConfig>)
    ensures forall n :: n in SortByName(h.dest) <==> Standing(h, n)
  {
    hide SortByName;
  }

  /**
   * `mergeNeighborsLists` for objects shared in any way: it succeeds exactly when the merge of the
   * values does, and leaves the merge in place of what the objects held.
   */
  method MergeOwned(first: seq<NeighborConfig>, toMerge: seq<NeighborConfig>) returns (r: Result<seq<NeighborConfig>>)
    requires Mergeable(first, toMerge)
    modifies first, toMerge
    ensures r.Ok? <==> MergeNeighborLists(old(Values(first)), old(Values(toMerge))).Ok?
    ensures r.Ok? ==> old(MergedInPlace(first + toMerge)) == Ok(Values(r.value))
    ensures r.Ok? ==> TakesFirst(r.value, first + toMerge)
    ensures r.Ok? ==> forall n | n in first + toMerge && n !in r.value :: n.Value() == old(n.Value())
  {
    hide ID, FoldNeighbors, Exec, SortByName, SameOutcome, DestListed, Outcome, Mergeable, Values, FirstOfID;
    hide NeighborConfig.Value, MergeNeighborLists, MergedInPlace;
    ghost var h := Outcome(first + toMerge);
    MergeableSucceeds(first, toMerge);
    if h.Ok? { OutcomeMerged(first + toMerge); }
    if h.Ok? { FirstStand(first + toMerge); }
    r := MergeNeighborsLists(first, toMerge);
    if r.Ok? {
      StandingListed(h.value);
      MergedStanding(h.value, first + toMerge);
      MergedDistinct(h.value, first + toMerge);
    }
  }

  class RouterConfig {
    const asn: nat
    const vrf: string
    var id: string
    var neighbors: seq<NeighborConfig>
    var v4: seq<string>
    var v6: seq<string>
    var importVRFs: seq<string>
    var evpn: Option<Evpn>

    ghost function Value(): (r: Router)
      reads this, neighbors
      ensures r.vrf == vrf
    {
      Router(asn, id, Values(neighbors), vrf, v4, v6, importVRFs, evpn)
    }

    constructor (asn: nat, id: string, vrf: string, v4: seq<string>, v6: seq<string>, importVRFs: seq<string>,
                 evpn: Option<Evpn>)
      ensures Value() == Router(asn, id, [], vrf, v4, v6, importVRFs, evpn) && neighbors == []
    {
      this.asn, this.id, this.vrf, neighbors := asn, id, vrf, [];
      this.v4, this.v6, this.importVRFs, this.evpn := v4, v6, importVRFs, evpn;
    }

    method Append(n: NeighborConfig)
      modifies `neighbors
      ensures neighbors == old(neighbors) + [n]
      ensures Value() == old(Value()).(neighbors := old(Value()).neighbors + [n.Value()])
    {
      neighbors := neighbors + [n];
    }

    /** `routersAreCompatible` */
    method CompatibleWith(toMerge: RouterConfig) returns (ok: bool)
      ensures ok <==> RoutersCompatible(Value(), toMerge.Value())
    {
      if vrf != toMerge.vrf { return false; }
      if asn != toMerge.asn { return false; }
      var bothRouterIDsNonEmpty := id != "" && toMerge.id != "";
      var routerIDsDifferent := id != toMerge.id;
      return !(bothRouterIDsNonEmpty && routerIDsDifferent);
    }

    /**
     * `mergeRouterConfigs`.  The two may share neighbors, and `toMerge` may be this very router.  The
     * merged router owns distinct objects, the first of each ID in the two lists.
     */
    method Merge(toMerge: RouterConfig) returns (ok: bool)
      requires Mergeable(neighbors, toMerge.neighbors)
      modifies this, neighbors, toMerge.neighbors
      ensures ok <==> MergeRouters(old(Value()), old(toMerge.Value())).Ok?
      ensures ok ==>
                BesidesNeighbors(Value()) == BesidesNeighbors(MergeRouters(old(Value()), old(toMerge.Value())).value)
      ensures ok ==> TakesFirst(neighbors, old(neighbors) + old(toMerge.neighbors))
      ensures ok ==>
                forall n | n in old(neighbors) + old(toMerge.neighbors) && n !in neighbors ::
                    n.Value() == old(n.Value())
      ensures ok ==> old(MergedInPlace(neighbors + toMerge.neighbors)) == Ok(Values(neighbors))
    {
      hide MergeRouters, MergeEvpn, MergeNeighborLists, Values, RoutersCompatible, Mergeable, Union, FirstOfID;
      hide MergedInPlace, Injective, TakesFirst, BesidesNeighbors;
      ghost var r, t := Value(), toMerge.Value();
      RoutersMerged(r, t);
      var compatible := CompatibleWith(toMerge);
      if !compatible { return false; }
      var v4Prefixes := Union(v4, toMerge.v4);
      var v6Prefixes := Union(v6, toMerge.v6);
      var imports := Union(importVRFs, toMerge.importVRFs);
      if id == "" { id := toMerge.id; }
      var merged := MergeOwned(neighbors, toMerge.neighbors);
      if merged.Err? { return false; }
      var mergedEVPN := MergeEvpnConfigs(evpn, toMerge.evpn);
      if mergedEVPN.Err? { return false; }
      v4, v6, importVRFs := v4Prefixes, v6Prefixes, imports;
      neighbors := merged.value;
      evpn := mergedEVPN.value;
      Besides(Value());
      return true;
    }
  }
}

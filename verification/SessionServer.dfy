/**
 * Carrying out the plan of Sessions: the API server as a finite map of objects.  One pass leaves one
 * object per session, with the right status, and nothing else of this node.  A write to an existing
 * object restores its status only, so whether passes come to rest depends on the labels found.
 */
module SessionServer {
  import opened Configs
  import opened Sessions

  type Objects = map<string, SessionState>

  ghost predicate Named(objs: Objects) { "" !in objs && forall n | n in objs :: objs[n].name == n }

  predicate OnNode(r: Reconciler, s: SessionState) { NODE_LABEL in s.labels && s.labels[NODE_LABEL] == r.nodeName }

  ghost predicate NoRepeat(items: seq<SessionState>) { forall i, j | 0 <= i < j < |items| :: items[i] != items[j] }

  /** The objects of this node, each once, in any order. */
  ghost predicate ListedOn(r: Reconciler, objs: Objects, items: seq<SessionState>) {
    NoRepeat(items) && forall s :: s in items <==> s.name in objs && objs[s.name] == s && OnNode(r, s)
  }

  /** The index of a list. */
  ghost predicate Indexes(ix: Index, items: seq<SessionState>) { forall k :: Lookup(ix, k) == FirstWith(items, k) }

  ghost predicate DistinctTargets(r: Reconciler, ts: seq<Target>) {
    forall i, j | 0 <= i < j < |ts| :: TargetKey(r, ts[i]) != TargetKey(r, ts[j])
  }

  /** Objects of other nodes are as they were. */
  ghost predicate OthersKept(r: Reconciler, before: Objects, now: Objects) {
    && (forall n | n in before && !OnNode(r, before[n]) :: n in now && now[n] == before[n])
    && (forall n | n in now && !OnNode(r, now[n]) :: n in before && now[n] == before[n])
  }

  /** The object belongs to the session and has the right status. */
  ghost predicate Shows(r: Reconciler, t: Target, s: SessionState) {
    KeyOf(s) == TargetKey(r, t) && OnNode(r, s) && StatusOf(r, t, s.status)
  }

  /** The labels are exactly those of the session. */
  ghost predicate Labelled(r: Reconciler, t: Target, s: SessionState) { LabelsOf(r, t, s.labels) }

  /** The objects of this node belong to sessions, no two to the same. */
  ghost predicate NoneSpare(r: Reconciler, ts: seq<Target>, now: Objects) {
    && (forall n | n in now && OnNode(r, now[n]) :: Targeted(r, ts, KeyOf(now[n])))
    && OnePerKey(r, now)
  }

  ghost predicate OnePerKey(r: Reconciler, now: Objects) {
    forall n, m | n in now && m in now && OnNode(r, now[n]) && OnNode(r, now[m]) && KeyOf(now[n]) == KeyOf(now[m]) ::
        n == m
  }

  /** One object with the right status for every session, and no other object of this node. */
  ghost predicate Tidy(r: Reconciler, ts: seq<Target>, now: Objects) {
    NoneSpare(r, ts, now) && forall t | t in ts :: exists n :: n in now && Shows(r, t, now[n])
  }

  /** Beyond that the labels are right: nothing is left to do. */
  ghost predicate Settled(r: Reconciler, ts: seq<Target>, now: Objects) {
    NoneSpare(r, ts, now) && forall t | t in ts :: exists n :: n in now && Shows(r, t, now[n]) && Labelled(r, t, now[n])
  }

  /** The first object found for each session, where there is one, has the session's labels and no others. */
  ghost predicate LabelsRight(r: Reconciler, ix: Index, ts: seq<Target>) {
    forall t | t in ts && Lookup(ix, TargetKey(r, t)).Some? :: Labelled(r, t, Lookup(ix, TargetKey(r, t)).value)
  }

  /** The labels the object of a session ends up with: the ones it had, or else the session's. */
  ghost predicate Keeps(r: Reconciler, ix: Index, t: Target, s: SessionState) {
    var f := Lookup(ix, TargetKey(r, t));
    if f.Some? then s.labels == f.value.labels else Labelled(r, t, s)
  }

  ghost predicate Mirrored(r: Reconciler, ix: Index, t: Target, now: Objects) {
    exists n :: n in now && Shows(r, t, now[n]) && Keeps(r, ix, t, now[n])
  }

  // ---- deleting

  function Names(ss: seq<SessionState>): (ns: set<string>) { set s | s in ss :: s.name }

  lemma {:induction false} DuplicatesSplit(items: seq<SessionState>, s: SessionState)
    requires NoRepeat(items)
    ensures s in Duplicates(items) <==> s in items && FirstWith(items, KeyOf(s)) != Some(s)
  {
    hide KeyOf;
    if items != [] {
      var before, last := items[..|items| - 1], items[|items| - 1];
      assert items == before + [last];
      assert NoRepeat(before) && last !in before;
      DuplicatesSplit(before, s);
    }
  }

  /** Of this node's objects exactly the first of every key that has a session is left. */
  ghost predicate OnlyFirsts(r: Reconciler, ix: Index, ts: seq<Target>, now: Objects) {
    && (forall n | n in now && OnNode(r, now[n]) ::
          Targeted(r, ts, KeyOf(now[n])) && Lookup(ix, KeyOf(now[n])) == Some(now[n]))
    && (forall t | t in ts && Lookup(ix, TargetKey(r, t)).Some? ::
          var s := Lookup(ix, TargetKey(r, t)).value; s.name in now && now[s.name] == s)
  }

  lemma Clearing(r: Reconciler, objs: Objects, items: seq<SessionState>, ix: Index, ts: seq<Target>,
                 gone: seq<SessionState>)
    requires Named(objs) && ListedOn(r, objs, items) && Indexes(ix, items)
    requires forall s :: s in gone <==> IsLeftover(r, ix, ts, s)
    ensures var now := objs - Names(Duplicates(items)) - Names(gone);
            Named(now) && OthersKept(r, objs, now) && OnlyFirsts(r, ix, ts, now)
  {
    hide KeyOf, FirstWith, Duplicates, Targeted, Lookup, OnNode;
    var dups := Duplicates(items);
    var now := objs - Names(dups) - Names(gone);
    forall s ensures s in dups <==> s in items && FirstWith(items, KeyOf(s)) != Some(s) { DuplicatesSplit(items, s); }
    forall s | s in gone ensures s in items && FirstWith(items, KeyOf(s)) == Some(s) && !Targeted(r, ts, KeyOf(s)) {
      var k :| Lookup(ix, k) == Some(s) && !Targeted(r, ts, k);
      assert FirstWith(items, k) == Some(s);
    }
    forall n | n in now && OnNode(r, now[n])
      ensures Targeted(r, ts, KeyOf(now[n])) && Lookup(ix, KeyOf(now[n])) == Some(now[n])
    {
      var s := objs[n];
      assert s in items && s !in dups;
      assert Lookup(ix, KeyOf(s)) == Some(s);
      assert s !in gone;
    }
    forall t | t in ts && Lookup(ix, TargetKey(r, t)).Some?
      ensures var s := Lookup(ix, TargetKey(r, t)).value; s.name in now && now[s.name] == s
    {
      var k := TargetKey(r, t);
      var s := Lookup(ix, k).value;
      assert FirstWith(items, k) == Some(s) && KeyOf(s) == k && s in items;
      assert Targeted(r, ts, k) by { TargetedBy(r, ts, t); }
      assert s !in dups && s !in gone;
      NameKept(objs, items, dups, s);
      NameKept(objs, items, gone, s);
    }
  }

  lemma TargetedBy(r: Reconciler, ts: seq<Target>, t: Target)
    requires t in ts
    ensures Targeted(r, ts, TargetKey(r, t))
  {}

  lemma NameKept(objs: Objects, items: seq<SessionState>, gone: seq<SessionState>, s: SessionState)
    requires Named(objs) && (forall x | x in items :: x.name in objs && objs[x.name] == x)
    requires (forall x | x in gone :: x in items) && s in items && s !in gone
    ensures s.name !in Names(gone)
  {}

  // ---- writing

  /** A stored object gets the status and keeps its labels; an object without a name gets one nobody has. */
  ghost predicate Wrote(objs: Objects, s: SessionState, after: Objects) {
    if s.name in objs then after == objs[s.name := objs[s.name].(status := s.status)]
    else if s.name != "" then after == objs[s.name := s]
    else exists n :: n != "" && n !in objs && after == objs[n := s.(name := n)]
  }

  ghost predicate WroteAll(objs: Objects, ss: seq<SessionState>, after: Objects) {
    if ss == [] then after == objs
    else
      var before, last := ss[..|ss| - 1], ss[|ss| - 1];
      exists mid :: WroteAll(objs, before, mid) && Wrote(mid, last, after)
  }

  /** The sessions before `p` are mirrored, and those after it still have what is stored for them. */
  ghost predicate Settling(r: Reconciler, ix: Index, ts: seq<Target>, p: nat, now: Objects)
    requires p <= |ts|
  {
    && Named(now)
    && (forall i | 0 <= i < p :: Mirrored(r, ix, ts[i], now))
    && NoneSpare(r, ts, now)
    && (forall i | p <= i < |ts| :: Waiting(r, ix, TargetKey(r, ts[i]), now))
  }

  ghost predicate Waiting(r: Reconciler, ix: Index, k: SessionKey, now: Objects) {
    var s := Lookup(ix, k);
    if s.Some? then s.value.name in now && now[s.value.name] == s.value && KeyOf(s.value) == k && OnNode(r, s.value)
    else forall n | n in now && OnNode(r, now[n]) :: KeyOf(now[n]) != k
  }

  lemma ClearedIsSettling(r: Reconciler, objs: Objects, items: seq<SessionState>, ix: Index, ts: seq<Target>,
                          now: Objects)
    requires ListedOn(r, objs, items) && Indexes(ix, items) && Named(now) && OnlyFirsts(r, ix, ts, now)
    ensures Settling(r, ix, ts, 0, now)
  {
    hide KeyOf, Targeted, Lookup, FirstWith, OnNode;
    forall i | 0 <= i < |ts| ensures Waiting(r, ix, TargetKey(r, ts[i]), now) {
      var k := TargetKey(r, ts[i]);
      assert ts[i] in ts;
      assert Lookup(ix, k) == FirstWith(items, k);
    }
  }

  lemma CreatedShows(r: Reconciler, t: Target, existing: Option<SessionState>, name: string)
    ensures var d := Desired(r, t, existing).(name := name); Shows(r, t, d) && Labelled(r, t, d)
  {}

  lemma PatchedShows(r: Reconciler, t: Target, existing: Option<SessionState>, s: SessionState)
    requires KeyOf(s) == TargetKey(r, t) && OnNode(r, s)
    ensures Shows(r, t, s.(status := Desired(r, t, existing).status))
  {}

  lemma UpToDateExactly(r: Reconciler, t: Target, s: SessionState)
    ensures UpToDate(r, t, s) <==> Shows(r, t, s) && Labelled(r, t, s)
  {}

  /** Storing the object of one session leaves those of the others alone. */
  lemma StoreOne(r: Reconciler, ix: Index, ts: seq<Target>, p: nat, now: Objects, n: string, d: SessionState)
    requires p < |ts| && DistinctTargets(r, ts) && Settling(r, ix, ts, p, now)
    requires n != "" && d.name == n && Shows(r, ts[p], d) && Keeps(r, ix, ts[p], d)
    requires var s := Lookup(ix, TargetKey(r, ts[p])); if s.Some? then n == s.value.name else n !in now
    ensures Settling(r, ix, ts, p + 1, now[n := d])
  {
    hide KeyOf, Targeted, Lookup, OnNode, TargetKey, Desired, Keeps;
    var after, k := now[n := d], TargetKey(r, ts[p]);
    TargetedBy(r, ts, ts[p]);
    assert Waiting(r, ix, k, now);
    forall i | 0 <= i < p + 1 ensures Mirrored(r, ix, ts[i], after) {
      if i == p {
        assert n in after && Shows(r, ts[p], after[n]) && Keeps(r, ix, ts[p], after[n]);
      } else {
        assert Mirrored(r, ix, ts[i], now);
        var m :| m in now && Shows(r, ts[i], now[m]) && Keeps(r, ix, ts[i], now[m]);
        assert m != n;
        assert m in after && Shows(r, ts[i], after[m]) && Keeps(r, ix, ts[i], after[m]);
      }
    }
    forall i | p + 1 <= i < |ts| ensures Waiting(r, ix, TargetKey(r, ts[i]), after) {
      assert Waiting(r, ix, TargetKey(r, ts[i]), now) && TargetKey(r, ts[i]) != k;
    }
  }

  lemma SkipOne(r: Reconciler, ix: Index, ts: seq<Target>, p: nat, now: Objects)
    requires p < |ts| && Settling(r, ix, ts, p, now)
    requires Lookup(ix, TargetKey(r, ts[p])).Some? && UpToDate(r, ts[p], Lookup(ix, TargetKey(r, ts[p])).value)
    ensures Settling(r, ix, ts, p + 1, now)
  {
    hide KeyOf, Targeted, Lookup, OnNode, UpToDate, TargetKey, Desired;
    var s := Lookup(ix, TargetKey(r, ts[p])).value;
    assert Waiting(r, ix, TargetKey(r, ts[p]), now);
    UpToDateExactly(r, ts[p], s);
    assert s.name in now && Shows(r, ts[p], now[s.name]) && Keeps(r, ix, ts[p], now[s.name]);
  }

  lemma NotTargetedBefore(r: Reconciler, ts: seq<Target>, p: nat)
    requires p < |ts| && DistinctTargets(r, ts)
    ensures !Targeted(r, ts[..p], TargetKey(r, ts[p]))
  {
    forall t | t in ts[..p] ensures TargetKey(r, t) != TargetKey(r, ts[p]) {
      var i :| 0 <= i < p && ts[..p][i] == t;
    }
  }

  /** The writes of the plan, one session after the other. */
  lemma {:induction false} Writing(r: Reconciler, ix: Index, ts: seq<Target>, p: nat, start: Objects, now: Objects)
    requires p <= |ts| && DistinctTargets(r, ts) && Settling(r, ix, ts, 0, start)
    requires WroteAll(start, ToApply(r, ix, ts[..p]), now)
    ensures Settling(r, ix, ts, p, now)
    decreases p
  {
    hide KeyOf, Targeted, Lookup, OnNode, UpToDate, TargetKey, Settling, Desired, Wrote;
    if p == 0 {
      assert ts[..0] == [];
    } else {
      var q := p - 1;
      var before, t := ts[..q], ts[q];
      assert ts[..p][..q] == before && ts[..p][q] == t;
      NotTargetedBefore(r, ts, q);
      var existing := Lookup(ix, TargetKey(r, t));
      var written := ToApply(r, ix, before);
      if existing.Some? && UpToDate(r, t, existing.value) {
        Writing(r, ix, ts, q, start, now);
        SkipOne(r, ix, ts, q, now);
      } else {
        var d := Desired(r, t, existing);
        var ss := written + [d];
        assert ToApply(r, ix, ts[..p]) == ss && ss[..|ss| - 1] == written && ss[|ss| - 1] == d;
        var mid :| WroteAll(start, written, mid) && Wrote(mid, d, now);
        Writing(r, ix, ts, q, start, mid);
        StoreWritten(r, ix, ts, q, mid, now);
      }
    }
  }

  /** What a write of the plan stores, and under which name. */
  lemma WrittenIs(r: Reconciler, ix: Index, ts: seq<Target>, p: nat, mid: Objects, now: Objects)
    returns (n: string, d: SessionState)
    requires p < |ts| && Settling(r, ix, ts, p, mid)
    requires Wrote(mid, Desired(r, ts[p], Lookup(ix, TargetKey(r, ts[p]))), now)
    ensures now == mid[n := d] && n != "" && d.name == n && Shows(r, ts[p], d) && Keeps(r, ix, ts[p], d)
    ensures var s := Lookup(ix, TargetKey(r, ts[p]));
            if s.Some? then n == s.value.name && mid[n] == s.value else n !in mid
  {
    hide KeyOf, Targeted, Lookup, OnNode, TargetKey, Shows, NoneSpare, Labelled, Mirrored;
    var existing := Lookup(ix, TargetKey(r, ts[p]));
    var s := Desired(r, ts[p], existing);
    assert Waiting(r, ix, TargetKey(r, ts[p]), mid);
    if existing.Some? {
      n, d := s.name, existing.value.(status := s.status);
      PatchedShows(r, ts[p], existing, existing.value);
    } else {
      n :| n != "" && n !in mid && now == mid[n := s.(name := n)];
      d := s.(name := n);
      CreatedShows(r, ts[p], existing, n);
    }
  }

  lemma StoreWritten(r: Reconciler, ix: Index, ts: seq<Target>, p: nat, mid: Objects, now: Objects)
    requires p < |ts| && DistinctTargets(r, ts) && Settling(r, ix, ts, p, mid)
    requires Wrote(mid, Desired(r, ts[p], Lookup(ix, TargetKey(r, ts[p]))), now)
    ensures Settling(r, ix, ts, p + 1, now)
  {
    hide *;
    var n, d := WrittenIs(r, ix, ts, p, mid, now);
    StoreOne(r, ix, ts, p, mid, n, d);
  }

  lemma OthersStay(r: Reconciler, ix: Index, ts: seq<Target>, p: nat, start: Objects, mid: Objects, now: Objects)
    requires p < |ts| && Settling(r, ix, ts, p, mid) && OthersKept(r, start, mid)
    requires Wrote(mid, Desired(r, ts[p], Lookup(ix, TargetKey(r, ts[p]))), now)
    ensures OthersKept(r, start, now)
  {
    hide KeyOf, Targeted, Lookup, OnNode, UpToDate, TargetKey, Mirrored, NoneSpare, Wrote, Desired, Keeps;
    var n, d := WrittenIs(r, ix, ts, p, mid, now);
    assert Waiting(r, ix, TargetKey(r, ts[p]), mid);
  }

  lemma {:induction false} WritingKeepsOthers(r: Reconciler, ix: Index, ts: seq<Target>, p: nat, start: Objects,
                                              now: Objects)
    requires p <= |ts| && DistinctTargets(r, ts) && Settling(r, ix, ts, 0, start)
    requires WroteAll(start, ToApply(r, ix, ts[..p]), now)
    ensures OthersKept(r, start, now)
    decreases p
  {
    hide KeyOf, Targeted, Lookup, OnNode, UpToDate, TargetKey, Settling, Desired, Wrote;
    if p == 0 {
      assert ts[..0] == [];
    } else {
      var q := p - 1;
      var before, t := ts[..q], ts[q];
      assert ts[..p][..q] == before && ts[..p][q] == t;
      NotTargetedBefore(r, ts, q);
      var existing := Lookup(ix, TargetKey(r, t));
      var written := ToApply(r, ix, before);
      if existing.Some? && UpToDate(r, t, existing.value) {
        WritingKeepsOthers(r, ix, ts, q, start, now);
      } else {
        var d := Desired(r, t, existing);
        var ss := written + [d];
        assert ToApply(r, ix, ts[..p]) == ss && ss[..|ss| - 1] == written && ss[|ss| - 1] == d;
        var mid :| WroteAll(start, written, mid) && Wrote(mid, d, now);
        Writing(r, ix, ts, q, start, mid);
        WritingKeepsOthers(r, ix, ts, q, start, mid);
        OthersStay(r, ix, ts, q, start, mid, now);
      }
    }
  }

  // ---- a pass

  /**
   * Deleting duplicates and leftovers and writing the plan leaves exactly one object per session, with
   * the right status, whatever was stored, in whatever order it was listed, and touches no other node.
   * Nothing is left to do if and only if the objects found had the labels of their sessions.
   */
  lemma OnePassSettles(r: Reconciler, objs: Objects, items: seq<SessionState>, ix: Index, ts: seq<Target>,
                       gone: seq<SessionState>, after: Objects)
    requires Named(objs) && ListedOn(r, objs, items) && Indexes(ix, items) && DistinctTargets(r, ts)
    requires forall s :: s in gone <==> IsLeftover(r, ix, ts, s)
    requires WroteAll(objs - Names(Duplicates(items)) - Names(gone), ToApply(r, ix, ts), after)
    ensures Named(after) && Tidy(r, ts, after) && OthersKept(r, objs, after)
    ensures Settled(r, ts, after) <==> LabelsRight(r, ix, ts)
  {
    hide KeyOf, Targeted, Lookup, OnNode, OnlyFirsts, Duplicates, ToApply, WroteAll, ListedOn, Indexes, IsLeftover,
         TargetKey, LabelsRight, Settled, NoneSpare, Shows, Keeps;
    var start := objs - Names(Duplicates(items)) - Names(gone);
    Clearing(r, objs, items, ix, ts, gone);
    ClearedIsSettling(r, objs, items, ix, ts, start);
    assert ts[..|ts|] == ts;
    Writing(r, ix, ts, |ts|, start, after);
    WritingKeepsOthers(r, ix, ts, |ts|, start, after);
    forall t | t in ts ensures Mirrored(r, ix, t, after) { var i :| 0 <= i < |ts| && ts[i] == t; }
    LabelsDecide(r, ix, ts, after);
  }

  lemma LabelsDecide(r: Reconciler, ix: Index, ts: seq<Target>, now: Objects)
    requires NoneSpare(r, ts, now) && forall t | t in ts :: Mirrored(r, ix, t, now)
    ensures Settled(r, ts, now) <==> LabelsRight(r, ix, ts)
  {
    hide KeyOf, Targeted, Lookup, OnNode, TargetKey, UpToDate, Desired;
    forall t | t in ts
      ensures (exists n :: n in now && UpToDate(r, t, now[n])) <==>
              (Lookup(ix, TargetKey(r, t)).Some? ==> Labelled(r, t, Lookup(ix, TargetKey(r, t)).value))
    {
      assert Mirrored(r, ix, t, now);
      var m :| m in now && Shows(r, t, now[m]) && Keeps(r, ix, t, now[m]);
      forall n | n in now ensures UpToDate(r, t, now[n]) <==> n == m && Labelled(r, t, now[n]) {
        UpToDateExactly(r, t, now[n]);
      }
      assert (exists n :: n in now && UpToDate(r, t, now[n])) <==> Labelled(r, t, now[m]);
    }
  }

  /** The index of a tidy server finds the object of each session. */
  lemma TidyIndex(r: Reconciler, ts: seq<Target>, now: Objects, items: seq<SessionState>, ix: Index, t: Target)
    requires Named(now) && Tidy(r, ts, now) && ListedOn(r, now, items) && Indexes(ix, items) && t in ts
    ensures var f := Lookup(ix, TargetKey(r, t));
            f.Some? && Shows(r, t, f.value) && f.value.name in now && now[f.value.name] == f.value
  {
    hide KeyOf, Targeted, Lookup, OnNode, TargetKey, FirstWith, Desired;
    var n :| n in now && Shows(r, t, now[n]);
    assert now[n] in items;
    assert Lookup(ix, TargetKey(r, t)) == FirstWith(items, TargetKey(r, t));
    var f := FirstWith(items, TargetKey(r, t)).value;
    assert f in items && f.name == n;
  }

  /** On a tidy server, being settled is that the objects found have the right labels. */
  lemma TidyLabels(r: Reconciler, ts: seq<Target>, now: Objects, items: seq<SessionState>, ix: Index)
    requires Named(now) && Tidy(r, ts, now) && ListedOn(r, now, items) && Indexes(ix, items)
    ensures Settled(r, ts, now) <==> LabelsRight(r, ix, ts)
  {
    hide KeyOf, Targeted, Lookup, OnNode, TargetKey, Shows, ListedOn, Indexes, NoneSpare, Settled, LabelsRight,
         Labelled;
    forall t | t in ts ensures Mirrored(r, ix, t, now) {
      TidyIndex(r, ts, now, items, ix, t);
      var s := Lookup(ix, TargetKey(r, t)).value;
      assert s.name in now && Shows(r, t, now[s.name]) && Keeps(r, ix, t, now[s.name]);
    }
    LabelsDecide(r, ix, ts, now);
  }

  /**
   * On a tidy server there is nothing to delete, and nothing to write if and only if it is settled,
   * however the objects are listed and the sessions visited.
   */
  lemma SecondPassIdle(r: Reconciler, ts: seq<Target>, now: Objects, items: seq<SessionState>, ix: Index,
                       us: seq<Target>)
    requires Named(now) && Tidy(r, ts, now) && ListedOn(r, now, items) && Indexes(ix, items)
    requires (forall t :: t in us <==> t in ts) && DistinctTargets(r, us)
    ensures Duplicates(items) == [] && forall s :: !IsLeftover(r, ix, us, s)
    ensures ToApply(r, ix, us) == [] <==> Settled(r, ts, now)
  {
    hide KeyOf, Targeted, Lookup, OnNode, UpToDate, TargetKey, Duplicates, ToApply, FirstWith, Desired, Settled, Shows;
    forall s | s in items ensures FirstWith(items, KeyOf(s)) == Some(s) {
      var f := FirstWith(items, KeyOf(s)).value;
      assert KeyOf(f) == KeyOf(s) && f.name == s.name;
    }
    forall s ensures s !in Duplicates(items) { DuplicatesSplit(items, s); }
    SomeElement(Duplicates(items));
    forall s, k | Lookup(ix, k) == Some(s) ensures Targeted(r, us, k) {
      assert FirstWith(items, k) == Some(s) && s in items && KeyOf(s) == k;
      assert Targeted(r, ts, k);
      SameTargeted(r, ts, us, k);
    }
    TidyLabels(r, ts, now, items, ix);
    forall t | t in us ensures Lookup(ix, TargetKey(r, t)).Some? && Shows(r, t, Lookup(ix, TargetKey(r, t)).value) {
      TidyIndex(r, ts, now, items, ix, t);
    }
    NothingIffLabels(r, ix, ts, us);
  }

  lemma NothingIffLabels(r: Reconciler, ix: Index, ts: seq<Target>, us: seq<Target>)
    requires (forall t :: t in us <==> t in ts) && DistinctTargets(r, us)
    requires forall t | t in us :: Lookup(ix, TargetKey(r, t)).Some? && Shows(r, t, Lookup(ix, TargetKey(r, t)).value)
    ensures ToApply(r, ix, us) == [] <==> LabelsRight(r, ix, ts)
  {
    hide Lookup, UpToDate, TargetKey, ToApply, Desired, Shows, Labelled, DistinctTargets;
    forall t | t in us ensures
      UpToDate(r, t, Lookup(ix, TargetKey(r, t)).value) <==> Labelled(r, t, Lookup(ix, TargetKey(r, t)).value)
    {
      UpToDateExactly(r, t, Lookup(ix, TargetKey(r, t)).value);
    }
    if LabelsRight(r, ix, ts) {
      NothingToApply(r, ix, us, |us|);
      assert us[..|us|] == us;
    } else {
      var t :| t in ts && !Labelled(r, t, Lookup(ix, TargetKey(r, t)).value);
      var i :| 0 <= i < |us| && us[i] == t;
      SomethingToApply(r, ix, us, i);
    }
  }

  lemma SomethingToApply(r: Reconciler, ix: Index, us: seq<Target>, i: nat)
    requires i < |us|
    requires var f := Lookup(ix, TargetKey(r, us[i])); f.None? || !UpToDate(r, us[i], f.value)
    ensures ToApply(r, ix, us) != []
  {
    hide Lookup, UpToDate, TargetKey, Desired, Targeted;
    assert us[..i + 1][..i] == us[..i];
    ApplyGrows(r, ix, us, i + 1);
  }

  // ---- passes without end

  /** A pass over the objects found, for these sessions in any order. */
  ghost predicate PassOver(r: Reconciler, ts: seq<Target>, ix: Index, items: seq<SessionState>, us: seq<Target>,
                           gone: seq<SessionState>, objs: Objects, after: Objects) {
    && ListedOn(r, objs, items) && Indexes(ix, items) && (forall t :: t in us <==> t in ts) && DistinctTargets(r, us)
    && (forall s :: s in gone <==> IsLeftover(r, ix, us, s))
    && WroteAll(objs - Names(Duplicates(items)) - Names(gone), ToApply(r, ix, us), after)
  }

  ghost predicate Pass(r: Reconciler, ts: seq<Target>, ix: Index, objs: Objects, after: Objects) {
    exists items, us, gone :: PassOver(r, ts, ix, items, us, gone, objs, after)
  }

  ghost predicate Passes(r: Reconciler, ts: seq<Target>, run: seq<Objects>) {
    forall i, j | 0 <= i < j < |run| && j == i + 1 :: PassFrom(r, ts, run[i], run[j])
  }

  ghost predicate PassFrom(r: Reconciler, ts: seq<Target>, objs: Objects, after: Objects) {
    exists ix :: Pass(r, ts, ix, objs, after)
  }

  lemma TidyFor(r: Reconciler, ts: seq<Target>, us: seq<Target>, ix: Index, now: Objects)
    requires forall t :: t in us <==> t in ts
    ensures Tidy(r, us, now) <==> Tidy(r, ts, now)
    ensures Settled(r, us, now) <==> Settled(r, ts, now)
    ensures LabelsRight(r, ix, us) <==> LabelsRight(r, ix, ts)
  {
    hide KeyOf, Targeted, Lookup, OnNode, TargetKey, Shows, UpToDate, Labelled, OnePerKey;
    forall k ensures Targeted(r, ts, k) <==> Targeted(r, us, k) { SameTargeted(r, ts, us, k); }
  }

  lemma PassSettles(r: Reconciler, ts: seq<Target>, ix: Index, objs: Objects, after: Objects)
    requires Named(objs) && Pass(r, ts, ix, objs, after)
    ensures Named(after) && Tidy(r, ts, after) && OthersKept(r, objs, after)
    ensures Settled(r, ts, after) <==> LabelsRight(r, ix, ts)
    ensures Tidy(r, ts, objs) ==> (Settled(r, ts, objs) <==> Settled(r, ts, after))
  {
    hide Tidy, Settled, LabelsRight, ListedOn, Indexes, IsLeftover, WroteAll, Duplicates, Names, ToApply,
         DistinctTargets, OthersKept, Named;
    var items, us, gone :| PassOver(r, ts, ix, items, us, gone, objs, after);
    OnePassSettles(r, objs, items, ix, us, gone, after);
    TidyFor(r, ts, us, ix, after);
    if Tidy(r, ts, objs) { TidyLabels(r, ts, objs, items, ix); }
  }

  /** A label somebody added is enough: the object still belongs to its session, with the wrong labels. */
  lemma AddedLabel(r: Reconciler, t: Target, s: SessionState, key: string, value: string)
    requires Labelled(r, t, s) && key != NODE_LABEL && key != PEER_LABEL && key != VRF_LABEL
    ensures var x := s.(labels := s.labels[key := value]);
            KeyOf(x) == TargetKey(r, t) && OnNode(r, x) && !Labelled(r, t, x)
  {
    var x := s.(labels := s.labels[key := value]);
    assert key in x.labels && key !in Desired(r, t, None).labels;
  }

  lemma PassMade(r: Reconciler, ts: seq<Target>, ix: Index, items: seq<SessionState>, gone: seq<SessionState>,
                 objs: Objects, after: Objects)
    requires ListedOn(r, objs, items) && Indexes(ix, items) && DistinctTargets(r, ts)
    requires forall s :: s in gone <==> IsLeftover(r, ix, ts, s)
    requires WroteAll(objs - Names(Duplicates(items)) - Names(gone), ToApply(r, ix, ts), after)
    ensures Pass(r, ts, ix, objs, after)
  {
    hide ListedOn, Indexes, IsLeftover, WroteAll, Duplicates, Names, ToApply, DistinctTargets;
    assert PassOver(r, ts, ix, items, ts, gone, objs, after);
  }

  /**
   * Passes over the same sessions come to rest after the first if and only if the objects the first
   * one found had the labels of their sessions; otherwise no later one does either.
   */
  lemma {:induction false} RestExactly(r: Reconciler, ts: seq<Target>, ix: Index, objs: Objects, run: seq<Objects>,
                                       p: nat)
    requires p < |run| && Named(objs) && Pass(r, ts, ix, objs, run[0]) && Passes(r, ts, run)
    ensures Named(run[p]) && Tidy(r, ts, run[p])
    ensures Settled(r, ts, run[p]) <==> LabelsRight(r, ix, ts)
    decreases p
  {
    hide Tidy, Settled, LabelsRight, Pass, Named, OthersKept;
    if p == 0 {
      PassSettles(r, ts, ix, objs, run[0]);
    } else {
      RestExactly(r, ts, ix, objs, run, p - 1);
      assert PassFrom(r, ts, run[p - 1], run[p]);
      var now :| Pass(r, ts, now, run[p - 1], run[p]);
      PassSettles(r, ts, now, run[p - 1], run[p]);
    }
  }

  lemma SomeElement(ss: seq<SessionState>)
    ensures ss == [] || exists s :: s in ss
  {
    if ss != [] { assert ss[0] in ss; }
  }

  lemma SameTargeted(r: Reconciler, ts: seq<Target>, us: seq<Target>, k: SessionKey)
    requires forall t :: t in us <==> t in ts
    ensures Targeted(r, ts, k) <==> Targeted(r, us, k)
  {}

  lemma {:induction false} NothingToApply(r: Reconciler, ix: Index, us: seq<Target>, p: nat)
    requires p <= |us| && DistinctTargets(r, us)
    requires forall t | t in us :: Lookup(ix, TargetKey(r, t)).Some? &&
              UpToDate(r, t, Lookup(ix, TargetKey(r, t)).value)
    ensures ToApply(r, ix, us[..p]) == []
  {
    hide Targeted, Lookup, UpToDate, TargetKey, Desired;
    if p > 0 {
      var q := p - 1;
      NothingToApply(r, ix, us, q);
      NotTargetedBefore(r, us, q);
      assert us[..p][..q] == us[..q] && us[q] in us;
    }
  }

  /** If two sessions of a VRF have one label there is always something to write: the plan never comes to rest. */
  lemma {:induction false} RepeatedNeverIdle(r: Reconciler, ix: Index, us: seq<Target>)
    ensures !DistinctTargets(r, us) ==> ToApply(r, ix, us) != []
  {
    hide Lookup, UpToDate, TargetKey, Desired;
    if !DistinctTargets(r, us) {
      var i, j :| 0 <= i < j < |us| && TargetKey(r, us[i]) == TargetKey(r, us[j]);
      assert us[..j][i] == us[i] && us[i] in us[..j];
      assert Targeted(r, us[..j], TargetKey(r, us[j]));
      assert us[..j + 1][..j] == us[..j];
      assert ToApply(r, ix, us[..j + 1]) != [];
      ApplyGrows(r, ix, us, j + 1);
    }
  }

  lemma {:induction false} ApplyGrows(r: Reconciler, ix: Index, us: seq<Target>, p: nat)
    requires p <= |us| && ToApply(r, ix, us[..p]) != []
    ensures ToApply(r, ix, us) != []
    decreases |us| - p
  {
    hide Lookup, UpToDate, TargetKey, Desired, Targeted;
    if p == |us| {
      assert us[..p] == us;
    } else {
      assert us[..p + 1][..p] == us[..p];
      ApplyGrows(r, ix, us, p + 1);
    }
  }

  // ---- the order of visiting

  ghost predicate Reported(sessions: map<string, seq<Session>>, t: Target) {
    t.vrf in sessions && t.session in sessions[t.vrf]
  }

  /** Within a VRF no two sessions have the same label. */
  ghost predicate DistinctSessions(r: Reconciler, sessions: map<string, seq<Session>>) {
    forall v | v in sessions :: forall i, j | 0 <= i < j < |sessions[v]| ::
        r.format(sessions[v][i].id) != r.format(sessions[v][j].id)
  }

  lemma {:induction false} FlattenMember(order: seq<string>, sessions: map<string, seq<Session>>, t: Target)
    requires forall v | v in order :: v in sessions
    ensures t in Flatten(order, sessions) <==> t.vrf in order && t.session in sessions[t.vrf]
  {
    if order != [] {
      var before, v := order[..|order| - 1], order[|order| - 1];
      assert order == before + [v];
      FlattenMember(before, sessions, t);
      TargetsMember(v, sessions[v], t);
    }
  }

  lemma TargetsMember(vrf: string, ss: seq<Session>, t: Target)
    ensures t in TargetsOf(vrf, ss) <==> t.vrf == vrf && t.session in ss
  {
    var ts := TargetsOf(vrf, ss);
    if t in ts { var i :| 0 <= i < |ts| && ts[i] == t; }
    if t.vrf == vrf && t.session in ss { var i :| 0 <= i < |ss| && ss[i] == t.session; assert ts[i] == t; }
  }

  lemma {:induction false} FlattenDistinct(r: Reconciler, order: seq<string>, sessions: map<string, seq<Session>>)
    requires DistinctSessions(r, sessions) && (forall v | v in order :: v in sessions)
    requires forall i, j | 0 <= i < j < |order| :: order[i] != order[j]
    ensures DistinctTargets(r, Flatten(order, sessions))
  {
    if order != [] {
      var before, v := order[..|order| - 1], order[|order| - 1];
      assert order == before + [v] && v !in before;
      FlattenDistinct(r, before, sessions);
      var a, b := Flatten(before, sessions), TargetsOf(v, sessions[v]);
      var ts := a + b;
      forall i, j | 0 <= i < j < |ts| ensures TargetKey(r, ts[i]) != TargetKey(r, ts[j]) {
        if i < |a| <= j {
          FlattenMember(before, sessions, ts[i]);
          assert ts[i] in a && ts[j] == b[j - |a|];
        }
      }
    }
  }

  // ---- the reconciler

  class Server {
    var objects: Objects

    constructor (objs: Objects)
      ensures objects == objs
    {
      objects := objs;
    }

    method List(r: Reconciler) returns (items: seq<SessionState>)
      requires Named(objects)
      ensures ListedOn(r, objects, items)
    {
      items := [];
      var rest := objects.Keys;
      while rest != {}
        invariant rest <= objects.Keys && NoRepeat(items)
        invariant forall s :: s in items <==>
                  s.name in objects && s.name !in rest && objects[s.name] == s && OnNode(r, s)
        decreases rest
      {
        var n :| n in rest;
        rest := rest - {n};
        if OnNode(r, objects[n]) {
          assert objects[n] !in items;
          items := items + [objects[n]];
        }
      }
    }

    method Delete(name: string)
      modifies this
      ensures objects == old(objects) - {name}
    {
      objects := objects - {name};
    }

    /** A name that starts like `generateName` and is not taken. */
    method NewName(generateName: string) returns (name: string)
      ensures name != "" && name !in objects
    {
      name := generateName + "x";
      var taken: set<string> := {};
      while name in objects
        invariant name != "" && taken <= objects.Keys && forall n | n in taken :: |n| < |name|
        decreases |objects.Keys| - |taken|
      {
        assert taken < objects.Keys;
        Smaller(taken, objects.Keys);
        taken := taken + {name};
        Smaller(taken, objects.Keys);
        name := name + "x";
      }
    }

    method Write(s: SessionState, generateName: string)
      modifies this
      ensures Wrote(old(objects), s, objects)
    {
      if s.name in objects {
        objects := objects[s.name := objects[s.name].(status := s.status)];
      } else if s.name != "" {
        objects := objects[s.name := s];
      } else {
        var name := NewName(generateName);
        objects := objects[name := s.(name := name)];
      }
    }

    method DeleteAll(ss: seq<SessionState>)
      modifies this
      ensures objects == old(objects) - Names(ss)
    {
      for i := 0 to |ss|
        invariant objects == old(objects) - Names(ss[..i])
      {
        Delete(ss[i].name);
        assert ss[..i + 1] == ss[..i] + [ss[i]];
        assert Names(ss[..i + 1]) == Names(ss[..i]) + {ss[i].name};
      }
      assert ss[..|ss|] == ss;
    }

    /** `Reconcile` */
    method Reconcile(r: Reconciler, reported: map<string, seq<Session>>)
      returns (ghost ts: seq<Target>, ghost ix: Index)
      requires Named(objects)
      modifies this
      ensures forall t :: t in ts <==> Reported(RenameDefaultVRF(reported), t)
      ensures DistinctSessions(r, RenameDefaultVRF(reported)) ==>
                && Pass(r, ts, ix, old(objects), objects)
                && Named(objects) && Tidy(r, ts, objects) && OthersKept(r, old(objects), objects)
                && (Settled(r, ts, objects) <==> LabelsRight(r, ix, ts))
    {
      hide Settled, Tidy, LabelsRight, Pass, OthersKept, ListedOn, Targeted, Lookup, FirstWith, Duplicates, ToApply,
           Named, Names, DistinctSessions;
      ghost var start := objects;
      var items := List(r);
      var states, duplicates := PeersStatusPerVRF(items);
      DeleteAll(duplicates);
      var sessions := RenameDefaultVRF(reported);
      var toApply, toRemove := DesiredStatesForExisting(r, sessions, states);
      ghost var order :| PlannedIn(r, sessions, states, order, toApply, toRemove);
      ts, ix := Flatten(order, sessions), states;
      forall t ensures t in ts <==> Reported(sessions, t) { FlattenMember(order, sessions, t); }
      DeleteAll(toRemove);
      ghost var cleared := objects;
      for i := 0 to |toApply|
        invariant WroteAll(cleared, toApply[..i], objects)
      {
        ghost var mid := objects;
        Write(toApply[i], r.nodeName + "-");
        assert toApply[..i + 1][..i] == toApply[..i];
        assert WroteAll(cleared, toApply[..i], mid) && Wrote(mid, toApply[i], objects);
      }
      assert toApply[..|toApply|] == toApply;
      if DistinctSessions(r, sessions) {
        FlattenDistinct(r, order, sessions);
        PassMade(r, ts, states, items, toRemove, start, objects);
        PassSettles(r, ts, states, start, objects);
      }
    }
  }

  lemma Smaller(a: set<string>, b: set<string>)
    requires a <= b
    ensures |a| <= |b|
    ensures a < b ==> |a| < |b|
  {
    var c := b - a;
    assert b == a + c;
    assert |b| == |a| + |c|;
    if a < b { var x :| x in b && x !in a; assert x in c; }
  }
}

/**
 * Mirroring BGP sessions into BGPSessionState objects
 * (cmd/status/controller/bgpsessionstate_controller.go): what is stored is grouped by VRF and peer,
 * compared with the sessions FRR reports, and corrected.
 */
module Sessions {
  import opened Configs

  const NODE_LABEL := "frrk8s.metallb.io/node"
  const PEER_LABEL := "frrk8s.metallb.io/peer"
  const VRF_LABEL := "frrk8s.metallb.io/vrf"
  const NO_BFD := "N/A"
  const DEFAULT := "default"

  datatype SessionStatus = SessionStatus(node: string, peer: string, vrf: string, bgp: string, bfd: string)

  /** The name is empty while the API server has not given the object one. */
  datatype SessionState = SessionState(name: string, labels: map<string, string>, status: SessionStatus)

  /** A session as FRR reports it. */
  datatype Session = Session(id: string, bgpState: string, bfdStatus: string)

  datatype Target = Target(vrf: string, session: Session)

  datatype SessionKey = SessionKey(vrf: string, peer: string)

  /** `format` is the form of a neighbor in a label value, whatever address parsing makes of it. */
  datatype Reconciler = Reconciler(nodeName: string, format: string -> string)

  function LabelOf(s: SessionState, key: string): (v: string) { if key in s.labels then s.labels[key] else "" }

  function KeyOf(s: SessionState): (k: SessionKey) { SessionKey(LabelOf(s, VRF_LABEL), LabelOf(s, PEER_LABEL)) }

  function TargetKey(r: Reconciler, t: Target): (k: SessionKey) { SessionKey(t.vrf, r.format(t.session.id)) }

  /** `desiredStateFor` */
  function Desired(r: Reconciler, t: Target, existing: Option<SessionState>): (s: SessionState)
    ensures KeyOf(s) == TargetKey(r, t) && LabelOf(s, NODE_LABEL) == r.nodeName
  {
    SessionState(
      if existing.Some? then existing.value.name else "",
      map[NODE_LABEL := r.nodeName, PEER_LABEL := r.format(t.session.id), VRF_LABEL := t.vrf],
      SessionStatus(r.nodeName, r.format(t.session.id), t.vrf, t.session.bgpState,
                    if t.session.bfdStatus == "" then NO_BFD else t.session.bfdStatus))
  }

  /** The status of a mirrored session, field by field. */
  ghost predicate StatusOf(r: Reconciler, t: Target, st: SessionStatus) {
    && st.node == r.nodeName && st.peer == r.format(t.session.id) && st.vrf == t.vrf
    && st.bgp == t.session.bgpState
    && (t.session.bfdStatus != "" ==> st.bfd == t.session.bfdStatus) && (t.session.bfdStatus == "" ==> st.bfd == "N/A")
  }

  /** Three labels and no other. */
  ghost predicate LabelsOf(r: Reconciler, t: Target, ls: map<string, string>) {
    && ls.Keys == {"frrk8s.metallb.io/node", "frrk8s.metallb.io/peer", "frrk8s.metallb.io/vrf"}
    && ls["frrk8s.metallb.io/node"] == r.nodeName
    && ls["frrk8s.metallb.io/peer"] == r.format(t.session.id)
    && ls["frrk8s.metallb.io/vrf"] == t.vrf
  }

  lemma UpToDateIs(r: Reconciler, t: Target, s: SessionState)
    ensures UpToDate(r, t, s) <==> StatusOf(r, t, s.status) && LabelsOf(r, t, s.labels)
  {
    var d := Desired(r, t, None);
    if StatusOf(r, t, s.status) && LabelsOf(r, t, s.labels) {
      assert s.labels == d.labels;
      assert s.status == d.status;
    }
  }

  /** The object says what it should about the session. */
  predicate UpToDate(r: Reconciler, t: Target, s: SessionState) {
    s.labels == Desired(r, t, None).labels && s.status == Desired(r, t, None).status
  }

  // ---- what is stored

  type Index = map<string, map<string, SessionState>>

  function Lookup(ix: Index, k: SessionKey): (s: Option<SessionState>) {
    if k.vrf in ix && k.peer in ix[k.vrf] then Some(ix[k.vrf][k.peer]) else None
  }

  function FirstWith(items: seq<SessionState>, k: SessionKey): (s: Option<SessionState>)
    ensures s.Some? <==> exists x :: x in items && KeyOf(x) == k
    ensures s.Some? ==> s.value in items && KeyOf(s.value) == k
  {
    if items == [] then None
    else
      var before, last := items[..|items| - 1], items[|items| - 1];
      assert items == before + [last];
      var s := FirstWith(before, k);
      if s.Some? then s else if KeyOf(last) == k then Some(last) else None
  }

  /** No earlier object has the key. */
  lemma {:induction false} FirstWithIsFirst(items: seq<SessionState>, k: SessionKey) returns (i: nat)
    requires FirstWith(items, k).Some?
    ensures i < |items| && FirstWith(items, k) == Some(items[i]) && forall j | 0 <= j < i :: KeyOf(items[j]) != k
  {
    hide KeyOf;
    var before := items[..|items| - 1];
    if FirstWith(before, k).Some? {
      i := FirstWithIsFirst(before, k);
      assert forall j | 0 <= j < i :: items[j] == before[j];
    } else {
      i := |before|;
      forall j | 0 <= j < i ensures KeyOf(items[j]) != k { assert items[j] == before[j] && before[j] in before; }
    }
  }

  /** Everything but the first of each key. */
  function Duplicates(items: seq<SessionState>): (ds: seq<SessionState>) {
    if items == [] then []
    else
      var before, last := items[..|items| - 1], items[|items| - 1];
      if FirstWith(before, KeyOf(last)).Some? then Duplicates(before) + [last] else Duplicates(before)
  }

  /** `peersStatusPerVRF` */
  method PeersStatusPerVRF(items: seq<SessionState>) returns (existing: Index, duplicates: seq<SessionState>)
    ensures forall k :: Lookup(existing, k) == FirstWith(items, k)
    ensures duplicates == Duplicates(items)
  {
    existing, duplicates := map[], [];
    for i := 0 to |items|
      invariant forall k :: Lookup(existing, k) == FirstWith(items[..i], k)
      invariant duplicates == Duplicates(items[..i])
    {
      assert items[..i + 1][..i] == items[..i];
      var s := items[i];
      var vrf := LabelOf(s, VRF_LABEL);
      ghost var before := existing;
      if vrf !in existing { existing := existing[vrf := map[]]; }
      assert forall k :: Lookup(existing, k) == Lookup(before, k);
      assert Lookup(existing, KeyOf(s)) == FirstWith(items[..i], KeyOf(s));
      var peer := LabelOf(s, PEER_LABEL);
      if peer !in existing[vrf] {
        existing := existing[vrf := existing[vrf][peer := s]];
        assert forall k :: Lookup(existing, k) == if k == KeyOf(s) then Some(s) else Lookup(before, k);
        continue;
      }
      duplicates := duplicates + [s];
    }
    assert items[..|items|] == items;
  }

  // ---- what is to be done

  predicate Targeted(r: Reconciler, ts: seq<Target>, k: SessionKey) { exists t | t in ts :: TargetKey(r, t) == k }

  /** The states to write when the sessions are visited in this order; a stored state is used once. */
  function ToApply(r: Reconciler, ix: Index, ts: seq<Target>): (ss: seq<SessionState>) {
    if ts == [] then []
    else
      var before, t := ts[..|ts| - 1], ts[|ts| - 1];
      var ss, k := ToApply(r, ix, before), TargetKey(r, t);
      var existing := if Targeted(r, before, k) then None else Lookup(ix, k);
      if existing.Some? && UpToDate(r, t, existing.value) then ss else ss + [Desired(r, t, existing)]
  }

  /** The stored object the session at `i` finds: the first session of a key uses it up. */
  ghost function Found(r: Reconciler, ix: Index, ts: seq<Target>, i: nat): (s: Option<SessionState>)
    requires i < |ts|
  {
    if Targeted(r, ts[..i], TargetKey(r, ts[i])) then None else Lookup(ix, TargetKey(r, ts[i]))
  }

  /** `s` is to be written for the session at `i`: all it should say, under the name of the object found. */
  ghost predicate WrittenFor(r: Reconciler, ix: Index, ts: seq<Target>, i: nat, s: SessionState)
    requires i < |ts|
  {
    var t, f := ts[i], Found(r, ix, ts, i);
    && StatusOf(r, t, s.status) && LabelsOf(r, t, s.labels) && s.name == (if f.Some? then f.value.name else "")
    && !(f.Some? && StatusOf(r, t, f.value.status) && LabelsOf(r, t, f.value.labels))
  }

  /** A state is written if and only if some session does not find one that says all it should. */
  lemma {:induction false} AppliedExactly(r: Reconciler, ix: Index, ts: seq<Target>, s: SessionState)
    ensures s in ToApply(r, ix, ts) <==> exists i :: 0 <= i < |ts| && WrittenFor(r, ix, ts, i, s)
  {
    hide StatusOf, LabelsOf, Desired, UpToDate, Lookup, Targeted;
    if ts != [] {
      var before, n := ts[..|ts| - 1], |ts| - 1;
      AppliedExactly(r, ix, before, s);
      forall i | 0 <= i < n ensures WrittenFor(r, ix, before, i, s) <==> WrittenFor(r, ix, ts, i, s) {
        assert before[..i] == ts[..i];
      }
      var f := Found(r, ix, ts, n);
      if f.Some? { UpToDateIs(r, ts[n], f.value); }
      OneState(r, ts[n], f, s);
      var more := if f.Some? && UpToDate(r, ts[n], f.value) then [] else [Desired(r, ts[n], f)];
      assert ToApply(r, ix, ts) == ToApply(r, ix, before) + more;
      assert s in more <==> WrittenFor(r, ix, ts, n, s);
      if i :| 0 <= i < |ts| && WrittenFor(r, ix, ts, i, s) { assert i < n ==> WrittenFor(r, ix, before, i, s); }
      if i :| 0 <= i < n && WrittenFor(r, ix, before, i, s) { assert WrittenFor(r, ix, ts, i, s); }
    }
  }

  lemma OneState(r: Reconciler, t: Target, existing: Option<SessionState>, s: SessionState)
    ensures s == Desired(r, t, existing) <==>
              && StatusOf(r, t, s.status) && LabelsOf(r, t, s.labels)
              && s.name == if existing.Some? then existing.value.name else ""
  {
    var d := Desired(r, t, existing);
    if StatusOf(r, t, s.status) && LabelsOf(r, t, s.labels) { assert s.labels == d.labels && s.status == d.status; }
  }

  function TargetsOf(vrf: string, sessions: seq<Session>): (ts: seq<Target>) {
    seq(|sessions|, i requires 0 <= i < |sessions| => Target(vrf, sessions[i]))
  }

  function Flatten(vrfs: seq<string>, sessions: map<string, seq<Session>>): (ts: seq<Target>)
    requires forall v | v in vrfs :: v in sessions
  {
    if vrfs == [] then []
    else
      var v := vrfs[|vrfs| - 1];
      Flatten(vrfs[..|vrfs| - 1], sessions) + TargetsOf(v, sessions[v])
  }

  /** `peersStatus.remove` on the VRF's map. */
  function Take(ix: Index, k: SessionKey): (r: Index)
    ensures forall j :: Lookup(r, j) == if j == k then None else Lookup(ix, j)
  {
    if k.vrf in ix then ix[k.vrf := ix[k.vrf] - {k.peer}] else ix
  }

  /** What is left of the stored states after these sessions were visited. */
  ghost predicate Left(r: Reconciler, left: Index, states: Index, done: seq<Target>) {
    forall k :: Lookup(left, k) == if Targeted(r, done, k) then None else Lookup(states, k)
  }

  lemma TargetedStep(r: Reconciler, before: seq<Target>, t: Target, k: SessionKey)
    ensures Targeted(r, before + [t], k) <==> Targeted(r, before, k) || k == TargetKey(r, t)
  {
    if k == TargetKey(r, t) { assert t in before + [t]; }
    if x :| x in before && TargetKey(r, x) == k { assert x in before + [t]; }
  }

  lemma LeftStep(r: Reconciler, left: Index, states: Index, before: seq<Target>, t: Target)
    requires Left(r, left, states, before)
    ensures Left(r, Take(left, TargetKey(r, t)), states, before + [t])
  {
    hide Lookup, Targeted, Take, TargetKey;
    forall k
      ensures Lookup(Take(left, TargetKey(r, t)), k) == if Targeted(r, before + [t], k) then None else Lookup(states, k)
    {
      TargetedStep(r, before, t, k);
    }
  }

  lemma ApplyStep(r: Reconciler, left: Index, states: Index, before: seq<Target>, t: Target)
    requires Left(r, left, states, before)
    ensures var existing := Lookup(left, TargetKey(r, t));
            ToApply(r, states, before + [t]) ==
              if existing.Some? && UpToDate(r, t, existing.value) then ToApply(r, states, before)
              else ToApply(r, states, before) + [Desired(r, t, existing)]
  {
    hide Lookup, Targeted, UpToDate, Desired;
    var now := before + [t];
    assert now[..|now| - 1] == before && now[|now| - 1] == t;
  }

  /** One VRF: every session takes its stored state out of `existing`. */
  method VisitVRF(r: Reconciler, vrf: string, sessions: seq<Session>, existing: Index, ghost states: Index,
                  ghost done: seq<Target>)
    returns (toApply: seq<SessionState>, left: Index)
    requires Left(r, existing, states, done)
    ensures ToApply(r, states, done + TargetsOf(vrf, sessions)) == ToApply(r, states, done) + toApply
    ensures Left(r, left, states, done + TargetsOf(vrf, sessions))
  {
    hide Lookup, Targeted, UpToDate, Desired, Left, ToApply, Take;
    toApply, left := [], existing;
    ghost var ts := TargetsOf(vrf, sessions);
    assert done + ts[..0] == done;
    for i := 0 to |sessions|
      invariant ToApply(r, states, done + ts[..i]) == ToApply(r, states, done) + toApply
      invariant Left(r, left, states, done + ts[..i])
    {
      var t := Target(vrf, sessions[i]);
      ghost var before := done + ts[..i];
      assert done + ts[..i + 1] == before + [t];
      var k := TargetKey(r, t);
      var existingState := Lookup(left, k);
      LeftStep(r, left, states, before, t);
      ApplyStep(r, left, states, before, t);
      left := Take(left, k);
      if existingState.Some? && UpToDate(r, t, existingState.value) { continue; }
      toApply := toApply + [Desired(r, t, existingState)];
    }
    assert ts[..|ts|] == ts;
  }

  ghost predicate Contains(ix: Index, s: SessionState) { exists k :: Lookup(ix, k) == Some(s) }

  method CollectPeers(peers: map<string, SessionState>) returns (ss: seq<SessionState>)
    ensures forall s :: s in ss <==> exists p :: p in peers && peers[p] == s
  {
    ss := [];
    var rest := peers.Keys;
    while rest != {}
      invariant rest <= peers.Keys
      invariant forall s :: s in ss <==> exists p :: p in peers && p !in rest && peers[p] == s
      decreases rest
    {
      var p :| p in rest;
      ghost var before, was := ss, rest;
      ss := ss + [peers[p]];
      rest := rest - {p};
      forall s ensures s in ss <==> exists q :: q in peers && q !in rest && peers[q] == s {
        if s in ss && s !in before { assert p in peers && p !in rest && peers[p] == s; }
        if s in before { var q :| q in peers && q !in was && peers[q] == s; assert q !in rest; }
      }
    }
  }

  /** The last loop of the planner: all that no session has taken. */
  method CollectLeft(left: Index) returns (ss: seq<SessionState>)
    ensures forall s :: s in ss <==> Contains(left, s)
  {
    ss := [];
    var rest := left.Keys;
    ghost var seen: Index := map[];
    while rest != {}
      invariant rest <= left.Keys && seen == left - rest
      invariant forall s :: s in ss <==> Contains(seen, s)
      decreases rest
    {
      var v :| v in rest;
      var peers := CollectPeers(left[v]);
      ghost var before := seen;
      rest := rest - {v};
      seen := left - rest;
      ContainsStep(before, seen, v, left[v]);
      ss := ss + peers;
    }
    assert left - {} == left;
  }

  lemma ContainsStep(before: Index, after: Index, v: string, peers: map<string, SessionState>)
    requires v !in before && after == before[v := peers]
    ensures forall s :: Contains(after, s) <==> Contains(before, s) || exists p :: p in peers && peers[p] == s
  {
    forall s ensures Contains(after, s) <==> Contains(before, s) || exists p :: p in peers && peers[p] == s {
      if k :| Lookup(after, k) == Some(s) {
        if k.vrf == v { assert k.peer in peers && peers[k.peer] == s; } else { assert Lookup(before, k) == Some(s); }
      }
      if k :| Lookup(before, k) == Some(s) { assert Lookup(after, k) == Some(s); }
      if p :| p in peers && peers[p] == s { assert Lookup(after, SessionKey(v, p)) == Some(s); }
    }
  }

  /** Every VRF once, in any order. */
  ghost predicate Visits(order: seq<string>, sessions: map<string, seq<Session>>) {
    && (forall i, j | 0 <= i < j < |order| :: order[i] != order[j])
    && (forall v :: v in order <==> v in sessions)
  }

  /** No session asks for the stored state. */
  ghost predicate IsLeftover(r: Reconciler, ix: Index, ts: seq<Target>, s: SessionState) {
    exists k :: Lookup(ix, k) == Some(s) && !Targeted(r, ts, k)
  }

  /** The plan, when the map of sessions is visited in this order. */
  ghost predicate PlannedIn(r: Reconciler, sessions: map<string, seq<Session>>, states: Index, order: seq<string>,
                            toApply: seq<SessionState>, toRemove: seq<SessionState>) {
    && Visits(order, sessions)
    && toApply == ToApply(r, states, Flatten(order, sessions))
    && forall s :: s in toRemove <==> IsLeftover(r, states, Flatten(order, sessions), s)
  }

  /** `desiredStatesForExisting` */
  method DesiredStatesForExisting(r: Reconciler, sessions: map<string, seq<Session>>, states: Index)
    returns (toApply: seq<SessionState>, toRemove: seq<SessionState>)
    ensures exists order :: PlannedIn(r, sessions, states, order, toApply, toRemove)
  {
    hide Lookup, Targeted, ToApply, Desired, UpToDate;
    toApply := [];
    ghost var order: seq<string> := [];
    var left := states;
    var rest := sessions.Keys;
    ApplyNone(r, states);
    while rest != {}
      invariant rest <= sessions.Keys && Visits(order, sessions - rest)
      invariant toApply == ToApply(r, states, Flatten(order, sessions))
      invariant Left(r, left, states, Flatten(order, sessions))
      decreases rest
    {
      var v :| v in rest;
      ghost var done := Flatten(order, sessions);
      FlattenStep(order, v, sessions);
      var more;
      more, left := VisitVRF(r, v, sessions[v], left, states, done);
      toApply := toApply + more;
      VisitsStep(order, v, sessions, rest);
      order := order + [v];
      rest := rest - {v};
    }
    assert sessions - {} == sessions;
    toRemove := CollectLeft(left);
    ghost var ts := Flatten(order, sessions);
    forall s ensures s in toRemove <==> IsLeftover(r, states, ts, s) {
      if k :| Lookup(left, k) == Some(s) { assert Lookup(states, k) == Some(s) && !Targeted(r, ts, k); }
      if k :| Lookup(states, k) == Some(s) && !Targeted(r, ts, k) { assert Lookup(left, k) == Some(s); }
    }
    assert PlannedIn(r, sessions, states, order, toApply, toRemove);
  }

  lemma ApplyNone(r: Reconciler, states: Index)
    ensures ToApply(r, states, []) == [] && Left(r, states, states, [])
  {}

  lemma VisitsStep(order: seq<string>, v: string, sessions: map<string, seq<Session>>, rest: set<string>)
    requires Visits(order, sessions - rest) && v in rest && rest <= sessions.Keys
    ensures Visits(order + [v], sessions - (rest - {v}))
  {
    var now := order + [v];
    forall i, j | 0 <= i < j < |now| ensures now[i] != now[j] { assert now[i] == order[i] && order[i] in order; }
    forall w ensures w in now <==> w in sessions - (rest - {v}) { assert w in now <==> w in order || w == v; }
  }

  lemma FlattenStep(order: seq<string>, v: string, sessions: map<string, seq<Session>>)
    requires v in sessions && forall w | w in order :: w in sessions
    ensures Flatten(order + [v], sessions) == Flatten(order, sessions) + TargetsOf(v, sessions[v])
  {
    var now := order + [v];
    assert now[..|now| - 1] == order;
  }

  /** `renameDefaultVRF`: FRR says "default" where the API leaves the VRF empty. */
  function RenameDefaultVRF(sessions: map<string, seq<Session>>): (r: map<string, seq<Session>>)
    ensures "" in r && DEFAULT !in r
    ensures r[""] == if DEFAULT in sessions then sessions[DEFAULT] else []
    ensures forall v | v != "" && v != DEFAULT :: v in r <==> v in sessions
    ensures forall v | v in r && v != "" :: r[v] == sessions[v]
  {
    sessions["" := if DEFAULT in sessions then sessions[DEFAULT] else []] - {DEFAULT}
  }
}

/**
 * The reload debouncer (internal/frr/config.go): a loop over update requests and one timer, which
 * hands the latest configuration to `body` and tries again after a failure.
 */
module Debouncer {
  import opened Configs

  /** What the `select` statement delivers, and when. */
  datatype Event<C> =
    | Reload(at: int, config: Option<C>, useOld: bool)
      // a request; `config` is None for nil
    | Timeout(at: int, done: int, failed: bool)
      // the timer; `body` runs from `at` to `done`

  /** A run of `body`. */
  datatype Call<C> = Call(at: int, done: int, config: Option<C>, failed: bool)

  /** `timeOut` is the time at which the channel of the last `time.After` that was not read yet delivers. */
  datatype State<C> = State(config: Option<C>, timeOut: Option<int>, timerSet: bool)

  datatype Intervals = Intervals(reload: nat, retry: nat)

  function Step<C(==)>(iv: Intervals, s: State<C>, e: Event<C>): (t: State<C>) {
    match e
    case Reload(at, config, useOld) =>
      if useOld && s.config.None? then s
      else if !useOld && config == s.config then s
      else
        State(if useOld then s.config else config,
              if s.timerSet then s.timeOut else Some(at + iv.reload), true)
    case Timeout(_, done, failed) =>
      if failed then State(s.config, Some(done + iv.retry), true) else State(s.config, None, false)
  }

  function Start<C>(): (s: State<C>) { State(None, None, false) }

  /** The state after a list of events, and the calls of `body` on the way. */
  function After<C(==)>(iv: Intervals, es: seq<Event<C>>): (s: State<C>) {
    if es == [] then Start() else Step(iv, After(iv, es[..|es| - 1]), es[|es| - 1])
  }

  function Calls<C(==)>(iv: Intervals, es: seq<Event<C>>): (cs: seq<Call<C>>) {
    if es == [] then []
    else
      var before, e := es[..|es| - 1], es[|es| - 1];
      if e.Timeout? then Calls(iv, before) + [Call(e.at, e.done, After(iv, before).config, e.failed)]
      else Calls(iv, before)
  }

  /** When an event is over. */
  function End<C>(e: Event<C>): (t: int) { if e.Timeout? then e.done else e.at }

  /** Time goes on, and the timer is read only after it is due. */
  ghost predicate Possible<C>(iv: Intervals, before: seq<Event<C>>, e: Event<C>) {
    && e.at <= End(e)
    && (before != [] ==> End(before[|before| - 1]) <= e.at)
    && (e.Timeout? ==> After(iv, before).timeOut.Some? && After(iv, before).timeOut.value <= e.at)
  }

  ghost predicate Run<C>(iv: Intervals, es: seq<Event<C>>) {
    forall i | 0 <= i < |es| :: Possible(iv, es[..i], es[i])
  }

  /** Every configuration sent is one. */
  ghost predicate NeverNil<C>(es: seq<Event<C>>) { forall e | e in es && e.Reload? && !e.useOld :: e.config.Some? }

  /** The last configuration sent. */
  function Latest<C>(es: seq<Event<C>>): (c: Option<C>) {
    if es == [] then None
    else
      var e := es[|es| - 1];
      if e.Reload? && !e.useOld then e.config else Latest(es[..|es| - 1])
  }

  // ---- the loop

  /** The goroutine, on the events one after the other; `log` is what `body` was called with. */
  method Debounce<C(==)>(iv: Intervals, es: seq<Event<C>>)
    returns (config: Option<C>, timerSet: bool, log: seq<Call<C>>)
    ensures config == After(iv, es).config && timerSet == After(iv, es).timerSet && log == Calls(iv, es)
  {
    config := None;
    var timeOut: Option<int> := None;
    timerSet := false;
    log := [];
    for i := 0 to |es|
      invariant After(iv, es[..i]) == State(config, timeOut, timerSet)
      invariant log == Calls(iv, es[..i])
    {
      assert es[..i + 1][..i] == es[..i];
      match es[i] {
        case Reload(at, newCfg, useOld) =>
          if useOld && config.None? { continue; }
          if !useOld && newCfg == config { continue; }
          if !useOld { config := newCfg; }
          if !timerSet {
            timeOut := Some(at + iv.reload);
            timerSet := true;
          }
        case Timeout(at, done, failed) =>
          log := log + [Call(at, done, config, failed)];
          if failed {
            timeOut := Some(done + iv.retry);
            timerSet := true;
            continue;
          }
          timeOut := None;
          timerSet := false;
      }
    }
    assert es[..|es|] == es;
  }

  // ---- no update is lost

  /** What `body` should be called with: at every timeout, the configuration sent last. */
  function Handed<C>(es: seq<Event<C>>): (cs: seq<Call<C>>) {
    if es == [] then []
    else
      var before, e := es[..|es| - 1], es[|es| - 1];
      if e.Timeout? then Handed(before) + [Call(e.at, e.done, Latest(before), e.failed)] else Handed(before)
  }

  lemma {:induction false} TimerPending<C>(iv: Intervals, es: seq<Event<C>>)
    ensures After(iv, es).timerSet <==> After(iv, es).timeOut.Some?
  {
    if es != [] { TimerPending(iv, es[..|es| - 1]); }
  }

  /** The configuration held is the one sent last, although equal ones and early replays are ignored. */
  lemma {:induction false} HoldsLatest<C>(iv: Intervals, es: seq<Event<C>>)
    ensures After(iv, es).config == Latest(es)
  {
    if es != [] { HoldsLatest(iv, es[..|es| - 1]); }
  }

  lemma {:induction false} CallsAreHanded<C>(iv: Intervals, es: seq<Event<C>>)
    ensures Calls(iv, es) == Handed(es)
  {
    if es != [] {
      CallsAreHanded(iv, es[..|es| - 1]);
      HoldsLatest(iv, es[..|es| - 1]);
    }
  }

  ghost predicate Applied<C>(cs: seq<Call<C>>, config: Option<C>) {
    cs != [] && !cs[|cs| - 1].failed && cs[|cs| - 1].config == config
  }

  /**
   * Nothing sent yet, or an attempt is due, or the last run of `body` succeeded with the latest
   * configuration.  While an attempt is due there is a configuration for it.
   */
  lemma {:induction false} NoLostUpdate<C>(iv: Intervals, es: seq<Event<C>>)
    requires Run(iv, es) && NeverNil(es)
    ensures Latest(es).None? || After(iv, es).timerSet || Applied(Calls(iv, es), Latest(es))
    ensures After(iv, es).timerSet ==> Latest(es).Some?
    ensures forall c | c in Calls(iv, es) :: c.config.Some?
  {
    if es != [] {
      var before, e := es[..|es| - 1], es[|es| - 1];
      assert forall i | 0 <= i < |before| :: before[..i] == es[..i];
      NoLostUpdate(iv, before);
      HoldsLatest(iv, before);
      TimerPending(iv, before);
      assert Possible(iv, before, e) && e in es;
    }
  }

  /** A nil configuration sent after another one would reach `body`. */
  lemma NilReachesBody<C>(iv: Intervals, c: C)
    ensures var es := [Reload(0, Some(c), false), Reload(0, None, false), Timeout(iv.reload, iv.reload, false)];
            Run(iv, es) && Calls(iv, es) == [Call(iv.reload, iv.reload, None, false)]
  {
    var e0, e1, e2 := Reload(0, Some(c), false), Reload(0, None, false), Timeout(iv.reload, iv.reload, false);
    var es: seq<Event<C>> := [e0, e1, e2];
    assert es[..0] == [] && es[..1] == [e0] && es[..2] == [e0, e1];
    assert [e0, e1][..1] == [e0] && [e0][..0] == [];
    assert After(iv, [e0]) == State(Some(c), Some(iv.reload), true);
    assert After(iv, [e0, e1]) == State(None, Some(iv.reload), true);
    var two := [e0, e1];
    assert two[..|two| - 1] == [e0];
    assert Calls(iv, two) == Calls(iv, [e0]) == [];
    assert es[..|es| - 1] == two;
  }

  // ---- when an attempt is outstanding

  /** The request brings something: another configuration than the last one sent, or a replay of that one. */
  ghost predicate IsNews<C>(es: seq<Event<C>>, i: nat)
    requires i < |es|
  {
    es[i].Reload? && if es[i].useOld then Latest(es[..i]).Some? else es[i].config != Latest(es[..i])
  }

  ghost predicate Failure<C>(e: Event<C>) { e.Timeout? && e.failed }

  ghost predicate Success<C>(e: Event<C>) { e.Timeout? && !e.failed }

  /** There was news, or a failure, and no successful attempt since. */
  ghost predicate Outstanding<C>(es: seq<Event<C>>) {
    exists i :: 0 <= i < |es| && (IsNews(es, i) || Failure(es[i])) && forall j | i < j < |es| :: !Success(es[j])
  }

  /** A request that brings nothing changes nothing. */
  lemma NoNewsIgnored<C>(iv: Intervals, es: seq<Event<C>>, i: nat)
    requires i < |es| && es[i].Reload? && !IsNews(es, i)
    ensures After(iv, es[..i + 1]) == After(iv, es[..i])
  {
    HoldsLatest(iv, es[..i]);
    assert es[..i + 1][..i] == es[..i];
  }

  /** The timer is set if and only if an attempt is outstanding. */
  lemma {:induction false} TimerExactly<C>(iv: Intervals, es: seq<Event<C>>)
    ensures After(iv, es).timerSet <==> Outstanding(es)
  {
    hide Latest;
    if es != [] {
      var before, n := es[..|es| - 1], |es| - 1;
      TimerExactly(iv, before);
      HoldsLatest(iv, before);
      forall i | 0 <= i < n ensures IsNews(before, i) <==> IsNews(es, i) { assert before[..i] == es[..i]; }
      if Outstanding(before) && !Success(es[n]) {
        var i :| 0 <= i < n && (IsNews(before, i) || Failure(before[i])) && forall j | i < j < n :: !Success(before[j]);
        assert IsNews(es, i) || Failure(es[i]);
        forall j | i < j < |es| ensures !Success(es[j]) { if j < n { assert es[j] == before[j]; } }
      }
      if IsNews(es, n) || Failure(es[n]) { assert Outstanding(es); }
      if Outstanding(es) && !IsNews(es, n) && !Failure(es[n]) {
        var i :| 0 <= i < |es| && (IsNews(es, i) || Failure(es[i])) && forall j | i < j < |es| :: !Success(es[j]);
        assert i < n && (IsNews(before, i) || Failure(before[i]));
        forall j | i < j < n ensures !Success(before[j]) { assert before[j] == es[j]; }
        assert !Success(es[n]);
      }
    }
  }

  // ---- timing

  function Longest(iv: Intervals): (t: nat) { if iv.reload < iv.retry then iv.retry else iv.reload }

  /** After a failure the next attempt is due exactly when the retry interval is over. */
  ghost predicate WellTimed<C>(iv: Intervals, es: seq<Event<C>>) {
    var s, cs := After(iv, es), Calls(iv, es);
    && (cs != [] ==> es != [] && cs[|cs| - 1].done <= End(es[|es| - 1]))
    && (s.timeOut.Some? ==> es != [] && s.timeOut.value <= End(es[|es| - 1]) + Longest(iv))
    && (cs != [] && cs[|cs| - 1].failed ==> s.timeOut == Some(cs[|cs| - 1].done + iv.retry))
    && (cs != [] && !cs[|cs| - 1].failed && s.timeOut.Some? ==> cs[|cs| - 1].done + iv.reload <= s.timeOut.value)
  }

  lemma {:induction false} Timing<C>(iv: Intervals, es: seq<Event<C>>)
    requires Run(iv, es)
    ensures WellTimed(iv, es)
  {
    if es != [] {
      var before, e := es[..|es| - 1], es[|es| - 1];
      assert forall i | 0 <= i < |before| :: before[..i] == es[..i];
      Timing(iv, before);
      TimerPending(iv, before);
      assert Possible(iv, before, e);
    }
  }

  ghost predicate Spaced<C>(iv: Intervals, cs: seq<Call<C>>) {
    forall j, k | 0 <= j < |cs| && k == j + 1 < |cs| ::
      cs[k].at >= cs[j].done + if cs[j].failed then iv.retry else iv.reload
  }

  ghost predicate Retried<C>(iv: Intervals, cs: seq<Call<C>>) {
    forall j, k | 0 <= j < |cs| && k == j + 1 < |cs| && cs[j].failed :: cs[k].at == cs[j].done + iv.retry
  }

  /**
   * From the end of an attempt to the next one at least the retry interval passes if it failed, and at
   * least the reload interval if it did not.
   */
  lemma {:induction false} Spacing<C>(iv: Intervals, es: seq<Event<C>>)
    requires Run(iv, es)
    ensures Spaced(iv, Calls(iv, es))
  {
    hide After;
    if es != [] {
      var before, e := es[..|es| - 1], es[|es| - 1];
      assert forall i | 0 <= i < |before| :: before[..i] == es[..i];
      Spacing(iv, before);
      Timing(iv, before);
      assert Possible(iv, before, e);
    }
  }

  /** A due timer is read before anything else. */
  ghost predicate Prompt<C>(iv: Intervals, es: seq<Event<C>>) {
    forall i | 0 <= i < |es| && After(iv, es[..i]).timeOut.Some? :: es[i].at <= After(iv, es[..i]).timeOut.value
  }

  /** When due timers are served at once, a retry follows a failure after exactly the retry interval. */
  lemma {:induction false} RetriesPromptly<C>(iv: Intervals, es: seq<Event<C>>)
    requires Run(iv, es) && Prompt(iv, es)
    ensures Retried(iv, Calls(iv, es))
  {
    hide After;
    if es != [] {
      var before, e := es[..|es| - 1], es[|es| - 1];
      assert forall i | 0 <= i < |before| :: before[..i] == es[..i];
      RetriesPromptly(iv, before);
      Timing(iv, before);
      assert Possible(iv, before, e) && es[..|before|] == before;
    }
  }

  /** Until the timer is read it stays where it is. */
  lemma {:induction false} DeadlineStays<C>(iv: Intervals, es: seq<Event<C>>, i: nat, j: nat)
    requires i <= j <= |es| && After(iv, es[..i]).timeOut.Some? && forall k | i <= k < j :: es[k].Reload?
    ensures After(iv, es[..j]).timeOut == After(iv, es[..i]).timeOut
    decreases j - i
  {
    if i < j {
      DeadlineStays(iv, es, i, j - 1);
      TimerPending(iv, es[..j - 1]);
      assert es[..j][..j - 1] == es[..j - 1];
    }
  }

  lemma NewsSetsTimer<C>(iv: Intervals, es: seq<Event<C>>, i: nat)
    requires i < |es| && IsNews(es, i) && !Outstanding(es[..i])
    ensures After(iv, es[..i + 1]).timeOut == Some(es[i].at + iv.reload)
  {
    hide Outstanding, Latest;
    TimerExactly(iv, es[..i]);
    HoldsLatest(iv, es[..i]);
    assert es[..i + 1][..i] == es[..i];
  }

  /**
   * News that arrives while nothing is outstanding is attempted no earlier than the reload interval
   * after it, whatever follows; and exactly then, when due timers are served at once.
   */
  lemma NewsAttempted<C>(iv: Intervals, es: seq<Event<C>>, i: nat, k: nat)
    requires Run(iv, es) && i < k < |es| && IsNews(es, i) && !Outstanding(es[..i])
    requires es[k].Timeout? && forall l | i < l < k :: es[l].Reload?
    ensures es[k].at >= es[i].at + iv.reload
    ensures Prompt(iv, es) ==> es[k].at == es[i].at + iv.reload
  {
    hide After, IsNews, Outstanding;
    NewsSetsTimer(iv, es, i);
    DeadlineStays(iv, es, i + 1, k);
    assert Possible(iv, es[..k], es[k]);
  }

  /**
   * News is attempted within the longer interval, however many events follow it: what happens later
   * than that comes after a run of `body`.
   */
  lemma Attempted<C>(iv: Intervals, es: seq<Event<C>>, i: nat, j: nat)
    requires Run(iv, es) && Prompt(iv, es) && i < j < |es| && IsNews(es, i)
    requires es[j].at > es[i].at + Longest(iv)
    ensures exists k :: i < k < j && es[k].Timeout? && es[k].at <= es[i].at + Longest(iv)
  {
    hide Run, After, Longest, IsNews;
    var k := NextTimeout(es, i + 1, j);
    PendingAfter(iv, es, i);
    DeadlineStays(iv, es, i + 1, k);
    assert es[k].at <= After(iv, es[..k]).timeOut.value;
  }

  lemma NextTimeout<C>(es: seq<Event<C>>, i: nat, j: nat) returns (k: nat)
    requires i <= j < |es|
    ensures i <= k <= j && (k < j ==> es[k].Timeout?) && forall l | i <= l < k :: es[l].Reload?
  {
    k := i;
    while k < j && es[k].Reload?
      invariant i <= k <= j && forall l | i <= l < k :: es[l].Reload?
    {
      k := k + 1;
    }
  }

  lemma PendingAfter<C>(iv: Intervals, es: seq<Event<C>>, i: nat)
    requires Run(iv, es) && i < |es| && IsNews(es, i)
    ensures After(iv, es[..i + 1]).timeOut.Some? && After(iv, es[..i + 1]).timeOut.value <= es[i].at + Longest(iv)
  {
    hide Latest;
    var now := es[..i + 1];
    assert now[..i] == es[..i] && now[i] == es[i];
    forall l | 0 <= l < |now| ensures Possible(iv, now[..l], now[l]) { assert now[..l] == es[..l]; }
    Timing(iv, now);
    HoldsLatest(iv, es[..i]);
    TimerPending(iv, es[..i]);
    TimerPending(iv, now);
  }
}

/**
 * From the API server to FRR: `Reconcile` (internal/controller/frrconfiguration_controller.go) converts
 * and sends, `pollStatus` (internal/frr/frr.go) asks for a replay when a reload failed, and the
 * debouncer calls `body`.
 */
module Pipeline {
  import opened Ordering
  import opened Configs
  import opened Api
  import opened Conversion
  import opened MergeInPlace
  import opened ConvertLoops
  import opened Admission
  import opened Debouncer

  // ---- applying a configuration

  function WithFallback(r: Router, fallback: string): (s: Router) {
    if fallback != "" && r.id == "" then r.(id := fallback) else r
  }

  function WithFallbacks(rs: seq<Router>, fallback: string): (ss: seq<Router>) {
    seq(|rs|, i requires 0 <= i < |rs| => WithFallback(rs[i], fallback))
  }

  /** What is sent for a converted configuration. */
  function Finalise(c: FrrConfig, hostname: string, fallback: string): (d: FrrConfig) {
    c.(hostname := hostname, routers := WithFallbacks(c.routers, fallback))
  }

  /** `frr.Config` */
  class Config {
    var loglevel: string
    var hostname: string
    const routers: seq<RouterConfig>
    const bfdProfiles: seq<BfdProfile>
    const extraConfig: string

    ghost function Value(): (c: FrrConfig)
      reads this, routers, AllNeighbors(routers)
    {
      FrrConfig(loglevel, hostname, RouterList(routers), bfdProfiles, extraConfig)
    }

    constructor (out: Output, loglevel: string)
      ensures routers == out.routers
      ensures Value() == FrrConfig(loglevel, "", RouterList(out.routers), out.bfdProfiles, out.extraConfig)
    {
      this.loglevel, hostname := loglevel, "";
      routers, bfdProfiles, extraConfig := out.routers, out.bfdProfiles, out.extraConfig;
    }
  }

  /** The loop of `ApplyConfig` over the routers. */
  method SetRouterIDs(rs: seq<RouterConfig>, fallback: string)
    modifies rs`id
    ensures forall r | r in rs :: r.id == if old(r.id) == "" then fallback else old(r.id)
  {
    for i := 0 to |rs|
      invariant forall r | r in rs :: r.id == if old(r.id) == "" && r in rs[..i] then fallback else old(r.id)
    {
      assert rs[..i + 1] == rs[..i] + [rs[i]];
      if rs[i].id == "" { rs[i].id := fallback; }
    }
    assert rs[..|rs|] == rs;
  }

  method FillRouterIDs(rs: seq<RouterConfig>, fallback: string)
    modifies rs`id
    ensures RouterList(rs) == WithFallbacks(old(RouterList(rs)), fallback)
  {
    hide NeighborConfig.Value, RouterList;
    if fallback != "" { SetRouterIDs(rs, fallback); }
    forall i | 0 <= i < |rs| ensures rs[i].Value() == WithFallback(old(rs[i].Value()), fallback) {
      assert rs[i] in rs;
      assert Values(rs[i].neighbors) == old(Values(rs[i].neighbors));
    }
  }

  datatype Status = Status(updateTime: string, lastReloadResult: string)

  const RELOAD_SUCCESS := "success"

  /** A status nobody has seen yet says that the last reload failed. */
  predicate AsksForReplay(known: Status, fetched: Option<Status>) {
    fetched.Some? && fetched.value.updateTime != known.updateTime && fetched.value.lastReloadResult != RELOAD_SUCCESS
  }

  function StatusAfter(known: Status, fetched: Option<Status>): (s: Status) {
    if fetched.Some? && fetched.value.updateTime != known.updateTime then fetched.value else known
  }

  class FRR {
    const fallbackRouterID: string
    var status: Status

    constructor (fallback: string)
      ensures fallbackRouterID == fallback && status == Status("", "")
    {
      fallbackRouterID, status := fallback, Status("", "");
    }

    /** `ApplyConfig` up to the send: fails when the hostname is unknown, and then changes nothing. */
    method ApplyConfig(config: Config, osHostname: Option<string>) returns (sent: bool)
      modifies config`hostname, config.routers`id
      ensures sent <==> osHostname.Some?
      ensures sent ==> config.Value() == Finalise(old(config.Value()), osHostname.value, fallbackRouterID)
      ensures !sent ==> config.Value() == old(config.Value())
    {
      hide RouterList;
      if osHostname.None? { return false; }
      config.hostname := osHostname.value;
      assert RouterList(config.routers) == old(RouterList(config.routers));
      FillRouterIDs(config.routers, fallbackRouterID);
      return true;
    }

    /** One tick of `pollStatus`. */
    method PollOnce(fetched: Option<Status>) returns (replay: bool)
      modifies `status
      ensures replay <==> AsksForReplay(old(status), fetched)
      ensures status == StatusAfter(old(status), fetched)
    {
      replay := false;
      if fetched.None? { return; }
      if fetched.value.updateTime == status.updateTime { return; }
      if fetched.value.lastReloadResult != RELOAD_SUCCESS { replay := true; }
      status := fetched.value;
    }
  }

  // ---- reconciling

  /** What the API server and the host answer during one reconciliation; None where a call fails. */
  datatype Answers = Answers(
    items: Option<seq<ApiConfig>>, loglevel: Option<string>, labels: Option<Labels>,
    secrets: Option<map<string, Secret>>, hostname: Option<string>)

  /** What does not change: address parsing, selectors, blocked prefixes, the fallback router ID. */
  datatype Controller = Controller(net: Net, sel: Selectors, alwaysBlock: seq<Filter>, fallback: string)

  /** The configuration a node should get for these answers, if they determine one. */
  ghost function Converted(ctl: Controller, a: Answers): (r: Result<FrrConfig>) {
    if a.items.None? || a.loglevel.None? then Err
    else if a.items.value == [] then Convert(Env(ctl.net, [], map[]), [])
    else if a.labels.None? || !AllParse(ctl.sel, a.items.value) || a.secrets.None? then Err
    else Convert(Env(ctl.net, ctl.alwaysBlock, a.secrets.value), Matching(ctl.sel, a.items.value, a.labels.value))
  }

  /** What a reconciliation sends to the debouncer. */
  ghost function Sent(ctl: Controller, a: Answers): (r: Option<FrrConfig>) {
    var c := Converted(ctl, a);
    if c.Err? || a.hostname.None? || a.loglevel.None? then None
    else Some(Finalise(c.value.(loglevel := a.loglevel.value), a.hostname.value, ctl.fallback))
  }

  /** Converting and applying, once the configurations of the node are known. */
  method ConvertAndApply(frr: FRR, env: Env, cs: seq<ApiConfig>, loglevel: string, hostname: Option<string>)
    returns (sent: Option<Config>)
    ensures sent.Some? <==> Convert(env, cs).Ok? && hostname.Some?
    ensures sent.Some? ==> fresh(sent.value)
    ensures sent.Some? ==>
              sent.value.Value() == Finalise(Convert(env, cs).value.(loglevel := loglevel), hostname.value,
                                             frr.fallbackRouterID)
  {
    hide Convert, RouterList, Finalise;
    var out := ApiToFRR(env, cs);
    if out.Err? { return None; }
    var config := new Config(out.value, loglevel);
    assert config.Value() == Convert(env, cs).value.(loglevel := loglevel);
    forall i | 0 <= i < |config.routers|
      ensures fresh(config.routers[i])
    {
      assert config.routers[i] in config.routers;
    }
    var ok := frr.ApplyConfig(config, hostname);
    return if ok then Some(config) else None;
  }

  /** `Reconcile`: what it sends, if anything. */
  method Reconcile(ctl: Controller, frr: FRR, a: Answers) returns (sent: Option<Config>)
    requires frr.fallbackRouterID == ctl.fallback
    ensures sent.Some? <==> Sent(ctl, a).Some?
    ensures sent.Some? ==> fresh(sent.value) && Sent(ctl, a) == Some(sent.value.Value())
  {
    hide Convert, Finalise, Matching, Config.Value;
    if a.items.None? { return None; }
    if a.loglevel.None? { return None; }
    if |a.items.value| == 0 {
      sent := ConvertAndApply(frr, Env(ctl.net, [], map[]), [], a.loglevel.value, a.hostname);
      return;
    }
    if a.labels.None? { return None; }
    var cfgs := ConfigsForNode(ctl.sel, a.items.value, a.labels.value);
    if cfgs.Err? { return None; }
    if a.secrets.None? { return None; }
    sent := ConvertAndApply(frr, Env(ctl.net, ctl.alwaysBlock, a.secrets.value), cfgs.value, a.loglevel.value,
                            a.hostname);
  }

  /** Without configurations there is always an empty one to send. */
  lemma EmptyConverts(env: Env)
    ensures Convert(env, []) == Ok(FrrConfig("", "", [], [], ""))
  {
    hide SortByName, JoinRaws;
    NothingToSort<Router>();
    NothingToSort<BfdProfile>();
    assert JoinRaws([]) == "" by { EmptyJoin(); }
    assert Fold(env, []) == Ok(Conversion.State.State(map[], map[], []));
    assert ValidEvpn(map[]);
  }

  lemma EmptyJoin()
    ensures JoinRaws([]) == ""
  {}

  // ---- everything together

  /** In the order in which the debouncer gets to see it. */
  datatype Happening =
    | Reconciled(at: int, answers: Answers)
    | Polled(at: int, fetched: Option<Status>)
    | Fired(at: int, done: int, failed: bool)

  ghost function Known(hs: seq<Happening>): (s: Status) {
    if hs == [] then Status("", "")
    else
      var h := hs[|hs| - 1];
      var before := Known(hs[..|hs| - 1]);
      if h.Polled? then StatusAfter(before, h.fetched) else before
  }

  /** What the debouncer receives. */
  ghost function Events(ctl: Controller, hs: seq<Happening>): (es: seq<Event<FrrConfig>>) {
    if hs == [] then []
    else
      var before, h := hs[..|hs| - 1], hs[|hs| - 1];
      var es := Events(ctl, before);
      match h
      case Reconciled(at, a) => if Sent(ctl, a).Some? then es + [Reload(at, Sent(ctl, a), false)] else es
      case Polled(at, fetched) => if AsksForReplay(Known(before), fetched) then es + [Reload(at, None, true)] else es
      case Fired(at, done, failed) => es + [Timeout(at, done, failed)]
  }

  /** Reconciliations and polls, one after the other: what they send to the debouncer, between its timeouts. */
  method Serve(ctl: Controller, frr: FRR, hs: seq<Happening>) returns (ghost es: seq<Event<FrrConfig>>)
    requires frr.fallbackRouterID == ctl.fallback && frr.status == Status("", "")
    modifies frr`status
    ensures es == Events(ctl, hs) && frr.status == Known(hs)
  {
    hide Sent, AsksForReplay, StatusAfter;
    es := [];
    for i := 0 to |hs|
      invariant es == Events(ctl, hs[..i]) && frr.status == Known(hs[..i])
    {
      assert hs[..i + 1][..i] == hs[..i];
      match hs[i]
      case Reconciled(at, answers) =>
        var sent := Reconcile(ctl, frr, answers);
        if sent.Some? { es := es + [Reload(at, Some(sent.value.Value()), false)]; }
      case Polled(at, fetched) =>
        var replay := frr.PollOnce(fetched);
        if replay { es := es + [Reload(at, None, true)]; }
      case Fired(at, done, failed) => es := es + [Timeout(at, done, failed)];
    }
    assert hs[..|hs|] == hs;
  }

  /** The configuration of the last reconciliation that succeeded. */
  ghost function LatestSent(ctl: Controller, hs: seq<Happening>): (c: Option<FrrConfig>) {
    if hs == [] then None
    else
      var h := hs[|hs| - 1];
      if h.Reconciled? && Sent(ctl, h.answers).Some? then Sent(ctl, h.answers) else LatestSent(ctl, hs[..|hs| - 1])
  }

  /** What FRR should be told: whenever the timer fires, the configuration of the last success. */
  ghost function Told(ctl: Controller, hs: seq<Happening>): (cs: seq<Call<FrrConfig>>) {
    if hs == [] then []
    else
      var before, h := hs[..|hs| - 1], hs[|hs| - 1];
      if h.Fired? then Told(ctl, before) + [Call(h.at, h.done, LatestSent(ctl, before), h.failed)]
      else Told(ctl, before)
  }

  lemma {:induction false} LatestIsLatestSent(ctl: Controller, hs: seq<Happening>)
    ensures Latest(Events(ctl, hs)) == LatestSent(ctl, hs)
    ensures NeverNil(Events(ctl, hs))
    ensures Handed(Events(ctl, hs)) == Told(ctl, hs)
  {
    hide Sent, AsksForReplay, Known;
    if hs != [] {
      var before, h := hs[..|hs| - 1], hs[|hs| - 1];
      LatestIsLatestSent(ctl, before);
      var es, now := Events(ctl, before), Events(ctl, hs);
      if now != es { assert now[..|now| - 1] == es; }
    }
  }

  /**
   * Every run of `body` gets the configuration of the last reconciliation that converted and sent
   * one, however reconciliations, failures, replays and timeouts interleave; and when nothing is
   * due, that configuration is the one applied last.
   */
  lemma WhatReachesFRR(iv: Intervals, ctl: Controller, hs: seq<Happening>)
    requires Run(iv, Events(ctl, hs))
    ensures Calls(iv, Events(ctl, hs)) == Told(ctl, hs)
    ensures forall c | c in Told(ctl, hs) :: c.config.Some?
    ensures After(iv, Events(ctl, hs)).timerSet || LatestSent(ctl, hs).None? ||
              Applied(Told(ctl, hs), LatestSent(ctl, hs))
  {
    hide Sent, Events, LatestSent, Told;
    LatestIsLatestSent(ctl, hs);
    CallsAreHanded(iv, Events(ctl, hs));
    NoLostUpdate(iv, Events(ctl, hs));
  }

  // ---- replays

  /** The update time of the status fetched last, if any was. */
  ghost function LastUpdate(hs: seq<Happening>): (t: string) {
    if hs == [] then ""
    else
      var h := hs[|hs| - 1];
      if h.Polled? && h.fetched.Some? then h.fetched.value.updateTime else LastUpdate(hs[..|hs| - 1])
  }

  lemma {:induction false} KnownSince(hs: seq<Happening>)
    ensures Known(hs).updateTime == LastUpdate(hs)
  {
    if hs != [] { KnownSince(hs[..|hs| - 1]); }
  }

  /** A status with another update time than the last one fetched, that does not report success. */
  ghost predicate ReportsFailure(before: seq<Happening>, fetched: Option<Status>) {
    && fetched.Some? && fetched.value.updateTime != LastUpdate(before)
    && fetched.value.lastReloadResult != "success"
  }

  /**
   * A poll that brings the news of a failed reload asks for a replay, and then, if anything was ever
   * sent, an attempt is due; any other poll has no effect.
   */
  lemma PollsExactly(iv: Intervals, ctl: Controller, before: seq<Happening>, at: int, fetched: Option<Status>)
    ensures Events(ctl, before + [Polled(at, fetched)]) ==
              Events(ctl, before) + if ReportsFailure(before, fetched) then [Reload(at, None, true)] else []
    ensures ReportsFailure(before, fetched) && LatestSent(ctl, before).Some? ==>
              After(iv, Events(ctl, before + [Polled(at, fetched)])).timerSet
    ensures !ReportsFailure(before, fetched) || LatestSent(ctl, before).None? ==>
              After(iv, Events(ctl, before + [Polled(at, fetched)])) == After(iv, Events(ctl, before))
  {
    hide Sent, Known, LastUpdate, LatestSent, Latest;
    var hs, es := before + [Polled(at, fetched)], Events(ctl, before);
    assert hs[..|hs| - 1] == before && hs[|hs| - 1] == Polled(at, fetched);
    KnownSince(before);
    LatestIsLatestSent(ctl, before);
    if ReportsFailure(before, fetched) {
      var now := es + [Reload(at, None, true)];
      assert now[..|es|] == es && now[..|es| + 1] == now;
      if LatestSent(ctl, before).Some? {
        assert IsNews(now, |es|);
        TimerExactly(iv, now);
      } else {
        NoNewsIgnored(iv, now, |es|);
      }
    }
  }

  // ---- what is sent

  /**
   * A reconciliation sends something if and only if its calls succeed, the selectors parse and the
   * configurations of the node convert; without configurations it needs neither labels nor secrets.
   * What it sends is the result of the conversion with the log level, the host name and, in routers that
   * have none, the fallback router ID.
   */
  lemma SentExactly(ctl: Controller, a: Answers)
    ensures Sent(ctl, a).Some? <==>
              && a.items.Some? && a.loglevel.Some? && a.hostname.Some?
              && (a.items.value != [] ==>
                    && a.labels.Some? && a.secrets.Some?
                    && (forall c | c in a.items.value :: ctl.sel.parses(c.nodeSelector))
                    && Convert(Env(ctl.net, ctl.alwaysBlock, a.secrets.value),
                               Matching(ctl.sel, a.items.value, a.labels.value)).Ok?)
    ensures Sent(ctl, a).Some? ==>
              var c, res := Sent(ctl, a).value, ConversionFor(ctl, a);
              && c.loglevel == a.loglevel.value && c.hostname == a.hostname.value
              && c.bfdProfiles == res.bfdProfiles && c.extraConfig == res.extraConfig && |c.routers| == |res.routers|
              && forall i | 0 <= i < |c.routers| ::
                   c.routers[i] == res.routers[i].(id := FilledID(res.routers[i].id, ctl.fallback))
  {
    hide Convert, Matching;
    EmptyConverts(Env(ctl.net, [], map[]));
  }

  function FilledID(id: string, fallback: string): (r: string) { if id == "" then fallback else id }

  /** The result of converting the configurations of the node; the empty one if there are none. */
  ghost function ConversionFor(ctl: Controller, a: Answers): (res: FrrConfig) {
    if a.items.Some? && a.items.value != [] && a.labels.Some? && a.secrets.Some? then
      var r := Convert(Env(ctl.net, ctl.alwaysBlock, a.secrets.value),
                       Matching(ctl.sel, a.items.value, a.labels.value));
      if r.Ok? then r.value else FrrConfig("", "", [], [], "")
    else FrrConfig("", "", [], [], "")
  }

  /** With a fallback router ID every router that is sent has an ID. */
  lemma EveryRouterIdentified(ctl: Controller, hs: seq<Happening>)
    requires ctl.fallback != "" && LatestSent(ctl, hs).Some?
    ensures forall r | r in LatestSent(ctl, hs).value.routers :: r.id != ""
  {
    hide Converted;
    var h := hs[|hs| - 1];
    if h.Reconciled? && Sent(ctl, h.answers).Some? {
      var rs := Converted(ctl, h.answers).value.routers;
      forall r | r in WithFallbacks(rs, ctl.fallback) ensures r.id != "" {
        var i :| 0 <= i < |rs| && r == WithFallback(rs[i], ctl.fallback);
      }
    } else {
      EveryRouterIdentified(ctl, hs[..|hs| - 1]);
    }
  }
}

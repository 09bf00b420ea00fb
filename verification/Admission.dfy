/**
 * The admission webhook (internal/webhooks/frrconfiguration_webhook.go) with what it validates by
 * (internal/controller/validate.go), and the selection of a node's configurations in the controller
 * (internal/controller/frrconfiguration_controller.go).
 */
module Admission {
  import opened Configs
  import opened Api
  import opened Conversion
  import opened ConvertLoops
  import opened Environments

  type Labels = map<string, string>

  datatype Node = Node(name: string, labels: Labels)

  /** Label selectors: whether one parses, and whether it matches a node. */
  datatype Selectors = Selectors(parses: string -> bool, matches: (string, Labels) -> bool)

  // ---- the configurations of a node

  /** In list order. */
  function Matching(sel: Selectors, items: seq<ApiConfig>, labels: Labels): (r: seq<ApiConfig>)
    ensures forall c :: c in r <==> c in items && sel.matches(c.nodeSelector, labels)
  {
    if items == [] then []
    else
      assert items == items[..|items| - 1] + [items[|items| - 1]];
      var rest := Matching(sel, items[..|items| - 1], labels);
      if sel.matches(items[|items| - 1].nodeSelector, labels) then rest + [items[|items| - 1]] else rest
  }

  ghost predicate AllParse(sel: Selectors, items: seq<ApiConfig>) {
    forall c | c in items :: sel.parses(c.nodeSelector)
  }

  /** `r` holds the elements of `s` that have the property, by position: each as often as it is listed, in order. */
  ghost predicate Picks<T>(s: seq<T>, has: T -> bool, r: seq<T>, at: seq<nat>) {
    && |at| == |r| && (forall i, j | 0 <= i < j < |at| :: at[i] < at[j])
    && (forall i | 0 <= i < |at| :: at[i] < |s| && r[i] == s[at[i]])
    && (forall k | 0 <= k < |s| :: k in at <==> has(s[k]))
  }

  lemma PicksLast<T>(s: seq<T>, x: T, has: T -> bool, r: seq<T>, at: seq<nat>)
    requires Picks(s, has, r, at)
    ensures has(x) ==> Picks(s + [x], has, r + [x], at + [|s|])
    ensures !has(x) ==> Picks(s + [x], has, r, at)
  {
    var now := s + [x];
    assert forall k | 0 <= k < |s| :: now[k] == s[k];
    assert forall k | k in at :: k < |s|;
  }

  lemma {:induction false} MatchingInOrder(sel: Selectors, items: seq<ApiConfig>, labels: Labels) returns (at: seq<nat>)
    ensures Picks(items, (c: ApiConfig) => sel.matches(c.nodeSelector, labels), Matching(sel, items, labels), at)
  {
    hide Picks;
    var has := (c: ApiConfig) => sel.matches(c.nodeSelector, labels);
    if items == [] {
      at := [];
      assert Picks(items, has, [], at) by { PicksNone(has); }
    } else {
      var n := |items| - 1;
      at := MatchingInOrder(sel, items[..n], labels);
      assert items == items[..n] + [items[n]];
      PicksLast(items[..n], items[n], has, Matching(sel, items[..n], labels), at);
      if has(items[n]) { at := at + [n]; }
    }
  }

  lemma PicksNone<T>(has: T -> bool)
    ensures Picks([], has, [], [])
  {}

  /** `configsForNode` */
  method ConfigsForNode(sel: Selectors, items: seq<ApiConfig>, labels: Labels) returns (r: Result<seq<ApiConfig>>)
    ensures r.Ok? <==> AllParse(sel, items)
    ensures r.Ok? ==> r.value == Matching(sel, items, labels)
  {
    var valid: seq<ApiConfig> := [];
    for i := 0 to |items|
      invariant AllParse(sel, items[..i]) && valid == Matching(sel, items[..i], labels)
    {
      assert items[..i + 1] == items[..i] + [items[i]];
      assert items[i] in items;
      if !sel.parses(items[i].nodeSelector) { return Err; }
      if !sel.matches(items[i].nodeSelector, labels) { continue; }
      valid := valid + [items[i]];
    }
    assert items[..|items|] == items;
    return Ok(valid);
  }

  // ---- validation

  /** The two agree in everything but the reference to a secret. */
  ghost predicate NeighborButSecret(n: ApiNeighbor, m: ApiNeighbor) { m == n.(passwordSecret := m.passwordSecret) }

  ghost predicate NeighborsButSecrets(ns: seq<ApiNeighbor>, ms: seq<ApiNeighbor>) {
    |ms| == |ns| && forall i | 0 <= i < |ns| :: NeighborButSecret(ns[i], ms[i])
  }

  ghost predicate RouterButSecrets(r: ApiRouter, t: ApiRouter) {
    t == r.(neighbors := t.neighbors) && NeighborsButSecrets(r.neighbors, t.neighbors)
  }

  ghost predicate RoutersButSecrets(rs: seq<ApiRouter>, ts: seq<ApiRouter>) {
    |ts| == |rs| && forall i | 0 <= i < |rs| :: RouterButSecrets(rs[i], ts[i])
  }

  ghost predicate ConfigButSecrets(c: ApiConfig, d: ApiConfig) {
    d == c.(routers := d.routers) && RoutersButSecrets(c.routers, d.routers)
  }

  /** `ds` is `cs` without its references to secrets. */
  ghost predicate Cleared(cs: seq<ApiConfig>, ds: seq<ApiConfig>) {
    |ds| == |cs| && forall i | 0 <= i < |cs| :: ConfigButSecrets(cs[i], ds[i]) && NoSecrets(ds[i])
  }

  /** `resetSecrets`, three loops deep. */
  method ResetSecrets(cs: seq<ApiConfig>) returns (ds: seq<ApiConfig>)
    ensures Cleared(cs, ds)
  {
    ds := cs;
    for i := 0 to |cs|
      invariant |ds| == |cs|
      invariant forall k | 0 <= k < i :: ConfigButSecrets(cs[k], ds[k]) && NoSecrets(ds[k])
      invariant forall k | i <= k < |cs| :: ds[k] == cs[k]
    {
      var rs := cs[i].routers;
      var reset := rs;
      for j := 0 to |rs|
        invariant |reset| == |rs|
        invariant forall k | 0 <= k < j ::
                    RouterButSecrets(rs[k], reset[k]) && forall n | n in reset[k].neighbors :: n.passwordSecret == ""
        invariant forall k | j <= k < |rs| :: reset[k] == rs[k]
      {
        var ns := rs[j].neighbors;
        var out := ns;
        for k := 0 to |ns|
          invariant |out| == |ns|
          invariant forall l | 0 <= l < k :: NeighborButSecret(ns[l], out[l]) && out[l].passwordSecret == ""
          invariant forall l | k <= l < |ns| :: out[l] == ns[l]
        {
          out := out[k := out[k].(passwordSecret := "")];
        }
        reset := reset[j := reset[j].(neighbors := out)];
        assert RouterButSecrets(rs[j], reset[j]);
      }
      ds := ds[i := ds[i].(routers := reset)];
      assert ConfigButSecrets(cs[i], ds[i]) && NoSecrets(ds[i]);
    }
  }

  lemma ClearedConfigUnique(c: ApiConfig, d: ApiConfig, e: ApiConfig)
    requires ConfigButSecrets(c, d) && NoSecrets(d) && ConfigButSecrets(c, e) && NoSecrets(e)
    ensures d == e
  {
    forall i | 0 <= i < |c.routers| ensures d.routers[i] == e.routers[i] {
      var r, t := d.routers[i], e.routers[i];
      assert RouterButSecrets(c.routers[i], r) && RouterButSecrets(c.routers[i], t) && r in d.routers && t in e.routers;
      forall j | 0 <= j < |r.neighbors| ensures r.neighbors[j] == t.neighbors[j] {
        var n := c.routers[i].neighbors[j];
        assert NeighborButSecret(n, r.neighbors[j]) && NeighborButSecret(n, t.neighbors[j]);
        assert r.neighbors[j] in r.neighbors && t.neighbors[j] in t.neighbors;
      }
      assert r.neighbors == t.neighbors;
    }
    assert d.routers == e.routers;
  }

  lemma ClearedUnique(cs: seq<ApiConfig>, ds: seq<ApiConfig>, es: seq<ApiConfig>)
    requires Cleared(cs, ds) && Cleared(cs, es)
    ensures ds == es
  {
    hide ConfigButSecrets, NoSecrets;
    forall i | 0 <= i < |cs| ensures ds[i] == es[i] { ClearedConfigUnique(cs[i], ds[i], es[i]); }
  }

  /** What the webhook converts with. */
  function WebhookEnv(net: Net): (e: Env) { Env(net, [], map[]) }

  /** Without their references to secrets the configurations convert. */
  ghost predicate Validates(net: Net, cs: seq<ApiConfig>) {
    exists ds :: Cleared(cs, ds) && Convert(WebhookEnv(net), ds).Ok?
  }

  /** `Validate` */
  method Validate(net: Net, cs: seq<ApiConfig>) returns (ok: bool)
    ensures ok <==> Validates(net, cs)
  {
    hide Cleared, Convert;
    var reset := ResetSecrets(cs);
    var out := ApiToFRR(WebhookEnv(net), reset);
    forall ds | Cleared(cs, ds) ensures ds == reset { ClearedUnique(cs, ds, reset); }
    return out.Ok?;
  }

  /**
   * The verdict of the webhook: whatever secrets and blocked prefixes a controller has, it converts the
   * configurations without their references to secrets.
   */
  lemma ValidatesExactly(env: Env, cs: seq<ApiConfig>, ds: seq<ApiConfig>)
    requires Cleared(cs, ds)
    ensures Validates(env.net, cs) <==> Convert(env, ds).Ok?
  {
    hide Convert, ConfigButSecrets, NoSecrets;
    forall es | Cleared(cs, es) ensures es == ds { ClearedUnique(cs, es, ds); }
    forall d | d in ds ensures NoSecrets(d) { var i :| 0 <= i < |ds| && ds[i] == d; }
    ConvertsInEveryEnvironment(WebhookEnv(env.net), env, ds);
  }

  // ---- the decision

  /** The stored configurations a new one is judged with on a node, in list order. */
  function Others(sel: Selectors, items: seq<ApiConfig>, cfg: ApiConfig, labels: Labels): (r: seq<ApiConfig>)
    ensures forall c :: c in r <==>
              c in items && sel.parses(c.nodeSelector) && c.name != cfg.name && sel.matches(c.nodeSelector, labels)
  {
    if items == [] then []
    else
      assert items == items[..|items| - 1] + [items[|items| - 1]];
      var rest := Others(sel, items[..|items| - 1], cfg, labels);
      var c := items[|items| - 1];
      if sel.parses(c.nodeSelector) && c.name != cfg.name && sel.matches(c.nodeSelector, labels) then rest + [c]
      else rest
  }

  /** The configuration validates on a node, put after the stored ones. */
  ghost predicate Fits(net: Net, sel: Selectors, items: seq<ApiConfig>, cfg: ApiConfig, labels: Labels) {
    Validates(net, Others(sel, items, cfg, labels) + [cfg])
  }

  /** The change is admitted: its selector parses, and it validates on every node it selects, put last. */
  ghost predicate Admits(net: Net, sel: Selectors, nodes: seq<Node>, items: seq<ApiConfig>, cfg: ApiConfig) {
    && sel.parses(cfg.nodeSelector)
    && forall n | n in nodes && sel.matches(cfg.nodeSelector, n.labels) :: Fits(net, sel, items, cfg, n.labels)
  }

  datatype NodeAndConfigs = NodeAndConfigs(name: string, labels: Labels, cfgs: seq<ApiConfig>)

  method GatherOthers(sel: Selectors, items: seq<ApiConfig>, cfg: ApiConfig, labels: Labels) returns (r: seq<ApiConfig>)
    ensures r == Others(sel, items, cfg, labels) + [cfg]
  {
    r := [];
    for i := 0 to |items|
      invariant r == Others(sel, items[..i], cfg, labels)
    {
      assert items[..i + 1][..i] == items[..i];
      var c := items[i];
      if !sel.parses(c.nodeSelector) { continue; }
      if c.name == cfg.name { continue; }
      if sel.matches(c.nodeSelector, labels) { r := r + [c]; }
    }
    assert items[..|items|] == items;
    r := r + [cfg];
  }

  ghost predicate Selected(sel: Selectors, nodes: seq<Node>, cfg: ApiConfig, labels: Labels) {
    exists n :: n in nodes && n.labels == labels && sel.matches(cfg.nodeSelector, labels)
  }

  method MatchingNodes(sel: Selectors, nodes: seq<Node>, cfg: ApiConfig) returns (r: seq<NodeAndConfigs>)
    ensures forall m | m in r :: m.cfgs == [] && Selected(sel, nodes, cfg, m.labels)
    ensures forall n | n in nodes && sel.matches(cfg.nodeSelector, n.labels) ::
              NodeAndConfigs(n.name, n.labels, []) in r
  {
    r := [];
    for i := 0 to |nodes|
      invariant forall m | m in r :: m.cfgs == [] && Selected(sel, nodes, cfg, m.labels)
      invariant forall n | n in nodes[..i] && sel.matches(cfg.nodeSelector, n.labels) ::
                NodeAndConfigs(n.name, n.labels, []) in r
    {
      assert nodes[..i + 1] == nodes[..i] + [nodes[i]];
      assert nodes[i] in nodes;
      if sel.matches(cfg.nodeSelector, nodes[i].labels) {
        r := r + [NodeAndConfigs(nodes[i].name, nodes[i].labels, [])];
      }
    }
    assert nodes[..|nodes|] == nodes;
  }

  method FillNodes(sel: Selectors, items: seq<ApiConfig>, cfg: ApiConfig, matching: seq<NodeAndConfigs>)
    returns (filled: seq<NodeAndConfigs>)
    ensures |filled| == |matching|
    ensures forall k | 0 <= k < |matching| :: filled[k].cfgs == Others(sel, items, cfg, matching[k].labels) + [cfg]
  {
    filled := matching;
    for i := 0 to |matching|
      invariant |filled| == |matching|
      invariant forall k | 0 <= k < i :: filled[k].cfgs == Others(sel, items, cfg, matching[k].labels) + [cfg]
    {
      var cfgs := GatherOthers(sel, items, cfg, matching[i].labels);
      filled := filled[i := filled[i].(cfgs := cfgs)];
    }
  }

  method ValidateNodes(net: Net, filled: seq<NodeAndConfigs>) returns (ok: bool)
    ensures ok <==> forall k | 0 <= k < |filled| :: Validates(net, filled[k].cfgs)
  {
    hide Validates;
    for i := 0 to |filled|
      invariant forall k | 0 <= k < i :: Validates(net, filled[k].cfgs)
    {
      var valid := Validate(net, filled[i].cfgs);
      if !valid { return false; }
    }
    return true;
  }

  /** `validateConfig` */
  method ValidateConfig(net: Net, sel: Selectors, nodes: seq<Node>, items: seq<ApiConfig>, cfg: ApiConfig)
    returns (admitted: bool)
    ensures admitted <==> Admits(net, sel, nodes, items, cfg)
  {
    hide Validates, Others;
    if !sel.parses(cfg.nodeSelector) { return false; }
    var matching := MatchingNodes(sel, nodes, cfg);
    var filled := FillNodes(sel, items, cfg, matching);
    admitted := ValidateNodes(net, filled);
    assert forall k | 0 <= k < |matching| :: Fits(net, sel, items, cfg, matching[k].labels) <==>
        Validates(net, filled[k].cfgs);
    FitsEverywhere(net, sel, nodes, items, cfg, matching);
  }

  lemma FitsEverywhere(net: Net, sel: Selectors, nodes: seq<Node>, items: seq<ApiConfig>, cfg: ApiConfig,
                       matching: seq<NodeAndConfigs>)
    requires forall m | m in matching :: m.cfgs == [] && Selected(sel, nodes, cfg, m.labels)
    requires forall n | n in nodes && sel.matches(cfg.nodeSelector, n.labels) ::
              NodeAndConfigs(n.name, n.labels, []) in matching
    ensures (forall k | 0 <= k < |matching| :: Fits(net, sel, items, cfg, matching[k].labels)) <==>
            (forall n | n in nodes && sel.matches(cfg.nodeSelector, n.labels) :: Fits(net, sel, items, cfg, n.labels))
  {
    hide Fits;
    if forall k | 0 <= k < |matching| :: Fits(net, sel, items, cfg, matching[k].labels) {
      forall n | n in nodes && sel.matches(cfg.nodeSelector, n.labels) ensures Fits(net, sel, items, cfg, n.labels) {
        var k :| 0 <= k < |matching| && matching[k] == NodeAndConfigs(n.name, n.labels, []);
      }
    }
    if forall n | n in nodes && sel.matches(cfg.nodeSelector, n.labels) :: Fits(net, sel, items, cfg, n.labels) {
      forall k | 0 <= k < |matching| ensures Fits(net, sel, items, cfg, matching[k].labels) {
        assert Selected(sel, nodes, cfg, matching[k].labels);
      }
    }
  }

  // ---- references to secrets do not count

  lemma ClearedNone(cs: seq<ApiConfig>, ds: seq<ApiConfig>)
    requires Cleared(cs, ds) && cs == []
    ensures ds == [] && Cleared([], [])
  {}

  lemma ClearedLast(cs: seq<ApiConfig>, ds: seq<ApiConfig>)
    requires Cleared(cs, ds) && cs != []
    ensures |ds| == |cs| && var n := |cs| - 1;
              Cleared(cs[..n], ds[..n]) && ConfigButSecrets(cs[n], ds[n]) && NoSecrets(ds[n])
  {
    hide ConfigButSecrets, NoSecrets;
  }

  lemma ClearedAppended(cs: seq<ApiConfig>, ds: seq<ApiConfig>, c: ApiConfig, d: ApiConfig)
    requires Cleared(cs, ds) && ConfigButSecrets(c, d) && NoSecrets(d)
    ensures Cleared(cs + [c], ds + [d])
  {
    hide ConfigButSecrets, NoSecrets;
  }

  lemma {:induction false} OthersCleared(sel: Selectors, items: seq<ApiConfig>, plain: seq<ApiConfig>, cfg: ApiConfig,
                                         clean: ApiConfig, labels: Labels)
    requires Cleared(items, plain) && cfg.name == clean.name
    ensures Cleared(Others(sel, items, cfg, labels), Others(sel, plain, clean, labels))
  {
    hide RoutersButSecrets, NoSecrets, Cleared;
    if items == [] {
      ClearedNone(items, plain);
    } else {
      var n := |items| - 1;
      ClearedLast(items, plain);
      OthersCleared(sel, items[..n], plain[..n], cfg, clean, labels);
      ClearedAppended(Others(sel, items[..n], cfg, labels), Others(sel, plain[..n], clean, labels), items[n], plain[n]);
    }
  }

  /**
   * A change is admitted if and only if its selector parses and, on every node it selects, the stored
   * configurations of other names and the new one convert without their references to secrets, in
   * whatever environment.
   */
  lemma AdmitsExactly(env: Env, sel: Selectors, nodes: seq<Node>, items: seq<ApiConfig>, plain: seq<ApiConfig>,
                      cfg: ApiConfig, clean: ApiConfig)
    requires Cleared(items, plain) && Cleared([cfg], [clean])
    ensures Admits(env.net, sel, nodes, items, cfg) <==>
              && sel.parses(cfg.nodeSelector)
              && forall n | n in nodes && sel.matches(cfg.nodeSelector, n.labels) ::
                   Convert(env, Others(sel, plain, clean, n.labels) + [clean]).Ok?
  {
    hide Convert, RoutersButSecrets, NoSecrets, Others, Validates;
    assert [cfg][0] == cfg && [clean][0] == clean;
    forall n ensures Fits(env.net, sel, items, cfg, n) <==> Convert(env, Others(sel, plain, clean, n) + [clean]).Ok? {
      OthersCleared(sel, items, plain, cfg, clean, n);
      ValidatesExactly(env, Others(sel, items, cfg, n) + [cfg], Others(sel, plain, clean, n) + [clean]);
    }
  }
}

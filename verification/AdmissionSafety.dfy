/**
 * What the webhook is for: as long as changes pass it, the configurations every node selects stay free
 * of disputes, whatever order they are listed in, and the controller goes on converting them.  What the
 * webhook does not watch over is the demand for EVPN neighbors on nodes that lose one.
 */
module AdmissionSafety {
  import opened Api
  import opened Conversion
  import opened ConvertFacts
  import opened Properties
  import opened Environments
  import opened Admission

  datatype Key = Key(namespace: string, name: string)

  type Cluster = map<Key, ApiConfig>

  ghost predicate InCluster(cluster: Cluster, c: ApiConfig) { exists k :: k in cluster && cluster[k] == c }

  /** An answer of the API server: the stored objects, in any order. */
  ghost predicate Listing(cluster: Cluster, items: seq<ApiConfig>) { forall c :: c in items <==> InCluster(cluster, c) }

  lemma {:induction false} ListingExists(cluster: Cluster) returns (items: seq<ApiConfig>)
    ensures Listing(cluster, items)
    decreases |cluster|
  {
    if cluster == map[] {
      items := [];
    } else {
      var k :| k in cluster;
      var rest := cluster - {k};
      var before := ListingExists(rest);
      items := before + [cluster[k]];
      forall c ensures c in items <==> InCluster(cluster, c) {
        if j :| j in cluster && cluster[j] == c { if j != k { assert j in rest && rest[j] == c; } }
        if j :| j in rest && rest[j] == c { assert j in cluster && cluster[j] == c; }
      }
    }
  }

  /** The controller of a node converts whatever list it gets. */
  ghost predicate NodeSafe(env: Env, sel: Selectors, cluster: Cluster, labels: Labels) {
    forall items | Listing(cluster, items) :: AllParse(sel, items) && Convert(env, Matching(sel, items, labels)).Ok?
  }

  ghost predicate Safe(env: Env, sel: Selectors, nodes: seq<Node>, cluster: Cluster) {
    forall n | n in nodes :: NodeSafe(env, sel, cluster, n.labels)
  }

  /** No two configurations of the node contradict each other. */
  ghost predicate NodeCalm(env: Env, sel: Selectors, cluster: Cluster, labels: Labels) {
    forall items | Listing(cluster, items) :: AllParse(sel, items) && Undisputed(env, Matching(sel, items, labels))
  }

  /** The configurations of the node bring the EVPN neighbors they need. */
  ghost predicate NodeSupplied(env: Env, sel: Selectors, cluster: Cluster, labels: Labels) {
    forall items | Listing(cluster, items) :: Supplied(env, Matching(sel, items, labels))
  }

  ghost predicate Calm(env: Env, sel: Selectors, nodes: seq<Node>, cluster: Cluster) {
    forall n | n in nodes :: NodeCalm(env, sel, cluster, n.labels)
  }

  ghost predicate AllSupplied(env: Env, sel: Selectors, nodes: seq<Node>, cluster: Cluster) {
    forall n | n in nodes :: NodeSupplied(env, sel, cluster, n.labels)
  }

  lemma ConvertsSplit(env: Env, cs: seq<ApiConfig>)
    ensures Convert(env, cs).Ok? <==> Undisputed(env, cs) && Supplied(env, cs)
  {
    hide Convert, Undisputed, Supplied, Consistent;
    ConversionTheorem(env, cs);
    UndisputedTheorem(env, cs);
  }

  /** The controllers convert if and only if nothing is disputed and nothing is missing. */
  lemma SafeExactly(env: Env, sel: Selectors, nodes: seq<Node>, cluster: Cluster)
    ensures Safe(env, sel, nodes, cluster) <==> Calm(env, sel, nodes, cluster) && AllSupplied(env, sel, nodes, cluster)
  {
    hide Convert, Undisputed, Supplied, Matching, Listing;
    forall cs ensures Convert(env, cs).Ok? <==> Undisputed(env, cs) && Supplied(env, cs) { ConvertsSplit(env, cs); }
    forall n | n in nodes
      ensures NodeSafe(env, sel, cluster, n.labels) <==>
                NodeCalm(env, sel, cluster, n.labels) && NodeSupplied(env, sel, cluster, n.labels) {}
  }

  /** No object refers to a secret, which the webhook does not get to see. */
  ghost predicate Secretless(cluster: Cluster) {
    forall k | k in cluster :: NoSecrets(cluster[k]) && cluster[k].name == k.name
  }

  // ---- conversion without secrets

  lemma UndisputedPairs(env: Env, cs: seq<ApiConfig>)
    requires forall a, b | a in cs && b in cs :: Undisputed(env, [a, b])
    ensures Undisputed(env, cs)
  {
    hide Undisputed;
    forall c | c in cs ensures Undisputed(env, [c]) { UndisputedSubset(env, [c], [c, c]); }
    PairwiseTheorem(env, cs);
  }

  lemma NothingToClear(cs: seq<ApiConfig>)
    requires forall c | c in cs :: NoSecrets(c)
    ensures Cleared(cs, cs)
  {
    hide NoSecrets;
  }

  /** What validates in the webhook converts in the controller. */
  lemma ValidatedConverts(env: Env, cs: seq<ApiConfig>)
    requires forall c | c in cs :: NoSecrets(c)
    ensures Validates(env.net, cs) <==> Convert(env, cs).Ok?
  {
    hide Convert, NoSecrets, Cleared, Validates;
    NothingToClear(cs);
    ValidatesExactly(env, cs, cs);
  }

  // ---- one change

  /** A stored object of the same name in another namespace, on a node both select. */
  ghost predicate Twin(sel: Selectors, cluster: Cluster, key: Key, cfg: ApiConfig, labels: Labels, c: ApiConfig) {
    sel.matches(cfg.nodeSelector, labels) && sel.matches(c.nodeSelector, labels) &&
    exists k :: k in cluster && k != key && k.name == key.name && cluster[k] == c
  }

  lemma HoldsAfter(cluster: Cluster, key: Key, cfg: ApiConfig, c: ApiConfig)
    ensures InCluster(cluster[key := cfg], c) <==> c == cfg || exists k :: k in cluster && k != key && cluster[k] == c
  {
    var after := cluster[key := cfg];
    assert after[key] == cfg;
    if k :| k in cluster && k != key && cluster[k] == c { assert k in after && after[k] == c; }
    if k :| k in after && after[k] == c { assert k != key ==> k in cluster && cluster[k] == c; }
  }

  /** The new configuration gets on with those the webhook did not look at together with it. */
  ghost predicate TwinsAgree(env: Env, sel: Selectors, cluster: Cluster, key: Key, cfg: ApiConfig, labels: Labels) {
    forall c | Twin(sel, cluster, key, cfg, labels, c) :: Undisputed(env, [c, cfg])
  }

  ghost predicate AllTwinsAgree(env: Env, sel: Selectors, nodes: seq<Node>, cluster: Cluster, key: Key,
                                cfg: ApiConfig) {
    forall n | n in nodes :: TwinsAgree(env, sel, cluster, key, cfg, n.labels)
  }

  /** A pair of configurations the node selects after the change. */
  lemma PairAfter(env: Env, sel: Selectors, cluster: Cluster, items: seq<ApiConfig>, key: Key, cfg: ApiConfig,
                  labels: Labels, a: ApiConfig, b: ApiConfig)
    requires Secretless(cluster) && NoSecrets(cfg) && cfg.name == key.name && Listing(cluster, items)
    requires AllParse(sel, items) && Undisputed(env, Matching(sel, items, labels))
    requires sel.matches(cfg.nodeSelector, labels) ==> Fits(env.net, sel, items, cfg, labels)
    requires TwinsAgree(env, sel, cluster, key, cfg, labels)
    requires InCluster(cluster[key := cfg], a) && sel.matches(a.nodeSelector, labels)
    requires InCluster(cluster[key := cfg], b) && sel.matches(b.nodeSelector, labels)
    ensures Undisputed(env, [a, b])
  {
    hide Undisputed, Convert, Supplied, NoSecrets, Validates, Matching, Others;
    HoldsAfter(cluster, key, cfg, a);
    HoldsAfter(cluster, key, cfg, b);
    if a != cfg && b != cfg {
      assert InCluster(cluster, a) && InCluster(cluster, b);
      UndisputedSubset(env, [a, b], Matching(sel, items, labels));
    } else {
      var judged := Others(sel, items, cfg, labels) + [cfg];
      forall c | c in judged ensures NoSecrets(c) { assert c == cfg || InCluster(cluster, c); }
      ValidatedConverts(env, judged);
      ConvertsSplit(env, judged);
      WithNew(env, sel, cluster, items, key, cfg, labels, a);
      WithNew(env, sel, cluster, items, key, cfg, labels, b);
    }
  }

  /** The new configuration with any other one. */
  lemma WithNew(env: Env, sel: Selectors, cluster: Cluster, items: seq<ApiConfig>, key: Key, cfg: ApiConfig,
                labels: Labels, a: ApiConfig)
    requires Secretless(cluster) && cfg.name == key.name && Listing(cluster, items) && AllParse(sel, items)
    requires sel.matches(cfg.nodeSelector, labels) && Undisputed(env, Others(sel, items, cfg, labels) + [cfg])
    requires TwinsAgree(env, sel, cluster, key, cfg, labels)
    requires InCluster(cluster[key := cfg], a) && sel.matches(a.nodeSelector, labels)
    ensures Undisputed(env, [a, cfg]) && Undisputed(env, [cfg, a])
  {
    hide Undisputed, NoSecrets, Others;
    HoldsAfter(cluster, key, cfg, a);
    var judged := Others(sel, items, cfg, labels) + [cfg];
    if a != cfg && a.name == cfg.name {
      var k :| k in cluster && k != key && cluster[k] == a;
      assert Twin(sel, cluster, key, cfg, labels, a);
      UndisputedSubset(env, [cfg, a], [a, cfg]);
    } else {
      if a != cfg { assert InCluster(cluster, a); }
      assert a in judged && cfg in judged;
      UndisputedSubset(env, [a, cfg], judged);
      UndisputedSubset(env, [cfg, a], judged);
    }
  }

  lemma AdmitNode(env: Env, sel: Selectors, cluster: Cluster, items: seq<ApiConfig>, key: Key, cfg: ApiConfig,
                  labels: Labels)
    requires Secretless(cluster) && NoSecrets(cfg) && cfg.name == key.name && Listing(cluster, items)
    requires NodeCalm(env, sel, cluster, labels) && sel.parses(cfg.nodeSelector)
    requires sel.matches(cfg.nodeSelector, labels) ==> Fits(env.net, sel, items, cfg, labels)
    ensures NodeCalm(env, sel, cluster[key := cfg], labels) <==> TwinsAgree(env, sel, cluster, key, cfg, labels)
  {
    hide Undisputed, NoSecrets, Fits, Matching, Secretless;
    var after := cluster[key := cfg];
    if TwinsAgree(env, sel, cluster, key, cfg, labels) {
      forall now | Listing(after, now) ensures AllParse(sel, now) && Undisputed(env, Matching(sel, now, labels)) {
        var ms := Matching(sel, now, labels);
        forall c: ApiConfig | c in now ensures sel.parses(c.nodeSelector) {
          HoldsAfter(cluster, key, cfg, c);
          if c != cfg { assert InCluster(cluster, c) && c in items; }
        }
        forall a, b | a in ms && b in ms ensures Undisputed(env, [a, b]) {
          PairAfter(env, sel, cluster, items, key, cfg, labels, a, b);
        }
        UndisputedPairs(env, ms);
      }
    }
    if NodeCalm(env, sel, after, labels) {
      var now := ListingExists(after);
      forall c | Twin(sel, cluster, key, cfg, labels, c) ensures Undisputed(env, [c, cfg]) {
        HoldsAfter(cluster, key, cfg, c);
        HoldsAfter(cluster, key, cfg, cfg);
        UndisputedSubset(env, [c, cfg], Matching(sel, now, labels));
      }
    }
  }

  /**
   * One admitted change.  The webhook passes over stored objects that bear the name of the new one, and
   * over nodes the new object does not select.  So no dispute arises if and only if the new object gets
   * on with its namesakes in other namespaces, and the controllers go on converting if and only if
   * moreover every node still has the EVPN neighbors it needs.
   */
  lemma AdmitKeepsSafe(env: Env, sel: Selectors, nodes: seq<Node>, cluster: Cluster, items: seq<ApiConfig>, key: Key,
                       cfg: ApiConfig)
    requires Secretless(cluster) && NoSecrets(cfg) && cfg.name == key.name && Listing(cluster, items)
    requires Calm(env, sel, nodes, cluster) && Admits(env.net, sel, nodes, items, cfg)
    ensures Calm(env, sel, nodes, cluster[key := cfg]) <==> AllTwinsAgree(env, sel, nodes, cluster, key, cfg)
    ensures Safe(env, sel, nodes, cluster[key := cfg]) <==>
              AllTwinsAgree(env, sel, nodes, cluster, key, cfg) && AllSupplied(env, sel, nodes, cluster[key := cfg])
  {
    hide NodeCalm, NodeSafe, NodeSupplied, NoSecrets, Fits, TwinsAgree, Secretless, Listing;
    forall n | n in nodes
      ensures NodeCalm(env, sel, cluster[key := cfg], n.labels) <==> TwinsAgree(env, sel, cluster, key, cfg, n.labels)
    {
      AdmitNode(env, sel, cluster, items, key, cfg, n.labels);
    }
    SafeExactly(env, sel, nodes, cluster[key := cfg]);
  }

  /** A deletion brings no dispute, and breaks a node if and only if it takes an EVPN neighbor it needs. */
  lemma DeleteKeepsSafe(env: Env, sel: Selectors, nodes: seq<Node>, cluster: Cluster, key: Key)
    requires Calm(env, sel, nodes, cluster)
    ensures Calm(env, sel, nodes, cluster - {key})
    ensures Safe(env, sel, nodes, cluster - {key}) <==> AllSupplied(env, sel, nodes, cluster - {key})
  {
    hide Undisputed, Matching, NodeSafe, NodeSupplied;
    var after := cluster - {key};
    var items := ListingExists(cluster);
    forall n, now | n in nodes && Listing(after, now)
      ensures AllParse(sel, now) && Undisputed(env, Matching(sel, now, n.labels))
    {
      forall c | c in now ensures c in items {
        var k :| k in after && after[k] == c;
        assert InCluster(cluster, c);
      }
      assert NodeCalm(env, sel, cluster, n.labels);
      UndisputedSubset(env, Matching(sel, now, n.labels), Matching(sel, items, n.labels));
    }
    SafeExactly(env, sel, nodes, after);
  }

  // ---- runs

  /** An admitted create or update, with the list the webhook saw, or a deletion. */
  datatype Step = Apply(key: Key, cfg: ApiConfig, items: seq<ApiConfig>) | Delete(key: Key)

  ghost predicate Admitted(net: Net, sel: Selectors, nodes: seq<Node>, cluster: Cluster, s: Step) {
    s.Apply? ==> s.cfg.name == s.key.name && Listing(cluster, s.items) && Admits(net, sel, nodes, s.items, s.cfg)
  }

  function Next(cluster: Cluster, s: Step): (r: Cluster) {
    match s
    case Apply(key, cfg, _) => cluster[key := cfg]
    case Delete(key) => cluster - {key}
  }

  function Final(cluster: Cluster, steps: seq<Step>): (r: Cluster) {
    if steps == [] then cluster else Next(Final(cluster, steps[..|steps| - 1]), steps[|steps| - 1])
  }

  ghost predicate Run(net: Net, sel: Selectors, nodes: seq<Node>, cluster: Cluster, steps: seq<Step>) {
    forall i | 0 <= i < |steps| :: Admitted(net, sel, nodes, Final(cluster, steps[..i]), steps[i])
  }

  ghost predicate SecretlessStep(ns: string, s: Step) { s.key.namespace == ns && (s.Apply? ==> NoSecrets(s.cfg)) }

  ghost predicate InNamespace(ns: string, cluster: Cluster) { forall k | k in cluster :: k.namespace == ns }

  lemma NoTwins(env: Env, sel: Selectors, ns: string, cluster: Cluster, key: Key, cfg: ApiConfig, labels: Labels)
    requires InNamespace(ns, cluster) && key.namespace == ns
    ensures TwinsAgree(env, sel, cluster, key, cfg, labels)
  {
    hide Undisputed;
    forall c ensures !Twin(sel, cluster, key, cfg, labels, c) {}
  }

  /**
   * Over every run within one namespace nothing is ever disputed, so that the controllers go on
   * converting if and only if every node has the EVPN neighbors it needs.
   */
  lemma {:induction false} AdmissionSafety(env: Env, sel: Selectors, nodes: seq<Node>, ns: string, cluster: Cluster,
                                           steps: seq<Step>)
    requires Calm(env, sel, nodes, cluster) && Secretless(cluster) && InNamespace(ns, cluster)
    requires Run(env.net, sel, nodes, cluster, steps) && forall s | s in steps :: SecretlessStep(ns, s)
    ensures Calm(env, sel, nodes, Final(cluster, steps))
    ensures Safe(env, sel, nodes, Final(cluster, steps)) <==> AllSupplied(env, sel, nodes, Final(cluster, steps))
    ensures Secretless(Final(cluster, steps)) && InNamespace(ns, Final(cluster, steps))
  {
    hide Safe, Calm, AllSupplied, NoSecrets, Listing, Admits, TwinsAgree;
    SafeExactly(env, sel, nodes, Final(cluster, steps));
    if steps != [] {
      var before, s := steps[..|steps| - 1], steps[|steps| - 1];
      assert forall i | 0 <= i < |before| :: before[..i] == steps[..i];
      AdmissionSafety(env, sel, nodes, ns, cluster, before);
      var now := Final(cluster, before);
      assert SecretlessStep(ns, s) && Admitted(env.net, sel, nodes, now, s);
      if s.Apply? {
        forall n | n in nodes ensures TwinsAgree(env, sel, now, s.key, s.cfg, n.labels) {
          NoTwins(env, sel, ns, now, s.key, s.cfg, n.labels);
        }
        AdmitKeepsSafe(env, sel, nodes, now, s.items, s.key, s.cfg);
      } else {
        DeleteKeepsSafe(env, sel, nodes, now, s.key);
      }
    }
  }

  ghost predicate NeedsNone(cluster: Cluster) { forall k | k in cluster :: NeedsNothing(cluster[k]) }

  lemma NothingMissing(env: Env, sel: Selectors, nodes: seq<Node>, cluster: Cluster)
    requires NeedsNone(cluster)
    ensures AllSupplied(env, sel, nodes, cluster)
  {
    hide Supplied, Matching, NeedsNothing;
    forall n, items | n in nodes && Listing(cluster, items) ensures Supplied(env, Matching(sel, items, n.labels)) {
      forall c | c in Matching(sel, items, n.labels) ensures NeedsNothing(c) { assert InCluster(cluster, c); }
      SuppliedByNeedingNothing(env, Matching(sel, items, n.labels));
    }
  }

  lemma {:induction false} NeedsNoneInTheEnd(cluster: Cluster, steps: seq<Step>)
    requires NeedsNone(cluster) && forall s | s in steps :: s.Apply? ==> NeedsNothing(s.cfg)
    ensures NeedsNone(Final(cluster, steps))
  {
    hide NeedsNothing;
    if steps != [] {
      assert steps[|steps| - 1] in steps;
      NeedsNoneInTheEnd(cluster, steps[..|steps| - 1]);
    }
  }

  /** Without EVPN features that need a neighbor the controllers go on converting after every run. */
  lemma PlainRunsAreSafe(env: Env, sel: Selectors, nodes: seq<Node>, ns: string, cluster: Cluster, steps: seq<Step>)
    requires Safe(env, sel, nodes, cluster) && Secretless(cluster) && InNamespace(ns, cluster) && NeedsNone(cluster)
    requires Run(env.net, sel, nodes, cluster, steps) && forall s | s in steps :: SecretlessStep(ns, s)
    requires forall s | s in steps :: s.Apply? ==> NeedsNothing(s.cfg)
    ensures Safe(env, sel, nodes, Final(cluster, steps))
  {
    hide Safe, Calm, AllSupplied, Secretless, NeedsNone, InNamespace, Run, NeedsNothing, SecretlessStep;
    SafeExactly(env, sel, nodes, cluster);
    AdmissionSafety(env, sel, nodes, ns, cluster, steps);
    NeedsNoneInTheEnd(cluster, steps);
    NothingMissing(env, sel, nodes, Final(cluster, steps));
  }

  // ---- runs with references to secrets

  /** The same objects without their references to secrets. */
  ghost predicate ClearedCluster(cluster: Cluster, clean: Cluster) {
    cluster.Keys == clean.Keys && forall k | k in cluster ::
        ConfigButSecrets(cluster[k], clean[k]) && NoSecrets(clean[k])
  }

  ghost predicate ClearedStep(s: Step, t: Step) {
    && s.key == t.key && (s.Apply? <==> t.Apply?)
    && (s.Apply? && t.Apply? ==> Cleared([s.cfg], [t.cfg]) && Cleared(s.items, t.items))
  }

  ghost predicate ClearedSteps(steps: seq<Step>, clean: seq<Step>) {
    |clean| == |steps| && forall i | 0 <= i < |steps| :: ClearedStep(steps[i], clean[i])
  }

  lemma ListingCleared(cluster: Cluster, clean: Cluster, items: seq<ApiConfig>, plain: seq<ApiConfig>)
    requires ClearedCluster(cluster, clean) && Cleared(items, plain) && Listing(cluster, items)
    ensures Listing(clean, plain)
  {
    hide ConfigButSecrets, NoSecrets;
    forall c ensures c in plain <==> InCluster(clean, c) {
      if c in plain {
        var i :| 0 <= i < |plain| && plain[i] == c;
        assert InCluster(cluster, items[i]);
        var k :| k in cluster && cluster[k] == items[i];
        ClearedConfigUnique(items[i], c, clean[k]);
      }
      if k :| k in clean && clean[k] == c {
        assert InCluster(cluster, cluster[k]);
        var i :| 0 <= i < |items| && items[i] == cluster[k];
        ClearedConfigUnique(items[i], c, plain[i]);
        assert plain[i] in plain;
      }
    }
  }

  lemma AdmittedCleared(net: Net, sel: Selectors, nodes: seq<Node>, cluster: Cluster, clean: Cluster, s: Step, t: Step)
    requires ClearedCluster(cluster, clean) && ClearedStep(s, t) && Admitted(net, sel, nodes, cluster, s)
    ensures Admitted(net, sel, nodes, clean, t)
  {
    hide RoutersButSecrets, NoSecrets, Admits, Listing, ClearedCluster;
    if s.Apply? {
      assert [s.cfg][0] == s.cfg && [t.cfg][0] == t.cfg;
      ListingCleared(cluster, clean, s.items, t.items);
      AdmitsExactly(WebhookEnv(net), sel, nodes, s.items, t.items, s.cfg, t.cfg);
      forall i | 0 <= i < |t.items| ensures NoSecrets(t.items[i]) { assert ConfigButSecrets(s.items[i], t.items[i]); }
      NothingToClear(t.items);
      NothingToClear([t.cfg]);
      AdmitsExactly(WebhookEnv(net), sel, nodes, t.items, t.items, t.cfg, t.cfg);
    }
  }

  lemma NextCleared(cluster: Cluster, clean: Cluster, s: Step, t: Step)
    requires ClearedCluster(cluster, clean) && ClearedStep(s, t)
    ensures ClearedCluster(Next(cluster, s), Next(clean, t))
  {
    hide ConfigButSecrets, NoSecrets;
    if s.Apply? { assert [s.cfg][0] == s.cfg && [t.cfg][0] == t.cfg; }
  }

  lemma EmptyRun(net: Net, sel: Selectors, nodes: seq<Node>, cluster: Cluster)
    ensures Run(net, sel, nodes, cluster, [])
  {}

  lemma RunLast(net: Net, sel: Selectors, nodes: seq<Node>, cluster: Cluster, steps: seq<Step>)
    requires steps != []
    ensures var n := |steps| - 1;
            Run(net, sel, nodes, cluster, steps) <==>
              Run(net, sel, nodes, cluster, steps[..n]) &&
              Admitted(net, sel, nodes, Final(cluster, steps[..n]), steps[n])
  {
    hide Admitted, Final;
    var n := |steps| - 1;
    var before := steps[..n];
    assert forall i | 0 <= i < n :: before[..i] == steps[..i] && before[i] == steps[i];
  }

  /** What the webhook admits it admits without the references to secrets. */
  lemma {:induction false} RunCleared(net: Net, sel: Selectors, nodes: seq<Node>, cluster: Cluster, clean: Cluster,
                                      steps: seq<Step>, plain: seq<Step>)
    requires ClearedCluster(cluster, clean) && ClearedSteps(steps, plain) && Run(net, sel, nodes, cluster, steps)
    ensures Run(net, sel, nodes, clean, plain) && ClearedCluster(Final(cluster, steps), Final(clean, plain))
  {
    hide ClearedCluster, ClearedStep, Admitted, Next, Run;
    if steps == [] {
      assert Run(net, sel, nodes, clean, []) by { EmptyRun(net, sel, nodes, clean); }
    } else {
      var n := |steps| - 1;
      var before, done := steps[..n], plain[..n];
      RunLast(net, sel, nodes, cluster, steps);
      RunLast(net, sel, nodes, clean, plain);
      RunCleared(net, sel, nodes, cluster, clean, before, done);
      assert ClearedStep(steps[n], plain[n]);
      AdmittedCleared(net, sel, nodes, Final(cluster, before), Final(clean, done), steps[n], plain[n]);
      NextCleared(Final(cluster, before), Final(clean, done), steps[n], plain[n]);
    }
  }

  /**
   * Over every run within one namespace, with references to secrets: without them nothing is ever
   * disputed on any node.
   */
  lemma NeverDisputedButForSecrets(env: Env, sel: Selectors, nodes: seq<Node>, ns: string, cluster: Cluster,
                                   clean: Cluster, steps: seq<Step>, plain: seq<Step>)
    requires ClearedCluster(cluster, clean) && ClearedSteps(steps, plain) && Run(env.net, sel, nodes, cluster, steps)
    requires Calm(env, sel, nodes, clean) && InNamespace(ns, clean) &&
              (forall k | k in clean :: clean[k].name == k.name)
    requires forall s | s in steps :: s.key.namespace == ns
    ensures ClearedCluster(Final(cluster, steps), Final(clean, plain)) && Calm(env, sel, nodes, Final(clean, plain))
  {
    hide Calm, Run, InNamespace, ConfigButSecrets, NoSecrets;
    RunCleared(env.net, sel, nodes, cluster, clean, steps, plain);
    assert Secretless(clean);
    forall t | t in plain ensures SecretlessStep(ns, t) {
      var i :| 0 <= i < |plain| && plain[i] == t;
      assert ClearedStep(steps[i], t) && steps[i] in steps;
      if t.Apply? { assert [t.cfg][0] == t.cfg; }
    }
    AdmissionSafety(env, sel, nodes, ns, clean, plain);
  }
}

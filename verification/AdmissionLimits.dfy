/**
 * Admitted changes that break a node: one that disagrees with its namesake in another namespace, one
 * that leaves a node which needs it, and one that refers to a secret which is not there.
 */
module AdmissionLimits {
  import opened Configs
  import opened Facts
  import opened Api
  import opened Translate
  import opened Conversion
  import opened FoldFacts
  import opened ConvertFacts
  import opened Properties
  import opened Environments
  import opened Admission
  import opened AdmissionSafety
  import opened Removal
  import opened OrderIndependence
  import opened Requests
  import opened Acceptance

  /** A router without neighbors, selected by every node; all these objects have one name. */
  function Bare(asn: nat): (c: ApiConfig) { ApiConfig("x", 0, "", [ApiRouter(asn, "", "", [], [], [], None)], [], "") }

  function BareRouter(asn: nat): (r: Router) { Router(asn, "", [], "", [], [], [], None) }

  lemma BareTranslates(env: Env, asn: nat)
    ensures TranslateConfig(env, Bare(asn)) == Ok([BareRouter(asn)])
  {
    hide TranslateConfig, PrefixesForVRFs;
    var r := Bare(asn).routers[0];
    assert TranslateNeighbors(env, [], r, [], {}) == Ok([]);
    OneRouter(env, Bare(asn), r, BareRouter(asn));
  }

  lemma BareSays(env: Env, asn: nat, f: Fact)
    ensures ConfigSays(env, Bare(asn), f) <==> f == At("", Asn(asn))
  {
    hide TranslateConfig;
    BareTranslates(env, asn);
    var r := BareRouter(asn);
    if f.At? {
      assert SeenSays([r], f.vrf, f.fact) <==> f.vrf == "" && RouterSays(r, f.fact) by { assert r in [r]; }
      assert f.fact.Peer? ==> !RouterSays(r, f.fact);
    }
  }

  lemma BareConverts(env: Env, asn: nat, cs: seq<ApiConfig>)
    requires forall c | c in cs :: c == Bare(asn)
    ensures Convert(env, cs).Ok?
  {
    hide Convert, TranslateConfig, ConfigSays, Bare;
    ConversionTheorem(env, cs);
    BareTranslates(env, asn);
    forall f ensures ConfigSays(env, Bare(asn), f) <==> f == At("", Asn(asn)) { BareSays(env, asn, f); }
    assert Consistent(env, cs);
    assert Supplied(env, cs);
  }

  lemma BaresClash(env: Env, a: nat, b: nat)
    requires a != b
    ensures Convert(env, [Bare(a), Bare(b)]).Err?
  {
    hide Convert, TranslateConfig, ConfigSays, Bare;
    var cs := [Bare(a), Bare(b)];
    ConversionTheorem(env, cs);
    BareSays(env, a, At("", Asn(a)));
    BareSays(env, b, At("", Asn(b)));
    assert Conflict(At("", Asn(a)), At("", Asn(b)));
    assert Contradict(env, Bare(a), Bare(b)) && Bare(a) in cs && Bare(b) in cs;
  }

  lemma BaresDispute(env: Env, a: nat, b: nat)
    requires a != b
    ensures !Undisputed(env, [Bare(a), Bare(b)])
  {
    hide Convert, Undisputed, Supplied, NeedsNothing;
    BaresClash(env, a, b);
    ConvertsSplit(env, [Bare(a), Bare(b)]);
    assert NeedsNothing(Bare(a)) && NeedsNothing(Bare(b)) by { BareNeedsNothing(a); BareNeedsNothing(b); }
    SuppliedByNeedingNothing(env, [Bare(a), Bare(b)]);
  }

  lemma BareNeedsNothing(asn: nat)
    ensures NeedsNothing(Bare(asn))
  {}

  /** Two namespaces, one name, two AS numbers for one VRF: the second object is admitted. */
  lemma NamesakesCanBreak(env: Env, sel: Selectors, nodes: seq<Node>)
    requires sel.parses("") && nodes != [] && forall n | n in nodes :: sel.matches("", n.labels)
    ensures var cluster, key := map[Key("a", "x") := Bare(1)], Key("b", "x");
            && Safe(env, sel, nodes, cluster) && Secretless(cluster) && NoSecrets(Bare(2))
            && Listing(cluster, [Bare(1)]) && Admits(env.net, sel, nodes, [Bare(1)], Bare(2))
            && !Safe(env, sel, nodes, cluster[key := Bare(2)])
  {
    hide Convert, Matching, Others;
    var cluster, key := map[Key("a", "x") := Bare(1)], Key("b", "x");
    var items := [Bare(1)];
    assert cluster[Key("a", "x")] == Bare(1);
    assert InCluster(cluster, Bare(1));
    forall c ensures c in items <==> InCluster(cluster, c) {}
    forall n, now | n in nodes && Listing(cluster, now)
      ensures AllParse(sel, now) && Convert(env, Matching(sel, now, n.labels)).Ok?
    {
      forall c | c in now ensures c == Bare(1) { assert InCluster(cluster, c); }
      BareConverts(env, 1, Matching(sel, now, n.labels));
    }
    forall n | n in nodes ensures Fits(env.net, sel, items, Bare(2), n.labels) {
      var judged := Others(sel, items, Bare(2), n.labels) + [Bare(2)];
      forall c | c in judged ensures c == Bare(2) {}
      BareConverts(env, 2, judged);
      ValidatedConverts(env, judged);
    }
    SafeExactly(env, sel, nodes, cluster);
    AdmitKeepsSafe(env, sel, nodes, cluster, items, key, Bare(2));
    BaresDispute(env, 1, 2);
    var n := nodes[0];
    assert Twin(sel, cluster, key, Bare(2), n.labels, Bare(1));
    assert !TwinsAgree(env, sel, cluster, key, Bare(2), n.labels);
  }

  // ---- leaving a node

  const AWAY := "away"

  /** The helper with a selector that no node matches. */
  const LEFT := Helper(false).(nodeSelector := AWAY)

  const NEEDY_KEY := Key("a", "needy")
  const HELPER_KEY := Key("a", "helper")

  lemma OnlyNeedy(env: Env, cs: seq<ApiConfig>)
    requires forall c :: c in cs <==> c == NEEDY
    ensures Convert(env, cs).Err?
  {
    hide Convert;
    RemovalCanBreak(env, false);
    SameConfigsSaySame(env, cs, [NEEDY]);
  }

  lemma NeedyAndHelper(env: Env, cs: seq<ApiConfig>)
    requires forall c :: c in cs <==> c == NEEDY || c == Helper(false)
    ensures Convert(env, cs).Ok?
  {
    hide Convert;
    RemovalCanBreak(env, false);
    SameConfigsSaySame(env, cs, [NEEDY, Helper(false)]);
  }

  /** The helper is told to select other nodes.  The webhook looks at none, admits it, and the node it left breaks. */
  lemma LeavingCanBreak(env: Env, sel: Selectors, nodes: seq<Node>)
    requires sel.parses("") && sel.parses(AWAY) && nodes != []
    requires forall n | n in nodes :: sel.matches("", n.labels) && !sel.matches(AWAY, n.labels)
    ensures var cluster := map[NEEDY_KEY := NEEDY, HELPER_KEY := Helper(false)];
            && Safe(env, sel, nodes, cluster) && Secretless(cluster) && NoSecrets(LEFT) && LEFT.name == HELPER_KEY.name
            && Listing(cluster, [NEEDY, Helper(false)]) && Admits(env.net, sel, nodes, [NEEDY, Helper(false)], LEFT)
            && !Safe(env, sel, nodes, cluster[HELPER_KEY := LEFT])
  {
    hide Convert, Matching, Others, Fits;
    var cluster := map[NEEDY_KEY := NEEDY, HELPER_KEY := Helper(false)];
    var after := cluster[HELPER_KEY := LEFT];
    HeldBy(cluster, NEEDY, Helper(false)); HeldBy(after, NEEDY, LEFT);
    forall n, now | n in nodes && Listing(cluster, now)
      ensures AllParse(sel, now) && Convert(env, Matching(sel, now, n.labels)).Ok?
    {
      NeedyAndHelper(env, Matching(sel, now, n.labels));
    }
    var n := nodes[0];
    var now := ListingExists(after);
    OnlyNeedy(env, Matching(sel, now, n.labels));
    assert !NodeSafe(env, sel, after, n.labels);
  }

  lemma HeldBy(cluster: Cluster, a: ApiConfig, b: ApiConfig)
    requires cluster.Keys == {NEEDY_KEY, HELPER_KEY} && cluster[NEEDY_KEY] == a && cluster[HELPER_KEY] == b
    ensures forall c :: InCluster(cluster, c) <==> c == a || c == b
  {
    assert NEEDY_KEY in cluster && HELPER_KEY in cluster;
  }

  // ---- a secret that is not there

  const SECRETIVE := Helper(false).(
    routers := [ApiRouter(1, "", "", [EvpnPeer(false).(passwordSecret := "s")], [], [], None)])

  lemma SecretiveCleared()
    ensures Cleared([SECRETIVE], [Helper(false)])
  {
    var n, m := SECRETIVE.routers[0].neighbors[0], Helper(false).routers[0].neighbors[0];
    assert NeighborButSecret(n, m);
    assert NeighborsButSecrets(SECRETIVE.routers[0].neighbors, Helper(false).routers[0].neighbors);
    assert RouterButSecrets(SECRETIVE.routers[0], Helper(false).routers[0]);
  }

  lemma SecretiveFails(env: Env, cs: seq<ApiConfig>)
    requires SECRETIVE in cs && "s" !in env.secrets
    ensures Convert(env, cs).Err?
  {
    hide Convert, AskedApart, NeedsMet;
    ConvertsExactly(env, cs);
    var r := SECRETIVE.routers[0];
    var n := r.neighbors[0];
    assert r in SECRETIVE.routers && n in r.neighbors && !ValidPassword(env, n);
    assert !ValidNeighbor(env, SECRETIVE, r, n);
  }

  /** The webhook does not look at secrets: it admits a reference that the controller cannot follow. */
  lemma SecretCanBreak(env: Env, sel: Selectors, nodes: seq<Node>)
    requires sel.parses("") && nodes != [] && "s" !in env.secrets && forall n | n in nodes :: sel.matches("", n.labels)
    ensures Listing(map[], []) && Admits(env.net, sel, nodes, [], SECRETIVE)
    ensures !Safe(env, sel, nodes, map[Key("a", "helper") := SECRETIVE])
  {
    hide Convert, Matching, Others, Admits;
    SecretiveCleared();
    AdmitsExactly(env, sel, nodes, [], [], SECRETIVE, Helper(false));
    forall n | n in nodes ensures Convert(env, Others(sel, [], Helper(false), n.labels) + [Helper(false)]).Ok? {
      HelpersConvert(env, Others(sel, [], Helper(false), n.labels) + [Helper(false)]);
    }
    var cluster: Cluster := map[Key("a", "helper") := SECRETIVE];
    assert Key("a", "helper") in cluster && InCluster(cluster, SECRETIVE);
    var now := ListingExists(cluster);
    SecretiveFails(env, Matching(sel, now, nodes[0].labels));
    assert !NodeSafe(env, sel, cluster, nodes[0].labels);
  }
}

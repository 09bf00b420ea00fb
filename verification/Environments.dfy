/**
 * The webhook converts with no blocked prefixes and no secrets, the controller with those of its
 * node.  For configurations that refer to no secret both succeed or both fail.
 */
module Environments {
  import opened Configs
  import opened Facts
  import opened Api
  import opened Translate
  import opened Conversion
  import opened FoldFacts
  import opened ConvertFacts

  predicate NoSecrets(c: ApiConfig) {
    forall r | r in c.routers :: forall n | n in r.neighbors :: n.passwordSecret == ""
  }

  function Block(n: Neighbor, blocked: seq<Filter>): (m: Neighbor) { n.(alwaysBlock := blocked) }

  /** The same neighbors but for the blocked prefixes. */
  ghost predicate SameNeighbors(a: seq<Neighbor>, b: seq<Neighbor>) {
    |a| == |b| && forall i | 0 <= i < |a| :: b[i] == Block(a[i], b[i].alwaysBlock)
  }

  ghost predicate SameRouter(a: Router, b: Router) {
    SameNeighbors(a.neighbors, b.neighbors) && b == a.(neighbors := b.neighbors)
  }

  ghost predicate SameRouters(a: seq<Router>, b: seq<Router>) {
    |a| == |b| && forall i | 0 <= i < |a| :: SameRouter(a[i], b[i])
  }

  lemma NeighborEnv(e: Env, d: Env, n: ApiNeighbor, inRouter: seq<string>, vrf: string, profiles: set<string>)
    requires e.net == d.net && n.passwordSecret == ""
    ensures var a, b := TranslateNeighbor(e, n, inRouter, vrf, profiles),
              TranslateNeighbor(d, n, inRouter, vrf, profiles);
            (a.Ok? <==> b.Ok?) && (a.Ok? ==> b.value == Block(a.value, d.alwaysBlock))
  {
    hide Outgoing, Incoming, NeighborFamily, ParseTimers, NeighborName, NeighborID, IdentityOk;
  }

  lemma {:induction false} NeighborsEnv(e: Env, d: Env, ns: seq<ApiNeighbor>, r: ApiRouter, inRouter: seq<string>,
                                        profiles: set<string>)
    requires e.net == d.net && forall n | n in ns :: n.passwordSecret == ""
    ensures var a, b := TranslateNeighbors(e, ns, r, inRouter, profiles),
              TranslateNeighbors(d, ns, r, inRouter, profiles);
            (a.Ok? <==> b.Ok?) && (a.Ok? ==> SameNeighbors(a.value, b.value))
  {
    hide TranslateNeighbor;
    if ns != [] {
      NeighborsEnv(e, d, ns[..|ns| - 1], r, inRouter, profiles);
      NeighborEnv(e, d, ns[|ns| - 1], inRouter, r.vrf, profiles);
    }
  }

  lemma RouterEnv(e: Env, d: Env, r: ApiRouter, byVRF: map<string, seq<string>>, profiles: set<string>)
    requires e.net == d.net && forall n | n in r.neighbors :: n.passwordSecret == ""
    ensures var a, b := RawRouter(e, r, byVRF, profiles), RawRouter(d, r, byVRF, profiles);
            (a.Ok? <==> b.Ok?) && (a.Ok? ==> SameRouter(a.value, b.value))
  {
    hide TranslateNeighbors, ValidOutgoing, ValidPrefixes, ValidImports, SameNeighbors;
    if ImportedPrefixes(r.imports, byVRF).Ok? {
      NeighborsEnv(e, d, r.neighbors, r, r.prefixes + ImportedPrefixes(r.imports, byVRF).value, profiles);
    }
  }

  lemma {:induction false} RoutersEnv(e: Env, d: Env, c: ApiConfig, rs: seq<ApiRouter>)
    requires e.net == d.net && forall r | r in rs :: forall n | n in r.neighbors :: n.passwordSecret == ""
    ensures var a, b := RawRouters(e, c, rs), RawRouters(d, c, rs);
            (a.Ok? <==> b.Ok?) && (a.Ok? ==> SameRouters(a.value, b.value))
  {
    hide RawRouter, SameRouter, PrefixesForVRFs, ProfileNames;
    if rs != [] {
      RoutersEnv(e, d, c, rs[..|rs| - 1]);
      RouterEnv(e, d, rs[|rs| - 1], PrefixesForVRFs(c.routers), ProfileNames(c.bfdProfiles));
    }
  }

  lemma PeerSaysSame(a: seq<Neighbor>, b: seq<Neighbor>, id: string, f: PeerFact)
    requires SameNeighbors(a, b)
    ensures PeerSays(a, id, f) <==> PeerSays(b, id, f)
  {
    forall i | 0 <= i < |a|
      ensures (ID(a[i]) == id && NeighborSays(a[i], f)) <==> (ID(b[i]) == id && NeighborSays(b[i], f))
    {
      assert b[i] == Block(a[i], b[i].alwaysBlock);
    }
    if n :| n in a && ID(n) == id && NeighborSays(n, f) { var i :| 0 <= i < |a| && a[i] == n; assert b[i] in b; }
    if n :| n in b && ID(n) == id && NeighborSays(n, f) { var i :| 0 <= i < |b| && b[i] == n; assert a[i] in a; }
  }

  lemma RouterSaysSame(a: Router, b: Router, f: RouterFact)
    requires SameRouter(a, b)
    ensures RouterSays(a, f) <==> RouterSays(b, f)
  {
    hide PeerSays, SameNeighbors;
    if f.Peer? { PeerSaysSame(a.neighbors, b.neighbors, f.id, f.peer); }
  }

  lemma SeenSaysSame(a: seq<Router>, b: seq<Router>, vrf: string, f: RouterFact)
    requires SameRouters(a, b)
    ensures SeenSays(a, vrf, f) <==> SeenSays(b, vrf, f)
  {
    hide RouterSays, SameNeighbors;
    forall i | 0 <= i < |a| ensures a[i].vrf == b[i].vrf && (RouterSays(a[i], f) <==> RouterSays(b[i], f)) {
      RouterSaysSame(a[i], b[i], f);
    }
    if r :| r in a && r.vrf == vrf && RouterSays(r, f) { var i :| 0 <= i < |a| && a[i] == r; assert b[i] in b; }
    if r :| r in b && r.vrf == vrf && RouterSays(r, f) { var i :| 0 <= i < |b| && b[i] == r; assert a[i] in a; }
  }

  lemma ConfigEnv(e: Env, d: Env, c: ApiConfig, f: Fact)
    requires e.net == d.net && NoSecrets(c)
    ensures TranslateConfig(e, c).Ok? <==> TranslateConfig(d, c).Ok?
    ensures ConfigSays(e, c, f) <==> ConfigSays(d, c, f)
  {
    hide RawRouters, SeenSays, SameRouters;
    RoutersEnv(e, d, c, c.routers);
    if TranslateConfig(e, c).Ok? && f.At? {
      SeenSaysSame(TranslateConfig(e, c).value, TranslateConfig(d, c).value, f.vrf, f.fact);
    }
  }

  ghost predicate SayAlike(e: Env, d: Env, c: ApiConfig) {
    (TranslateConfig(e, c).Ok? <==> TranslateConfig(d, c).Ok?) &&
      forall f :: ConfigSays(e, c, f) <==> ConfigSays(d, c, f)
  }

  lemma AlikeConverts(e: Env, d: Env, cs: seq<ApiConfig>)
    requires forall c | c in cs :: SayAlike(e, d, c)
    ensures Convert(e, cs).Ok? ==> Convert(d, cs).Ok?
  {
    hide Convert, ConfigSays, TranslateConfig, Conflict, Needs;
    ConversionTheorem(e, cs);
    ConversionTheorem(d, cs);
    if Convert(e, cs).Ok? {
      assert Consistent(d, cs) by {
        forall a, b | a in cs && b in cs ensures !Contradict(d, a, b) {
          assert !Contradict(e, a, b);
          assert SayAlike(e, d, a) && SayAlike(e, d, b);
        }
      }
      forall f ensures SaidBy(e, cs, f) <==> SaidBy(d, cs, f) {}
      assert Supplied(d, cs);
    }
  }

  /** Blocked prefixes never decide whether a conversion succeeds, nor do secrets nobody refers to. */
  lemma ConvertsInEveryEnvironment(e: Env, d: Env, cs: seq<ApiConfig>)
    requires e.net == d.net && forall c | c in cs :: NoSecrets(c)
    ensures Convert(e, cs).Ok? <==> Convert(d, cs).Ok?
  {
    hide Convert, ConfigSays, TranslateConfig, NoSecrets;
    forall c | c in cs ensures SayAlike(e, d, c) && SayAlike(d, e, c) {
      forall f
        ensures (TranslateConfig(e, c).Ok? <==> TranslateConfig(d, c).Ok?) &&
                  (ConfigSays(e, c, f) <==> ConfigSays(d, c, f))
      {
        ConfigEnv(e, d, c, f);
      }
      var any: Fact := At("", Asn(0));
      ConfigEnv(e, d, c, any);
    }
    AlikeConverts(e, d, cs);
    AlikeConverts(d, e, cs);
  }
}

/**
 * Reordering the routers of one configuration, as the conversion of a whole list sees it: what can
 * follow the order is what neighbors are told and graceful restart, and exactly when they do.
 */
module Reordering {
  import opened Configs
  import opened Facts
  import opened Api
  import opened Translate
  import opened Conversion
  import opened ConvertFacts
  import opened Requests
  import opened Origins
  import opened NormalForms
  import opened Restarts
  import opened OrderIndependence
  import opened Acceptance
  import opened RouterOrder

  // ---- the whole conversion

  /** The only kind of fact that can follow the order of the routers. */
  ghost predicate IsTold(f: Fact) { f.At? && f.fact.Peer? && f.fact.peer.Advertises? }

  /** Every neighbor is to be told the same. */
  ghost predicate AskedAlike(env: Env, cs: seq<ApiConfig>, ds: seq<ApiConfig>) {
    forall f | IsTold(f) :: AskedBy(env, cs, f) <==> AskedBy(env, ds, f)
  }

  lemma AsksElsewhere(env: Env, n: ApiNeighbor, all: iset<string>, now: iset<string>, f: PeerFact)
    requires !f.Advertises?
    ensures NeighborAsks(env, n, all, f) <==> NeighborAsks(env, n, now, f)
  {
    hide AsksSession, TagRequested, AsksFilter;
  }

  lemma AsksKept(env: Env, c: ApiConfig, d: ApiConfig, f: Fact)
    requires Reordered(c, d) && !IsTold(f)
    ensures ConfigAsks(env, c, f) <==> ConfigAsks(env, d, f)
  {
    hide NeighborAsks, MayAdvertise, EvpnSays, NeighborID, PrefixFamily;
    RoutersKept(c, d);
    if f.At? {
      forall r ensures RouterAsks(env, c, r, f.fact) <==> RouterAsks(env, d, r, f.fact) {
        if f.fact.Peer? {
          forall n, all, now
            ensures NeighborAsks(env, n, all, f.fact.peer) <==> NeighborAsks(env, n, now, f.fact.peer)
          {
            AsksElsewhere(env, n, all, now, f.fact.peer);
          }
        }
      }
    }
  }

  lemma {:induction false} RawsKept(cs: seq<ApiConfig>, ds: seq<ApiConfig>)
    requires |cs| == |ds| && forall i | 0 <= i < |cs| :: RawsOf(cs[i]) == RawsOf(ds[i])
    ensures AllRaws(cs) == AllRaws(ds)
  {
    hide RawsOf;
    if cs != [] { RawsKept(cs[..|cs| - 1], ds[..|ds| - 1]); }
  }

  /** `d` takes the place of a configuration of which it is a reordering. */
  ghost predicate Replaced(cs: seq<ApiConfig>, ds: seq<ApiConfig>, i: nat, d: ApiConfig) {
    i < |cs| && ds == cs[i := d] && Reordered(cs[i], d)
  }

  lemma ReplacedAsks(env: Env, cs: seq<ApiConfig>, ds: seq<ApiConfig>, i: nat, d: ApiConfig, f: Fact)
    requires Replaced(cs, ds, i, d) && !IsTold(f)
    ensures AskedBy(env, cs, f) <==> AskedBy(env, ds, f)
  {
    hide ConfigAsks, Reordered;
    AsksKept(env, cs[i], d, f);
    forall j | 0 <= j < |cs| ensures ConfigAsks(env, cs[j], f) <==> ConfigAsks(env, ds[j], f) {}
    if c :| c in cs && ConfigAsks(env, c, f) { var j :| 0 <= j < |cs| && cs[j] == c; assert ds[j] in ds; }
    if c :| c in ds && ConfigAsks(env, c, f) { var j :| 0 <= j < |ds| && ds[j] == c; assert cs[j] in cs; }
  }

  lemma ReplacedConfigured(cs: seq<ApiConfig>, ds: seq<ApiConfig>, i: nat, d: ApiConfig, vrf: string, n: ApiNeighbor)
    requires Replaced(cs, ds, i, d)
    ensures Configured(cs, vrf, n) <==> Configured(ds, vrf, n)
  {
    RoutersKept(cs[i], d);
    if c, r :| c in cs && r in c.routers && r.vrf == vrf && n in r.neighbors {
      var j :| 0 <= j < |cs| && cs[j] == c;
      assert ds[j] in ds && r in ds[j].routers;
    }
    if c, r :| c in ds && r in c.routers && r.vrf == vrf && n in r.neighbors {
      var j :| 0 <= j < |ds| && ds[j] == c;
      assert cs[j] in cs && r in cs[j].routers;
    }
  }

  lemma AskedIsSaid(env: Env, cs: seq<ApiConfig>, f: Fact)
    requires Translates(env, cs)
    ensures AskedBy(env, cs, f) <==> SaidBy(env, cs, f)
  {
    hide ConfigAsks, ConfigSays, TranslateConfig;
    forall c | c in cs ensures ConfigSays(env, c, f) <==> ConfigAsks(env, c, f) { ConfigExactly(env, c, f); }
  }

  lemma ReplacedSays(env: Env, cs: seq<ApiConfig>, ds: seq<ApiConfig>, i: nat, d: ApiConfig, f: Fact)
    requires Replaced(cs, ds, i, d) && Translates(env, cs) && Translates(env, ds) && !IsTold(f)
    ensures SaidBy(env, cs, f) <==> SaidBy(env, ds, f)
  {
    hide AskedBy, SaidBy, Translates, Replaced;
    AskedIsSaid(env, cs, f); AskedIsSaid(env, ds, f);
    ReplacedAsks(env, cs, ds, i, d, f);
  }

  /** What is told to neighbors contradicts nothing that their sessions do not contradict. */
  lemma ReplacedConflict(env: Env, cs: seq<ApiConfig>, ds: seq<ApiConfig>, i: nat, d: ApiConfig, f: Fact, g: Fact)
    requires Replaced(cs, ds, i, d) && Translates(env, cs) && Translates(env, ds) && NoneConflict(env, cs)
    requires SaidBy(env, ds, f) && SaidBy(env, ds, g)
    ensures !Conflict(f, g)
  {
    hide SaidBy, Translates, Replaced;
    if EvpnConflict(f, g) {
      var f' := EvpnWitness(env, ds, f);
      var g' := EvpnWitness(env, ds, g);
      ReplacedSays(env, cs, ds, i, d, f'); ReplacedSays(env, cs, ds, i, d, g');
    } else if Conflict(f, g) {
      ReplacedSays(env, cs, ds, i, d, f); ReplacedSays(env, cs, ds, i, d, g);
    }
  }

  lemma ReplacedSupplied(env: Env, cs: seq<ApiConfig>, ds: seq<ApiConfig>, i: nat, d: ApiConfig)
    requires Replaced(cs, ds, i, d) && Translates(env, cs) && Translates(env, ds) && Supplied(env, cs)
    ensures Supplied(env, ds)
  {
    hide SaidBy, Translates, Replaced;
    forall vrf, f | SaidBy(env, ds, At(vrf, f)) && Needs(f)
      ensures exists id :: SaidBy(env, ds, At(vrf, Peer(id, Activates(EVPN_FAMILY))))
    {
      ReplacedSays(env, cs, ds, i, d, At(vrf, f));
      var id :| SaidBy(env, cs, At(vrf, Peer(id, Activates(EVPN_FAMILY))));
      ReplacedSays(env, cs, ds, i, d, At(vrf, Peer(id, Activates(EVPN_FAMILY))));
    }
  }

  lemma ReplacedTranslates(env: Env, cs: seq<ApiConfig>, ds: seq<ApiConfig>, i: nat, d: ApiConfig)
    requires Replaced(cs, ds, i, d) && Translates(env, cs)
    ensures Translates(env, ds) <==> ValidConfig(env, d)
  {
    hide TranslateConfig, ValidConfig, Reordered;
    ConfigAccepted(env, d);
    assert ds[i] == d && d in ds;
    forall c | c in ds && c != d ensures c in cs { var j :| 0 <= j < |ds| && ds[j] == c; assert cs[j] == c; }
  }

  /** The conversion goes on succeeding if and only if the configuration is still valid. */
  lemma ReplacedConverts(env: Env, cs: seq<ApiConfig>, ds: seq<ApiConfig>, i: nat, d: ApiConfig)
    requires Replaced(cs, ds, i, d) && Convert(env, cs).Ok?
    ensures Convert(env, ds).Ok? <==> ValidConfig(env, d)
    ensures Translates(env, cs) && (ValidConfig(env, d) ==> Translates(env, ds))
  {
    hide Convert, Consistent, Supplied, SaidBy, Translates, ValidConfig, Replaced, Conflict;
    ConversionTheorem(env, cs); ConversionTheorem(env, ds);
    ConsistentSays(env, cs); ConsistentSays(env, ds);
    ReplacedTranslates(env, cs, ds, i, d);
    if ValidConfig(env, d) {
      forall f, g | SaidBy(env, ds, f) && SaidBy(env, ds, g) ensures !Conflict(f, g) {
        ReplacedConflict(env, cs, ds, i, d, f, g);
      }
      ReplacedSupplied(env, cs, ds, i, d);
    }
  }

  lemma AskedAlikeRequests(env: Env, cs: seq<ApiConfig>, ds: seq<ApiConfig>, i: nat, d: ApiConfig)
    requires Replaced(cs, ds, i, d) && Translates(env, cs) && Translates(env, ds) && AskedAlike(env, cs, ds)
    ensures SameRequests(env, cs, ds)
  {
    hide SaidBy, AskedBy, Translates, Replaced, Configured;
    forall f | !AcceptFact(f) ensures SaidBy(env, cs, f) <==> SaidBy(env, ds, f) {
      AskedIsSaid(env, cs, f); AskedIsSaid(env, ds, f);
      if !IsTold(f) { ReplacedAsks(env, cs, ds, i, d, f); }
    }
    forall vrf, n ensures Configured(cs, vrf, n) <==> Configured(ds, vrf, n) {
      ReplacedConfigured(cs, ds, i, d, vrf, n);
    }
  }

  // ---- what a result says does not include graceful restart

  lemma ScrubSays(n: Neighbor, f: PeerFact)
    ensures NeighborSays(Scrub(n), f) <==> NeighborSays(n, f)
  {}

  lemma ScrubRouterSays(r: Router, f: RouterFact)
    ensures RouterSays(ScrubRouter(r), f) <==> RouterSays(r, f)
  {
    hide NeighborSays, Scrub, ID;
    if f.Peer? {
      var ns, ms := r.neighbors, ScrubAll(r.neighbors);
      forall i | 0 <= i < |ns|
        ensures ID(ms[i]) == ID(ns[i]) && (NeighborSays(ms[i], f.peer) <==> NeighborSays(ns[i], f.peer))
      {
        ScrubKeepsID(ns[i]); ScrubSays(ns[i], f.peer);
      }
      if n :| n in ns && ID(n) == f.id && NeighborSays(n, f.peer) {
        var i :| 0 <= i < |ns| && ns[i] == n;
        assert ms[i] in ms;
      }
      if n :| n in ms && ID(n) == f.id && NeighborSays(n, f.peer) {
        var i :| 0 <= i < |ms| && ms[i] == n;
        assert ns[i] in ns;
      }
    }
  }

  lemma ScrubConfigSays(c: FrrConfig, f: Fact)
    ensures ResultSays(ScrubConfig(c), f) <==> ResultSays(c, f)
  {
    hide RouterSays, ScrubRouter;
    if f.At? {
      var rs, ts := c.routers, ScrubRouters(c.routers);
      forall i | 0 <= i < |rs|
        ensures ts[i].vrf == rs[i].vrf && (RouterSays(ts[i], f.fact) <==> RouterSays(rs[i], f.fact))
      {
        ScrubRouterSays(rs[i], f.fact);
        ScrubKeepsVrf(rs[i]);
      }
      if r :| r in rs && r.vrf == f.vrf && RouterSays(r, f.fact) {
        var i :| 0 <= i < |rs| && rs[i] == r;
        assert ts[i] in ts;
      }
      if r :| r in ts && r.vrf == f.vrf && RouterSays(r, f.fact) {
        var i :| 0 <= i < |ts| && ts[i] == r;
        assert rs[i] in rs;
      }
    }
  }

  lemma ScrubKeepsVrf(r: Router)
    ensures ScrubRouter(r).vrf == r.vrf
  {}

  lemma ScrubbedTold(env: Env, cs: seq<ApiConfig>, ds: seq<ApiConfig>)
    requires Convert(env, cs).Ok? && Convert(env, ds).Ok?
    requires ScrubConfig(Convert(env, cs).value) == ScrubConfig(Convert(env, ds).value)
    ensures AskedAlike(env, cs, ds)
  {
    hide Convert, ScrubConfig, ResultSays, AskedBy;
    forall f | IsTold(f) ensures AskedBy(env, cs, f) <==> AskedBy(env, ds, f) {
      ScrubConfigSays(Convert(env, cs).value, f); ScrubConfigSays(Convert(env, ds).value, f);
      ResultIsRequested(env, cs, f); ResultIsRequested(env, ds, f);
    }
  }

  // ---- the theorem

  /**
   * Reordering the routers of one configuration of a list that converts.  It goes on converting if and
   * only if that configuration is still valid.  Then nothing changes but what neighbors are told and
   * graceful restart; the former is the same if and only if it is asked for alike, and the result is the
   * same if and only if moreover graceful restart is read alike.
   */
  lemma ReorderedExactly(env: Env, cs: seq<ApiConfig>, i: nat, d: ApiConfig)
    requires i < |cs| && Reordered(cs[i], d) && Convert(env, cs).Ok?
    ensures Convert(env, cs[i := d]).Ok? <==> ValidConfig(env, d)
    ensures ValidConfig(env, d) ==>
              forall f | !AcceptFact(f) && !IsTold(f) ::
                ResultSays(Convert(env, cs[i := d]).value, f) <==> ResultSays(Convert(env, cs).value, f)
    ensures ValidConfig(env, d) && KindsAgree(cs) && SelectorsAgree(env.net, cs) ==>
              (ScrubConfig(Convert(env, cs).value) == ScrubConfig(Convert(env, cs[i := d]).value) <==>
                 AskedAlike(env, cs, cs[i := d]))
    ensures ValidConfig(env, d) && KindsAgree(cs) && SelectorsAgree(env.net, cs) ==>
              (Convert(env, cs) == Convert(env, cs[i := d]) <==>
                 AskedAlike(env, cs, cs[i := d]) && ReadAlike(cs, cs[i := d]))
  {
    hide Convert, ValidConfig, KindsAgree, SelectorsAgree, ScrubConfig, AskedAlike, ReadAlike, ResultSays, SaidBy,
         JoinRaws, AllRaws, Translates, AcceptFact, IsTold, SameRequests;
    var ds := cs[i := d];
    assert Replaced(cs, ds, i, d);
    ReplacedConverts(env, cs, ds, i, d);
    if ValidConfig(env, d) {
      forall f | !AcceptFact(f) && !IsTold(f)
        ensures ResultSays(Convert(env, ds).value, f) <==> ResultSays(Convert(env, cs).value, f)
      {
        ResultTheorem(env, cs, f); ResultTheorem(env, ds, f);
        ReplacedSays(env, cs, ds, i, d, f);
      }
      if ScrubConfig(Convert(env, cs).value) == ScrubConfig(Convert(env, ds).value) { ScrubbedTold(env, cs, ds); }
      if AskedAlike(env, cs, ds) && KindsAgree(cs) && SelectorsAgree(env.net, cs) {
        AskedAlikeRequests(env, cs, ds, i, d);
        RawsKept(cs, ds);
        SameRequestsSameResult(env, cs, ds);
      }
    }
  }

  /** In particular when no neighbor notices: then graceful restart alone can follow the order. */
  lemma UnmovedConverts(env: Env, cs: seq<ApiConfig>, i: nat, d: ApiConfig)
    requires i < |cs| && Reordered(cs[i], d) && Convert(env, cs).Ok?
    requires forall r, n | r in cs[i].routers && n in r.neighbors :: Unmoved(env, cs[i], d, r, n)
    ensures Convert(env, cs[i := d]).Ok?
    ensures forall f | !AcceptFact(f) ::
              ResultSays(Convert(env, cs[i := d]).value, f) <==> ResultSays(Convert(env, cs).value, f)
    ensures KindsAgree(cs) && SelectorsAgree(env.net, cs) ==>
              ScrubConfig(Convert(env, cs).value) == ScrubConfig(Convert(env, cs[i := d]).value)
    ensures KindsAgree(cs) && SelectorsAgree(env.net, cs) ==>
              (Convert(env, cs) == Convert(env, cs[i := d]) <==> ReadAlike(cs, cs[i := d]))
  {
    hide Convert, ValidConfig, KindsAgree, SelectorsAgree, ScrubConfig, ReadAlike, ResultSays, Unmoved, Reordered,
         Translates, AcceptFact, AskedBy;
    var ds := cs[i := d];
    ConversionTheorem(env, cs); ConsistentSays(env, cs);
    UnmovedKeeps(env, cs, i, d);
    ReorderedExactly(env, cs, i, d);
    forall f | !AcceptFact(f) ensures ResultSays(Convert(env, ds).value, f) <==> ResultSays(Convert(env, cs).value, f) {
      ResultIsRequested(env, cs, f); ResultIsRequested(env, ds, f);
    }
  }

  lemma UnmovedKeeps(env: Env, cs: seq<ApiConfig>, i: nat, d: ApiConfig)
    requires i < |cs| && Reordered(cs[i], d) && Translates(env, cs)
    requires forall r, n | r in cs[i].routers && n in r.neighbors :: Unmoved(env, cs[i], d, r, n)
    ensures ValidConfig(env, d) && forall f :: AskedBy(env, cs, f) <==> AskedBy(env, cs[i := d], f)
  {
    hide ValidConfig, TranslateConfig, TranslationIn, Unmoved, RouterSays, Reordered, ConfigSays;
    var c, ds := cs[i], cs[i := d];
    assert c in cs;
    ReorderExactly(env, c, d);
    SameTranslations(env, c, d);
    ConfigAccepted(env, d);
    assert Translates(env, ds) by { ReplacedTranslates(env, cs, ds, i, d); }
    forall f ensures AskedBy(env, cs, f) <==> AskedBy(env, ds, f) {
      AskedIsSaid(env, cs, f); AskedIsSaid(env, ds, f);
      if x :| x in cs && ConfigSays(env, x, f) {
        var j :| 0 <= j < |cs| && cs[j] == x;
        assert ds[j] in ds && ConfigSays(env, ds[j], f);
      }
      if x :| x in ds && ConfigSays(env, x, f) {
        var j :| 0 <= j < |ds| && ds[j] == x;
        assert cs[j] in cs && ConfigSays(env, cs[j], f);
      }
    }
  }

  lemma SameTranslations(env: Env, c: ApiConfig, d: ApiConfig)
    requires Reordered(c, d) && TranslateConfig(env, c).Ok?
    requires forall r | r in c.routers :: TranslationIn(env, d, r) == TranslationIn(env, c, r)
    ensures TranslateConfig(env, d).Ok?
    ensures forall f :: ConfigSays(env, c, f) <==> ConfigSays(env, d, f)
  {
    hide RawRouter, RawRouters, PrefixesForVRFs, ProfileNames, RouterSays;
    RoutersKept(c, d);
    RoutersAccept(env, c, c.routers); RoutersAccept(env, d, d.routers);
    assert TranslateConfig(env, d).Ok? by {
      forall r | r in d.routers ensures TranslationIn(env, d, r).Ok? { assert TranslationIn(env, c, r).Ok?; }
    }
    var ts, us := TranslateConfig(env, c).value, TranslateConfig(env, d).value;
    forall t ensures t in ts <==> t in us { TranslatedMember(env, c, t); TranslatedMember(env, d, t); }
  }

  lemma TranslatedMember(env: Env, c: ApiConfig, t: Router)
    requires TranslateConfig(env, c).Ok?
    ensures t in TranslateConfig(env, c).value <==> exists r :: r in c.routers && TranslationIn(env, c, r) == Ok(t)
  {
    hide RawRouter, RawRouters, PrefixesForVRFs, ProfileNames;
    RawRoutersFacts(env, c, c.routers);
    var ts := TranslateConfig(env, c).value;
    if t in ts { var i :| 0 <= i < |ts| && ts[i] == t; assert c.routers[i] in c.routers; }
    if r :| r in c.routers && TranslationIn(env, c, r) == Ok(t) {
      var i :| 0 <= i < |c.routers| && c.routers[i] == r;
      assert ts[i] == t;
    }
  }

  /**
   * If the last router of each VRF provides the same prefixes, a list converts in either order or in
   * none, and again graceful restart alone can follow the order.
   */
  lemma ReorderedConverts(env: Env, cs: seq<ApiConfig>, i: nat, d: ApiConfig)
    requires i < |cs| && Reordered(cs[i], d) && SameProvided(cs[i], d)
    ensures Convert(env, cs[i := d]).Ok? <==> Convert(env, cs).Ok?
    ensures Convert(env, cs).Ok? ==>
              forall f | !AcceptFact(f) ::
                ResultSays(Convert(env, cs[i := d]).value, f) <==> ResultSays(Convert(env, cs).value, f)
    ensures Convert(env, cs).Ok? && KindsAgree(cs) && SelectorsAgree(env.net, cs) ==>
              (Convert(env, cs) == Convert(env, cs[i := d]) <==> ReadAlike(cs, cs[i := d]))
  {
    hide Convert, ValidConfig, ConfigAsks, Reordered, SameProvided, Conflict, Needs, AcceptFact, ResultSays, KindsAgree,
         SelectorsAgree, ReadAlike, ScrubConfig, AskedBy;
    var ds := cs[i := d];
    SameProvidedSame(env, cs[i], d);
    ReplacedAlike(env, cs, ds);
    ConvertsExactly(env, cs);
    ConvertsExactly(env, ds);
    if Convert(env, cs).Ok? {
      assert d in ds by { assert ds[i] == d; }
      ReorderedExactly(env, cs, i, d);
      forall f | !AcceptFact(f)
        ensures ResultSays(Convert(env, ds).value, f) <==> ResultSays(Convert(env, cs).value, f)
      {
        ResultIsRequested(env, cs, f);
        ResultIsRequested(env, ds, f);
      }
    }
  }

  lemma ReplacedAlike(env: Env, cs: seq<ApiConfig>, ds: seq<ApiConfig>)
    requires |cs| == |ds|
    requires forall i | 0 <= i < |cs| :: ValidConfig(env, cs[i]) <==> ValidConfig(env, ds[i])
    requires forall i | 0 <= i < |cs| :: forall f :: ConfigAsks(env, cs[i], f) <==> ConfigAsks(env, ds[i], f)
    ensures (forall c | c in cs :: ValidConfig(env, c)) <==> (forall c | c in ds :: ValidConfig(env, c))
    ensures (forall a, b | a in cs && b in cs :: !AskedApart(env, a, b)) <==>
              (forall a, b | a in ds && b in ds :: !AskedApart(env, a, b))
    ensures forall f :: AskedBy(env, cs, f) <==> AskedBy(env, ds, f)
  {
    hide ValidConfig, ConfigAsks, Conflict;
    forall i, j | 0 <= i < |cs| && 0 <= j < |cs|
      ensures AskedApart(env, cs[i], cs[j]) <==> AskedApart(env, ds[i], ds[j]) {}
    ReplacedOneWay(env, cs, ds);
    ReplacedOneWay(env, ds, cs);
  }

  lemma ReplacedOneWay(env: Env, cs: seq<ApiConfig>, ds: seq<ApiConfig>)
    requires |cs| == |ds|
    requires forall i | 0 <= i < |cs| :: ValidConfig(env, cs[i]) <==> ValidConfig(env, ds[i])
    requires forall i | 0 <= i < |cs| :: forall f :: ConfigAsks(env, cs[i], f) <==> ConfigAsks(env, ds[i], f)
    requires forall i, j | 0 <= i < |cs| && 0 <= j < |cs| :: AskedApart(env, cs[i], cs[j]) <==>
              AskedApart(env, ds[i], ds[j])
    ensures (forall c | c in cs :: ValidConfig(env, c)) ==> (forall c | c in ds :: ValidConfig(env, c))
    ensures (forall a, b | a in cs && b in cs :: !AskedApart(env, a, b)) ==>
              (forall a, b | a in ds && b in ds :: !AskedApart(env, a, b))
    ensures forall f :: AskedBy(env, cs, f) ==> AskedBy(env, ds, f)
  {
    hide ValidConfig, ConfigAsks, Conflict, AskedApart;
    forall d | d in ds && forall c | c in cs :: ValidConfig(env, c) ensures ValidConfig(env, d) {
      var i :| 0 <= i < |ds| && ds[i] == d;
      assert cs[i] in cs;
    }
    forall a, b | a in ds && b in ds && forall x, y | x in cs && y in cs :: !AskedApart(env, x, y)
      ensures !AskedApart(env, a, b)
    {
      var i :| 0 <= i < |ds| && ds[i] == a;
      var j :| 0 <= j < |ds| && ds[j] == b;
      assert cs[i] in cs && cs[j] in cs;
    }
    forall f | AskedBy(env, cs, f) ensures AskedBy(env, ds, f) {
      var c :| c in cs && ConfigAsks(env, c, f);
      var i :| 0 <= i < |cs| && cs[i] == c;
      assert ds[i] in ds;
    }
  }
}

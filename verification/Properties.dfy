/** What the conversion promises of any list of configurations. */
module Properties {
  import opened Ordering
  import opened Configs
  import opened Merge
  import opened Facts
  import opened MergeFacts
  import opened NeighborFacts
  import opened EvpnFacts
  import opened RouterFacts
  import opened Api
  import opened Translate
  import opened TranslateFacts
  import opened Conversion
  import opened FoldFacts
  import opened ConvertFacts
  import opened NormalForms
  import opened Normalising

  // ---- conflicts are pairwise

  lemma ConsistentPairs(env: Env, cs: seq<ApiConfig>)
    ensures Consistent(env, cs) <==>
            && (forall c | c in cs :: Consistent(env, [c]))
            && (forall i, j | 0 <= i < j < |cs| :: Consistent(env, [cs[i], cs[j]]))
  {
    hide TranslateConfig, Contradict;
    if (forall c | c in cs :: Consistent(env, [c])) &&
        (forall i, j | 0 <= i < j < |cs| :: Consistent(env, [cs[i], cs[j]])) {
      forall c | c in cs ensures TranslateConfig(env, c).Ok? { assert c in [c]; }
      forall a, b | a in cs && b in cs ensures !Contradict(env, a, b) {
        var i :| 0 <= i < |cs| && cs[i] == a;
        var j :| 0 <= j < |cs| && cs[j] == b;
        if i < j { assert a in [cs[i], cs[j]] && b in [cs[i], cs[j]]; }
        else if j < i { assert a in [cs[j], cs[i]] && b in [cs[j], cs[i]]; }
        else { assert a in [a]; }
      }
    }
  }

  /**
   * Conversions fail because of one configuration, or because of two: the whole list is
   * undisputed exactly when each configuration is on its own and every two are together.
   */
  lemma PairwiseTheorem(env: Env, cs: seq<ApiConfig>)
    ensures Undisputed(env, cs) <==>
            && (forall c | c in cs :: Undisputed(env, [c]))
            && (forall i, j | 0 <= i < j < |cs| :: Undisputed(env, [cs[i], cs[j]]))
  {
    hide Undisputed, Consistent;
    UndisputedTheorem(env, cs);
    forall c | c in cs ensures Undisputed(env, [c]) <==> Consistent(env, [c]) { UndisputedTheorem(env, [c]); }
    forall i, j | 0 <= i < j < |cs| ensures Undisputed(env, [cs[i], cs[j]]) <==> Consistent(env, [cs[i], cs[j]]) {
      UndisputedTheorem(env, [cs[i], cs[j]]);
    }
    ConsistentPairs(env, cs);
  }

  /** No EVPN feature of the configuration needs an EVPN neighbor. */
  predicate NeedsNothing(c: ApiConfig) {
    forall r | r in c.routers :: r.evpn.Some? ==> !NeedsNeighbor(r.evpn.value)
  }

  lemma NothingNeeded(env: Env, c: ApiConfig, vrf: string, f: RouterFact)
    requires NeedsNothing(c) && ConfigSays(env, c, At(vrf, f))
    ensures !Needs(f)
  {
    hide TranslateConfig, RouterSays, NeedsNeighbor;
    var r :| r in TranslateConfig(env, c).value && r.vrf == vrf && RouterSays(r, f);
    TranslatedWf(env, c, r);
    var i :| 0 <= i < |c.routers| && SoundRouter(env.net, r, c.routers[i], PrefixesForVRFs(c.routers),
                                                 ProfileNames(c.bfdProfiles));
    assert c.routers[i] in c.routers;
    NeedsSays(r);
  }

  lemma SuppliedByNeedingNothing(env: Env, cs: seq<ApiConfig>)
    requires forall c | c in cs :: NeedsNothing(c)
    ensures Supplied(env, cs)
  {
    hide ConfigSays, NeedsNothing;
    forall vrf, f | SaidBy(env, cs, At(vrf, f)) ensures !Needs(f) {
      var c :| c in cs && ConfigSays(env, c, At(vrf, f));
      NothingNeeded(env, c, vrf, f);
    }
  }

  lemma ConvertsIffUndisputed(env: Env, cs: seq<ApiConfig>)
    requires forall c | c in cs :: NeedsNothing(c)
    ensures Convert(env, cs).Ok? <==> Undisputed(env, cs)
  {
    hide Undisputed, Convert, Supplied, Consistent, NeedsNothing;
    UndisputedTheorem(env, cs);
    ConversionTheorem(env, cs);
    SuppliedByNeedingNothing(env, cs);
  }

  /** `apiToFRR` itself: a list converts exactly when every two of its configurations convert. */
  lemma PairwiseConversion(env: Env, cs: seq<ApiConfig>)
    requires forall c | c in cs :: NeedsNothing(c)
    ensures Convert(env, cs).Ok? <==>
            && (forall c | c in cs :: Convert(env, [c]).Ok?)
            && (forall i, j | 0 <= i < j < |cs| :: Convert(env, [cs[i], cs[j]]).Ok?)
  {
    hide Undisputed, Convert, NeedsNothing;
    ConvertsIffUndisputed(env, cs);
    PairwiseTheorem(env, cs);
    forall c | c in cs ensures Convert(env, [c]).Ok? <==> Undisputed(env, [c]) { ConvertsIffUndisputed(env, [c]); }
    forall i, j | 0 <= i < j < |cs| ensures Convert(env, [cs[i], cs[j]]).Ok? <==> Undisputed(env, [cs[i], cs[j]]) {
      ConvertsIffUndisputed(env, [cs[i], cs[j]]);
    }
  }

  /** In general the only thing pairs do not decide is whether needed EVPN neighbors are supplied. */
  lemma PairwiseUpToNeeds(env: Env, cs: seq<ApiConfig>)
    ensures Convert(env, cs).Ok? <==>
            && Supplied(env, cs)
            && (forall c | c in cs :: Undisputed(env, [c]))
            && (forall i, j | 0 <= i < j < |cs| :: Undisputed(env, [cs[i], cs[j]]))
  {
    hide Undisputed, Convert, Supplied, Consistent;
    UndisputedTheorem(env, cs);
    ConversionTheorem(env, cs);
    PairwiseTheorem(env, cs);
  }

  /** Pairwise although compatibility is not transitive: a router without an ID fits both neighbors. */
  lemma CompatibilityIsNotTransitive()
    ensures exists a, b, c :: RoutersCompatible(a, b) && RoutersCompatible(b, c) && !RoutersCompatible(a, c)
  {
    var b := Router(1, "", [], "", [], [], [], None);
    var a, c := b.(id := "10.0.0.1"), b.(id := "10.0.0.2");
    assert RoutersCompatible(a, b) && RoutersCompatible(b, c) && !RoutersCompatible(a, c);
  }

  // ---- subsets and supersets

  /** Dropping configurations never creates a dispute. */
  lemma UndisputedSubset(env: Env, cs: seq<ApiConfig>, ds: seq<ApiConfig>)
    requires Undisputed(env, ds) && forall c | c in cs :: c in ds
    ensures Undisputed(env, cs)
  {
    hide Undisputed, TranslateConfig, Contradict;
    UndisputedTheorem(env, cs);
    UndisputedTheorem(env, ds);
  }

  lemma SaidByMore(env: Env, cs: seq<ApiConfig>, ds: seq<ApiConfig>, f: Fact)
    requires SaidBy(env, cs, f) && forall c | c in cs :: c in ds
    ensures SaidBy(env, ds, f)
  {
    hide ConfigSays;
  }

  /**
   * Merging only extends: whatever the result for some configurations says, the result for more
   * configurations says too.  Filters are treated by `AcceptanceExtends`.
   */
  lemma OnlyExtends(env: Env, cs: seq<ApiConfig>, ds: seq<ApiConfig>, f: Fact)
    requires forall c | c in cs :: c in ds
    requires Convert(env, cs).Ok? && Convert(env, ds).Ok?
    requires !AcceptFact(f) && ResultSays(Convert(env, cs).value, f)
    ensures ResultSays(Convert(env, ds).value, f)
  {
    hide Convert, ResultSays, SaidBy;
    ResultTheorem(env, cs, f);
    ResultTheorem(env, ds, f);
    SaidByMore(env, cs, ds, f);
  }

  // ---- filters and first-listed fields of the result

  /** Every router of the result stands for the translated routers of its VRF. */
  lemma ResultStands(env: Env, cs: seq<ApiConfig>, r: Router)
    requires Convert(env, cs).Ok? && r in Convert(env, cs).value.routers
    ensures Translates(env, cs) && RouterStands(r, TranslateAll(env, cs), r.vrf)
  {
    hide TranslateConfig, TranslateAll, Convert, Fold, RouterStands, ValidEvpn, NormalMap, AllProfiles, AllRaws;
    ResultParts(env, cs);
    var m := Fold(env, cs).value.routers;
    var k :| k in m && m[k] == r;
    assert RouterStands(m[k], TranslateAll(env, cs), k);
    StandsAt(m[k], TranslateAll(env, cs), k);
  }

  lemma StandsAt(m: Router, seen: seq<Router>, vrf: string)
    requires RouterStands(m, seen, vrf)
    ensures m.vrf == vrf && NormalRouter(m) && FiltersStand(m.neighbors, seen, vrf)
    ensures forall f | !IsAccept(f) :: RouterSays(m, f) <==> SeenSays(seen, vrf, f)
  {}

  /** The two lists say and list the same about the VRF. */
  ghost predicate SameSeen(a: seq<Router>, b: seq<Router>, vrf: string) {
    && (forall f | !IsAccept(f) :: SeenSays(a, vrf, f) <==> SeenSays(b, vrf, f))
    && (forall id, v6, x :: SeenLists(a, vrf, id, v6, x) <==> SeenLists(b, vrf, id, v6, x))
  }

  /** Two routers that stand for lists that say and list the same say the same. */
  lemma StandForSame(r: Router, t: Router, a: seq<Router>, b: seq<Router>, vrf: string)
    requires RouterStands(r, a, vrf) && RouterStands(t, b, vrf) && SameSeen(a, b, vrf)
    requires forall id | !SeenSays(a, vrf, Peer(id, AcceptsAll)) :: SeenAgree(a, vrf, id)
    ensures SameSaid(r, t)
  {
    hide RouterSays, NormalRouter, SeenFrom, ListsFilter, PeerSays, FilterKey, SeenSays, SeenLists;
    forall id | !SeenSays(b, vrf, Peer(id, AcceptsAll)) ensures SeenAgree(b, vrf, id) {
      assert !IsAccept(Peer(id, AcceptsAll));
      assert SeenAgree(a, vrf, id);
    }
    forall id, v6, x ensures ListsFilter(r.neighbors, id, v6, x) <==> ListsFilter(t.neighbors, id, v6, x) {
      if ListsFilter(r.neighbors, id, v6, x) { ListedInBoth(r, t, b, vrf, id, v6, x); }
      if ListsFilter(t.neighbors, id, v6, x) { ListedInBoth(t, r, a, vrf, id, v6, x); }
    }
  }

  lemma ListedInBoth(r: Router, t: Router, seen: seq<Router>, vrf: string, id: string, v6: bool, x: Filter)
    requires NormalRouter(r) && RouterStands(t, seen, vrf)
    requires forall id | !SeenSays(seen, vrf, Peer(id, AcceptsAll)) :: SeenAgree(seen, vrf, id)
    requires forall f | !IsAccept(f) :: RouterSays(r, f) <==> RouterSays(t, f)
    requires ListsFilter(r.neighbors, id, v6, x) && SeenLists(seen, vrf, id, v6, x)
    ensures ListsFilter(t.neighbors, id, v6, x)
  {
    hide RouterSays, SeenFrom, ListsFilter, PeerSays, FilterKey, SeenAgree, SeenLists, SeenSays, WfNeighbor,
         NormalNeighbor, NameSorted, ID, NormalEvpn, StrSorted;
    ListingIsNotAll(r.neighbors, id, v6, x);
    assert !IsAccept(Peer(id, AcceptsAll));
    PeerAsRouter(r, id, AcceptsAll); PeerAsRouter(t, id, AcceptsAll);
  }
}

/**
 * The order of the routers inside one configuration.  The last router of a VRF provides the prefixes
 * that others import, so the order can matter: where it does, and where it does not.
 */
module RouterOrder {
  import opened Ordering
  import opened Configs
  import opened Facts
  import opened Api
  import opened Translate
  import opened TranslateFacts
  import opened Requests
  import opened Acceptance

  /** The same configuration with its routers in another order. */
  ghost predicate Reordered(c: ApiConfig, d: ApiConfig) {
    d == c.(routers := d.routers) && multiset(c.routers) == multiset(d.routers)
  }

  lemma RoutersKept(c: ApiConfig, d: ApiConfig)
    requires Reordered(c, d)
    ensures forall r :: r in c.routers <==> r in d.routers
  {
    forall r ensures r in c.routers <==> r in d.routers {
      assert r in c.routers <==> r in multiset(c.routers);
      assert r in d.routers <==> r in multiset(d.routers);
    }
  }

  /** A router as it is translated in its configuration. */
  ghost function TranslationIn(env: Env, c: ApiConfig, r: ApiRouter): Result<Router> {
    RawRouter(env, r, PrefixesForVRFs(c.routers), ProfileNames(c.bfdProfiles))
  }

  /**
   * The neighbor does not notice the new order: one that is told everything is told the same, and one
   * with a list of prefixes may still be told all of them.
   */
  ghost predicate Unmoved(env: Env, c: ApiConfig, d: ApiConfig, r: ApiRouter, n: ApiNeighbor) {
    if n.toAdvertise.mode == ALLOW_ALL
    then forall p | FitsNeighbor(env.net, n, p) :: MayAdvertise(c, r, p) <==> MayAdvertise(d, r, p)
    else forall p | p in n.toAdvertise.prefixes :: MayAdvertise(d, r, p)
  }

  // ---- a neighbor

  lemma OutgoingSame(net: Net, id: string, family: Family, a: Advertise, xs: seq<string>, ys: seq<string>)
    requires family != Unknown
    requires HasFamily(family, IPv4) ==> PrefixesToAdvertise(net, a, xs, IPv4) == PrefixesToAdvertise(net, a, ys, IPv4)
    requires HasFamily(family, IPv6) ==> PrefixesToAdvertise(net, a, xs, IPv6) == PrefixesToAdvertise(net, a, ys, IPv6)
    ensures Outgoing(net, id, family, a, xs) == Outgoing(net, id, family, a, ys)
  {
    hide PrefixesToAdvertise, BuildLists, SortByName, SortStrings, CommunityEntries, PrefEntries, NextHops;
  }

  lemma ToldSame(net: Net, a: Advertise, xs: seq<string>, ys: seq<string>, v6: bool)
    requires a.mode == ALLOW_ALL ==> forall p | PrefixFamily(net, p) == Some(v6) :: p in xs <==> p in ys
    ensures PrefixesToAdvertise(net, a, xs, FamilyOf(v6)) == PrefixesToAdvertise(net, a, ys, FamilyOf(v6))
  {
    hide PrefixesToAdvertise, PrefixFamily;
    forall p
      ensures p in PrefixesToAdvertise(net, a, xs, FamilyOf(v6)) <==> p in PrefixesToAdvertise(net, a, ys, FamilyOf(v6))
    {
      AdvertisedExactly(net, a, xs, v6, p);
      AdvertisedExactly(net, a, ys, v6, p);
    }
  }

  lemma NeighborSame(env: Env, n: ApiNeighbor, xs: seq<string>, ys: seq<string>, vrf: string, profiles: set<string>)
    requires (n.address == "") != (n.iface == "")
    requires n.toAdvertise.mode == ALLOW_ALL ==> forall p | FitsNeighbor(env.net, n, p) :: p in xs <==> p in ys
    ensures TranslateNeighbor(env, n, xs, vrf, profiles) == TranslateNeighbor(env, n, ys, vrf, profiles)
  {
    hide Outgoing, PrefixesToAdvertise, Incoming, NeighborName, NeighborID, ParseTimers, PasswordFor, NeighborFamily,
         HasFamily;
    if NeighborFamily(env.net, n).Ok? {
      var family, id := NeighborFamily(env.net, n).value, NeighborID(n.address, n.iface, vrf);
      forall v6 | HasFamily(family, FamilyOf(v6))
        ensures PrefixesToAdvertise(env.net, n.toAdvertise, xs, FamilyOf(v6)) ==
                  PrefixesToAdvertise(env.net, n.toAdvertise, ys, FamilyOf(v6))
      {
        FamilySpoken(env.net, n, v6);
        ToldSame(env.net, n.toAdvertise, xs, ys, v6);
      }
      FamilySpoken(env.net, n, true);
      assert FamilyOf(false) == IPv4 && FamilyOf(true) == IPv6;
      OutgoingSame(env.net, id, family, n.toAdvertise, xs, ys);
    }
  }

  lemma {:induction false} NeighborsSame(env: Env, ns: seq<ApiNeighbor>, r: ApiRouter, xs: seq<string>, ys: seq<string>,
                                         profiles: set<string>)
    requires forall n | n in ns :: TranslateNeighbor(env, n, xs, r.vrf, profiles) ==
              TranslateNeighbor(env, n, ys, r.vrf, profiles)
    ensures TranslateNeighbors(env, ns, r, xs, profiles) == TranslateNeighbors(env, ns, r, ys, profiles)
  {
    hide TranslateNeighbor;
    if ns != [] {
      assert ns == ns[..|ns| - 1] + [ns[|ns| - 1]];
      NeighborsSame(env, ns[..|ns| - 1], r, xs, ys, profiles);
    }
  }

  lemma {:induction false} NeighborAt(env: Env, ns: seq<ApiNeighbor>, r: ApiRouter, inRouter: seq<string>,
                                      profiles: set<string>, i: nat)
    requires TranslateNeighbors(env, ns, r, inRouter, profiles).Ok? && i < |ns|
    ensures |TranslateNeighbors(env, ns, r, inRouter, profiles).value| == |ns|
    ensures TranslateNeighbor(env, ns[i], inRouter, r.vrf, profiles) ==
              Ok(TranslateNeighbors(env, ns, r, inRouter, profiles).value[i])
  {
    hide TranslateNeighbor;
    var before := ns[..|ns| - 1];
    if before != [] { NeighborAt(env, before, r, inRouter, profiles, if i < |before| then i else 0); }
  }

  // ---- a router

  ghost function Reach(c: ApiConfig, r: ApiRouter): seq<string>
    requires ImportedPrefixes(r.imports, PrefixesForVRFs(c.routers)).Ok?
  {
    r.prefixes + ImportedPrefixes(r.imports, PrefixesForVRFs(c.routers)).value
  }

  lemma ImportsHold(env: Env, c: ApiConfig, d: ApiConfig, r: ApiRouter)
    requires Reordered(c, d) && TranslationIn(env, c, r).Ok?
    ensures ImportedPrefixes(r.imports, PrefixesForVRFs(c.routers)).Ok? &&
              ImportedPrefixes(r.imports, PrefixesForVRFs(d.routers)).Ok?
    ensures ValidImports(r.imports, PrefixesForVRFs(d.routers))
    ensures forall p :: MayAdvertise(c, r, p) <==> p in Reach(c, r)
    ensures forall p :: MayAdvertise(d, r, p) <==> p in Reach(d, r)
  {
    hide PrefixesForVRFs, ImportedPrefixes, TranslateRouter, ValidOutgoing, ValidPrefixes, MayAdvertise;
    RoutersKept(c, d);
    ImportsAccept(c, r.imports); ImportsAccept(d, r.imports);
    forall v
      ensures (v in PrefixesForVRFs(c.routers) <==> Declared(c.routers, v)) &&
                (v in PrefixesForVRFs(d.routers) <==> Declared(d.routers, v))
    {
      DeclaredExactly(c.routers, v); DeclaredExactly(d.routers, v);
    }
    forall p ensures (MayAdvertise(c, r, p) <==> p in Reach(c, r)) && (MayAdvertise(d, r, p) <==> p in Reach(d, r)) {
      ReachableExactly(c, r, p); ReachableExactly(d, r, p);
    }
  }

  lemma RouterUnmoved(env: Env, c: ApiConfig, d: ApiConfig, r: ApiRouter)
    requires Reordered(c, d) && TranslationIn(env, c, r).Ok? && forall n | n in r.neighbors :: Unmoved(env, c, d, r, n)
    ensures TranslationIn(env, d, r) == TranslationIn(env, c, r)
  {
    hide PrefixesForVRFs, ImportedPrefixes, TranslateNeighbor, TranslateNeighbors, MayAdvertise, FitsNeighbor,
         ValidPrefixes, ValidImports, NeighborFamily, PrefixesFit, OnePreference;
    ImportsHold(env, c, d, r);
    var xs, ys, profiles := Reach(c, r), Reach(d, r), ProfileNames(c.bfdProfiles);
    NeighborsAccept(env, r.neighbors, r, xs, profiles);
    forall n | n in r.neighbors
      ensures TranslateNeighbor(env, n, xs, r.vrf, profiles) == TranslateNeighbor(env, n, ys, r.vrf, profiles)
    {
      assert Unmoved(env, c, d, r, n);
      AcceptedIdentity(env, n, xs, r.vrf, profiles);
      NeighborSame(env, n, xs, ys, r.vrf, profiles);
    }
    NeighborsSame(env, r.neighbors, r, xs, ys, profiles);
    assert ValidOutgoing(env.net, ys, r) by {
      assert ValidOutgoing(env.net, xs, r);
      assert forall n | n in r.neighbors :: Unmoved(env, c, d, r, n);
    }
  }

  lemma AcceptedIdentity(env: Env, n: ApiNeighbor, inRouter: seq<string>, vrf: string, profiles: set<string>)
    requires TranslateNeighbor(env, n, inRouter, vrf, profiles).Ok?
    ensures (n.address == "") != (n.iface == "")
  {
    hide Outgoing, Incoming, NeighborFamily, ParseTimers, PasswordFor, NeighborName, NeighborID;
  }

  lemma ToldUnmoved(env: Env, c: ApiConfig, d: ApiConfig, r: ApiRouter, n: ApiNeighbor)
    requires Reordered(c, d) && TranslationIn(env, c, r).Ok? && TranslationIn(env, d, r) == TranslationIn(env, c, r) &&
              n in r.neighbors
    requires n.toAdvertise.mode == ALLOW_ALL
    ensures Unmoved(env, c, d, r, n)
  {
    hide PrefixesForVRFs, ImportedPrefixes, TranslateNeighbor, TranslateNeighbors, MayAdvertise, ValidPrefixes,
         ValidImports, ValidOutgoing, NeighborSays, Speaks, PrefixFamily;
    ImportsHold(env, c, d, r);
    var xs, ys, profiles := Reach(c, r), Reach(d, r), ProfileNames(c.bfdProfiles);
    var i :| 0 <= i < |r.neighbors| && r.neighbors[i] == n;
    NeighborAt(env, r.neighbors, r, xs, profiles, i);
    NeighborAt(env, r.neighbors, r, ys, profiles, i);
    var all, now := iset p | p in xs, iset p | p in ys;
    forall p | FitsNeighbor(env.net, n, p) ensures MayAdvertise(c, r, p) <==> MayAdvertise(d, r, p) {
      var f := Advertises(PrefixFamily(env.net, p).value, p);
      NeighborExactly(env, n, xs, r.vrf, profiles, all, f);
      NeighborExactly(env, n, ys, r.vrf, profiles, now, f);
    }
  }

  lemma ListUnmoved(env: Env, c: ApiConfig, d: ApiConfig, r: ApiRouter, n: ApiNeighbor)
    requires TranslationIn(env, d, r).Ok? && n in r.neighbors && n.toAdvertise.mode != ALLOW_ALL
    ensures Unmoved(env, c, d, r, n)
  {
    hide RawRouter, MayAdvertise, ValidIdentity, ValidTimers, ValidPassword, ValidHops, ValidTags, ValidReceive,
         FitsNeighbor;
    RouterAccepted(env, d, r);
    assert ValidNeighbor(env, d, r, n);
  }

  /**
   * Another order of the routers leaves the translation of every router as it was if and only if no
   * neighbor notices: those told everything are told the same, those with a list may have it.
   */
  lemma ReorderExactly(env: Env, c: ApiConfig, d: ApiConfig)
    requires Reordered(c, d) && TranslateConfig(env, c).Ok?
    ensures (forall r | r in c.routers :: TranslationIn(env, d, r) == TranslationIn(env, c, r)) <==>
            (forall r, n | r in c.routers && n in r.neighbors :: Unmoved(env, c, d, r, n))
  {
    hide TranslationIn, Unmoved, RawRouters, Reordered;
    forall r | r in c.routers ensures TranslationIn(env, c, r).Ok? { TranslatesIn(env, c, r); }
    forall r | r in c.routers
      ensures TranslationIn(env, d, r) == TranslationIn(env, c, r) <==>
                forall n | n in r.neighbors :: Unmoved(env, c, d, r, n)
    {
      if TranslationIn(env, d, r) == TranslationIn(env, c, r) {
        forall n | n in r.neighbors ensures Unmoved(env, c, d, r, n) {
          if n.toAdvertise.mode == ALLOW_ALL { ToldUnmoved(env, c, d, r, n); } else { ListUnmoved(env, c, d, r, n); }
        }
      }
      if forall n | n in r.neighbors :: Unmoved(env, c, d, r, n) { RouterUnmoved(env, c, d, r); }
    }
  }

  lemma TranslatesIn(env: Env, c: ApiConfig, r: ApiRouter)
    requires TranslateConfig(env, c).Ok? && r in c.routers
    ensures TranslationIn(env, c, r).Ok?
  {
    hide RawRouter, PrefixesForVRFs, ProfileNames;
    RoutersAccept(env, c, c.routers);
  }

  // ---- the last router of each VRF

  /** The last router of each VRF provides the same prefixes. */
  ghost predicate SameProvided(c: ApiConfig, d: ApiConfig) {
    forall vrf, p :: Provides(c.routers, vrf, p) <==> Provides(d.routers, vrf, p)
  }

  lemma SameReach(c: ApiConfig, d: ApiConfig, r: ApiRouter, p: string)
    requires SameProvided(c, d)
    ensures MayAdvertise(c, r, p) <==> MayAdvertise(d, r, p)
  {
    hide Provides;
  }

  lemma ValidReordered(env: Env, c: ApiConfig, d: ApiConfig, r: ApiRouter, n: ApiNeighbor)
    requires Reordered(c, d) && SameProvided(c, d)
    ensures ValidNeighbor(env, c, r, n) <==> ValidNeighbor(env, d, r, n)
  {
    hide SameProvided, MayAdvertise, ValidPrefixLists, ValidTags, ValidTimers, ValidPassword, ValidHops, ValidReceive;
    forall p ensures MayAdvertise(c, r, p) <==> MayAdvertise(d, r, p) { SameReach(c, d, r, p); }
    assert (iset p | MayAdvertise(c, r, p)) == (iset p | MayAdvertise(d, r, p));
  }

  lemma AsksReordered(env: Env, c: ApiConfig, d: ApiConfig, r: ApiRouter, f: RouterFact)
    requires SameProvided(c, d)
    ensures RouterAsks(env, c, r, f) <==> RouterAsks(env, d, r, f)
  {
    hide SameProvided, MayAdvertise, PeerAsked, EvpnSays, PrefixFamily;
    forall p ensures MayAdvertise(c, r, p) <==> MayAdvertise(d, r, p) { SameReach(c, d, r, p); }
    assert (iset p | MayAdvertise(c, r, p)) == (iset p | MayAdvertise(d, r, p));
  }

  /** If the last router of each VRF provides the same prefixes, the configuration is as valid and asks for the same. */
  lemma SameProvidedSame(env: Env, c: ApiConfig, d: ApiConfig)
    requires Reordered(c, d) && SameProvided(c, d)
    ensures ValidConfig(env, c) <==> ValidConfig(env, d)
    ensures forall f :: ConfigAsks(env, c, f) <==> ConfigAsks(env, d, f)
  {
    hide SameProvided, ValidNeighbor, RouterAsks;
    RoutersKept(c, d);
    forall r, n
      ensures ValidNeighbor(env, c, r, n) <==> ValidNeighbor(env, d, r, n)
    {
      ValidReordered(env, c, d, r, n);
    }
    forall r, f ensures RouterAsks(env, c, r, f) <==> RouterAsks(env, d, r, f) { AsksReordered(env, c, d, r, f); }
    assert forall vrf :: Declared(c.routers, vrf) <==> Declared(d.routers, vrf);
  }
}

/**
 * `apiToFRR` as it runs: every configuration creates router and neighbor objects, validates each
 * router by merging it with itself, and merges it into the router already held for its VRF.
 */
module ConvertLoops {
  import opened Ordering
  import opened Configs
  import opened Merge
  import opened MergeFacts
  import opened RouterFacts
  import opened Api
  import opened Translate
  import opened TranslateFacts
  import opened TranslateLoops
  import opened Conversion
  import opened SelfMerge
  import opened MergeInPlace

  // ---- translating one router

  /** `neighborToFRR` */
  method NeighborToFRR(env: Env, n: ApiNeighbor, inRouter: seq<string>, vrf: string, profiles: set<string>)
    returns (r: Result<NeighborConfig>)
    ensures r.Ok? <==> TranslateNeighbor(env, n, inRouter, vrf, profiles).Ok?
    ensures r.Ok? ==> fresh(r.value) && TranslateNeighbor(env, n, inRouter, vrf, profiles) == Ok(r.value.Value())
  {
    hide Outgoing, Incoming, NeighborFamily, ParseTimers, PasswordFor, NeighborName, NeighborID;
    if !IdentityOk(n, profiles) { return Err; }
    var family := NeighborFamily(env.net, n);
    if family.Err? { return Err; }
    var timers := ParseTimers(n.holdTime, n.keepaliveTime);
    if timers.Err? { return Err; }
    var password := PasswordFor(n, env.secrets);
    if password.Err? { return Err; }
    var outgoing := ToAdvertise(env.net, NeighborID(n.address, n.iface, vrf), family.value, n.toAdvertise, inRouter);
    if outgoing.Err? { return Err; }
    var incoming := ToReceive(env.net, n.toReceive);
    if incoming.Err? { return Err; }
    var res := new NeighborConfig(Neighbor(
      family.value, NeighborName(n), AsnFor(n), n.sourceAddress, n.address, n.iface, n.port,
      timers.value.0, timers.value.1, if n.connectTime.Some? then Some(Seconds(n.connectTime.value)) else None,
      password.value, n.bfdProfile, n.gracefulRestart, n.ebgpMultiHop, n.localASN, vrf,
      incoming.value, outgoing.value, env.alwaysBlock, n.addressFamilies));
    return Ok(res);
  }


  /** `routerToFRRConfig` */
  method RouterToFRR(env: Env, r: ApiRouter, inRouter: seq<string>, profiles: set<string>)
    returns (res: Result<RouterConfig>)
    ensures res.Ok? <==> TranslateRouter(env, r, inRouter, profiles).Ok?
    ensures res.Ok? ==> fresh(res.value) && fresh(set n | n in res.value.neighbors) && Injective(res.value.neighbors)
    ensures res.Ok? ==> TranslateRouter(env, r, inRouter, profiles) == Ok(res.value.Value())
  {
    hide TranslateNeighbor, TranslateNeighbors, FilterPrefixes, Injective, NeighborConfig.Value;
    var rc := new RouterConfig(r.asn, r.id, r.vrf, FilterPrefixes(env.net, r.prefixes, IPv4),
                               FilterPrefixes(env.net, r.prefixes, IPv6), r.imports, r.evpn);
    ghost var start := rc.Value();
    NoneTranslated(env, r, inRouter, profiles);
    for i := 0 to |r.neighbors|
      invariant fresh(rc) && (forall n | n in rc.neighbors :: fresh(n)) && Injective(rc.neighbors)
      invariant rc.Value() == start.(neighbors := rc.Value().neighbors)
      invariant TranslateNeighbors(env, r.neighbors[..i], r, inRouter, profiles) == Ok(rc.Value().neighbors)
    {
      OneMoreTranslated(env, r, inRouter, profiles, i);
      var n := r.neighbors[i];
      if n.localASN != 0 && n.asn != 0 && n.asn == r.asn {
        NeighborsFail(env, r, inRouter, profiles, i + 1);
        return Err;
      }
      var neighbor := NeighborToFRR(env, n, inRouter, r.vrf, profiles);
      if neighbor.Err? {
        NeighborsFail(env, r, inRouter, profiles, i + 1);
        return Err;
      }
      OneMoreObject(rc.neighbors, neighbor.value);
      rc.Append(neighbor.value);
    }
    assert r.neighbors[..|r.neighbors|] == r.neighbors;
    return Ok(rc);
  }

  lemma NoneTranslated(env: Env, r: ApiRouter, inRouter: seq<string>, profiles: set<string>)
    ensures TranslateNeighbors(env, r.neighbors[..0], r, inRouter, profiles) == Ok([]) && Injective<NeighborConfig>([])
  {}

  lemma OneMoreTranslated(env: Env, r: ApiRouter, inRouter: seq<string>, profiles: set<string>, i: nat)
    requires i < |r.neighbors| && TranslateNeighbors(env, r.neighbors[..i], r, inRouter, profiles).Ok?
    ensures var n := r.neighbors[i];
            var t := TranslateNeighbor(env, n, inRouter, r.vrf, profiles);
            TranslateNeighbors(env, r.neighbors[..i + 1], r, inRouter, profiles) ==
              if (n.localASN != 0 && n.asn != 0 && n.asn == r.asn) || t.Err? then Err
              else Ok(TranslateNeighbors(env, r.neighbors[..i], r, inRouter, profiles).value + [t.value])
  {
    hide TranslateNeighbor;
    assert r.neighbors[..i + 1][..i] == r.neighbors[..i];
  }

  lemma OneMoreObject(ns: seq<NeighborConfig>, n: NeighborConfig)
    requires Injective(ns) && n !in ns
    ensures Injective(ns + [n])
  {}

  lemma {:induction false} NeighborsFail(env: Env, r: ApiRouter, inRouter: seq<string>, profiles: set<string>, i: nat)
    requires i <= |r.neighbors| && TranslateNeighbors(env, r.neighbors[..i], r, inRouter, profiles).Err?
    ensures TranslateNeighbors(env, r.neighbors, r, inRouter, profiles).Err?
    decreases |r.neighbors| - i
  {
    hide TranslateNeighbor;
    var ns := r.neighbors;
    if i == |ns| {
      assert ns[..i] == ns;
    } else {
      assert ns[..i + 1][..i] == ns[..i];
      NeighborsFail(env, r, inRouter, profiles, i + 1);
    }
  }

  method CheckPrefixes(net: Net, ps: seq<string>) returns (ok: bool)
    ensures ok == ValidPrefixes(net, ps)
  {
    for i := 0 to |ps|
      invariant ValidPrefixes(net, ps[..i])
    {
      if CidrFamily(net, ps[i]) == Unknown { return false; }
      assert ps[..i + 1] == ps[..i] + [ps[i]];
    }
    assert ps[..|ps|] == ps;
    return true;
  }

  method CheckImports(imports: seq<string>, byVRF: map<string, seq<string>>) returns (ok: bool)
    ensures ok == ValidImports(imports, byVRF)
  {
    for i := 0 to |imports|
      invariant ValidImports(imports[..i], byVRF)
    {
      if imports[i] != DEFAULT_VRF && imports[i] !in byVRF { return false; }
      assert imports[..i + 1] == imports[..i] + [imports[i]];
    }
    assert imports[..|imports|] == imports;
    return true;
  }

  /** The checks and the translation of one router, as the loop body of `apiToFRR` does them. */
  method CheckedRouter(env: Env, r: ApiRouter, byVRF: map<string, seq<string>>, profiles: set<string>)
    returns (res: Result<RouterConfig>)
    ensures res.Ok? <==> RawRouter(env, r, byVRF, profiles).Ok?
    ensures res.Ok? ==> fresh(res.value) && fresh(set n | n in res.value.neighbors) && Injective(res.value.neighbors)
    ensures res.Ok? ==> RawRouter(env, r, byVRF, profiles) == Ok(res.value.Value())
  {
    hide ValidPrefixes, ValidImports, ImportedPrefixes, ValidOutgoing, TranslateRouter, RouterConfig.Value;
    var ok := CheckPrefixes(env.net, r.prefixes);
    if !ok { return Err; }
    ok := CheckImports(r.imports, byVRF);
    if !ok { return Err; }
    var imported := CollectImported(r.imports, byVRF);
    if imported.Err? { return Err; }
    var all := r.prefixes + imported.value;
    ok := ValidateOutgoingPrefixes(env.net, all, r);
    if !ok { return Err; }
    res := RouterToFRR(env, r, all, profiles);
  }

  // ---- the routers held for each VRF

  /** Every object the held routers consist of. */
  ghost function Held(m: map<string, RouterConfig>): (s: set<object>)
    reads set v | v in m :: m[v]
  {
    (set v | v in m :: m[v] as object) + NeighborsHeld(m)
  }

  /** A router and its neighbors. */
  ghost function Parts(r: RouterConfig): (s: set<object>)
    reads r
    ensures r in s && forall n | n in r.neighbors :: n in s
  {
    {r} + set n | n in r.neighbors :: n as object
  }

  ghost function NeighborsHeld(m: map<string, RouterConfig>): (s: set<object>)
    reads set v | v in m :: m[v]
    ensures forall v, n | v in m && n in m[v].neighbors :: n in s
  {
    set v, n | v in m && n in m[v].neighbors :: n as object
  }

  ghost function RouterValues(m: map<string, RouterConfig>): (r: map<string, Router>)
    reads (set v | v in m :: m[v]), NeighborsHeld(m)
  {
    map v | v in m :: m[v].Value()
  }

  /** No object belongs to two routers, or twice to one. */
  ghost predicate Owned(m: map<string, RouterConfig>)
    reads set v | v in m :: m[v]
  {
    && (forall v | v in m :: Injective(m[v].neighbors))
    && (forall v, w | v in m && w in m && v != w :: Apart(m[v], m[w]))
  }

  ghost predicate Apart(a: RouterConfig, b: RouterConfig)
    reads a, b
  {
    a != b && forall n | n in a.neighbors :: n !in b.neighbors
  }

  ghost predicate Separate(m: map<string, RouterConfig>, r: RouterConfig)
    reads (set v | v in m :: m[v]), r
  {
    Injective(r.neighbors) && forall v | v in m :: Apart(m[v], r)
  }

  lemma ApartMergeable(a: RouterConfig, b: RouterConfig)
    requires Injective(a.neighbors) && Injective(b.neighbors) && Apart(a, b)
    ensures Mergeable(a.neighbors, b.neighbors)
    ensures MergedInPlace(a.neighbors + b.neighbors) == MergeNeighborLists(Values(a.neighbors), Values(b.neighbors))
  {
    hide MergedInPlace, MergeNeighborLists;
    var all, k := a.neighbors + b.neighbors, |a.neighbors|;
    forall i, j | 0 <= i < j < |all| ensures all[i] != all[j] {
      if i < k <= j {
        assert all[i] in a.neighbors && all[j] in b.neighbors;
      }
    }
    DistinctMerged(a.neighbors, b.neighbors);
  }

  lemma SelfMergeable(r: RouterConfig)
    requires Injective(r.neighbors) && WfRouter(r.Value())
    ensures Mergeable(r.neighbors, r.neighbors)
    ensures MergedInPlace(r.neighbors + r.neighbors) == MergeNeighborLists(Values(r.neighbors), Values(r.neighbors))
  {
    hide WfNeighbor, MergedInPlace, MergeNeighborLists, Injective, NeighborConfig.Value;
    forall n | n in r.neighbors ensures WfNeighbor(n.Value()) {
      var i :| 0 <= i < |r.neighbors| && r.neighbors[i] == n;
      assert r.Value().neighbors[i] == n.Value();
    }
    DoubledContents(r.neighbors);
    DoubledMerged(r.neighbors);
  }

  /** `validateRouterConfig`: the router merged with itself, which also normalises it. */
  method ValidateRouterConfig(r: RouterConfig) returns (ok: bool)
    requires Injective(r.neighbors) && WfRouter(r.Value())
    modifies r, r.neighbors
    ensures ok <==> MergeRouters(old(r.Value()), old(r.Value())).Ok?
    ensures ok ==> MergeRouters(old(r.Value()), old(r.Value())) == Ok(r.Value())
    ensures ok ==>
              Injective(r.neighbors) && (forall n | n in r.neighbors :: n in old(r.neighbors)) &&
                  Parts(r) <= old(Parts(r))
  {
    hide MergeRouters, WfRouter, Mergeable, MergedInPlace, MergeNeighborLists;
    SelfMergeable(r);
    ghost var v := r.Value();
    ok := r.Merge(r);
    if ok { MergedNeighbors(v, v); assert BesidesNeighbors(r.Value()) == r.Value().(neighbors := []); }
  }

  /** Two routers that share nothing are merged as their values are. */
  method MergeApart(curr: RouterConfig, r: RouterConfig) returns (ok: bool)
    requires Injective(curr.neighbors) && Injective(r.neighbors) && Apart(curr, r)
    modifies curr, curr.neighbors, r.neighbors
    ensures ok <==> MergeRouters(old(curr.Value()), old(r.Value())).Ok?
    ensures ok ==> MergeRouters(old(curr.Value()), old(r.Value())) == Ok(curr.Value())
    ensures ok ==> Injective(curr.neighbors)
    ensures ok ==> forall n | n in curr.neighbors :: n in old(curr.neighbors) || n in old(r.neighbors)
  {
    hide MergeRouters, Mergeable, MergedInPlace, MergeNeighborLists, Injective, Values;
    ApartMergeable(curr, r);
    ghost var c, t := curr.Value(), r.Value();
    ok := curr.Merge(r);
    if ok { MergedNeighbors(c, t); }
  }

  /** The routers of the other VRFs stay as they are. */
  method MergeHeld(m: map<string, RouterConfig>, r: RouterConfig) returns (ok: bool)
    requires Owned(m) && Separate(m, r) && r.vrf in m
    modifies Held(m) + Parts(r)
    ensures ok <==> MergeRouters(old(m[r.vrf].Value()), old(r.Value())).Ok?
    ensures ok ==> MergeRouters(old(m[r.vrf].Value()), old(r.Value())) == Ok(m[r.vrf].Value())
    ensures ok ==>
              forall w | w in m && w != r.vrf :: m[w].neighbors == old(m[w].neighbors) &&
                  m[w].Value() == old(m[w].Value())
    ensures ok ==> Injective(m[r.vrf].neighbors)
    ensures ok ==> forall n | n in m[r.vrf].neighbors :: n in old(m[r.vrf].neighbors) || n in old(r.neighbors)
  {
    hide MergeRouters, NeighborConfig.Value;
    var curr := m[r.vrf];
    assert curr in Held(m) && forall n | n in curr.neighbors :: n in Held(m);
    ok := MergeApart(curr, r);
    forall w | w in m && w != r.vrf ensures m[w].neighbors == old(m[w].neighbors) && m[w].Value() == old(m[w].Value()) {
      assert old(Apart(m[w], curr)) && old(Apart(m[w], r));
      assert forall n | n in m[w].neighbors :: n.Value() == old(n.Value());
      assert Values(m[w].neighbors) == old(Values(m[w].neighbors));
    }
  }

  /** Validating a router that shares nothing with the held ones leaves those as they are. */
  method ValidateBeside(m: map<string, RouterConfig>, r: RouterConfig) returns (ok: bool)
    requires Owned(m) && Separate(m, r) && WfRouter(r.Value())
    modifies r, r.neighbors
    ensures ok <==> MergeRouters(old(r.Value()), old(r.Value())).Ok?
    ensures ok ==> MergeRouters(old(r.Value()), old(r.Value())) == Ok(r.Value())
    ensures ok ==> Owned(m) && Separate(m, r) && Held(m) == old(Held(m)) && RouterValues(m) == old(RouterValues(m))
    ensures ok ==> Parts(r) <= old(Parts(r))
  {
    hide MergeRouters, WfRouter, Injective, NeighborConfig.Value;
    ok := ValidateRouterConfig(r);
    if ok {
      forall w | w in m
        ensures m[w].neighbors == old(m[w].neighbors) && m[w].Value() == old(m[w].Value()) && Apart(m[w], r)
      {
        assert old(Apart(m[w], r));
        assert forall n | n in m[w].neighbors :: n.Value() == old(n.Value());
        assert Values(m[w].neighbors) == old(Values(m[w].neighbors));
      }
    }
  }

  ghost function NeighborLists(m: map<string, RouterConfig>): (l: map<string, seq<NeighborConfig>>)
    reads set v | v in m :: m[v]
  {
    map v | v in m :: m[v].neighbors
  }

  ghost predicate ListsOwned(l: map<string, seq<NeighborConfig>>) {
    && (forall v | v in l :: Injective(l[v]))
    && (forall v, w | v in l && w in l && v != w :: ListsApart(l[v], l[w]))
  }

  ghost predicate ListsApart(a: seq<NeighborConfig>, b: seq<NeighborConfig>) { forall n | n in a :: n !in b }

  lemma OwnedLists(m: map<string, RouterConfig>)
    ensures Owned(m) <==> ListsOwned(NeighborLists(m)) && forall v, w | v in m && w in m && v != w :: m[v] != m[w]
  {
    hide Injective;
    var l := NeighborLists(m);
    if ListsOwned(l) && forall v, w | v in m && w in m && v != w :: m[v] != m[w] {
      forall v | v in m ensures Injective(m[v].neighbors) { assert Injective(l[v]); }
      forall v, w | v in m && w in m && v != w ensures Apart(m[v], m[w]) { assert ListsApart(l[v], l[w]); }
    }
    if Owned(m) {
      forall v, w | v in l && w in l && v != w
        ensures ListsApart(l[v], l[w]) && m[v] != m[w]
      {
        assert Apart(m[v], m[w]);
      }
    }
  }

  lemma ListsStep(l: map<string, seq<NeighborConfig>>, v: string, now: seq<NeighborConfig>, more: seq<NeighborConfig>)
    requires ListsOwned(l) && v in l && Injective(now) && (forall w | w in l :: ListsApart(l[w], more))
    requires forall n | n in now :: n in l[v] || n in more
    ensures ListsOwned(l[v := now])
  {
    hide Injective;
    var k := l[v := now];
    forall a, b | a in k && b in k && a != b ensures ListsApart(k[a], k[b]) {
      assert ListsApart(l[a], l[b]) && ListsApart(l[a], more) && ListsApart(l[b], more);
    }
  }

  method MergeInHeld(m: map<string, RouterConfig>, r: RouterConfig) returns (ok: bool)
    requires Owned(m) && Separate(m, r) && r.vrf in m
    modifies Held(m) + Parts(r)
    ensures ok <==> MergeRouters(old(RouterValues(m)[r.vrf]), old(r.Value())).Ok?
    ensures ok ==> Owned(m) && Held(m) <= old(Held(m) + Parts(r))
    ensures ok ==> MergeRouters(old(RouterValues(m)[r.vrf]), old(r.Value())).value == m[r.vrf].Value()
    ensures ok ==> RouterValues(m) == old(RouterValues(m))[r.vrf := m[r.vrf].Value()]
  {
    hide MergeRouters, Injective, RouterConfig.Value, Owned, ListsOwned;
    ghost var l, more := NeighborLists(m), r.neighbors;
    OwnedLists(m);
    assert forall w | w in l :: ListsApart(l[w], more) by {
      forall w | w in l ensures ListsApart(l[w], more) { assert Apart(m[w], r); }
    }
    ok := MergeHeld(m, r);
    if ok {
      ListsStep(l, r.vrf, m[r.vrf].neighbors, more);
      assert NeighborLists(m) == l[r.vrf := m[r.vrf].neighbors];
      OwnedLists(m);
    }
  }

  /** One translated router is validated, then held for its VRF or merged into the one held already. */
  method HoldRouter(m: map<string, RouterConfig>, r: RouterConfig) returns (res: Result<map<string, RouterConfig>>)
    requires Owned(m) && Separate(m, r) && WfRouter(r.Value())
    modifies Held(m) + Parts(r)
    ensures res.Ok? <==> AddRouter(old(RouterValues(m)), old(r.Value())).Ok?
    ensures res.Ok? ==> AddRouter(old(RouterValues(m)), old(r.Value())) == Ok(RouterValues(res.value))
    ensures res.Ok? ==> Owned(res.value) && Held(res.value) <= old(Held(m) + Parts(r))
  {
    hide MergeRouters, WfRouter, RouterConfig.Value, Owned, Separate, RouterValues;
    RouterValuesOf(m);
    var ok := ValidateBeside(m, r);
    if !ok { return Err; }
    if r.vrf !in m {
      HeldAdded(m, r);
      return Ok(m[r.vrf := r]);
    }
    ok := MergeInHeld(m, r);
    if !ok { return Err; }
    return Ok(m);
  }

  lemma RouterValuesOf(m: map<string, RouterConfig>)
    ensures RouterValues(m).Keys == m.Keys
  {}

  lemma HeldAdded(m: map<string, RouterConfig>, r: RouterConfig)
    requires Owned(m) && Separate(m, r) && r.vrf !in m
    ensures Owned(m[r.vrf := r]) && RouterValues(m[r.vrf := r]) == RouterValues(m)[r.vrf := r.Value()]
    ensures Held(m[r.vrf := r]) <= Held(m) + Parts(r)
  {
    hide Injective, RouterConfig.Value;
  }

  // ---- one configuration

  /** The BFD profiles of one configuration: names are unique within it, and agree with the others. */
  method AddBfdProfiles(all: map<string, BfdProfile>, ps: seq<BfdProfile>)
    returns (r: Result<map<string, BfdProfile>>, names: set<string>)
    ensures r.Ok? <==> DistinctProfiles(ps) && AddProfiles(all, ps).Ok?
    ensures r.Ok? ==> AddProfiles(all, ps) == r && names == ProfileNames(ps)
  {
    hide DistinctProfiles, AddProfiles, ProfileNames;
    var m := all;
    names := {};
    NoProfiles(all, ps);
    for i := 0 to |ps|
      invariant DistinctProfiles(ps[..i]) && AddProfiles(all, ps[..i]) == Ok(m) && names == ProfileNames(ps[..i])
    {
      NextProfile(all, ps, i);
      if ps[i].name in names { return Err, names; }
      if ps[i].name in m && m[ps[i].name] != ps[i] {
        ProfilesFail(all, ps, i + 1);
        return Err, names;
      }
      assert ps[i].name in m ==> m == m[ps[i].name := ps[i]];
      if ps[i].name !in m { m := m[ps[i].name := ps[i]]; }
      names := names + {ps[i].name};
    }
    assert ps[..|ps|] == ps;
    return Ok(m), names;
  }

  lemma NoProfiles(all: map<string, BfdProfile>, ps: seq<BfdProfile>)
    ensures DistinctProfiles(ps[..0]) && AddProfiles(all, ps[..0]) == Ok(all) && {} == ProfileNames(ps[..0])
  {}

  lemma NextProfile(all: map<string, BfdProfile>, ps: seq<BfdProfile>, i: nat)
    requires i < |ps| && DistinctProfiles(ps[..i]) && AddProfiles(all, ps[..i]).Ok?
    ensures ProfileNames(ps[..i + 1]) == ProfileNames(ps[..i]) + {ps[i].name}
    ensures ps[i].name in ProfileNames(ps[..i]) ==> !DistinctProfiles(ps)
    ensures ps[i].name !in ProfileNames(ps[..i]) ==> DistinctProfiles(ps[..i + 1])
    ensures var m := AddProfiles(all, ps[..i]).value;
            AddProfiles(all, ps[..i + 1]) ==
              if ps[i].name in m && m[ps[i].name] != ps[i] then Err else Ok(m[ps[i].name := ps[i]])
  {
    var before := ps[..i];
    assert ps[..i + 1][..i] == before && ps[..i + 1] == before + [ps[i]];
    if ps[i].name in ProfileNames(before) {
      var p :| p in before && p.name == ps[i].name;
      var j :| 0 <= j < |before| && before[j] == p;
      assert ps[j] == p;
    }
  }

  lemma {:induction false} ProfilesFail(all: map<string, BfdProfile>, ps: seq<BfdProfile>, i: nat)
    requires i <= |ps| && AddProfiles(all, ps[..i]).Err?
    ensures AddProfiles(all, ps).Err?
    decreases |ps| - i
  {
    if i == |ps| {
      assert ps[..i] == ps;
    } else {
      assert ps[..i + 1][..i] == ps[..i];
      ProfilesFail(all, ps, i + 1);
    }
  }

  /** What the routers of a configuration read so far make of the routers held before it. */
  ghost function Sofar(env: Env, c: ApiConfig, i: nat, before: map<string, Router>): (r: Result<map<string, Router>>)
    requires i <= |c.routers|
  {
    var rs :- RawRouters(env, c, c.routers[..i]);
    AddRouters(before, rs)
  }

  lemma SofarStep(env: Env, c: ApiConfig, i: nat, before: map<string, Router>)
    requires i < |c.routers| && Sofar(env, c, i, before).Ok?
    ensures var raw := RawRouter(env, c.routers[i], PrefixesForVRFs(c.routers), ProfileNames(c.bfdProfiles));
            Sofar(env, c, i + 1, before) ==
              if raw.Err? then Err else AddRouter(Sofar(env, c, i, before).value, raw.value)
  {
    hide RawRouter, AddRouter;
    assert c.routers[..i + 1][..i] == c.routers[..i];
    var rs := RawRouters(env, c, c.routers[..i]).value;
    var raw := RawRouter(env, c.routers[i], PrefixesForVRFs(c.routers), ProfileNames(c.bfdProfiles));
    if raw.Ok? { assert (rs + [raw.value])[..|rs|] == rs; }
  }

  lemma {:induction false} SofarFails(env: Env, c: ApiConfig, i: nat, before: map<string, Router>)
    requires i <= |c.routers| && Sofar(env, c, i, before).Err?
    ensures Sofar(env, c, |c.routers|, before).Err?
    decreases |c.routers| - i
  {
    hide RawRouter, AddRouter;
    if i < |c.routers| {
      assert c.routers[..i + 1][..i] == c.routers[..i];
      var now := RawRouters(env, c, c.routers[..i]);
      if now.Ok? {
        var raw := RawRouter(env, c.routers[i], PrefixesForVRFs(c.routers), ProfileNames(c.bfdProfiles));
        if raw.Ok? { assert (now.value + [raw.value])[..|now.value|] == now.value; }
      }
      SofarFails(env, c, i + 1, before);
    }
  }

  /** What is created for a router is shared with no router held before. */
  method CheckedBeside(m: map<string, RouterConfig>, env: Env, r: ApiRouter, byVRF: map<string, seq<string>>,
                       profiles: set<string>)
    returns (res: Result<RouterConfig>)
    requires Owned(m)
    ensures res.Ok? <==> RawRouter(env, r, byVRF, profiles).Ok?
    ensures res.Ok? ==> Separate(m, res.value) && fresh(Parts(res.value)) && WfRouter(res.value.Value())
    ensures res.Ok? ==> RawRouter(env, r, byVRF, profiles) == Ok(res.value.Value())
    ensures Owned(m) && Held(m) == old(Held(m)) && RouterValues(m) == old(RouterValues(m))
  {
    hide RawRouter, Injective, WfRouter, SoundRouter, Separate, NeighborConfig.Value;
    ghost var held := Held(m);
    res := CheckedRouter(env, r, byVRF, profiles);
    if res.Ok? {
      RawRouterFacts(env, r, byVRF, profiles);
      FreshSeparate(m, res.value);
    }
    forall v | v in m ensures m[v].Value() == old(m[v].Value()) {
      assert Values(m[v].neighbors) == old(Values(m[v].neighbors));
    }
  }

  /** The loop over the routers of one configuration. */
  method AddConfigRouters(env: Env, c: ApiConfig, profiles: set<string>, byVRF: map<string, seq<string>>,
                          start: map<string, RouterConfig>)
    returns (res: Result<map<string, RouterConfig>>)
    requires Owned(start) && profiles == ProfileNames(c.bfdProfiles) && byVRF == PrefixesForVRFs(c.routers)
    modifies Held(start)
    ensures res.Ok? <==> Sofar(env, c, |c.routers|, old(RouterValues(start))).Ok?
    ensures res.Ok? ==> Sofar(env, c, |c.routers|, old(RouterValues(start))) == Ok(RouterValues(res.value))
    ensures res.Ok? ==> Owned(res.value) && fresh(Held(res.value) - old(Held(start)))
  {
    hide RawRouter, AddRouter, RouterConfig.Value, Owned, Separate, RouterValues, Sofar, WfRouter, SoundRouter;
    var m := start;
    ghost var before := RouterValues(start);
    SofarNone(env, c, before);
    for i := 0 to |c.routers|
      invariant Owned(m) && fresh(Held(m) - old(Held(start)))
      invariant Sofar(env, c, i, before) == Ok(RouterValues(m))
    {
      SofarStep(env, c, i, before);
      var rc := CheckedBeside(m, env, c.routers[i], byVRF, profiles);
      if rc.Err? {
        SofarFails(env, c, i + 1, before);
        return Err;
      }
      RawRouterFacts(env, c.routers[i], byVRF, profiles);
      ghost var now, parts := Held(m), Parts(rc.value);
      var held := HoldRouter(m, rc.value);
      if held.Err? {
        SofarFails(env, c, i + 1, before);
        return Err;
      }
      assert Held(held.value) <= now + parts && fresh(parts) && fresh(now - old(Held(start)));
      m := held.value;
    }
    return Ok(m);
  }

  lemma SofarNone(env: Env, c: ApiConfig, before: map<string, Router>)
    ensures Sofar(env, c, 0, before) == Ok(before)
  {
    assert c.routers[..0] == [];
  }

  lemma FreshSeparate(m: map<string, RouterConfig>, r: RouterConfig)
    requires Injective(r.neighbors) && Parts(r) !! Held(m)
    ensures Separate(m, r)
  {
    hide Injective;
    forall v | v in m ensures Apart(m[v], r) {
      assert m[v] in Held(m);
      assert forall n | n in m[v].neighbors :: n in Held(m);
      assert r in Parts(r);
    }
  }

  /** The first steps on a configuration touch no router. */
  method ReadConfig(m: map<string, RouterConfig>, c: ApiConfig, all: map<string, BfdProfile>)
    returns (profiles: Result<map<string, BfdProfile>>, names: set<string>, byVRF: map<string, seq<string>>)
    requires Owned(m)
    ensures profiles.Ok? <==> DistinctProfiles(c.bfdProfiles) && AddProfiles(all, c.bfdProfiles).Ok?
    ensures profiles.Ok? ==> AddProfiles(all, c.bfdProfiles) == profiles && names == ProfileNames(c.bfdProfiles)
    ensures byVRF == PrefixesForVRFs(c.routers)
    ensures Owned(m) && Held(m) == old(Held(m)) && RouterValues(m) == old(RouterValues(m))
  {
    hide Injective, NeighborConfig.Value, AddProfiles, DistinctProfiles;
    profiles, names := AddBfdProfiles(all, c.bfdProfiles);
    byVRF := CollectForVRFs(c.routers);
    forall v | v in m ensures m[v].Value() == old(m[v].Value()) {
      assert Values(m[v].neighbors) == old(Values(m[v].neighbors));
    }
  }

  /** One configuration. */
  method ConfigToFRR(env: Env, c: ApiConfig, m: map<string, RouterConfig>, profiles: map<string, BfdProfile>,
                     raws: seq<Raw>)
    returns (ok: bool, routers: map<string, RouterConfig>, bfd: map<string, BfdProfile>, rawConfigs: seq<Raw>)
    requires Owned(m)
    modifies Held(m)
    ensures ok <==> AddConfig(env, State(old(RouterValues(m)), profiles, raws), c).Ok?
    ensures ok ==>
              AddConfig(env, State(old(RouterValues(m)), profiles, raws), c) ==
                  Ok(State(RouterValues(routers), bfd, rawConfigs))
    ensures ok ==> Owned(routers) && fresh(Held(routers) - old(Held(m)))
  {
    hide RouterConfig.Value, Owned, RouterValues, RawRouters, AddRouters, AddProfiles, DistinctProfiles,
         PrefixesForVRFs, ProfileNames;
    rawConfigs := if c.rawConfig != "" then raws + [Raw(c.rawPriority, c.name, c.rawConfig)] else raws;
    assert rawConfigs == raws + RawsOf(c);
    routers := m;
    bfd := profiles;
    ghost var held := Held(m);
    var read, names, byVRF := ReadConfig(m, c, profiles);
    assert Held(m) == held;
    assert c.routers[..|c.routers|] == c.routers;
    if read.Err? { return false, m, profiles, raws; }
    var added := AddConfigRouters(env, c, names, byVRF, m);
    if added.Err? { return false, m, profiles, raws; }
    forall o | o in Held(added.value) && o !in held ensures fresh(o) {
      assert o in Held(added.value) - held;
    }
    return true, added.value, read.value, rawConfigs;
  }

  // ---- EVPN validation

  /** `validateEVPNConfig` */
  method ValidateEvpnConfig(r: RouterConfig) returns (ok: bool)
    ensures ok <==> NeighborPresent(r.Value()) && L3Alone(r.Value())
  {
    if r.evpn.None? { return true; }
    var hasEvpnNeighbor := false;
    var i := 0;
    while i < |r.neighbors|
      invariant i <= |r.neighbors|
      invariant !hasEvpnNeighbor ==> forall k | 0 <= k < i :: EVPN_FAMILY !in r.neighbors[k].addressFamilies
      invariant hasEvpnNeighbor ==> HasEvpnNeighbor(r.Value())
    {
      if EVPN_FAMILY in r.neighbors[i].addressFamilies {
        assert r.Value().neighbors[i] == r.neighbors[i].Value() && r.neighbors[i].Value() in r.Value().neighbors;
        hasEvpnNeighbor := true;
        break;
      }
      i := i + 1;
    }
    if !hasEvpnNeighbor {
      forall n | n in r.Value().neighbors ensures EVPN_FAMILY !in n.addressFamilies {
        var k :| 0 <= k < |r.Value().neighbors| && r.Value().neighbors[k] == n;
        assert n == r.neighbors[k].Value();
      }
    }
    if NeedsNeighbor(r.evpn.value) && !hasEvpnNeighbor { return false; }
    return !(r.evpn.value.l3.Some? && |r.neighbors| > 0);
  }

  ghost predicate NewVnis(uses: seq<nat>, seen: set<nat>) { Distinct(uses) && forall x | x in uses :: x !in seen }

  lemma NextVni(uses: seq<nat>, seen: set<nat>, i: nat)
    requires i < |uses| && NewVnis(uses[..i], seen)
    ensures uses[i] in seen + Elems(uses[..i]) ==> !NewVnis(uses, seen)
    ensures uses[i] !in seen + Elems(uses[..i]) ==> NewVnis(uses[..i + 1], seen)
    ensures Elems(uses[..i + 1]) == Elems(uses[..i]) + {uses[i]}
  {
    assert uses[..i + 1] == uses[..i] + [uses[i]];
    if uses[i] in uses[..i] { var j :| 0 <= j < i && uses[..i][j] == uses[i]; assert uses[j] == uses[i]; }
  }

  /** The VNIs of one router, L2 first, against those seen before. */
  method SeeVnis(r: RouterConfig, seen: set<nat>) returns (res: Result<set<nat>>)
    ensures res.Ok? <==> NewVnis(VniUses(r.Value()), seen)
    ensures res.Ok? ==> res.value == seen + Elems(VniUses(r.Value()))
  {
    hide NewVnis;
    ghost var uses := VniUses(r.Value());
    NoVnis(seen);
    if r.evpn.None? { return Ok(seen); }
    var e := r.evpn.value;
    var now := seen;
    assert uses[..0] == [];
    for i := 0 to |e.l2|
      invariant NewVnis(uses[..i], seen) && now == seen + Elems(uses[..i])
    {
      NextVni(uses, seen, i);
      if e.l2[i].vni in now { return Err; }
      now := now + {e.l2[i].vni};
    }
    if e.l3.Some? {
      NextVni(uses, seen, |e.l2|);
      if e.l3.value.vni in now { return Err; }
      now := now + {e.l3.value.vni};
    }
    assert uses[..|uses|] == uses;
    return Ok(now);
  }

  lemma NoVnis(seen: set<nat>)
    ensures NewVnis([], seen)
  {}

  /** VNIs that the routers of `vrfs` use. */
  ghost function UsedBy(m: map<string, Router>, vrfs: set<string>): (s: set<nat>)
    requires vrfs <= m.Keys
  {
    set v, x | v in vrfs && x in VniUses(m[v]) :: x
  }

  ghost function Restrict(m: map<string, Router>, vrfs: set<string>): (r: map<string, Router>)
    requires vrfs <= m.Keys
  {
    map v | v in vrfs :: m[v]
  }

  lemma NextRouter(m: map<string, Router>, vrfs: set<string>, v: string)
    requires vrfs <= m.Keys && v in m && v !in vrfs && UniqueVNIs(Restrict(m, vrfs))
    ensures NewVnis(VniUses(m[v]), UsedBy(m, vrfs)) ==> UniqueVNIs(Restrict(m, vrfs + {v}))
    ensures !NewVnis(VniUses(m[v]), UsedBy(m, vrfs)) ==> !UniqueVNIs(m)
    ensures UsedBy(m, vrfs + {v}) == UsedBy(m, vrfs) + Elems(VniUses(m[v]))
  {
    hide VniUses;
    if NewVnis(VniUses(m[v]), UsedBy(m, vrfs)) {
      var r := Restrict(m, vrfs + {v});
      assert forall w | w in vrfs :: r[w] == Restrict(m, vrfs)[w];
      forall a, b | a in r && b in r && a != b ensures forall x | x in VniUses(r[a]) :: x !in VniUses(r[b]) {
        if a == v {
          assert forall x | x in VniUses(m[b]) :: x in UsedBy(m, vrfs);
        } else if b == v {
          assert forall x | x in VniUses(m[a]) :: x in UsedBy(m, vrfs);
        }
      }
    }
  }

  /** `validateUniqueVNIs`: the routers are visited in any order. */
  method ValidateUniqueVNIs(m: map<string, RouterConfig>) returns (ok: bool)
    ensures ok <==> UniqueVNIs(RouterValues(m))
  {
    hide RouterConfig.Value, VniUses, NewVnis, UniqueVNIs;
    ghost var values := RouterValues(m);
    var rest := m.Keys;
    var seen: set<nat> := {};
    NoRouters(values);
    while rest != {}
      invariant rest <= m.Keys && values == RouterValues(m)
      invariant UniqueVNIs(Restrict(values, m.Keys - rest)) && seen == UsedBy(values, m.Keys - rest)
      decreases rest
    {
      var v :| v in rest;
      NextRouter(values, m.Keys - rest, v);
      var now := SeeVnis(m[v], seen);
      assert m[v].Value() == values[v] && RouterValues(m) == values;
      if now.Err? { return false; }
      seen := now.value;
      assert m.Keys - rest + {v} == m.Keys - (rest - {v});
      rest := rest - {v};
    }
    assert Restrict(values, m.Keys - {}) == values;
    return true;
  }

  lemma NoRouters(m: map<string, Router>)
    ensures UniqueVNIs(Restrict(m, {})) && UsedBy(m, {}) == {}
  {}

  /** `validateEVPN` */
  method ValidateEvpn(m: map<string, RouterConfig>) returns (ok: bool)
    ensures ok <==> ValidEvpn(RouterValues(m))
    ensures RouterValues(m) == old(RouterValues(m)) && Held(m) == old(Held(m))
  {
    hide RouterConfig.Value, UniqueVNIs, NeighborPresent, L3Alone;
    ghost var values := RouterValues(m);
    var rest := m.Keys;
    while rest != {}
      invariant rest <= m.Keys && values == RouterValues(m)
      invariant forall v | v in m && v !in rest :: NeighborPresent(values[v]) && L3Alone(values[v])
      decreases rest
    {
      var v :| v in rest;
      var valid := ValidateEvpnConfig(m[v]);
      assert m[v].Value() == values[v] && RouterValues(m) == values;
      if !valid { return false; }
      rest := rest - {v};
    }
    ok := ValidateUniqueVNIs(m);
    assert RouterValues(m) == values;
  }

  // ---- the conversion

  /** What `apiToFRR` returns: the router objects, sorted by VRF. */
  datatype Output = Output(routers: seq<RouterConfig>, bfdProfiles: seq<BfdProfile>, extraConfig: string)

  ghost function AllNeighbors(rs: seq<RouterConfig>): (s: set<object>)
    reads rs
    ensures forall r | r in rs :: forall n | n in r.neighbors :: n in s
  {
    set r, n | r in rs && n in r.neighbors :: n as object
  }

  ghost function RouterList(rs: seq<RouterConfig>): (l: seq<Router>)
    reads rs, AllNeighbors(rs)
    ensures |l| == |rs| && forall i | 0 <= i < |rs| :: l[i] == rs[i].Value()
  {
    if rs == [] then [] else
      var last := rs[|rs| - 1];
      assert last in rs && rs == rs[..|rs| - 1] + [last];
      RouterList(rs[..|rs| - 1]) + [last.Value()]
  }

  lemma SortedValues(m: map<string, RouterConfig>)
    ensures RouterList(SortByName(m)) == SortByName(RouterValues(m))
  {
    hide SortByName, RouterConfig.Value;
    var objects, values := SortByName(m), RouterValues(m);
    SortByNameLength(m);
    SortByNameLength(values);
    assert m.Keys == values.Keys;
    forall i | 0 <= i < |objects| ensures objects[i].Value() == SortByName(values)[i] {
      SortByNameAt(m, i);
      SortByNameAt(values, i);
    }
  }

  /** `joinRawConfigs` */
  method JoinRawConfigs(raw: seq<Raw>) returns (text: string)
    ensures text == JoinRaws(raw)
  {
    var sorted := SortRaws(raw);
    text := "";
    for i := 0 to |sorted|
      invariant text == Concat(sorted[..i])
    {
      text := text + sorted[i].config;
      text := text + "\n";
      assert sorted[..i + 1][..i] == sorted[..i];
    }
    assert sorted[..|sorted|] == sorted;
  }

  /** `apiToFRR`: the conversion on objects is the conversion on values. */
  method ApiToFRR(env: Env, cs: seq<ApiConfig>) returns (res: Result<Output>)
    ensures res.Ok? ==> forall r | r in res.value.routers :: fresh(r)
    ensures res.Ok? <==> Convert(env, cs).Ok?
    ensures res.Ok? ==>
              Convert(env, cs) == Ok(FrrConfig("", "", RouterList(res.value.routers), res.value.bfdProfiles,
                                               res.value.extraConfig))
  {
    hide RouterConfig.Value, Owned, RouterValues, AddConfig, ValidEvpn, JoinRaws, SortByName, RouterList;
    var routers: map<string, RouterConfig> := map[];
    var profiles: map<string, BfdProfile> := map[];
    var raws: seq<Raw> := [];
    NothingHeld();
    for i := 0 to |cs|
      invariant Owned(routers) && fresh(Held(routers))
      invariant Fold(env, cs[..i]) == Ok(State(RouterValues(routers), profiles, raws))
    {
      assert cs[..i + 1][..i] == cs[..i];
      ghost var held := Held(routers);
      var ok, r, p, w := ConfigToFRR(env, cs[i], routers, profiles, raws);
      if !ok {
        FoldFails(env, cs, i + 1);
        return Err;
      }
      forall o | o in Held(r) ensures fresh(o) {
        assert o in held || o in Held(r) - held;
      }
      routers, profiles, raws := r, p, w;
    }
    assert cs[..|cs|] == cs;
    var text := JoinRawConfigs(raws);
    var valid := ValidateEvpn(routers);
    if !valid { return Err; }
    SortedValues(routers);
    SortedHeld(routers);
    return Ok(Output(SortByName(routers), SortByName(profiles), text));
  }

  lemma SortedHeld(m: map<string, RouterConfig>)
    ensures forall r | r in SortByName(m) :: r in Held(m)
  {
    hide SortByName;
  }

  lemma NothingHeld()
    ensures Owned(map[]) && Held(map[]) == {} && RouterValues(map[]) == map[]
  {}

  lemma {:induction false} FoldFails(env: Env, cs: seq<ApiConfig>, i: nat)
    requires i <= |cs| && Fold(env, cs[..i]).Err?
    ensures Fold(env, cs).Err?
    decreases |cs| - i
  {
    hide AddConfig;
    if i == |cs| {
      assert cs[..i] == cs;
    } else {
      assert cs[..i + 1][..i] == cs[..i];
      FoldFails(env, cs, i + 1);
    }
  }
}

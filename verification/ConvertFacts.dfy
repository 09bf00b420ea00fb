/**
 * The central theorem: the conversion succeeds exactly when every configuration translates on
 * its own, no two facts contradict each other, and every EVPN feature that needs a neighbor has
 * one; and then the result says exactly what the configurations say.
 */
module ConvertFacts {
  import opened Ordering
  import opened Configs
  import opened Merge
  import opened Facts
  import opened MergeFacts
  import opened EvpnFacts
  import opened RouterFacts
  import opened Api
  import opened Translate
  import opened TranslateFacts
  import opened Conversion
  import opened FoldFacts

  // ---- what configurations say

  ghost predicate ConfigSays(env: Env, c: ApiConfig, f: Fact) {
    match f
    case At(vrf, rf) => TranslateConfig(env, c).Ok? && SeenSays(TranslateConfig(env, c).value, vrf, rf)
    case Profile(p) => p in c.bfdProfiles
  }

  ghost predicate SaidBy(env: Env, cs: seq<ApiConfig>, f: Fact) {
    exists c :: c in cs && ConfigSays(env, c, f)
  }

  ghost predicate Contradict(env: Env, a: ApiConfig, b: ApiConfig) {
    exists f, g :: ConfigSays(env, a, f) && ConfigSays(env, b, g) && Conflict(f, g)
  }

  /** Every configuration translates, and no two of them, nor any with itself, contradict each other. */
  ghost predicate Consistent(env: Env, cs: seq<ApiConfig>) {
    && (forall c | c in cs :: TranslateConfig(env, c).Ok?)
    && (forall a, b | a in cs && b in cs :: !Contradict(env, a, b))
  }

  ghost predicate Needs(f: RouterFact) {
    (f.HasEvpn? && (f.advertiseVNIs == VNIS_ALL || f.advertiseSVI)) || f.L2?
  }

  /** Some configuration supplies the EVPN neighbor that another one's features need. */
  ghost predicate Supplied(env: Env, cs: seq<ApiConfig>) {
    forall vrf, f | SaidBy(env, cs, At(vrf, f)) && Needs(f) ::
      exists id :: SaidBy(env, cs, At(vrf, Peer(id, Activates(EVPN_FAMILY))))
  }

  // ---- all routers, profiles and snippets, in reading order

  ghost function TranslateAll(env: Env, cs: seq<ApiConfig>): seq<Router> {
    if cs == [] then []
    else TranslateAll(env, cs[..|cs| - 1]) +
         (var t := TranslateConfig(env, cs[|cs| - 1]); if t.Ok? then t.value else [])
  }

  ghost function AllProfiles(cs: seq<ApiConfig>): seq<BfdProfile> {
    if cs == [] then [] else AllProfiles(cs[..|cs| - 1]) + cs[|cs| - 1].bfdProfiles
  }

  ghost function AllRaws(cs: seq<ApiConfig>): seq<Raw> {
    if cs == [] then [] else AllRaws(cs[..|cs| - 1]) + RawsOf(cs[|cs| - 1])
  }

  ghost predicate Translates(env: Env, cs: seq<ApiConfig>) { forall c | c in cs :: TranslateConfig(env, c).Ok? }

  lemma {:induction false} RawRoutersFacts(env: Env, c: ApiConfig, rs: seq<ApiRouter>)
    requires RawRouters(env, c, rs).Ok?
    ensures |RawRouters(env, c, rs).value| == |rs|
    ensures forall i | 0 <= i < |rs| ::
              RawRouter(env, rs[i], PrefixesForVRFs(c.routers), ProfileNames(c.bfdProfiles)) ==
                  Ok(RawRouters(env, c, rs).value[i])
  {
    hide RawRouter;
    if rs != [] { RawRoutersFacts(env, c, rs[..|rs| - 1]); }
  }

  lemma TranslatedWf(env: Env, c: ApiConfig, r: Router)
    requires TranslateConfig(env, c).Ok? && r in TranslateConfig(env, c).value
    ensures WfRouter(r)
    ensures exists i :: 0 <= i < |c.routers| &&
              SoundRouter(env.net, r, c.routers[i], PrefixesForVRFs(c.routers), ProfileNames(c.bfdProfiles))
  {
    hide RawRouter, SoundRouter, WfRouter, RawRouters;
    RawRoutersFacts(env, c, c.routers);
    var i :| 0 <= i < |c.routers| && TranslateConfig(env, c).value[i] == r;
    RawRouterFacts(env, c.routers[i], PrefixesForVRFs(c.routers), ProfileNames(c.bfdProfiles));
  }

  lemma {:induction false} TranslateAllFacts(env: Env, cs: seq<ApiConfig>)
    requires Translates(env, cs)
    ensures forall r :: r in TranslateAll(env, cs) <==> exists c :: c in cs && r in TranslateConfig(env, c).value
  {
    hide TranslateConfig;
    if cs != [] {
      var before, c := cs[..|cs| - 1], cs[|cs| - 1];
      assert cs == before + [c];
      TranslateAllFacts(env, before);
      assert forall d :: d in cs <==> d in before || d == c;
    }
  }

  lemma {:induction false} AllProfilesFacts(cs: seq<ApiConfig>)
    ensures forall p :: p in AllProfiles(cs) <==> exists c :: c in cs && p in c.bfdProfiles
  {
    if cs != [] {
      var before, c := cs[..|cs| - 1], cs[|cs| - 1];
      assert cs == before + [c];
      AllProfilesFacts(before);
      assert forall d :: d in cs <==> d in before || d == c;
    }
  }

  // ---- the fold

  ghost predicate FoldOk(env: Env, cs: seq<ApiConfig>) {
    Translates(env, cs) && ClashFree(TranslateAll(env, cs)) && ProfilesAgree(AllProfiles(cs))
  }

  ghost predicate StateInv(env: Env, cs: seq<ApiConfig>, st: State) {
    && RoutersInv(st.routers, TranslateAll(env, cs))
    && ProfilesInv(st.profiles, AllProfiles(cs))
    && st.raws == AllRaws(cs)
  }

  lemma ClashFreePrefix(a: seq<Router>, b: seq<Router>)
    requires ClashFree(a + b)
    ensures ClashFree(a)
  {
    hide RoutersClash;
    assert forall r | r in a :: r in a + b;
  }

  lemma ProfilesAgreePrefix(a: seq<BfdProfile>, b: seq<BfdProfile>)
    requires ProfilesAgree(a + b)
    ensures ProfilesAgree(a)
  {
    assert forall r | r in a :: r in a + b;
  }

  lemma FoldEmpty(env: Env)
    ensures FoldOk(env, []) && StateInv(env, [], State(map[], map[], []))
  {}

  lemma AddConfigFacts(env: Env, before: seq<ApiConfig>, st: State, c: ApiConfig, cs: seq<ApiConfig>)
    requires cs == before + [c] && FoldOk(env, before) && StateInv(env, before, st)
    ensures AddConfig(env, st, c).Ok? <==> FoldOk(env, cs)
    ensures AddConfig(env, st, c).Ok? ==> StateInv(env, cs, AddConfig(env, st, c).value)
  {
    hide TranslateConfig, RoutersInv, ClashFree, ProfilesInv, ProfilesAgree, AddRouters, AddProfiles, WfRouter;
    assert cs[..|cs| - 1] == before && cs[|cs| - 1] == c;
    assert forall d :: d in cs <==> d in before || d == c;
    AddProfilesFacts(st.profiles, AllProfiles(before), c.bfdProfiles);
    if TranslateConfig(env, c).Ok? {
      var rs := TranslateConfig(env, c).value;
      forall r | r in rs ensures WfRouter(r) { TranslatedWf(env, c, r); }
      AddRoutersFacts(st.routers, TranslateAll(env, before), rs);
    }
  }

  lemma {:induction false} FoldUnderstood(env: Env, cs: seq<ApiConfig>)
    ensures Fold(env, cs).Ok? <==> FoldOk(env, cs)
    ensures Fold(env, cs).Ok? ==> StateInv(env, cs, Fold(env, cs).value)
  {
    hide TranslateConfig, ClashFree, ProfilesAgree, StateInv, AddConfig;
    if cs == [] {
      FoldEmpty(env);
    } else {
      var before, c := cs[..|cs| - 1], cs[|cs| - 1];
      assert cs == before + [c];
      FoldUnderstood(env, before);
      if Fold(env, before).Ok? {
        AddConfigFacts(env, before, Fold(env, before).value, c, cs);
      } else if FoldOk(env, cs) {
        assert forall d | d in before :: d in cs;
        ClashFreePrefix(TranslateAll(env, before), TranslateConfig(env, c).value);
        ProfilesAgreePrefix(AllProfiles(before), c.bfdProfiles);
        assert false;
      }
    }
  }

  // ---- from routers to configurations

  lemma AllSays(env: Env, cs: seq<ApiConfig>, vrf: string, f: RouterFact)
    requires Translates(env, cs)
    ensures SeenSays(TranslateAll(env, cs), vrf, f) <==> SaidBy(env, cs, At(vrf, f))
  {
    hide TranslateConfig, RouterSays, TranslateAll;
    TranslateAllFacts(env, cs);
    if SeenSays(TranslateAll(env, cs), vrf, f) {
      var r :| r in TranslateAll(env, cs) && r.vrf == vrf && RouterSays(r, f);
      var c :| c in cs && r in TranslateConfig(env, c).value;
      assert ConfigSays(env, c, At(vrf, f));
    }
    if SaidBy(env, cs, At(vrf, f)) {
      var c :| c in cs && ConfigSays(env, c, At(vrf, f));
      var r :| r in TranslateConfig(env, c).value && r.vrf == vrf && RouterSays(r, f);
      assert r in TranslateAll(env, cs);
    }
  }

  ghost predicate MergeConflict(f: Fact, g: Fact) {
    || (f.At? && g.At? && f.vrf == g.vrf && RouterConflict(f.fact, g.fact))
    || (f.Profile? && g.Profile? && f.profile.name == g.profile.name && f.profile != g.profile)
  }

  ghost predicate MergeConsistent(env: Env, cs: seq<ApiConfig>) {
    forall f, g | SaidBy(env, cs, f) && SaidBy(env, cs, g) :: !MergeConflict(f, g)
  }

  lemma ClashFreeSays(seen: seq<Router>)
    ensures ClashFree(seen) <==>
            forall vrf, f, g | SeenSays(seen, vrf, f) && SeenSays(seen, vrf, g) :: !RouterConflict(f, g)
  {
    hide RouterSays, RouterConflict;
    if ClashFree(seen) {
      forall vrf, f, g | SeenSays(seen, vrf, f) && SeenSays(seen, vrf, g) ensures !RouterConflict(f, g) {
        var r :| r in seen && r.vrf == vrf && RouterSays(r, f);
        var t :| t in seen && t.vrf == vrf && RouterSays(t, g);
        assert !RoutersClash(r, t);
      }
    } else {
      var r, t :| r in seen && t in seen && r.vrf == t.vrf && RoutersClash(r, t);
      var f, g :| RouterSays(r, f) && RouterSays(t, g) && RouterConflict(f, g);
      assert SeenSays(seen, r.vrf, f) && SeenSays(seen, r.vrf, g);
    }
  }

  lemma FoldOkSays(env: Env, cs: seq<ApiConfig>)
    ensures FoldOk(env, cs) <==> Translates(env, cs) && MergeConsistent(env, cs)
  {
    hide TranslateConfig, TranslateAll, RouterConflict, ClashFree, SeenSays;
    if Translates(env, cs) {
      var seen := TranslateAll(env, cs);
      ClashFreeSays(seen);
      AllProfilesFacts(cs);
      if ClashFree(seen) && ProfilesAgree(AllProfiles(cs)) {
        forall f, g | SaidBy(env, cs, f) && SaidBy(env, cs, g) ensures !MergeConflict(f, g) {
          if f.At? && g.At? && f.vrf == g.vrf {
            AllSays(env, cs, f.vrf, f.fact); AllSays(env, cs, g.vrf, g.fact);
          } else if f.Profile? && g.Profile? {
            assert f.profile in AllProfiles(cs) && g.profile in AllProfiles(cs);
          }
        }
      }
      if MergeConsistent(env, cs) {
        forall vrf, f, g | SeenSays(seen, vrf, f) && SeenSays(seen, vrf, g) ensures !RouterConflict(f, g) {
          AllSays(env, cs, vrf, f); AllSays(env, cs, vrf, g);
          assert !MergeConflict(At(vrf, f), At(vrf, g));
        }
        forall p, q | p in AllProfiles(cs) && q in AllProfiles(cs) && p.name == q.name ensures p == q {
          ProfileSaid(env, cs, p); ProfileSaid(env, cs, q);
          assert !MergeConflict(Profile(p), Profile(q));
        }
      }
    }
  }

  lemma ProfileSaid(env: Env, cs: seq<ApiConfig>, p: BfdProfile)
    ensures p in AllProfiles(cs) <==> SaidBy(env, cs, Profile(p))
  {
    hide TranslateConfig, AllProfiles;
    AllProfilesFacts(cs);
    if c :| c in cs && p in c.bfdProfiles { assert ConfigSays(env, c, Profile(p)); }
  }

  // ---- EVPN validation

  ghost predicate MapSaysFact(m: map<string, Router>, f: Fact) {
    f.At? && f.vrf in m && RouterSays(m[f.vrf], f.fact)
  }

  ghost predicate NormalMap(m: map<string, Router>) { forall v | v in m :: NormalRouter(m[v]) && m[v].vrf == v }

  ghost predicate EvpnConsistent(m: map<string, Router>) {
    forall f, g | MapSaysFact(m, f) && MapSaysFact(m, g) :: !EvpnConflict(f, g)
  }

  ghost predicate UsesL2(r: Router, x: nat) { r.evpn.Some? && HasVni(r.evpn.value.l2, x) }

  ghost predicate UsesL3(r: Router, x: nat) {
    r.evpn.Some? && r.evpn.value.l3.Some? && r.evpn.value.l3.value.vni == x
  }

  lemma UsesSays(r: Router, x: nat)
    ensures UsesL2(r, x) <==> exists f :: RouterSays(r, L2(x, f))
    ensures UsesL3(r, x) <==> exists f :: RouterSays(r, L3(x, f))
  {
    hide VniSays;
    if UsesL2(r, x) {
      var v :| v in r.evpn.value.l2 && v.vni == x;
      SomeVniFact(v.props);
      var f := Targets(v.props.importRTs == [], v.props.exportRTs == []);
      assert L2Says(r.evpn.value.l2, x, f);
      assert RouterSays(r, L2(x, f));
    }
    if UsesL3(r, x) {
      var p := r.evpn.value.l3.value.props;
      SomeVniFact(p);
      assert RouterSays(r, L3(x, Targets(p.importRTs == [], p.exportRTs == [])));
    }
  }

  lemma PeersSay(r: Router)
    ensures r.neighbors != [] <==> exists id, f :: RouterSays(r, Peer(id, f))
  {
    if r.neighbors != [] {
      var n := r.neighbors[0];
      assert n in r.neighbors && NeighborSays(n, HasSession(SessionOf(n)));
      assert RouterSays(r, Peer(ID(n), HasSession(SessionOf(n))));
    }
  }

  lemma VniUsesSays(r: Router)
    ensures forall x :: x in VniUses(r) <==> UsesL2(r, x) || UsesL3(r, x)
  {
    if r.evpn.Some? {
      var l2 := r.evpn.value.l2;
      forall x ensures x in VniUses(r) <==> UsesL2(r, x) || UsesL3(r, x) {
        if UsesL2(r, x) {
          var v :| v in l2 && v.vni == x;
          var i :| 0 <= i < |l2| && l2[i] == v;
          assert VniUses(r)[i] == x;
        }
        if UsesL3(r, x) { assert VniUses(r)[|l2|] == x; }
        if x in VniUses(r) {
          var i :| 0 <= i < |VniUses(r)| && VniUses(r)[i] == x;
          if i < |l2| { assert l2[i] in l2; }
        }
      }
    }
  }

  lemma DistinctUses(r: Router)
    requires NormalRouter(r)
    ensures Distinct(VniUses(r)) <==> forall x :: !(UsesL2(r, x) && UsesL3(r, x))
  {
    hide WfRouter, NameSorted, NormalNeighbor, NormalProps, NormalL3, UsesL2, UsesL3, Distinct, VniUses, StrSorted;
    if x :| UsesL2(r, x) && UsesL3(r, x) { SharedUse(r, x); }
    if !Distinct(VniUses(r)) { var x := RepeatedUse(r); }
  }

  lemma SharedUse(r: Router, x: nat)
    requires UsesL2(r, x) && UsesL3(r, x)
    ensures !Distinct(VniUses(r))
  {
    var l2, u := r.evpn.value.l2, VniUses(r);
    var v :| v in l2 && v.vni == x;
    var i :| 0 <= i < |l2| && l2[i] == v;
    assert u[i] == x && u[|l2|] == x;
  }

  lemma RepeatedUse(r: Router) returns (x: nat)
    requires NormalEvpn(r.evpn) && !Distinct(VniUses(r))
    ensures UsesL2(r, x) && UsesL3(r, x)
  {
    hide NormalProps, NormalL3;
    var l2, u := r.evpn.value.l2, VniUses(r);
    var i, j :| 0 <= i < j < |u| && u[i] == u[j];
    assert forall i, j | 0 <= i < j < |l2| :: VniOf(l2[i]) != VniOf(l2[j]);
    assert j == |l2| && l2[i] in l2;
    x := u[i];
  }

  /** The merged routers pass the disputes part of `validateEVPN` exactly when no two facts dispute a VNI. */
  lemma EvpnUndisputedSays(m: map<string, Router>)
    requires NormalMap(m)
    ensures EvpnUndisputed(m) <==> EvpnConsistent(m)
  {
    hide RouterSays, NormalRouter, UsesL2, UsesL3, VniUses, Distinct, L3Alone;
    if EvpnUndisputed(m) { UndisputedIsConsistent(m); }
    if EvpnConsistent(m) { ConsistentIsUndisputed(m); }
  }

  lemma L3AloneSays(r: Router)
    ensures L3Alone(r) <==> !((exists x :: UsesL3(r, x)) && r.neighbors != [])
  {
    if r.evpn.Some? && r.evpn.value.l3.Some? { assert UsesL3(r, r.evpn.value.l3.value.vni); }
  }

  lemma VniFactUses(r: Router, f: RouterFact)
    requires RouterSays(r, f) && IsVni(f)
    ensures f.L2? ==> UsesL2(r, f.vni)
    ensures f.L3? ==> UsesL3(r, f.vni)
    ensures f.vni in VniUses(r)
  {
    hide VniSays;
    VniUsesSays(r);
  }

  lemma UndisputedIsConsistent(m: map<string, Router>)
    requires NormalMap(m) && EvpnUndisputed(m)
    ensures EvpnConsistent(m)
  {
    hide RouterSays, NormalRouter, UsesL2, VniUses;
    forall f, g | MapSaysFact(m, f) && MapSaysFact(m, g) ensures !EvpnConflict(f, g) {
      var r, t := m[f.vrf], m[g.vrf];
      if IsVni(f.fact) && IsVni(g.fact) {
        VniFactUses(r, f.fact); VniFactUses(t, g.fact);
        DistinctUses(r);
      } else if f.fact.L3? && g.fact.Peer? {
        VniFactUses(r, f.fact); PeersSay(t);
      } else if f.fact.Peer? && g.fact.L3? {
        VniFactUses(t, g.fact); PeersSay(r);
      }
    }
  }

  lemma ConsistentIsUndisputed(m: map<string, Router>)
    requires NormalMap(m) && EvpnConsistent(m)
    ensures EvpnUndisputed(m)
  {
    hide RouterSays, NormalRouter, UsesL2, UsesL3, VniUses, L3Alone, EvpnConsistent;
    forall v | v in m ensures L3Alone(m[v]) && Distinct(VniUses(m[v])) {
      var r := m[v];
      L3AloneSays(r);
      PeersSay(r);
      if x :| UsesL3(r, x) {
        UsesSays(r, x);
        var f :| RouterSays(r, L3(x, f));
        if id, g :| RouterSays(r, Peer(id, g)) {
          Disputed(m, At(v, L3(x, f)), At(v, Peer(id, g)));
        }
      }
      DistinctUses(r);
      forall x ensures !(UsesL2(r, x) && UsesL3(r, x)) { NotBoth(m, v, v, x); }
    }
    forall v, w, x | v in m && w in m && v != w && x in VniUses(m[v]) ensures x !in VniUses(m[w]) {
      VniUsesSays(m[v]); VniUsesSays(m[w]);
      NotBoth(m, v, w, x);
    }
  }

  lemma Disputed(m: map<string, Router>, f: Fact, g: Fact)
    requires MapSaysFact(m, f) && MapSaysFact(m, g) && EvpnConflict(f, g)
    ensures !EvpnConsistent(m)
  {}

  /** In a consistent map a VNI is not used twice. */
  lemma NotBoth(m: map<string, Router>, v: string, w: string, x: nat)
    requires EvpnConsistent(m) && v in m && w in m
    ensures !(UsesL2(m[v], x) && UsesL3(m[w], x))
    ensures v != w ==>
              !(UsesL2(m[v], x) && UsesL2(m[w], x)) && !(UsesL3(m[v], x) && UsesL3(m[w], x)) &&
                  !(UsesL3(m[v], x) && UsesL2(m[w], x))
  {
    hide RouterSays, UsesL2, UsesL3, EvpnConsistent;
    UsesSays(m[v], x); UsesSays(m[w], x);
    if UsesL2(m[v], x) && UsesL3(m[w], x) {
      var f :| RouterSays(m[v], L2(x, f));
      var g :| RouterSays(m[w], L3(x, g));
      Disputed(m, At(v, L2(x, f)), At(w, L3(x, g)));
    }
    if v != w && UsesL2(m[v], x) && UsesL2(m[w], x) {
      var f :| RouterSays(m[v], L2(x, f));
      var g :| RouterSays(m[w], L2(x, g));
      Disputed(m, At(v, L2(x, f)), At(w, L2(x, g)));
    }
    if v != w && UsesL3(m[v], x) && UsesL3(m[w], x) {
      var f :| RouterSays(m[v], L3(x, f));
      var g :| RouterSays(m[w], L3(x, g));
      Disputed(m, At(v, L3(x, f)), At(w, L3(x, g)));
    }
    if v != w && UsesL3(m[v], x) && UsesL2(m[w], x) {
      var f :| RouterSays(m[v], L3(x, f));
      var g :| RouterSays(m[w], L2(x, g));
      Disputed(m, At(v, L3(x, f)), At(w, L2(x, g)));
    }
  }

  // ---- needs

  lemma NeedsSays(r: Router)
    ensures r.evpn.Some? && NeedsNeighbor(r.evpn.value) <==> exists f :: RouterSays(r, f) && Needs(f)
    ensures HasEvpnNeighbor(r) <==> exists id :: RouterSays(r, Peer(id, Activates(EVPN_FAMILY)))
  {
    hide VniSays, ID;
    if r.evpn.Some? && NeedsNeighbor(r.evpn.value) {
      var e := r.evpn.value;
      var h := HasEvpn(OrDefault(e.advertiseVNIs, VNIS_DISABLED), e.advertiseSVI);
      assert RouterSays(r, h);
      if |e.l2| > 0 {
        var v := e.l2[0];
        SomeVniFact(v.props);
        assert v in e.l2;
        assert RouterSays(r, L2(v.vni, Targets(v.props.importRTs == [], v.props.exportRTs == [])));
      } else {
        assert Needs(h);
      }
    }
    if HasEvpnNeighbor(r) {
      var n :| n in r.neighbors && EVPN_FAMILY in n.addressFamilies;
      assert NeighborSays(n, Activates(EVPN_FAMILY));
      assert RouterSays(r, Peer(ID(n), Activates(EVPN_FAMILY)));
    }
  }

  // ---- the theorems

  /** The result says `f`: one of its routers or profiles does. */
  ghost predicate ResultSays(res: FrrConfig, f: Fact) {
    match f
    case At(vrf, rf) => SeenSays(res.routers, vrf, rf)
    case Profile(p) => p in res.bfdProfiles
  }

  ghost predicate AcceptFact(f: Fact) { f.At? && IsAccept(f.fact) }

  lemma StateSays(env: Env, cs: seq<ApiConfig>, st: State, f: Fact)
    requires Translates(env, cs) && StateInv(env, cs, st) && f.At? && !AcceptFact(f)
    ensures MapSaysFact(st.routers, f) <==> SaidBy(env, cs, f)
  {
    hide TranslateConfig, TranslateAll, RouterSays, NormalRouter, FiltersStand, ConfigSays;
    AllSays(env, cs, f.vrf, f.fact);
    var seen := TranslateAll(env, cs);
    if f.vrf in st.routers {
      assert RouterStands(st.routers[f.vrf], seen, f.vrf);
    } else {
      assert !SeenVRF(seen, f.vrf);
    }
  }

  lemma StateNormal(env: Env, cs: seq<ApiConfig>, st: State)
    requires StateInv(env, cs, st)
    ensures NormalMap(st.routers)
  {
    hide TranslateConfig, TranslateAll, RouterSays, NormalRouter, FiltersStand;
    forall v | v in st.routers ensures NormalRouter(st.routers[v]) && st.routers[v].vrf == v {
      assert RouterStands(st.routers[v], TranslateAll(env, cs), v);
    }
  }

  ghost predicate NoneConflict(env: Env, cs: seq<ApiConfig>) {
    forall f, g | SaidBy(env, cs, f) && SaidBy(env, cs, g) :: !Conflict(f, g)
  }

  lemma ConsistentSays(env: Env, cs: seq<ApiConfig>)
    ensures Consistent(env, cs) <==> Translates(env, cs) && NoneConflict(env, cs)
  {
    hide TranslateConfig, ConfigSays, Conflict;
    if Consistent(env, cs) {
      forall f, g | SaidBy(env, cs, f) && SaidBy(env, cs, g) ensures !Conflict(f, g) {
        var a :| a in cs && ConfigSays(env, a, f);
        var b :| b in cs && ConfigSays(env, b, g);
        assert !Contradict(env, a, b);
      }
    }
    if a, b :| a in cs && b in cs && Contradict(env, a, b) {
      var f, g :| ConfigSays(env, a, f) && ConfigSays(env, b, g) && Conflict(f, g);
      assert SaidBy(env, cs, f) && SaidBy(env, cs, g);
      assert !NoneConflict(env, cs);
    }
  }

  /**
   * What is undisputed: everything but the EVPN neighbor requirement passes exactly when every
   * configuration translates and no two facts contradict each other.
   */
  lemma UndisputedTheorem(env: Env, cs: seq<ApiConfig>)
    ensures Undisputed(env, cs) <==> Consistent(env, cs)
  {
    hide TranslateConfig, TranslateAll, StateInv, FoldOk, NoneConflict, MergeConsistent, Consistent, EvpnUndisputed,
         EvpnConsistent, Fold, Translates;
    FoldUnderstood(env, cs);
    FoldOkSays(env, cs);
    ConsistentSays(env, cs);
    if Fold(env, cs).Ok? {
      var st := Fold(env, cs).value;
      StateNormal(env, cs, st);
      EvpnUndisputedSays(st.routers);
      ConflictSplit(env, cs, st);
    } else if Translates(env, cs) {
      MergeConflictsCount(env, cs);
    }
  }

  lemma MergeConflictsCount(env: Env, cs: seq<ApiConfig>)
    ensures NoneConflict(env, cs) ==> MergeConsistent(env, cs)
  {
    hide SaidBy, RouterConflict, EvpnConflict;
  }

  /** `g` can take the place of `f` in an EVPN dispute, and is about a VNI or a session. */
  ghost predicate StandIn(f: Fact, g: Fact) {
    && f.At? && g.At? && g.vrf == f.vrf && (IsVni(f.fact) ==> g == f)
    && (f.fact.Peer? ==> g.fact.Peer? && g.fact.peer.HasSession?)
  }

  lemma EvpnWitness(env: Env, cs: seq<ApiConfig>, f: Fact) returns (g: Fact)
    requires f.At? && (IsVni(f.fact) || f.fact.Peer?) && SaidBy(env, cs, f)
    ensures StandIn(f, g) && SaidBy(env, cs, g)
  {
    hide TranslateConfig, NeighborSays;
    if f.fact.Peer? {
      var c :| c in cs && ConfigSays(env, c, f);
      var r :| r in TranslateConfig(env, c).value && r.vrf == f.vrf && RouterSays(r, f.fact);
      var n :| n in r.neighbors && ID(n) == f.fact.id && NeighborSays(n, f.fact.peer);
      g := At(f.vrf, Peer(ID(n), HasSession(SessionOf(n))));
      SessionSaid(n);
      assert PeerSays(r.neighbors, ID(n), HasSession(SessionOf(n)));
      assert RouterSays(r, g.fact);
      assert ConfigSays(env, c, g);
    } else {
      g := f;
    }
  }

  lemma ConflictSplit(env: Env, cs: seq<ApiConfig>, st: State)
    requires Translates(env, cs) && StateInv(env, cs, st) && MergeConsistent(env, cs)
    ensures NoneConflict(env, cs) <==> EvpnConsistent(st.routers)
  {
    hide TranslateConfig, StateInv, SaidBy, RouterConflict, Translates, EvpnConsistent, MapSaysFact;
    if EvpnConsistent(st.routers) {
      forall f, g | SaidBy(env, cs, f) && SaidBy(env, cs, g) ensures !Conflict(f, g) {
        assert !MergeConflict(f, g);
        if EvpnConflict(f, g) {
          var f' := EvpnWitness(env, cs, f);
          var g' := EvpnWitness(env, cs, g);
          StateSays(env, cs, st, f'); StateSays(env, cs, st, g');
          Disputed(st.routers, f', g');
        }
      }
    } else {
      var f, g := SomeDispute(st.routers);
      EvpnDisputeSaid(env, cs, st, f, g);
    }
  }

  lemma SomeDispute(m: map<string, Router>) returns (f: Fact, g: Fact)
    requires !EvpnConsistent(m)
    ensures MapSaysFact(m, f) && MapSaysFact(m, g) && EvpnConflict(f, g)
  {
    f, g :| MapSaysFact(m, f) && MapSaysFact(m, g) && EvpnConflict(f, g);
  }

  lemma MapWitness(m: map<string, Router>, f: Fact) returns (g: Fact)
    requires MapSaysFact(m, f) && (IsVni(f.fact) || f.fact.Peer?)
    ensures StandIn(f, g) && MapSaysFact(m, g)
  {
    hide NeighborSays;
    if f.fact.Peer? {
      var r := m[f.vrf];
      var n :| n in r.neighbors && ID(n) == f.fact.id && NeighborSays(n, f.fact.peer);
      SessionSaid(n);
      assert PeerSays(r.neighbors, ID(n), HasSession(SessionOf(n)));
      g := At(f.vrf, Peer(ID(n), HasSession(SessionOf(n))));
    } else {
      g := f;
    }
  }

  lemma EvpnDisputeSaid(env: Env, cs: seq<ApiConfig>, st: State, f: Fact, g: Fact)
    requires Translates(env, cs) && StateInv(env, cs, st)
    requires MapSaysFact(st.routers, f) && MapSaysFact(st.routers, g) && EvpnConflict(f, g)
    ensures !NoneConflict(env, cs)
  {
    hide TranslateConfig, StateInv, SaidBy, RouterConflict, Translates, MapSaysFact;
    var f' := MapWitness(st.routers, f);
    var g' := MapWitness(st.routers, g);
    StateSays(env, cs, st, f'); StateSays(env, cs, st, g');
    assert EvpnConflict(f', g') && Conflict(f', g');
  }

  lemma SuppliedSays(env: Env, cs: seq<ApiConfig>, st: State)
    requires Translates(env, cs) && StateInv(env, cs, st)
    ensures NeighborsPresent(st.routers) <==> Supplied(env, cs)
  {
    hide TranslateConfig, StateInv, SaidBy, RouterSays, Translates, HasEvpnNeighbor, NeedsNeighbor;
    var m := st.routers;
    if NeighborsPresent(m) {
      forall vrf, f | SaidBy(env, cs, At(vrf, f)) && Needs(f)
        ensures exists id :: SaidBy(env, cs, At(vrf, Peer(id, Activates(EVPN_FAMILY)))) {
        StateSays(env, cs, st, At(vrf, f));
        NeedsSays(m[vrf]);
        assert NeighborPresent(m[vrf]);
        var id :| RouterSays(m[vrf], Peer(id, Activates(EVPN_FAMILY)));
        StateSays(env, cs, st, At(vrf, Peer(id, Activates(EVPN_FAMILY))));
      }
    }
    if Supplied(env, cs) {
      forall v | v in m ensures NeighborPresent(m[v]) {
        NeedsSays(m[v]);
        if f :| RouterSays(m[v], f) && Needs(f) {
          StateSays(env, cs, st, At(v, f));
          var id :| SaidBy(env, cs, At(v, Peer(id, Activates(EVPN_FAMILY))));
          StateSays(env, cs, st, At(v, Peer(id, Activates(EVPN_FAMILY))));
        }
      }
    }
  }

  /** When `apiToFRR` succeeds. */
  lemma ConversionTheorem(env: Env, cs: seq<ApiConfig>)
    ensures Convert(env, cs).Ok? <==> Consistent(env, cs) && Supplied(env, cs)
  {
    hide TranslateConfig, StateInv, FoldOk, Consistent, EvpnUndisputed, Fold, Translates, Supplied, NeighborsPresent,
         MergeConsistent;
    UndisputedTheorem(env, cs);
    FoldUnderstood(env, cs);
    FoldOkSays(env, cs);
    if Fold(env, cs).Ok? { SuppliedSays(env, cs, Fold(env, cs).value); }
  }

  function VrfOf(r: Router): (v: string) { r.vrf }
  function NameOf(p: BfdProfile): (s: string) { p.name }

  ghost predicate NormalConfig(res: FrrConfig) {
    && NameSorted(res.routers, VrfOf) && (forall r | r in res.routers :: NormalRouter(r))
    && NameSorted(res.bfdProfiles, NameOf)
  }

  lemma RenderSays(m: map<string, Router>, vrf: string, f: RouterFact)
    requires NormalMap(m)
    ensures SeenSays(SortByName(m), vrf, f) <==> MapSaysFact(m, At(vrf, f))
  {
    hide NormalRouter, RouterSays;
    var s := SortByName(m);
    if SeenSays(s, vrf, f) {
      var r :| r in s && r.vrf == vrf && RouterSays(r, f);
      var k :| k in m && m[k] == r;
    }
    if MapSaysFact(m, At(vrf, f)) { assert m[vrf] in s; }
  }

  lemma ResultParts(env: Env, cs: seq<ApiConfig>)
    requires Convert(env, cs).Ok?
    ensures Translates(env, cs) && Fold(env, cs).Ok?
    ensures StateInv(env, cs, Fold(env, cs).value) && NormalMap(Fold(env, cs).value.routers)
    ensures Convert(env, cs).value == Render(Fold(env, cs).value)
    ensures ValidEvpn(Fold(env, cs).value.routers)
  {
    hide TranslateConfig, StateInv, NormalMap, Fold, ClashFree, ProfilesAgree, ValidEvpn, TranslateAll, AllProfiles;
    FoldUnderstood(env, cs);
    StateNormal(env, cs, Fold(env, cs).value);
  }

  /** What the result says: exactly what the configurations say, in normal form. */
  lemma ResultTheorem(env: Env, cs: seq<ApiConfig>, f: Fact)
    requires Convert(env, cs).Ok? && !AcceptFact(f)
    ensures ResultSays(Convert(env, cs).value, f) <==> SaidBy(env, cs, f)
  {
    hide TranslateConfig, StateInv, NormalMap, Fold, Convert, ValidEvpn, SaidBy, Translates;
    ResultParts(env, cs);
    var st := Fold(env, cs).value;
    match f
    case At(vrf, rf) =>
      RenderSays(st.routers, vrf, rf);
      StateSays(env, cs, st, f);
    case Profile(p) =>
      ProfileSaid(env, cs, p);
      ProfilesRender(env, cs, st, p);
  }

  lemma ProfilesRender(env: Env, cs: seq<ApiConfig>, st: State, p: BfdProfile)
    requires StateInv(env, cs, st)
    ensures p in SortByName(st.profiles) <==> p in AllProfiles(cs)
  {
    hide RoutersInv, AllProfiles, TranslateAll, AllRaws;
    if p in SortByName(st.profiles) { var k :| k in st.profiles && st.profiles[k] == p; }
    if p in AllProfiles(cs) { assert st.profiles[p.name] == p; }
  }

  lemma ResultNormal(env: Env, cs: seq<ApiConfig>)
    requires Convert(env, cs).Ok?
    ensures NormalConfig(Convert(env, cs).value)
  {
    hide TranslateConfig, Fold, Convert, ValidEvpn, Translates, NormalRouter, TranslateAll, AllProfiles, AllRaws,
         RoutersInv;
    ResultParts(env, cs);
    var st := Fold(env, cs).value;
    SortByNameSorted(st.routers, VrfOf);
    SortByNameSorted(st.profiles, NameOf);
    forall r | r in SortByName(st.routers) ensures NormalRouter(r) { var k :| k in st.routers && st.routers[k] == r; }
  }
}

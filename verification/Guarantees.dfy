/** What holds of every neighbor, tag, reference and VNI in a successful result, after all merges. */
module Guarantees {
  import opened Ordering
  import opened Decimal
  import opened Configs
  import opened Merge
  import opened Facts
  import opened MergeFacts
  import opened NeighborFacts
  import opened EvpnFacts
  import opened RouterFacts
  import opened Api
  import opened Translate
  import opened TranslateFacts
  import opened Conversion
  import opened FoldFacts
  import opened ConvertFacts
  import opened Origins
  import opened NormalForms
  import opened Normalising
  import opened Properties

  // ---- moving between the result and the configuration a fact comes from

  /** The one neighbor of the result with this ID in this VRF. */
  ghost predicate HasPeer(res: FrrConfig, r: Router, n: Neighbor) { r in res.routers && n in r.neighbors }

  lemma NeighborFactSaid(env: Env, cs: seq<ApiConfig>, r: Router, n: Neighbor, f: PeerFact)
    requires Convert(env, cs).Ok? && HasPeer(Convert(env, cs).value, r, n) && NeighborSays(n, f) && !f.Accepts?
    ensures SaidBy(env, cs, At(r.vrf, Peer(ID(n), f)))
  {
    hide Convert, NeighborSays, SaidBy, ID;
    assert PeerSays(r.neighbors, ID(n), f);
    assert RouterSays(r, Peer(ID(n), f));
    assert ResultSays(Convert(env, cs).value, At(r.vrf, Peer(ID(n), f)));
    ResultTheorem(env, cs, At(r.vrf, Peer(ID(n), f)));
  }

  lemma SameVrf(env: Env, cs: seq<ApiConfig>, r: Router, t: Router)
    requires Convert(env, cs).Ok? && r in Convert(env, cs).value.routers && t in Convert(env, cs).value.routers &&
              r.vrf == t.vrf
    ensures r == t && NormalRouter(r)
  {
    hide Convert, NormalRouter;
    ResultNormal(env, cs);
    var rs := Convert(env, cs).value.routers;
    var i :| 0 <= i < |rs| && rs[i] == r;
    var j :| 0 <= j < |rs| && rs[j] == t;
    assert VrfOf(r) == VrfOf(t);
  }

  lemma SaidInResult(env: Env, cs: seq<ApiConfig>, r: Router, f: RouterFact)
    requires Convert(env, cs).Ok? && r in Convert(env, cs).value.routers && SaidBy(env, cs, At(r.vrf, f)) &&
              !IsAccept(f)
    ensures RouterSays(r, f)
  {
    hide Convert, RouterSays, SaidBy;
    ResultTheorem(env, cs, At(r.vrf, f));
    var t :| t in Convert(env, cs).value.routers && t.vrf == r.vrf && RouterSays(t, f);
    SameVrf(env, cs, r, t);
  }

  lemma SaidOfNeighbor(env: Env, cs: seq<ApiConfig>, r: Router, n: Neighbor, f: PeerFact)
    requires Convert(env, cs).Ok? && HasPeer(Convert(env, cs).value, r, n) && !f.Accepts?
    requires SaidBy(env, cs, At(r.vrf, Peer(ID(n), f)))
    ensures NeighborSays(n, f)
  {
    hide Convert, SaidBy, ID, NeighborSays, NameSorted, WfRouter, NormalNeighbor, NormalEvpn, StrSorted;
    SaidInResult(env, cs, r, Peer(ID(n), f));
    SameVrf(env, cs, r, r);
    OnlyNeighbor(r.neighbors, n);
  }

  /** Where a fact about a neighbor comes from: a translated neighbor of one configuration. */
  lemma SourceOf(env: Env, cs: seq<ApiConfig>, vrf: string, id: string, f: PeerFact)
    returns (c: ApiConfig, a: ApiRouter, t: Router, m: Neighbor)
    requires Translates(env, cs) && SaidBy(env, cs, At(vrf, Peer(id, f)))
    ensures c in cs && a in c.routers && TranslateConfig(env, c).Ok? && t in TranslateConfig(env, c).value &&
              t.vrf == vrf
    ensures m in t.neighbors && ID(m) == id && NeighborSays(m, f)
    ensures SoundRouter(env.net, t, a, PrefixesForVRFs(c.routers), ProfileNames(c.bfdProfiles))
    ensures forall g | NeighborSays(m, g) :: SaidBy(env, cs, At(vrf, Peer(id, g)))
    ensures forall g | RouterSays(t, g) :: SaidBy(env, cs, At(vrf, g))
  {
    hide TranslateConfig, NeighborSays, ID, SoundRouter, SoundIn;
    c :| c in cs && ConfigSays(env, c, At(vrf, Peer(id, f)));
    t :| t in TranslateConfig(env, c).value && t.vrf == vrf && RouterSays(t, Peer(id, f));
    m :| m in t.neighbors && ID(m) == id && NeighborSays(m, f);
    TranslatedWf(env, c, t);
    var i :| 0 <= i < |c.routers| && SoundRouter(env.net, t, c.routers[i], PrefixesForVRFs(c.routers),
                                                 ProfileNames(c.bfdProfiles));
    a := c.routers[i];
    forall g | RouterSays(t, g) ensures SaidBy(env, cs, At(vrf, g)) {
      assert SeenSays(TranslateConfig(env, c).value, vrf, g);
      assert ConfigSays(env, c, At(vrf, g));
    }
    forall g | NeighborSays(m, g) ensures SaidBy(env, cs, At(vrf, Peer(id, g))) {
      assert PeerSays(t.neighbors, id, g);
      assert RouterSays(t, Peer(id, g));
    }
  }

  lemma ResultTranslates(env: Env, cs: seq<ApiConfig>)
    requires Convert(env, cs).Ok?
    ensures Translates(env, cs)
  {
    hide Convert, Fold, StateInv, NormalMap, ValidEvpn, Render, Translates;
    ResultParts(env, cs);
  }

  // ---- advertised prefixes are grounded

  ghost predicate HasNetwork(r: Router, v6: bool, p: string) { p in (if v6 then r.v6 else r.v4) }

  /** `p` is a prefix of the router itself or of a router it imports from. */
  ghost predicate Grounded(res: FrrConfig, r: Router, v6: bool, p: string) {
    || HasNetwork(r, v6, p)
    || exists v, t :: v in r.importVRFs && t in res.routers && t.vrf == ImportedVRF(v) && HasNetwork(t, v6, p)
  }

  lemma {:induction false} LastRouterOfVRF(rs: seq<ApiRouter>, v: string)
    requires v in PrefixesForVRFs(rs)
    ensures exists i :: 0 <= i < |rs| && rs[i].vrf == v && rs[i].prefixes == PrefixesForVRFs(rs)[v]
  {
    var before, last := rs[..|rs| - 1], rs[|rs| - 1];
    if last.vrf != v {
      LastRouterOfVRF(before, v);
      var i :| 0 <= i < |before| && before[i].vrf == v && before[i].prefixes == PrefixesForVRFs(before)[v];
      assert rs[i] == before[i];
    }
  }

  lemma ImportedNetwork(env: Env, cs: seq<ApiConfig>, c: ApiConfig, w: string, v6: bool, p: string)
    requires Translates(env, cs) && c in cs && w in PrefixesForVRFs(c.routers) && p in PrefixesForVRFs(c.routers)[w]
    requires CidrFamily(env.net, p) == FamilyOf(v6)
    ensures SaidBy(env, cs, At(w, Network(v6, p)))
  {
    hide PrefixesForVRFs, RawRouter, RawRouters, SoundIn, CidrFamily;
    LastRouterOfVRF(c.routers, w);
    var i :| 0 <= i < |c.routers| && c.routers[i].vrf == w && c.routers[i].prefixes == PrefixesForVRFs(c.routers)[w];
    assert TranslateConfig(env, c).Ok?;
    RawRoutersFacts(env, c, c.routers);
    var t := TranslateConfig(env, c).value[i];
    RawRouterFacts(env, c.routers[i], PrefixesForVRFs(c.routers), ProfileNames(c.bfdProfiles));
    assert RouterSays(t, Network(v6, p));
    assert SeenSays(TranslateConfig(env, c).value, w, Network(v6, p));
    assert ConfigSays(env, c, At(w, Network(v6, p)));
  }

  lemma SoundAdvertises(net: Net, m: Neighbor, a: ApiRouter, byVRF: map<string, seq<string>>, profiles: set<string>,
                        v6: bool, p: string)
    requires SoundIn(net, m, a, byVRF, profiles) && NeighborSays(m, Advertises(v6, p))
    ensures Reachable(p, a, byVRF) && CidrFamily(net, p) == FamilyOf(v6) && HasFamily(m.ipFamily, FamilyOf(v6))
  {
    hide NeighborSays, Reachable, CidrFamily, HasFamily;
    var inRouter :| ReachableAll(inRouter, a, byVRF) && SoundNeighbor(net, m, inRouter, profiles);
  }

  /**
   * Every prefix a neighbor is told is announced by the neighbor's own router or by a router it
   * imports from, in the result and not merely in the configuration that asked for it.
   */
  lemma AdvertisedIsGrounded(env: Env, cs: seq<ApiConfig>, r: Router, n: Neighbor, v6: bool, p: string)
    requires Convert(env, cs).Ok? && HasPeer(Convert(env, cs).value, r, n)
    requires NeighborSays(n, Advertises(v6, p))
    ensures Grounded(Convert(env, cs).value, r, v6, p)
  {
    hide Convert, NeighborSays, ID, SaidBy, CidrFamily, PrefixesForVRFs, ProfileNames, SoundIn, TranslateConfig,
         Translates;
    ResultTranslates(env, cs);
    NeighborFactSaid(env, cs, r, n, Advertises(v6, p));
    var c, a, t, m := SourceOf(env, cs, r.vrf, ID(n), Advertises(v6, p));
    SoundAdvertises(env.net, m, a, PrefixesForVRFs(c.routers), ProfileNames(c.bfdProfiles), v6, p);
    if p in a.prefixes {
      assert RouterSays(t, Network(v6, p));
      SaidInResult(env, cs, r, Network(v6, p));
    } else {
      var v :| v in a.imports && ImportedVRF(v) in PrefixesForVRFs(c.routers) &&
          p in PrefixesForVRFs(c.routers)[ImportedVRF(v)];
      assert RouterSays(t, Imports(v));
      SaidInResult(env, cs, r, Imports(v));
      ImportedNetwork(env, cs, c, ImportedVRF(v), v6, p);
      ResultTheorem(env, cs, At(ImportedVRF(v), Network(v6, p)));
      var s :| s in Convert(env, cs).value.routers && s.vrf == ImportedVRF(v) && RouterSays(s, Network(v6, p));
      assert HasNetwork(s, v6, p);
    }
  }

  // ---- tags

  lemma SoundTags(net: Net, m: Neighbor, a: ApiRouter, byVRF: map<string, seq<string>>, profiles: set<string>)
    requires SoundIn(net, m, a, byVRF, profiles)
    ensures forall f, t, p | NeighborSays(m, Tagged(f, t, p)) ::
              ListFamily(f) && NeighborSays(m, Advertises(f == "ipv6", p))
    ensures forall v6, h | NeighborSays(m, NextHop(v6, h)) :: HasFamily(m.ipFamily, FamilyOf(v6))
    ensures forall p | NeighborSays(m, UsesBfd(p)) :: p in profiles
  {
    hide NeighborSays, ReachableAll, HasFamily;
    var inRouter :| ReachableAll(inRouter, a, byVRF) && SoundNeighbor(net, m, inRouter, profiles);
  }

  lemma SourceSound(env: Env, c: ApiConfig, a: ApiRouter, t: Router, m: Neighbor)
    requires SoundRouter(env.net, t, a, PrefixesForVRFs(c.routers), ProfileNames(c.bfdProfiles)) && m in t.neighbors
    ensures SoundIn(env.net, m, a, PrefixesForVRFs(c.routers), ProfileNames(c.bfdProfiles))
  {
    hide SoundIn;
  }

  /** Tags are set only on prefixes that are advertised in their family. */
  lemma TagsAreAdvertised(env: Env, cs: seq<ApiConfig>, r: Router, n: Neighbor, f: string, t: Tag, p: string)
    requires Convert(env, cs).Ok? && HasPeer(Convert(env, cs).value, r, n)
    requires NeighborSays(n, Tagged(f, t, p))
    ensures ListFamily(f) && NeighborSays(n, Advertises(f == "ipv6", p))
  {
    hide Convert, NeighborSays, ID, SaidBy, PrefixesForVRFs, ProfileNames, SoundIn, TranslateConfig, Translates,
         SoundRouter;
    ResultTranslates(env, cs);
    NeighborFactSaid(env, cs, r, n, Tagged(f, t, p));
    var c, a, s, m := SourceOf(env, cs, r.vrf, ID(n), Tagged(f, t, p));
    SourceSound(env, c, a, s, m);
    SoundTags(env.net, m, a, PrefixesForVRFs(c.routers), ProfileNames(c.bfdProfiles));
    SaidOfNeighbor(env, cs, r, n, Advertises(f == "ipv6", p));
  }

  /** A prefix has at most one local preference for a neighbor. */
  lemma OneLocalPreference(env: Env, cs: seq<ApiConfig>, r: Router, n: Neighbor, f: string, g: string, x: u32, y: u32,
                           p: string)
    requires Convert(env, cs).Ok? && HasPeer(Convert(env, cs).value, r, n)
    requires NeighborSays(n, Tagged(f, LocalPref(x), p)) && NeighborSays(n, Tagged(g, LocalPref(y), p))
    ensures x == y
  {
    hide Convert, ListsOk, TaggedIn, NormalNeighbor, NormalEvpn, NameSorted, StrSorted;
    SameVrf(env, cs, r, r);
    assert WfNeighbor(n);
  }

  /** Which families a fact about a neighbor belongs to. */
  ghost predicate OfFamilyFact(f: PeerFact, v6: bool) {
    match f
    case NextHop(w, _) => w == v6
    case Advertises(w, _) => w == v6
    case Tagged(family, _, _) => (family == "ipv6") == v6
    case _ => false
  }

  /** A neighbor of a single family has no prefix, tag or next hop of the other one. */
  lemma SingleFamily(env: Env, cs: seq<ApiConfig>, r: Router, n: Neighbor, v6: bool, f: PeerFact)
    requires Convert(env, cs).Ok? && HasPeer(Convert(env, cs).value, r, n)
    requires NeighborSays(n, f) && OfFamilyFact(f, v6)
    ensures HasFamily(n.ipFamily, FamilyOf(v6))
  {
    hide Convert, NeighborSays, ID, SaidBy, PrefixesForVRFs, ProfileNames, SoundIn, TranslateConfig, Translates,
         SoundRouter, Reachable, CidrFamily;
    ResultTranslates(env, cs);
    NeighborFactSaid(env, cs, r, n, f);
    var c, a, s, m := SourceOf(env, cs, r.vrf, ID(n), f);
    SourceSound(env, c, a, s, m);
    SoundTags(env.net, m, a, PrefixesForVRFs(c.routers), ProfileNames(c.bfdProfiles));
    if f.Tagged? {
      SoundAdvertises(env.net, m, a, PrefixesForVRFs(c.routers), ProfileNames(c.bfdProfiles), v6, f.prefix);
    }
    if f.Advertises? {
      SoundAdvertises(env.net, m, a, PrefixesForVRFs(c.routers), ProfileNames(c.bfdProfiles), v6, f.prefix);
    }
    SessionSaid(m);
    SaidOfNeighbor(env, cs, r, n, HasSession(SessionOf(m)));
    OnlySession(n, SessionOf(m));
  }

  lemma OnlySession(n: Neighbor, s: Session)
    requires NeighborSays(n, HasSession(s))
    ensures s == SessionOf(n)
  {}

  // ---- references

  /**
   * A neighbor's BFD profile is defined in the result, and by the very definition of the
   * configuration that asked for it.
   */
  lemma BfdProfileDefined(env: Env, cs: seq<ApiConfig>, r: Router, n: Neighbor)
    requires Convert(env, cs).Ok? && HasPeer(Convert(env, cs).value, r, n) && n.bfdProfile != ""
    ensures exists c, q :: c in cs && q in c.bfdProfiles && q.name == n.bfdProfile &&
              q in Convert(env, cs).value.bfdProfiles &&
              ConfigSays(env, c, At(r.vrf, Peer(ID(n), UsesBfd(n.bfdProfile))))
    ensures forall q, q' | q in Convert(env, cs).value.bfdProfiles && q' in Convert(env, cs).value.bfdProfiles &&
              q.name == q'.name :: q == q'
  {
    hide Convert, ID, SaidBy, PrefixesForVRFs, SoundIn, TranslateConfig, Translates, SoundRouter, NormalRouter,
         NeighborSays;
    ResultTranslates(env, cs);
    SaysItsProfile(n);
    NeighborFactSaid(env, cs, r, n, UsesBfd(n.bfdProfile));
    var c, a, t, m := SourceOf(env, cs, r.vrf, ID(n), UsesBfd(n.bfdProfile));
    SourceSound(env, c, a, t, m);
    SoundTags(env.net, m, a, PrefixesForVRFs(c.routers), ProfileNames(c.bfdProfiles));
    var q :| q in c.bfdProfiles && q.name == n.bfdProfile;
    ProfileInResult(env, cs, c, q);
    ConfigSaysOf(env, c, t, m, UsesBfd(n.bfdProfile));
    ResultNormal(env, cs);
    ProfilesByName(Convert(env, cs).value.bfdProfiles);
  }

  lemma SaysItsProfile(n: Neighbor)
    requires n.bfdProfile != ""
    ensures NeighborSays(n, UsesBfd(n.bfdProfile))
  {}

  lemma ConfigSaysOf(env: Env, c: ApiConfig, t: Router, m: Neighbor, f: PeerFact)
    requires TranslateConfig(env, c).Ok? && t in TranslateConfig(env, c).value && m in t.neighbors && NeighborSays(m, f)
    ensures ConfigSays(env, c, At(t.vrf, Peer(ID(m), f)))
  {
    hide TranslateConfig, NeighborSays, ID;
    assert PeerSays(t.neighbors, ID(m), f);
    assert RouterSays(t, Peer(ID(m), f));
  }

  lemma ProfileInResult(env: Env, cs: seq<ApiConfig>, c: ApiConfig, q: BfdProfile)
    requires Convert(env, cs).Ok? && c in cs && q in c.bfdProfiles
    ensures q in Convert(env, cs).value.bfdProfiles
  {
    hide Convert, TranslateConfig;
    assert ConfigSays(env, c, Profile(q));
    ResultTheorem(env, cs, Profile(q));
  }

  lemma ProfilesByName(ps: seq<BfdProfile>)
    requires NameSorted(ps, NameOf)
    ensures forall q, q' | q in ps && q' in ps && q.name == q'.name :: q == q'
  {
    forall q, q' | q in ps && q' in ps && q.name == q'.name ensures q == q' {
      var i :| 0 <= i < |ps| && ps[i] == q;
      var j :| 0 <= j < |ps| && ps[j] == q';
      assert NameOf(q) == NameOf(q');
    }
  }

  /** Each VNI number occurs once over all VRFs and both kinds. */
  lemma VnisAreUnique(env: Env, cs: seq<ApiConfig>, r: Router, t: Router)
    requires Convert(env, cs).Ok? && r in Convert(env, cs).value.routers && t in Convert(env, cs).value.routers
    ensures Distinct(VniUses(r))
    ensures r.vrf != t.vrf ==> forall x | x in VniUses(r) :: x !in VniUses(t)
    ensures r.evpn.Some? && r.evpn.value.l3.Some? ==> r.neighbors == []
  {
    hide Convert, Fold, StateInv, VniUses, Distinct, NormalRouter, NeighborsPresent, Translates;
    ResultParts(env, cs);
    var m := Fold(env, cs).value.routers;
    var k :| k in m && m[k] == r;
    var j :| j in m && m[j] == t;
    assert L3Alone(m[k]);
  }

  // ---- order and identity

  ghost predicate Ascending(s: seq<string>) { forall i, j | 0 <= i < j < |s| :: Precedes(s[i], s[j]) }

  lemma SortedAscends(s: seq<string>)
    requires StrSorted(s)
    ensures Ascending(s)
  {
    hide StrLe, Precedes;
    forall i, j | 0 <= i < j < |s| ensures Precedes(s[i], s[j]) { StrLeExactly(s[i], s[j]); }
  }

  lemma KeysAscend<T>(s: seq<T>, key: T -> string)
    requires NameSorted(s, key)
    ensures forall i, j | 0 <= i < j < |s| :: Precedes(key(s[i]), key(s[j]))
  {
    hide StrLe, Precedes;
    forall i, j | 0 <= i < j < |s| ensures Precedes(key(s[i]), key(s[j])) { StrLeExactly(key(s[i]), key(s[j])); }
  }

  /** Routers come by VRF, their neighbors by ID, VNIs by number, prefixes and imports in the order of their texts. */
  lemma ResultAscends(env: Env, cs: seq<ApiConfig>)
    requires Convert(env, cs).Ok?
    ensures var rs := Convert(env, cs).value.routers;
            && (forall i, j | 0 <= i < j < |rs| :: Precedes(rs[i].vrf, rs[j].vrf))
            && (forall r | r in rs :: Ascending(r.v4) && Ascending(r.v6) && Ascending(r.importVRFs))
            && (forall r | r in rs :: forall i, j | 0 <= i < j < |r.neighbors| ::
                  Precedes(ID(r.neighbors[i]), ID(r.neighbors[j])))
            && (forall r | r in rs && r.evpn.Some? :: forall i, j | 0 <= i < j < |r.evpn.value.l2| ::
                  r.evpn.value.l2[i].vni < r.evpn.value.l2[j].vni)
    ensures var ps := Convert(env, cs).value.bfdProfiles;
            forall i, j | 0 <= i < j < |ps| :: Precedes(ps[i].name, ps[j].name)
  {
    hide Convert, NormalRouter, Precedes, Ascending;
    ResultNormal(env, cs);
    var rs, ps := Convert(env, cs).value.routers, Convert(env, cs).value.bfdProfiles;
    KeysAscend(rs, VrfOf);
    KeysAscend(ps, NameOf);
    forall i, j | 0 <= i < j < |rs| ensures Precedes(rs[i].vrf, rs[j].vrf) { assert VrfOf(rs[i]) == rs[i].vrf; }
    forall i, j | 0 <= i < j < |ps| ensures Precedes(ps[i].name, ps[j].name) { assert NameOf(ps[i]) == ps[i].name; }
    forall r | r in rs
      ensures Ascending(r.v4) && Ascending(r.v6) && Ascending(r.importVRFs)
      ensures forall i, j | 0 <= i < j < |r.neighbors| :: Precedes(ID(r.neighbors[i]), ID(r.neighbors[j]))
      ensures r.evpn.Some? ==> forall i, j | 0 <= i < j < |r.evpn.value.l2| ::
                r.evpn.value.l2[i].vni < r.evpn.value.l2[j].vni
    {
      RouterAscends(r);
    }
  }

  lemma RouterAscends(r: Router)
    requires NormalRouter(r)
    ensures Ascending(r.v4) && Ascending(r.v6) && Ascending(r.importVRFs)
    ensures forall i, j | 0 <= i < j < |r.neighbors| :: Precedes(ID(r.neighbors[i]), ID(r.neighbors[j]))
    ensures r.evpn.Some? ==> forall i, j | 0 <= i < j < |r.evpn.value.l2| ::
              r.evpn.value.l2[i].vni < r.evpn.value.l2[j].vni
  {
    hide WfRouter, NormalNeighbor, NormalProps, NormalL3, Precedes, Ascending, ID, StrSorted, NameSorted;
    SortedAscends(r.v4); SortedAscends(r.v6); SortedAscends(r.importVRFs);
    KeysAscend(r.neighbors, ID);
    if r.evpn.Some? {
      var vs := r.evpn.value.l2;
      forall i, j | 0 <= i < j < |vs| ensures vs[i].vni < vs[j].vni { assert VniOf(vs[i]) != VniOf(vs[j]); }
    }
  }

  /** A neighbor of the result is configured for its VRF, is named after itself, and blocks what is to be blocked. */
  lemma NeighborIdentity(env: Env, cs: seq<ApiConfig>, r: Router, n: Neighbor) returns (a: ApiNeighbor)
    requires Convert(env, cs).Ok? && HasPeer(Convert(env, cs).value, r, n)
    ensures Configured(cs, r.vrf, a) && n.addr == a.address && n.iface == a.iface && n.vrf == r.vrf
    ensures n.alwaysBlock == env.alwaysBlock
    ensures n.name == n.asn + "@" + if a.iface != "" then a.iface else a.address
  {
    hide Convert, TranslateAll, Translates, RouterStands, SeenFrom, SeenLists, ListsFilter, PeerSays, SeenAgree,
         Configured, NormalNeighbor, NormalEvpn, NameSorted, StrSorted, ListsOk, SamePref;
    ResultStands(env, cs, r);
    StandsAt(r, TranslateAll(env, cs), r.vrf);
    a := FieldsFrom(env, cs, r.vrf, n);
    assert WfNeighbor(n);
  }

  // ---- accepted routes

  /** Filters too are only ever added, provided no two selectors of a neighbor share a key. */
  lemma AcceptanceExtends(env: Env, cs: seq<ApiConfig>, ds: seq<ApiConfig>, r: Router, t: Router, n: Neighbor,
                          k: Neighbor, v6: bool, x: Filter)
    requires (forall c | c in cs :: c in ds) && SelectorsAgree(env.net, ds)
    requires Convert(env, cs).Ok? && Convert(env, ds).Ok?
    requires HasPeer(Convert(env, cs).value, r, n) && HasPeer(Convert(env, ds).value, t, k) && r.vrf == t.vrf &&
              ID(n) == ID(k)
    requires NeighborSays(n, Accepts(v6, x))
    ensures NeighborSays(k, Accepts(v6, x))
  {
    hide Convert, ID, SelectorsAgree, SaidBy, TranslateAll, TranslateConfig, RouterStands, FiltersStand, SeenLists,
         SeenAgree, SeenSays, NormalRouter;
    if n.incoming.all {
      AcceptsAllExtends(env, cs, ds, r, t, n, k);
    } else if !k.incoming.all {
      ResultStands(env, cs, r); ResultStands(env, ds, t);
      StandsAt(r, TranslateAll(env, cs), r.vrf); StandsAt(t, TranslateAll(env, ds), t.vrf);
      AcceptsAllSeen(env, ds, t, k);
      SelectorsMakeAgree(env, ds, t.vrf);
      ListedExtends(env, cs, ds, r, t, n, k, v6, x);
    }
  }

  lemma AcceptsAllExtends(env: Env, cs: seq<ApiConfig>, ds: seq<ApiConfig>, r: Router, t: Router, n: Neighbor,
                          k: Neighbor)
    requires forall c | c in cs :: c in ds
    requires Convert(env, cs).Ok? && Convert(env, ds).Ok?
    requires HasPeer(Convert(env, cs).value, r, n) && HasPeer(Convert(env, ds).value, t, k) && r.vrf == t.vrf &&
              ID(n) == ID(k)
    requires n.incoming.all
    ensures k.incoming.all
  {
    hide Convert, ID, SaidBy;
    NeighborFactSaid(env, cs, r, n, AcceptsAll);
    SaidByMore(env, cs, ds, At(r.vrf, Peer(ID(n), AcceptsAll)));
    SaidOfNeighbor(env, ds, t, k, AcceptsAll);
  }

  lemma ListedExtends(env: Env, cs: seq<ApiConfig>, ds: seq<ApiConfig>, r: Router, t: Router, n: Neighbor, k: Neighbor,
                      v6: bool, x: Filter)
    requires (forall c | c in cs :: c in ds) && Translates(env, cs) && Translates(env, ds)
    requires SeenAgree(TranslateAll(env, ds), t.vrf, ID(k))
    requires FiltersStand(r.neighbors, TranslateAll(env, cs), r.vrf) &&
              FiltersStand(t.neighbors, TranslateAll(env, ds), t.vrf)
    requires NormalRouter(t) && n in r.neighbors && k in t.neighbors && r.vrf == t.vrf && ID(n) == ID(k)
    requires x in Filters(n.incoming, v6) && !k.incoming.all
    ensures x in Filters(k.incoming, v6)
  {
    hide ID, TranslateAll, TranslateConfig, NormalNeighbor, WfRouter, NormalEvpn, NameSorted, StrSorted, SeenAgree,
         SeenFrom;
    TranslateAllFacts(env, cs); TranslateAllFacts(env, ds);
    assert ListsFilter(r.neighbors, ID(n), v6, x);
    assert SeenLists(TranslateAll(env, cs), r.vrf, ID(n), v6, x);
    assert SeenLists(TranslateAll(env, ds), t.vrf, ID(n), v6, x) by {
      var s :| s in TranslateAll(env, cs) && s.vrf == r.vrf && ListsFilter(s.neighbors, ID(n), v6, x);
      var c :| c in cs && s in TranslateConfig(env, c).value;
      assert s in TranslateAll(env, ds);
    }
    OnlyNeighbor(t.neighbors, k);
    assert !NeighborSays(k, AcceptsAll);
    assert !PeerSays(t.neighbors, ID(k), AcceptsAll);
    assert ListsFilter(t.neighbors, ID(k), v6, x);
  }

  lemma SeenAccepts(seen: seq<Router>, vrf: string, id: string, v6: bool, x: Filter)
    ensures SeenSays(seen, vrf, Peer(id, Accepts(v6, x))) <==>
              SeenSays(seen, vrf, Peer(id, AcceptsAll)) || SeenLists(seen, vrf, id, v6, x)
  {
    hide ID;
    forall r
      ensures RouterSays(r, Peer(id, Accepts(v6, x))) <==>
                RouterSays(r, Peer(id, AcceptsAll)) || ListsFilter(r.neighbors, id, v6, x)
    {
      ListAccepts(r.neighbors, id, v6, x);
    }
  }

  lemma ListAccepts(ns: seq<Neighbor>, id: string, v6: bool, x: Filter)
    ensures PeerSays(ns, id, Accepts(v6, x)) <==> PeerSays(ns, id, AcceptsAll) || ListsFilter(ns, id, v6, x)
  {
    hide ID;
  }

  /** Everything is accepted from a neighbor of the result if and only if some configuration does so. */
  lemma AcceptsAllSeen(env: Env, cs: seq<ApiConfig>, r: Router, n: Neighbor)
    requires Convert(env, cs).Ok? && HasPeer(Convert(env, cs).value, r, n)
    ensures n.incoming.all <==> SeenSays(TranslateAll(env, cs), r.vrf, Peer(ID(n), AcceptsAll))
    ensures n.incoming.all <==> AcceptsAllFor(cs, r.vrf, ID(n))
  {
    hide Convert, ID, TranslateAll, Translates, RouterStands, SeenSays, NormalRouter, FiltersStand, AcceptsAllFor;
    ResultStands(env, cs, r);
    StandsAt(r, TranslateAll(env, cs), r.vrf);
    OnlyOfNormal(r, n);
    SaysAll(n);
    PeerAsRouter(r, ID(n), AcceptsAll);
    assert !IsAccept(Peer(ID(n), AcceptsAll));
    AllExactly(env, cs, r.vrf, ID(n));
  }

  /** What is listed for a neighbor of the result, of which not everything is accepted. */
  lemma KeptExactly(env: Env, cs: seq<ApiConfig>, r: Router, n: Neighbor, v6: bool, x: Filter)
    requires Convert(env, cs).Ok? && HasPeer(Convert(env, cs).value, r, n) && !n.incoming.all
    ensures SaidBy(env, cs, At(r.vrf, Peer(ID(n), Accepts(v6, x)))) <==> ListedFor(env.net, cs, r.vrf, ID(n), v6, x)
    ensures x in Filters(n.incoming, v6) ==> ListedFor(env.net, cs, r.vrf, ID(n), v6, x)
    ensures KeysApart(env.net, cs, r.vrf, ID(n)) && ListedFor(env.net, cs, r.vrf, ID(n), v6, x) ==>
              x in Filters(n.incoming, v6)
  {
    hide Convert, ID, SaidBy, TranslateAll, Translates, RouterStands, SeenLists, SeenAgree, SeenSays, NormalRouter,
         SeenFrom, Filters, ListedFor, KeysApart, NeighborSays, AcceptsAllFor, ListsFilter;
    var seen, id := TranslateAll(env, cs), ID(n);
    ResultStands(env, cs, r);
    StandsAt(r, seen, r.vrf);
    AcceptsAllSeen(env, cs, r, n);
    SeenAccepts(seen, r.vrf, id, v6, x);
    AllSays(env, cs, r.vrf, Peer(id, Accepts(v6, x)));
    ListedExactly(env, cs, r.vrf, id, v6, x);
    ApartExactly(env, cs, r.vrf, id);
    OnlyOfNormal(r, n);
    SaysAll(n);
  }

  /** The result accepts from a neighbor exactly what the configurations accept from it. */
  ghost predicate AcceptsAsSaid(env: Env, cs: seq<ApiConfig>, vrf: string, n: Neighbor) {
    forall v6, x :: NeighborSays(n, Accepts(v6, x)) <==> SaidBy(env, cs, At(vrf, Peer(ID(n), Accepts(v6, x))))
  }

  /**
   * So it is if and only if some configuration accepts everything from the neighbor, or no two
   * different filters listed for it share a key.
   */
  lemma AcceptedExactly(env: Env, cs: seq<ApiConfig>, r: Router, n: Neighbor)
    requires Convert(env, cs).Ok? && HasPeer(Convert(env, cs).value, r, n)
    ensures AcceptsAsSaid(env, cs, r.vrf, n) <==>
              AcceptsAllFor(cs, r.vrf, ID(n)) || KeysApart(env.net, cs, r.vrf, ID(n))
  {
    hide Convert, ID, SaidBy, Filters, ListedFor, FilterKey, AcceptsAllFor, TranslateAll, SeenSays;
    AcceptsAllSeen(env, cs, r, n);
    if n.incoming.all {
      forall v6, x
        ensures SaidBy(env, cs, At(r.vrf, Peer(ID(n), Accepts(v6, x))))
      {
        AllAcceptsSaid(env, cs, r, n, v6, x);
      }
    } else {
      forall v6, x
        ensures SaidBy(env, cs, At(r.vrf, Peer(ID(n), Accepts(v6, x)))) <==> ListedFor(env.net, cs, r.vrf, ID(n), v6, x)
        ensures NeighborSays(n, Accepts(v6, x)) <==> x in Filters(n.incoming, v6)
        ensures x in Filters(n.incoming, v6) ==> ListedFor(env.net, cs, r.vrf, ID(n), v6, x)
        ensures KeysApart(env.net, cs, r.vrf, ID(n)) && ListedFor(env.net, cs, r.vrf, ID(n), v6, x) ==>
                  x in Filters(n.incoming, v6)
      {
        KeptExactly(env, cs, r, n, v6, x);
      }
      OwnKeysAgree(env, cs, r, n);
    }
  }

  lemma AllAcceptsSaid(env: Env, cs: seq<ApiConfig>, r: Router, n: Neighbor, v6: bool, x: Filter)
    requires Convert(env, cs).Ok? && HasPeer(Convert(env, cs).value, r, n) && n.incoming.all
    ensures SaidBy(env, cs, At(r.vrf, Peer(ID(n), Accepts(v6, x))))
  {
    hide Convert, ID, SaidBy, TranslateAll, Translates, RouterStands, SeenSays, SeenLists, AcceptsAllFor;
    ResultStands(env, cs, r);
    AcceptsAllSeen(env, cs, r, n);
    SeenAccepts(TranslateAll(env, cs), r.vrf, ID(n), v6, x);
    AllSays(env, cs, r.vrf, Peer(ID(n), Accepts(v6, x)));
  }

  /** The lists of a result are keyed, so they never hold two filters that share a key. */
  lemma OwnKeysAgree(env: Env, cs: seq<ApiConfig>, r: Router, n: Neighbor)
    requires Convert(env, cs).Ok? && HasPeer(Convert(env, cs).value, r, n)
    ensures KeysAgree(n.incoming, n.incoming)
  {
    hide Convert, NormalIn, NormalOut, KeysAgree, WfRouter, NormalEvpn, StrSorted;
    SameVrf(env, cs, r, r);
    SortedFiltersAgree(n.incoming);
  }

  lemma OnlyOfNormal(r: Router, n: Neighbor)
    requires NormalRouter(r) && n in r.neighbors
    ensures forall f :: NeighborSays(n, f) <==> PeerSays(r.neighbors, ID(n), f)
    ensures forall v6, x :: x in Filters(n.incoming, v6) <==> ListsFilter(r.neighbors, ID(n), v6, x)
  {
    hide ID, NeighborSays, NormalNeighbor, WfRouter;
    OnlyNeighbor(r.neighbors, n);
  }
}

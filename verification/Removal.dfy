/**
 * Removing configurations.  Everything but the demand for an EVPN neighbor survives a removal, and
 * that one demand may not.
 */
module Removal {
  import opened Ordering
  import opened Configs
  import opened Merge
  import opened Facts
  import opened Api
  import opened Translate
  import opened Conversion
  import opened FoldFacts
  import opened ConvertFacts
  import opened Properties

  /** What is left of a list that converts converts if and only if it still supplies what it needs. */
  lemma RemovalExact(env: Env, cs: seq<ApiConfig>, ds: seq<ApiConfig>)
    requires Convert(env, ds).Ok? && forall c | c in cs :: c in ds
    ensures Convert(env, cs).Ok? <==> Supplied(env, cs)
  {
    hide Convert, Undisputed, Supplied, Consistent;
    ConversionTheorem(env, ds);
    UndisputedTheorem(env, ds);
    UndisputedSubset(env, cs, ds);
    UndisputedTheorem(env, cs);
    ConversionTheorem(env, cs);
  }

  // ---- a removal that breaks a working node

  const IFACE := "eth0"

  /** Advertises the SVI, which needs an EVPN neighbor, and has no neighbor. */
  const NEEDY := ApiConfig("needy", 0, "", [ApiRouter(1, "", "", [], [], [], Some(Evpn(None, true, [], None)))], [], "")

  function EvpnPeer(restart: bool): (n: ApiNeighbor) {
    ApiNeighbor(
      0, INTERNAL_ASN, "", "", IFACE, None, "", "", None, None, None, false, "", restart,
      Advertise("", [], "", "", [], []), Receive("", []), false, 0, [EVPN_FAMILY])
  }

  /** Brings that neighbor, with or without graceful restart. */
  function Helper(restart: bool): (c: ApiConfig) {
    ApiConfig(if restart then "restarting" else "helper", 0, "",
              [ApiRouter(1, "", "", [EvpnPeer(restart)], [], [], None)], [], "")
  }

  const NEEDY_ROUTER := Router(1, "", [], "", [], [], [], Some(Evpn(None, true, [], None)))

  function HelperNeighbor(env: Env, restart: bool): (n: Neighbor) {
    Neighbor(DualStack, "internal@eth0", INTERNAL_ASN, "", "", IFACE,
             None, None, None, None, "", "", restart, false, 0, "",
             AllowedIn(false, [], []), AllowedOut([], [], "", "", [], []), env.alwaysBlock, [EVPN_FAMILY])
  }

  lemma NoStrings()
    ensures SortStrings({}) == []
  {
    StrOrder();
  }

  lemma NothingAdvertised(net: Net, restart: bool)
    ensures Outgoing(net, IFACE, DualStack, EvpnPeer(restart).toAdvertise, []) == Ok(AllowedOut([], [], "", "", [], []))
  {
    hide SortStrings, SortByName;
    NoStrings();
    NothingToSort<PrefixList>();
    var a := EvpnPeer(restart).toAdvertise;
    assert PrefixesToAdvertise(net, a, [], IPv4) == {} && PrefixesToAdvertise(net, a, [], IPv6) == {};
    assert PrefEntries(a.withLocalPref) == [] && CommunityEntries(a.withCommunity) == Ok([]);
    assert TagLists(net, IFACE, DualStack, a, [], []) == Ok([]);
  }

  lemma OneNeighbor(env: Env, n: ApiNeighbor, r: ApiRouter, inRouter: seq<string>, profiles: set<string>, t: Neighbor)
    requires TranslateNeighbor(env, n, inRouter, r.vrf, profiles) == Ok(t) && n.localASN == 0
    ensures TranslateNeighbors(env, [n], r, inRouter, profiles) == Ok([t])
  {
    hide TranslateNeighbor;
    var ns := [n];
    assert ns[..|ns| - 1] == [];
    assert TranslateNeighbors(env, ns[..|ns| - 1], r, inRouter, profiles) == Ok([]);
    assert [] + [t] == [t];
  }

  lemma OneRouter(env: Env, c: ApiConfig, r: ApiRouter, t: Router)
    requires c.routers == [r] && c.bfdProfiles == []
    requires RawRouter(env, r, PrefixesForVRFs([r]), {}) == Ok(t)
    ensures TranslateConfig(env, c) == Ok([t])
  {
    hide RawRouter, PrefixesForVRFs;
    var rs := c.routers;
    assert rs[..|rs| - 1] == [];
    assert RawRouters(env, c, rs[..|rs| - 1]) == Ok([]);
    assert ProfileNames([]) == {};
    assert [] + [t] == [t];
  }

  lemma HelperTranslates(env: Env, restart: bool)
    ensures TranslateNeighbor(env, EvpnPeer(restart), [], "", {}) == Ok(HelperNeighbor(env, restart))
  {
    hide Outgoing;
    NothingAdvertised(env.net, restart);
    assert NeighborID("", IFACE, "") == IFACE;
    assert NeighborName(EvpnPeer(restart)) == "internal@eth0";
    assert Incoming(env.net, EvpnPeer(restart).toReceive) == Ok(AllowedIn(false, [], []));
  }

  function HelperRouter(env: Env, restart: bool): (r: Router) {
    Router(1, "", [HelperNeighbor(env, restart)], "", [], [], [], None)
  }

  lemma HelperConfig(env: Env, restart: bool)
    ensures TranslateConfig(env, Helper(restart)) == Ok([HelperRouter(env, restart)])
  {
    hide TranslateNeighbor, HelperNeighbor, OutgoingOk, TranslateNeighbors, TranslateConfig, PrefixesForVRFs;
    var r := Helper(restart).routers[0];
    HelperTranslates(env, restart);
    HelperValid(env.net, restart);
    OneNeighbor(env, EvpnPeer(restart), r, [], {}, HelperNeighbor(env, restart));
    assert ValidOutgoing(env.net, [], r);
    assert ImportedPrefixes(r.imports, PrefixesForVRFs([r])) == Ok([]) && r.prefixes + [] == [];
    assert TranslateRouter(env, r, [], {}) == Ok(HelperRouter(env, restart));
    OneRouter(env, Helper(restart), r, HelperRouter(env, restart));
  }

  lemma HelperValid(net: Net, restart: bool)
    ensures OutgoingOk(net, [], EvpnPeer(restart))
  {}

  lemma NeedyConfig(env: Env)
    ensures TranslateConfig(env, NEEDY) == Ok([NEEDY_ROUTER])
  {
    hide TranslateConfig, PrefixesForVRFs;
    var r := NEEDY.routers[0];
    assert TranslateNeighbors(env, [], r, [], {}) == Ok([]);
    OneRouter(env, NEEDY, r, NEEDY_ROUTER);
  }

  // ---- what the two say

  lemma NeedySays(env: Env, f: Fact)
    ensures ConfigSays(env, NEEDY, f) <==> f == At("", Asn(1)) || f == At("", HasEvpn(VNIS_DISABLED, true))
  {
    hide TranslateConfig;
    NeedyConfig(env);
    if f.At? {
      assert SeenSays([NEEDY_ROUTER], f.vrf, f.fact) <==> f.vrf == "" && RouterSays(NEEDY_ROUTER, f.fact) by {
        assert NEEDY_ROUTER in [NEEDY_ROUTER];
      }
      assert f.fact.Peer? ==> !RouterSays(NEEDY_ROUTER, f.fact);
    }
  }

  lemma HelperSays(env: Env, restart: bool, f: Fact)
    ensures ConfigSays(env, Helper(restart), f) <==>
            f == At("", Asn(1)) || (f.At? && f.vrf == "" && f.fact.Peer? && f.fact.id == IFACE &&
                                    NeighborSays(HelperNeighbor(env, restart), f.fact.peer))
  {
    hide TranslateConfig, NeighborSays;
    HelperConfig(env, restart);
    var n, r := HelperNeighbor(env, restart), HelperRouter(env, restart);
    assert ID(n) == IFACE;
    if f.At? {
      assert SeenSays([r], f.vrf, f.fact) <==> f.vrf == "" && RouterSays(r, f.fact) by {
        assert r in [r];
      }
      if f.fact.Peer? {
        assert PeerSays([n], f.fact.id, f.fact.peer) <==> f.fact.id == IFACE && NeighborSays(n, f.fact.peer) by {
          assert n in [n];
        }
      }
    }
  }

  lemma HelperUndisputed(env: Env, restart: bool, f: PeerFact, g: PeerFact)
    requires NeighborSays(HelperNeighbor(env, restart), f) && NeighborSays(HelperNeighbor(env, restart), g)
    ensures !PeerConflict(f, g)
  {}

  lemma TheyAgree(env: Env, restart: bool)
    ensures Consistent(env, [NEEDY, Helper(restart)]) && Consistent(env, [NEEDY])
  {
    hide TranslateConfig, NeighborSays, PeerConflict, HelperNeighbor, ConfigSays;
    NeedyConfig(env);
    HelperConfig(env, restart);
    forall a, b | a in [NEEDY, Helper(restart)] && b in [NEEDY, Helper(restart)] ensures !Contradict(env, a, b) {
      forall f, g | ConfigSays(env, a, f) && ConfigSays(env, b, g) ensures !Conflict(f, g) {
        NeedySays(env, f); NeedySays(env, g); HelperSays(env, restart, f); HelperSays(env, restart, g);
        if f.At? && g.At? && f.fact.Peer? && g.fact.Peer? { HelperUndisputed(env, restart, f.fact.peer, g.fact.peer); }
      }
    }
  }

  /** A node that works stops converting when one of its configurations is deleted. */
  lemma RemovalCanBreak(env: Env, restart: bool)
    ensures Convert(env, [NEEDY, Helper(restart)]).Ok? && Convert(env, [NEEDY]).Err?
  {
    hide Convert, TranslateConfig, HelperNeighbor, ConfigSays, Consistent;
    TheyAgree(env, restart);
    ConversionTheorem(env, [NEEDY, Helper(restart)]);
    ConversionTheorem(env, [NEEDY]);
    var evpn := Peer(IFACE, Activates(EVPN_FAMILY));
    assert NeighborSays(HelperNeighbor(env, restart), Activates(EVPN_FAMILY)) by { HelperActivates(env, restart); }
    HelperSays(env, restart, At("", evpn));
    assert SaidBy(env, [NEEDY, Helper(restart)], At("", evpn)) by {
      assert Helper(restart) in [NEEDY, Helper(restart)];
    }
    forall vrf, f | SaidBy(env, [NEEDY, Helper(restart)], At(vrf, f)) && Needs(f) ensures vrf == "" {
      NeedySays(env, At(vrf, f)); HelperSays(env, restart, At(vrf, f));
    }
    var need := HasEvpn(VNIS_DISABLED, true);
    NeedySays(env, At("", need));
    assert NEEDY in [NEEDY] && SaidBy(env, [NEEDY], At("", need)) && Needs(need);
    forall id ensures !SaidBy(env, [NEEDY], At("", Peer(id, Activates(EVPN_FAMILY)))) {
      NeedySays(env, At("", Peer(id, Activates(EVPN_FAMILY))));
    }
  }

  lemma HelperActivates(env: Env, restart: bool)
    ensures NeighborSays(HelperNeighbor(env, restart), Activates(EVPN_FAMILY))
  {}
}

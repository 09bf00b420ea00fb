/**
 * Small configurations for which the order of the routers, or the key of a filter, makes a difference.
 * They have one AS number and, up to graceful restart, one neighbor, so that they convert as soon as
 * they are valid.
 */
module Witnesses {
  import opened Configs
  import opened Facts
  import opened Api
  import opened Translate
  import opened Conversion
  import opened ConvertFacts
  import opened Requests
  import opened Origins
  import opened Restarts
  import opened Removal
  import opened OrderIndependence
  import opened Guarantees
  import opened FilterKeys
  import opened Acceptance
  import opened RouterOrder

  // ---- configurations about one neighbor

  /** Nothing but the neighbor, whatever its descriptions say about graceful restart. */
  ghost predicate About(c: ApiConfig, base: ApiNeighbor) {
    && c.bfdProfiles == [] && base.toAdvertise.withLocalPref == []
    && (forall r | r in c.routers :: r.asn == 1 && r.id == "" && r.evpn == None)
    && forall r, n | r in c.routers && n in r.neighbors :: n == base.(gracefulRestart := n.gracefulRestart)
  }

  lemma OneSession(env: Env, n: ApiNeighbor, s: Session, t: Session)
    requires AsksSession(env, n, s) && AsksSession(env, n, t)
    ensures s == t
  {
    hide Speaks, HasFamily, Seconds;
    SameFamily(s.ipFamily, t.ipFamily);
  }

  lemma OneNeighborUndisputed(env: Env, n: ApiNeighbor, all: iset<string>, now: iset<string>, f: PeerFact, g: PeerFact)
    requires NeighborAsks(env, n, all, f) && NeighborAsks(env, n, now, g) && n.toAdvertise.withLocalPref == []
    ensures !PeerConflict(f, g)
  {
    hide AsksSession, Speaks, AsksFilter;
    if f.HasSession? && g.HasSession? { OneSession(env, n, f.session, g.session); }
  }

  lemma RestartIsNotAsked(env: Env, n: ApiNeighbor, restart: bool, all: iset<string>, f: PeerFact)
    ensures NeighborAsks(env, n.(gracefulRestart := restart), all, f) <==> NeighborAsks(env, n, all, f)
  {}

  /** What such a configuration asks for. */
  lemma AboutAsks(env: Env, c: ApiConfig, base: ApiNeighbor, f: Fact)
    requires About(c, base) && ConfigAsks(env, c, f)
    ensures f.At?
    ensures match f.fact
            case Asn(n) => n == 1
            case Peer(_, pf) => exists all :: NeighborAsks(env, base, all, pf)
            case Network(_, _) => true
            case Imports(_) => true
            case _ => false
  {
    hide NeighborAsks, MayAdvertise, PrefixFamily, NeighborID;
    var r :| r in c.routers && r.vrf == f.vrf && RouterAsks(env, c, r, f.fact);
    if f.fact.Peer? {
      var all := iset p | MayAdvertise(c, r, p);
      var n :| n in r.neighbors && NeighborID(n.address, n.iface, r.vrf) == f.fact.id &&
          NeighborAsks(env, n, all, f.fact.peer);
      RestartIsNotAsked(env, base, n.gracefulRestart, all, f.fact.peer);
    }
  }

  /** It converts as soon as it is valid. */
  lemma AboutConverts(env: Env, c: ApiConfig, base: ApiNeighbor)
    requires About(c, base)
    ensures Convert(env, [c]).Ok? <==> ValidConfig(env, c)
  {
    hide Convert, ValidConfig, ConfigAsks, NeighborAsks, PeerConflict, About;
    assert c in [c];
    ConvertsExactly(env, [c]);
    forall f, g | ConfigAsks(env, c, f) && ConfigAsks(env, c, g) ensures !Conflict(f, g) {
      AboutAsks(env, c, base, f); AboutAsks(env, c, base, g);
      if f.fact.Peer? && g.fact.Peer? {
        var all :| NeighborAsks(env, base, all, f.fact.peer);
        var now :| NeighborAsks(env, base, now, g.fact.peer);
        AboutUndisputed(env, c, base, all, now, f.fact.peer, g.fact.peer);
      }
    }
    forall vrf, f | AskedBy(env, [c], At(vrf, f)) ensures !Needs(f) { AboutAsks(env, c, base, At(vrf, f)); }
  }

  lemma AboutUndisputed(env: Env, c: ApiConfig, base: ApiNeighbor, all: iset<string>, now: iset<string>,
                        f: PeerFact, g: PeerFact)
    requires About(c, base) && NeighborAsks(env, base, all, f) && NeighborAsks(env, base, now, g)
    ensures !PeerConflict(f, g)
  {
    hide NeighborAsks, PeerConflict;
    OneNeighborUndisputed(env, base, all, now, f, g);
  }

  // ---- two routers of one VRF, imported by a third

  const PREFIX := "10.0.0.0/8"
  const RED := "red"

  const FULL := ApiRouter(1, "", RED, [], [PREFIX], [], None)
  const BARE := ApiRouter(1, "", RED, [], [], [], None)

  /** Is told the prefix that only an import can bring. */
  const TOLD := ApiNeighbor(
    0, INTERNAL_ASN, "", "", "eth0", None, "", "", None, None, None, false, "", false,
    Advertise("", [PREFIX], "", "", [], []), Receive("", []), false, 0, [])

  const IMPORTER := ApiRouter(1, "", "", [TOLD], [], [RED], None)

  function Importing(first: ApiRouter, second: ApiRouter): (c: ApiConfig) {
    ApiConfig("importing", 0, "", [first, second, IMPORTER], [], "")
  }

  lemma LastProvides(first: ApiRouter, second: ApiRouter, p: string)
    requires second.vrf == RED
    ensures Provides(Importing(first, second).routers, RED, p) <==> p in second.prefixes
  {
    var rs := Importing(first, second).routers;
    assert rs[1] == second && rs[2].vrf != RED;
  }

  lemma MayTell(first: ApiRouter, second: ApiRouter, p: string)
    requires second.vrf == RED
    ensures MayAdvertise(Importing(first, second), IMPORTER, p) <==> p in second.prefixes
  {
    hide Provides;
    LastProvides(first, second, p);
    assert RED in IMPORTER.imports && ImportedVRF(RED) == RED;
    assert forall v | v in IMPORTER.imports :: v == RED;
  }

  /** What the importer's neighbor may be told is all that can go wrong. */
  lemma ToldValid(env: Env, first: ApiRouter, second: ApiRouter)
    requires env.net.cidr(PREFIX).Some? && second.vrf == RED
    ensures ValidNeighbor(env, Importing(first, second), IMPORTER, TOLD) <==> PREFIX in second.prefixes
  {
    hide MayAdvertise;
    MayTell(first, second, PREFIX);
    var a := TOLD.toAdvertise;
    assert PrefEntries(a.withLocalPref) == [] && CommunityTags(a.withCommunity) == [];
    assert FitsNeighbor(env.net, TOLD, PREFIX);
    assert PREFIX in a.prefixes;
  }

  lemma ImportingValid(env: Env, first: ApiRouter, second: ApiRouter)
    requires env.net.cidr(PREFIX).Some? && (first == FULL || first == BARE) && (second == FULL || second == BARE)
    ensures ValidConfig(env, Importing(first, second)) <==> second == FULL
  {
    hide ValidNeighbor;
    var c := Importing(first, second);
    ToldValid(env, first, second);
    assert second in c.routers && IMPORTER in c.routers && TOLD in IMPORTER.neighbors;
    assert Declared(c.routers, RED);
  }

  /** Swapping the two routers of a VRF decides whether the configuration is accepted. */
  lemma SwapMatters(env: Env)
    requires env.net.cidr(PREFIX).Some?
    ensures Reordered(Importing(BARE, FULL), Importing(FULL, BARE))
    ensures Convert(env, [Importing(BARE, FULL)]).Ok? && Convert(env, [Importing(FULL, BARE)]).Err?
  {
    hide Convert, ValidConfig;
    var c, d := Importing(BARE, FULL), Importing(FULL, BARE);
    assert c.routers == [BARE, FULL] + [IMPORTER] && d.routers == [FULL, BARE] + [IMPORTER];
    ImportingValid(env, BARE, FULL); ImportingValid(env, FULL, BARE);
    AboutConverts(env, c, TOLD); AboutConverts(env, d, TOLD);
  }

  // ---- two routers of one VRF that describe one neighbor

  function Describing(restart: bool): (r: ApiRouter) { ApiRouter(1, "", "", [EvpnPeer(restart)], [], [], None) }

  function Twice(restart: bool): (c: ApiConfig) {
    ApiConfig("twice", 0, "", [Describing(restart), Describing(!restart)], [], "")
  }

  lemma PeerValid(env: Env, c: ApiConfig, r: ApiRouter, restart: bool)
    requires r.asn == 1
    ensures ValidNeighbor(env, c, r, EvpnPeer(restart))
  {
    hide MayAdvertise;
    var a := EvpnPeer(restart).toAdvertise;
    assert PrefEntries(a.withLocalPref) == [] && CommunityTags(a.withCommunity) == [];
  }

  lemma TwiceConverts(env: Env, restart: bool)
    ensures Convert(env, [Twice(restart)]).Ok?
  {
    hide Convert, ValidNeighbor;
    var c := Twice(restart);
    forall r, n | r in c.routers && n in r.neighbors ensures ValidNeighbor(env, c, r, n) {
      PeerValid(env, c, r, n.gracefulRestart);
    }
    AboutConverts(env, c, EvpnPeer(false));
  }

  lemma TwiceReads(restart: bool)
    ensures FirstFor(Descriptions([Twice(restart)], ""), "", IFACE) == Some(EvpnPeer(restart))
  {
    hide FirstFor;
    var c, rs := Twice(restart), Twice(restart).routers;
    assert rs[..1] == [Describing(restart)] && rs[..1][..0] == [];
    assert DescribedBy(rs[..1], "") == [] + [EvpnPeer(restart)];
    assert DescribedBy(rs, "") == [EvpnPeer(restart)] + [EvpnPeer(!restart)];
    assert [c][..0] == [];
    assert Descriptions([c], "") == [] + DescribedBy(rs, "") == [EvpnPeer(restart), EvpnPeer(!restart)];
    assert NeighborID("", IFACE, "") == IFACE;
    FirstAt([EvpnPeer(restart), EvpnPeer(!restart)], "", IFACE, 0);
  }

  /** Swapping them keeps the configuration valid and every neighbor unmoved, and changes graceful restart. */
  lemma RestartFollowsRouters(env: Env)
    ensures Reordered(Twice(true), Twice(false))
    ensures forall r, n | r in Twice(true).routers && n in r.neighbors :: Unmoved(env, Twice(true), Twice(false), r, n)
    ensures Convert(env, [Twice(true)]).Ok? && Convert(env, [Twice(false)]).Ok?
    ensures Convert(env, [Twice(true)]) != Convert(env, [Twice(false)])
  {
    hide Convert, FirstFor, Descriptions;
    TwiceConverts(env, true); TwiceConverts(env, false);
    TwiceReads(true); TwiceReads(false);
    if Convert(env, [Twice(true)]) == Convert(env, [Twice(false)]) {
      EqualReadAlike(env, [Twice(true)], [Twice(false)]);
    }
  }

  // ---- two filters of one neighbor that share a key

  const COLLIDING := EvpnPeer(false).(toReceive := Receive("", [
      Selector(NARROW.prefix, NARROW.le, NARROW.ge), Selector(WIDE.prefix, WIDE.le, WIDE.ge)]))

  const LISTING := ApiConfig("listing", 0, "", [ApiRouter(1, "", "", [COLLIDING], [], [], None)], [], "")

  lemma ListingConverts(env: Env)
    requires env.net.cidr(NARROW.prefix) == Some(Cidr(false, 1)) && env.net.cidr(WIDE.prefix) == Some(Cidr(false, 12))
    ensures Convert(env, [LISTING]).Ok?
  {
    hide Convert, ValidNeighbor;
    var r := LISTING.routers[0];
    assert ValidNeighbor(env, LISTING, r, COLLIDING) by { CollidingValid(env, r); }
    AboutConverts(env, LISTING, COLLIDING);
  }

  lemma CollidingValid(env: Env, r: ApiRouter)
    requires env.net.cidr(NARROW.prefix) == Some(Cidr(false, 1)) && env.net.cidr(WIDE.prefix) == Some(Cidr(false, 12))
    requires r.asn == 1
    ensures ValidNeighbor(env, LISTING, r, COLLIDING)
  {
    hide MayAdvertise;
    var a := COLLIDING.toAdvertise;
    assert PrefEntries(a.withLocalPref) == [] && CommunityTags(a.withCommunity) == [];
  }

  lemma CollidingListed(env: Env)
    requires env.net.cidr(NARROW.prefix) == Some(Cidr(false, 1)) && env.net.cidr(WIDE.prefix) == Some(Cidr(false, 12))
    ensures !KeysApart(env.net, [LISTING], "", IFACE) && !AcceptsAllFor([LISTING], "", IFACE)
  {
    hide FilterKey;
    var cs, r := [LISTING], LISTING.routers[0];
    assert LISTING in cs && r in LISTING.routers && COLLIDING in r.neighbors;
    assert Configured(cs, "", COLLIDING) && NeighborID("", IFACE, "") == IFACE;
    var ss := COLLIDING.toReceive.prefixes;
    assert ss[0] in ss && ss[1] in ss;
    assert AsksFilter(env.net, COLLIDING, false, NARROW) && AsksFilter(env.net, COLLIDING, false, WIDE);
    assert ListedFor(env.net, cs, "", IFACE, false, NARROW) && ListedFor(env.net, cs, "", IFACE, false, WIDE);
    PrefixesCollide();
  }

  /** The configuration converts, and its neighbor does not accept what it lists. */
  lemma FilterLost(env: Env) returns (r: Router, n: Neighbor)
    requires env.net.cidr(NARROW.prefix) == Some(Cidr(false, 1)) && env.net.cidr(WIDE.prefix) == Some(Cidr(false, 12))
    ensures Convert(env, [LISTING]).Ok? && HasPeer(Convert(env, [LISTING]).value, r, n)
    ensures !AcceptsAsSaid(env, [LISTING], r.vrf, n)
  {
    hide Convert, AcceptsAsSaid, KeysApart, AcceptsAllFor, ID, FirstIn;
    ListingConverts(env);
    CollidingListed(env);
    ListingDescribes();
    r, n := DescribedOccurs(env, [LISTING], LISTING, "", IFACE);
    AcceptedExactly(env, [LISTING], r, n);
  }

  lemma ListingDescribes()
    ensures FirstIn(LISTING, "", IFACE).Some?
  {
    var rs, ns := LISTING.routers, [COLLIDING];
    assert rs[..0] == [] && ns[..0] == [];
    assert DescribedBy(rs[..0], "") == [] && DescribedBy(rs, "") == [] + ns == ns;
    assert NeighborID("", IFACE, "") == IFACE;
  }
}

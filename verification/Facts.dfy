/**
 * What a configuration says, as a set of atomic facts, and which two facts contradict each other.
 *
 * This is the reference the merge is measured against: merging should fail exactly when two facts
 * contradict each other, and otherwise say exactly what its two inputs say.
 */
module Facts {
  import opened Configs
  import opened Merge

  /** The parameters of a session that two descriptions of one neighbor must agree on, defaults filled in. */
  datatype Session = Session(
    asn: string, port: int, srcAddr: string, password: string, ebgpMultiHop: bool, ipFamily: Family,
    holdTime: int, keepaliveTime: int, connectTime: int, localASN: nat)

  datatype PeerFact =
    | HasSession(session: Session)
    | UsesBfd(profile: string)
    | NextHop(v6: bool, hop: string)
    | Advertises(v6: bool, prefix: string)
    | Tagged(family: string, tag: Tag, prefix: string)
    | AcceptsAll
    | Accepts(v6: bool, filter: Filter)
    | Activates(addressFamily: string)

  datatype VniFact =
    | Targets(implicitImport: bool, implicitExport: bool)
    | Distinguisher(rd: string)
    | ImportTarget(rt: string)
    | ExportTarget(rt: string)

  datatype RouterFact =
    | Asn(asn: nat)
    | RouterId(id: string)
    | Network(v6: bool, prefix: string)
    | Imports(vrf: string)
    | Peer(id: string, peer: PeerFact)
    | HasEvpn(advertiseVNIs: string, advertiseSVI: bool)
    | ExplicitVNIs(advertiseVNIs: string)
    | L2(vni: nat, l2: VniFact)
    | L3(vni: nat, l3: VniFact)
    | L3Advertises(vni: nat, prefixType: string)

  datatype Fact =
    | At(vrf: string, fact: RouterFact)
    | Profile(profile: BfdProfile)

  // ---- who says what

  function OrDefault<T>(p: Option<T>, def: T): (v: T) { if p.Some? then p.value else def }

  function SessionOf(n: Neighbor): (s: Session) {
    Session(n.asn, OrDefault(n.port, DEFAULT_PORT), n.srcAddr, n.password, n.ebgpMultiHop, n.ipFamily,
            OrDefault(n.holdTime, DEFAULT_HOLD_TIME), OrDefault(n.keepaliveTime, DEFAULT_KEEPALIVE_TIME),
            OrDefault(n.connectTime, DEFAULT_CONNECT_TIME), n.localASN)
  }

  ghost predicate TaggedIn(lists: seq<PrefixList>, family: string, tag: Tag, prefix: string) {
    exists l :: l in lists && l.ipFamily == family && l.tag == tag && prefix in l.prefixes
  }

  function Lists(out: AllowedOut, tag: Tag): (ls: seq<PrefixList>) {
    if tag.LocalPref? then out.localPrefs else out.communities
  }

  function Filters(i: AllowedIn, v6: bool): (fs: seq<Filter>) { if v6 then i.v6 else i.v4 }

  ghost predicate NeighborSays(n: Neighbor, f: PeerFact) {
    match f
    case HasSession(s) => s == SessionOf(n)
    case UsesBfd(p) => p != "" && p == n.bfdProfile
    case NextHop(v6, h) => h != "" && h == (if v6 then n.outgoing.nextHopV6 else n.outgoing.nextHopV4)
    case Advertises(v6, p) => p in (if v6 then n.outgoing.v6 else n.outgoing.v4)
    case Tagged(family, tag, p) => TaggedIn(Lists(n.outgoing, tag), family, tag, p)
    case AcceptsAll => n.incoming.all
    case Accepts(v6, x) => n.incoming.all || x in Filters(n.incoming, v6)
    case Activates(af) => af in n.addressFamilies
  }

  ghost predicate VniSays(p: VniProps, f: VniFact) {
    match f
    case Targets(i, e) => i == (p.importRTs == []) && e == (p.exportRTs == [])
    case Distinguisher(rd) => rd != "" && rd == p.rd
    case ImportTarget(rt) => rt in p.importRTs
    case ExportTarget(rt) => rt in p.exportRTs
  }

  ghost predicate L2Says(vs: seq<L2Vni>, vni: nat, f: VniFact) {
    exists v :: v in vs && v.vni == vni && VniSays(v.props, f)
  }

  ghost predicate EvpnSays(e: Option<Evpn>, f: RouterFact) {
    e.Some? &&
    match f
    case HasEvpn(adv, svi) => adv == OrDefault(e.value.advertiseVNIs, VNIS_DISABLED) && svi == e.value.advertiseSVI
    case ExplicitVNIs(adv) => e.value.advertiseVNIs == Some(adv)
    case L2(vni, vf) => L2Says(e.value.l2, vni, vf)
    case L3(vni, vf) => e.value.l3.Some? && e.value.l3.value.vni == vni && VniSays(e.value.l3.value.props, vf)
    case L3Advertises(vni, t) =>
      e.value.l3.Some? && e.value.l3.value.vni == vni && t in e.value.l3.value.advertisePrefixes
    case _ => false
  }

  ghost predicate PeerSays(ns: seq<Neighbor>, id: string, f: PeerFact) {
    exists n :: n in ns && ID(n) == id && NeighborSays(n, f)
  }

  ghost predicate RouterSays(r: Router, f: RouterFact) {
    match f
    case Asn(asn) => asn == r.asn
    case RouterId(id) => id != "" && id == r.id
    case Network(v6, p) => p in (if v6 then r.v6 else r.v4)
    case Imports(vrf) => vrf in r.importVRFs
    case Peer(id, pf) => PeerSays(r.neighbors, id, pf)
    case _ => EvpnSays(r.evpn, f)
  }

  // ---- which two facts contradict each other

  ghost predicate PeerConflict(f: PeerFact, g: PeerFact) {
    match (f, g)
    case (HasSession(s), HasSession(t)) => s != t
    case (UsesBfd(p), UsesBfd(q)) => p != q
    case (NextHop(b, h), NextHop(c, k)) => b == c && h != k
    case (Tagged(_, LocalPref(a), p), Tagged(_, LocalPref(b), q)) => p == q && a != b
    case _ => false
  }

  ghost predicate VniConflict(f: VniFact, g: VniFact) {
    match (f, g)
    case (Targets(i, e), Targets(j, h)) => i != j || e != h
    case (Distinguisher(a), Distinguisher(b)) => a != b
    case _ => false
  }

  /** Contradictions between two descriptions of the router of one VRF. */
  ghost predicate RouterConflict(f: RouterFact, g: RouterFact) {
    match (f, g)
    case (Asn(a), Asn(b)) => a != b
    case (RouterId(a), RouterId(b)) => a != b
    case (Peer(n, a), Peer(m, b)) => n == m && PeerConflict(a, b)
    case (HasEvpn(a, s), HasEvpn(b, t)) => a != b || s != t
    case (L2(v, a), L2(w, b)) => v == w && VniConflict(a, b)
    case (L3(v, a), L3(w, b)) => v != w || VniConflict(a, b)
    case _ => false
  }

  ghost predicate IsVni(f: RouterFact) { f.L2? || f.L3? }

  /** Contradictions that `validateEVPN` finds in the merged routers. */
  ghost predicate EvpnConflict(f: Fact, g: Fact) {
    f.At? && g.At? &&
    (|| (f.vrf == g.vrf && ((f.fact.L3? && g.fact.Peer?) || (f.fact.Peer? && g.fact.L3?)))
     || (IsVni(f.fact) && IsVni(g.fact) && f.fact.vni == g.fact.vni && (f.vrf != g.vrf || f.fact.L2? != g.fact.L2?)))
  }

  ghost predicate Conflict(f: Fact, g: Fact) {
    || (f.At? && g.At? && f.vrf == g.vrf && RouterConflict(f.fact, g.fact))
    || (f.Profile? && g.Profile? && f.profile.name == g.profile.name && f.profile != g.profile)
    || EvpnConflict(f, g)
  }

  lemma SessionSaid(n: Neighbor)
    ensures NeighborSays(n, HasSession(SessionOf(n)))
  {}

  lemma SaysAll(n: Neighbor)
    ensures NeighborSays(n, AcceptsAll) <==> n.incoming.all
  {}

  lemma PeerAsRouter(r: Router, id: string, f: PeerFact)
    ensures RouterSays(r, Peer(id, f)) <==> PeerSays(r.neighbors, id, f)
  {}
}

/**
 * A value in normal form is determined by what it says: the rendered configuration carries no
 * trace of the order things were merged in, apart from fields no merge compares.
 */
module NormalForms {
  import opened Ordering
  import opened Configs
  import opened Merge
  import opened Facts
  import opened MergeFacts
  import opened NeighborFacts
  import opened EvpnFacts
  import opened RouterFacts

  // ---- property prefix lists

  lemma OnlyListWithTag(ls: seq<PrefixList>, id: string, prefs: bool, l: PrefixList, p: string)
    requires ListsOk(ls, id, prefs) && l in ls
    ensures p in l.prefixes <==> TaggedIn(ls, l.ipFamily, l.tag, p)
  {
    hide ListKey, ListName;
    if TaggedIn(ls, l.ipFamily, l.tag, p) {
      var k :| k in ls && k.ipFamily == l.ipFamily && k.tag == l.tag && p in k.prefixes;
      var i :| 0 <= i < |ls| && ls[i] == k;
      var j :| 0 <= j < |ls| && ls[j] == l;
      assert KeyOfList(k) == KeyOfList(l);
    }
  }

  lemma ListCarried(a: seq<PrefixList>, b: seq<PrefixList>, id: string, prefs: bool, l: PrefixList)
    requires ListsOk(a, id, prefs) && ListsOk(b, id, prefs) && l in a
    requires forall f, t: Tag, p | t.LocalPref? == prefs :: TaggedIn(a, f, t, p) <==> TaggedIn(b, f, t, p)
    ensures l in b
  {
    hide ListKey, ListName, ListsOk;
    assert ListOk(l, id, prefs) by { ListOf(a, id, prefs, l); }
    var p :| p in l.prefixes;
    OnlyListWithTag(a, id, prefs, l, p);
    assert TaggedIn(b, l.ipFamily, l.tag, p);
    var k :| k in b && k.ipFamily == l.ipFamily && k.tag == l.tag && p in k.prefixes;
    ListOf(b, id, prefs, k);
    forall q ensures q in l.prefixes <==> q in k.prefixes {
      OnlyListWithTag(a, id, prefs, l, q);
      OnlyListWithTag(b, id, prefs, k, q);
    }
    assert l.prefixes == k.prefixes;
    assert l == k;
  }

  lemma ListOf(ls: seq<PrefixList>, id: string, prefs: bool, l: PrefixList)
    requires ListsOk(ls, id, prefs) && l in ls
    ensures ListOk(l, id, prefs)
  {}

  lemma ListsUnique(a: seq<PrefixList>, b: seq<PrefixList>, id: string, prefs: bool)
    requires ListsOk(a, id, prefs) && ListsOk(b, id, prefs)
    requires NameSorted(a, KeyOfList) && NameSorted(b, KeyOfList)
    requires forall f, t: Tag, p | t.LocalPref? == prefs :: TaggedIn(a, f, t, p) <==> TaggedIn(b, f, t, p)
    ensures a == b
  {
    hide ListKey, ListName, ListsOk, NameSorted, TaggedIn;
    forall l ensures l in a <==> l in b {
      if l in a { ListCarried(a, b, id, prefs, l); }
      if l in b { ListCarried(b, a, id, prefs, l); }
    }
    NameSortedUnique(a, b, KeyOfList);
  }

  // ---- neighbors

  /** A neighbor without the one field on which merged configurations may differ. */
  function Scrub(n: Neighbor): (r: Neighbor) { n.(gracefulRestart := false) }

  ghost predicate SameFilters(a: Neighbor, b: Neighbor) {
    forall v6, x :: x in Filters(a.incoming, v6) <==> x in Filters(b.incoming, v6)
  }

  ghost predicate SameTold(a: Neighbor, b: Neighbor) {
    (forall f: PeerFact | !f.Accepts? :: NeighborSays(a, f) <==> NeighborSays(b, f)) && SameFilters(a, b)
  }

  lemma FlatUnique(a: Neighbor, b: Neighbor)
    requires SameTold(a, b)
    ensures SessionOf(a) == SessionOf(b) && a.bfdProfile == b.bfdProfile
    ensures a.outgoing.nextHopV4 == b.outgoing.nextHopV4 && a.outgoing.nextHopV6 == b.outgoing.nextHopV6
    ensures a.incoming.all == b.incoming.all
    ensures forall p :: p in a.outgoing.v4 <==> p in b.outgoing.v4
    ensures forall p :: p in a.outgoing.v6 <==> p in b.outgoing.v6
    ensures forall p :: p in a.addressFamilies <==> p in b.addressFamilies
    ensures forall f, t, p :: TaggedIn(Lists(a.outgoing, t), f, t, p) <==> TaggedIn(Lists(b.outgoing, t), f, t, p)
  {
    hide SessionOf, TaggedIn;
    assert NeighborSays(a, HasSession(SessionOf(a)));
    assert NeighborSays(a, UsesBfd(a.bfdProfile)) <==> a.bfdProfile != "";
    assert NeighborSays(b, UsesBfd(b.bfdProfile)) <==> b.bfdProfile != "";
    assert NeighborSays(a, NextHop(false, a.outgoing.nextHopV4)) <==> a.outgoing.nextHopV4 != "";
    assert NeighborSays(b, NextHop(false, b.outgoing.nextHopV4)) <==> b.outgoing.nextHopV4 != "";
    assert NeighborSays(a, NextHop(true, a.outgoing.nextHopV6)) <==> a.outgoing.nextHopV6 != "";
    assert NeighborSays(b, NextHop(true, b.outgoing.nextHopV6)) <==> b.outgoing.nextHopV6 != "";
    assert NeighborSays(a, AcceptsAll) <==> a.incoming.all;
    assert NeighborSays(b, AcceptsAll) <==> b.incoming.all;
    forall p
      ensures p in a.outgoing.v4 <==> p in b.outgoing.v4
    {
      assert NeighborSays(a, Advertises(false, p)) <==> p in a.outgoing.v4;
      assert NeighborSays(b, Advertises(false, p)) <==> p in b.outgoing.v4;
    }
    forall p
      ensures p in a.outgoing.v6 <==> p in b.outgoing.v6
    {
      assert NeighborSays(a, Advertises(true, p)) <==> p in a.outgoing.v6;
      assert NeighborSays(b, Advertises(true, p)) <==> p in b.outgoing.v6;
    }
    forall p
      ensures p in a.addressFamilies <==> p in b.addressFamilies
    {
      assert NeighborSays(a, Activates(p)) <==> p in a.addressFamilies;
      assert NeighborSays(b, Activates(p)) <==> p in b.addressFamilies;
    }
    forall f, t, p ensures TaggedIn(Lists(a.outgoing, t), f, t, p) <==> TaggedIn(Lists(b.outgoing, t), f, t, p) {
      assert NeighborSays(a, Tagged(f, t, p)) <==> TaggedIn(Lists(a.outgoing, t), f, t, p);
      assert NeighborSays(b, Tagged(f, t, p)) <==> TaggedIn(Lists(b.outgoing, t), f, t, p);
    }
  }

  lemma OutUnique(a: AllowedOut, b: AllowedOut, id: string)
    requires WfOut(a, id) && WfOut(b, id) && NormalOut(a) && NormalOut(b)
    requires a.nextHopV4 == b.nextHopV4 && a.nextHopV6 == b.nextHopV6
    requires forall p :: p in a.v4 <==> p in b.v4
    requires forall p :: p in a.v6 <==> p in b.v6
    requires forall f, t, p :: TaggedIn(Lists(a, t), f, t, p) <==> TaggedIn(Lists(b, t), f, t, p)
    ensures a == b
  {
    hide ListsOk, NameSorted, SamePref, TaggedIn, StrSorted;
    SortStringsUnique(a.v4, b.v4);
    SortStringsUnique(a.v6, b.v6);
    forall f, t: Tag, p | t.LocalPref? == true
      ensures TaggedIn(a.localPrefs, f, t, p) <==> TaggedIn(b.localPrefs, f, t, p)
    {
      assert Lists(a, t) == a.localPrefs && Lists(b, t) == b.localPrefs;
    }
    forall f, t: Tag, p | t.LocalPref? == false
      ensures TaggedIn(a.communities, f, t, p) <==> TaggedIn(b.communities, f, t, p)
    {
      assert Lists(a, t) == a.communities && Lists(b, t) == b.communities;
    }
    ListsUnique(a.localPrefs, b.localPrefs, id, true);
    ListsUnique(a.communities, b.communities, id, false);
  }

  lemma InUnique(a: Neighbor, b: Neighbor)
    requires NormalIn(a.incoming) && NormalIn(b.incoming) && a.incoming.all == b.incoming.all && SameFilters(a, b)
    ensures a.incoming == b.incoming
  {
    hide FilterKey, NameSorted;
    forall x
      ensures x in a.incoming.v4 <==> x in b.incoming.v4
    {
      assert x in Filters(a.incoming, false) <==> x in Filters(b.incoming, false);
    }
    forall x
      ensures x in a.incoming.v6 <==> x in b.incoming.v6
    {
      assert x in Filters(a.incoming, true) <==> x in Filters(b.incoming, true);
    }
    NameSortedUnique(a.incoming.v4, b.incoming.v4, FilterKey);
    NameSortedUnique(a.incoming.v6, b.incoming.v6, FilterKey);
  }

  /** Two normal neighbors that say the same are equal, up to graceful restart. */
  lemma NeighborUnique(a: Neighbor, b: Neighbor)
    requires WfNeighbor(a) && WfNeighbor(b) && NormalNeighbor(a) && NormalNeighbor(b)
    requires a.addr == b.addr && a.iface == b.iface && a.vrf == b.vrf && a.alwaysBlock == b.alwaysBlock
    requires SameTold(a, b)
    ensures Scrub(a) == Scrub(b)
  {
    hide ListsOk, NameSorted, SamePref, TaggedIn, NormalOut, NormalIn, NeighborSays, SameFilters;
    FlatUnique(a, b);
    assert SameFilters(a, b);
    OutUnique(a.outgoing, b.outgoing, ID(a));
    InUnique(a, b);
    SortStringsUnique(a.addressFamilies, b.addressFamilies);
  }

  // ---- EVPN

  lemma PropsUnique(p: VniProps, q: VniProps)
    requires NormalProps(p) && NormalProps(q)
    requires forall f :: VniSays(p, f) <==> VniSays(q, f)
    ensures p == q
  {
    assert VniSays(p, Distinguisher(p.rd)) <==> p.rd != "";
    assert VniSays(q, Distinguisher(q.rd)) <==> q.rd != "";
    forall x
      ensures x in p.importRTs <==> x in q.importRTs
    {
      assert VniSays(p, ImportTarget(x)) <==> x in p.importRTs;
    }
    forall x
      ensures x in p.exportRTs <==> x in q.exportRTs
    {
      assert VniSays(p, ExportTarget(x)) <==> x in p.exportRTs;
    }
    SortStringsUnique(p.importRTs, q.importRTs);
    SortStringsUnique(p.exportRTs, q.exportRTs);
  }

  lemma OnlyL2(vs: seq<L2Vni>, v: L2Vni, f: VniFact)
    requires NormalL2(vs) && v in vs
    ensures VniSays(v.props, f) <==> L2Says(vs, v.vni, f)
  {
    hide VniSays, NormalProps;
    if L2Says(vs, v.vni, f) {
      var w :| w in vs && w.vni == v.vni && VniSays(w.props, f);
      var i :| 0 <= i < |vs| && vs[i] == w;
      var j :| 0 <= j < |vs| && vs[j] == v;
      assert VniOf(w) == VniOf(v);
    }
  }

  lemma L2Carried(a: seq<L2Vni>, b: seq<L2Vni>, v: L2Vni)
    requires NormalL2(a) && NormalL2(b) && v in a
    requires forall x, f :: L2Says(a, x, f) <==> L2Says(b, x, f)
    ensures v in b
  {
    hide VniSays, NumberSorted;
    SomeVniFact(v.props);
    var t := Targets(v.props.importRTs == [], v.props.exportRTs == []);
    assert L2Says(b, v.vni, t);
    var w :| w in b && w.vni == v.vni && VniSays(w.props, t);
    forall f ensures VniSays(v.props, f) <==> VniSays(w.props, f) {
      OnlyL2(a, v, f); OnlyL2(b, w, f);
    }
    PropsUnique(v.props, w.props);
  }

  lemma L2Unique(a: seq<L2Vni>, b: seq<L2Vni>)
    requires NormalL2(a) && NormalL2(b)
    requires forall x, f :: L2Says(a, x, f) <==> L2Says(b, x, f)
    ensures a == b
  {
    hide L2Says, NormalProps;
    forall v ensures v in a <==> v in b {
      if v in a { L2Carried(a, b, v); }
      if v in b { L2Carried(b, a, v); }
    }
    NumberSortedUnique(a, b, VniOf);
  }

  lemma EvpnParts(e: Option<Evpn>, f: RouterFact)
    ensures e.Some? && f.L2? ==> (EvpnSays(e, f) <==> L2Says(e.value.l2, f.vni, f.l2))
    ensures e.Some? && e.value.l3.Some? && f.L3? ==>
              (EvpnSays(e, f) <==> e.value.l3.value.vni == f.vni && VniSays(e.value.l3.value.props, f.l3))
    ensures e.Some? && e.value.l3.Some? && f.L3Advertises? ==>
              (EvpnSays(e, f) <==> e.value.l3.value.vni == f.vni && f.prefixType in e.value.l3.value.advertisePrefixes)
    ensures f.L3? && EvpnSays(e, f) ==> e.Some? && e.value.l3.Some? && e.value.l3.value.vni == f.vni
    ensures f.HasEvpn? && EvpnSays(e, f) ==> e.Some? && e.value.advertiseSVI == f.advertiseSVI
    ensures e.Some? && f.ExplicitVNIs? ==> (EvpnSays(e, f) <==> e.value.advertiseVNIs == Some(f.advertiseVNIs))
  {
    hide VniSays;
  }

  lemma EvpnSome(a: Option<Evpn>, b: Option<Evpn>)
    requires a.Some? && forall f :: EvpnSays(a, f) <==> EvpnSays(b, f)
    ensures b.Some? && a.value.advertiseSVI == b.value.advertiseSVI
    ensures a.value.advertiseVNIs.Some? ==> b.value.advertiseVNIs == a.value.advertiseVNIs
    ensures a.value.l3.Some? ==> b.value.l3.Some? && b.value.l3.value.vni == a.value.l3.value.vni
  {
    hide VniSays;
    var h := HasEvpn(OrDefault(a.value.advertiseVNIs, VNIS_DISABLED), a.value.advertiseSVI);
    assert EvpnSays(a, h);
    assert EvpnSays(b, h);
    if a.value.advertiseVNIs.Some? {
      assert EvpnSays(a, ExplicitVNIs(a.value.advertiseVNIs.value));
      assert EvpnSays(b, ExplicitVNIs(a.value.advertiseVNIs.value));
    }
    if a.value.l3.Some? {
      var l := a.value.l3.value;
      SomeVniFact(l.props);
      var t := L3(l.vni, Targets(l.props.importRTs == [], l.props.exportRTs == []));
      assert EvpnSays(a, t);
      assert EvpnSays(b, t);
    }
  }

  lemma EvpnUnique(a: Option<Evpn>, b: Option<Evpn>)
    requires NormalEvpn(a) && NormalEvpn(b)
    requires forall f :: EvpnSays(a, f) <==> EvpnSays(b, f)
    ensures a == b
  {
    hide VniSays, EvpnSays, L2Says, NormalL2, NormalProps, StrSorted;
    if a.Some? { EvpnSome(a, b); }
    if b.Some? { EvpnSome(b, a); }
    if a.Some? && b.Some? {
      forall x, f ensures L2Says(a.value.l2, x, f) <==> L2Says(b.value.l2, x, f) {
        EvpnParts(a, L2(x, f)); EvpnParts(b, L2(x, f));
      }
      L2Unique(a.value.l2, b.value.l2);
      if a.value.l3.Some? {
        var l, m := a.value.l3.value, b.value.l3.value;
        forall f ensures VniSays(l.props, f) <==> VniSays(m.props, f) {
          EvpnParts(a, L3(l.vni, f)); EvpnParts(b, L3(l.vni, f));
        }
        PropsUnique(l.props, m.props);
        forall t ensures t in l.advertisePrefixes <==> t in m.advertisePrefixes {
          EvpnParts(a, L3Advertises(l.vni, t)); EvpnParts(b, L3Advertises(l.vni, t));
        }
        SortStringsUnique(l.advertisePrefixes, m.advertisePrefixes);
      }
    }
  }

  // ---- routers

  function ScrubAll(ns: seq<Neighbor>): (r: seq<Neighbor>) {
    seq(|ns|, i requires 0 <= i < |ns| => Scrub(ns[i]))
  }

  function ScrubRouter(r: Router): (t: Router) { r.(neighbors := ScrubAll(r.neighbors)) }

  /** The two routers name their neighbors alike: same kind of address, same blocked prefixes. */
  ghost predicate SameKind(r: Router, t: Router) {
    forall n, k | n in r.neighbors && k in t.neighbors && ID(n) == ID(k) ::
      n.addr == k.addr && n.iface == k.iface && n.alwaysBlock == k.alwaysBlock
  }

  ghost predicate SameListed(r: Router, t: Router) {
    forall id, v6, x :: ListsFilter(r.neighbors, id, v6, x) <==> ListsFilter(t.neighbors, id, v6, x)
  }

  ghost predicate SameSaid(r: Router, t: Router) {
    r.vrf == t.vrf && (forall f | !IsAccept(f) :: RouterSays(r, f) <==> RouterSays(t, f)) && SameListed(r, t)
  }

  lemma OnlyNeighbor(ns: seq<Neighbor>, n: Neighbor)
    requires NameSorted(ns, ID) && n in ns
    ensures forall f :: NeighborSays(n, f) <==> PeerSays(ns, ID(n), f)
    ensures forall v6, x :: x in Filters(n.incoming, v6) <==> ListsFilter(ns, ID(n), v6, x)
  {
    hide ID, NeighborSays, Filters;
    forall k | k in ns && ID(k) == ID(n) ensures k == n {
      var i :| 0 <= i < |ns| && ns[i] == k;
      var j :| 0 <= j < |ns| && ns[j] == n;
    }
  }

  lemma NeighborCarried(r: Router, t: Router, n: Neighbor)
    requires NormalRouter(r) && NormalRouter(t) && SameSaid(r, t) && SameKind(r, t) && n in r.neighbors
    ensures exists k :: k in t.neighbors && ID(k) == ID(n) && Scrub(k) == Scrub(n)
  {
    hide ID, NeighborSays, Filters, WfNeighbor, NormalNeighbor, NormalEvpn, NameSorted, StrSorted;
    var h := HasSession(SessionOf(n));
    SessionSaid(n);
    assert PeerSays(r.neighbors, ID(n), h);
    assert RouterSays(r, Peer(ID(n), h));
    assert RouterSays(t, Peer(ID(n), h));
    var k :| k in t.neighbors && ID(k) == ID(n) && NeighborSays(k, h);
    OnlyNeighbor(r.neighbors, n);
    OnlyNeighbor(t.neighbors, k);
    forall f: PeerFact | !f.Accepts? ensures NeighborSays(n, f) <==> NeighborSays(k, f) {
      assert !IsAccept(Peer(ID(n), f));
      assert RouterSays(r, Peer(ID(n), f)) <==> RouterSays(t, Peer(ID(n), f));
    }
    NeighborUnique(n, k);
  }

  lemma ScrubKeepsID(n: Neighbor)
    ensures ID(Scrub(n)) == ID(n)
  {}

  lemma ScrubSorted(ns: seq<Neighbor>)
    requires NameSorted(ns, ID)
    ensures NameSorted(ScrubAll(ns), ID)
    ensures forall n :: n in ScrubAll(ns) <==> exists k :: k in ns && Scrub(k) == n
  {
    hide ID, Scrub;
    var s := ScrubAll(ns);
    forall i, j | 0 <= i < j < |s| ensures StrLe(ID(s[i]), ID(s[j])) && ID(s[i]) != ID(s[j]) {
      ScrubKeepsID(ns[i]); ScrubKeepsID(ns[j]);
    }
    forall n | exists k :: k in ns && Scrub(k) == n ensures n in s {
      var k :| k in ns && Scrub(k) == n;
      var i :| 0 <= i < |ns| && ns[i] == k;
      assert s[i] == n;
    }
  }

  lemma NeighborsUnique(r: Router, t: Router)
    requires NormalRouter(r) && NormalRouter(t) && SameSaid(r, t) && SameKind(r, t)
    ensures ScrubAll(r.neighbors) == ScrubAll(t.neighbors)
  {
    hide ID, Scrub, WfRouter, NormalNeighbor, NormalEvpn, NameSorted, StrSorted, RouterSays, ScrubAll, SameListed;
    ScrubSorted(r.neighbors); ScrubSorted(t.neighbors);
    SameSaidBack(r, t);
    forall n ensures n in ScrubAll(r.neighbors) <==> n in ScrubAll(t.neighbors) {
      if n in ScrubAll(r.neighbors) { var k :| k in r.neighbors && Scrub(k) == n; NeighborCarried(r, t, k); }
      if n in ScrubAll(t.neighbors) { var k :| k in t.neighbors && Scrub(k) == n; NeighborCarried(t, r, k); }
    }
    NameSortedUnique(ScrubAll(r.neighbors), ScrubAll(t.neighbors), ID);
  }

  lemma SameSaidBack(r: Router, t: Router)
    requires SameSaid(r, t) && SameKind(r, t)
    ensures SameSaid(t, r) && SameKind(t, r)
  {
    hide RouterSays, ListsFilter, ID;
  }

  /** Two normal routers that say the same are equal, up to graceful restart. */
  lemma RouterUnique(r: Router, t: Router)
    requires NormalRouter(r) && NormalRouter(t) && SameSaid(r, t) && SameKind(r, t)
    ensures ScrubRouter(r) == ScrubRouter(t)
  {
    hide ID, WfRouter, NormalNeighbor, NormalEvpn, NameSorted, StrSorted, RouterSays, ScrubAll, SameListed;
    NeighborsUnique(r, t);
    RouterFlatUnique(r, t);
    SortStringsUnique(r.v4, t.v4);
    SortStringsUnique(r.v6, t.v6);
    SortStringsUnique(r.importVRFs, t.importVRFs);
    EvpnUnique(r.evpn, t.evpn);
  }

  lemma RouterFlatUnique(r: Router, t: Router)
    requires SameSaid(r, t)
    ensures r.asn == t.asn && r.id == t.id
    ensures forall p :: p in r.v4 <==> p in t.v4
    ensures forall p :: p in r.v6 <==> p in t.v6
    ensures forall p :: p in r.importVRFs <==> p in t.importVRFs
    ensures forall f :: EvpnSays(r.evpn, f) <==> EvpnSays(t.evpn, f)
  {
    hide EvpnSays, PeerSays, SameListed;
    assert RouterSays(r, Asn(r.asn));
    assert RouterSays(r, RouterId(r.id)) <==> r.id != "";
    assert RouterSays(t, RouterId(t.id)) <==> t.id != "";
    forall p
      ensures p in r.v4 <==> p in t.v4
    {
      assert RouterSays(r, Network(false, p)) <==> RouterSays(t, Network(false, p));
    }
    forall p
      ensures p in r.v6 <==> p in t.v6
    {
      assert RouterSays(r, Network(true, p)) <==> RouterSays(t, Network(true, p));
    }
    forall p
      ensures p in r.importVRFs <==> p in t.importVRFs
    {
      assert RouterSays(r, Imports(p)) <==> RouterSays(t, Imports(p));
    }
    forall f ensures EvpnSays(r.evpn, f) <==> EvpnSays(t.evpn, f) {
      if EvpnSays(r.evpn, f) { EvpnFactsOnly(r.evpn, f); }
      if EvpnSays(t.evpn, f) { EvpnFactsOnly(t.evpn, f); }
      assert !f.Peer? ==> (RouterSays(r, f) <==> RouterSays(t, f));
    }
  }
}

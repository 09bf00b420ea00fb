/**
 * What the API objects ask for, read off them directly, and that the translation says exactly that.
 * With the theorems of ConvertFacts this describes the result of a conversion without mentioning any
 * step of it.
 */
module Requests {
  import opened Ordering
  import opened Decimal
  import opened Communities
  import opened Configs
  import opened Facts
  import opened MergeFacts
  import opened NeighborFacts
  import opened Api
  import opened Translate
  import opened TranslateFacts
  import opened Conversion
  import opened ConvertFacts

  // ---- what a neighbor asks for

  /** Both families for an interface or a dual-stack neighbor, else that of its address. */
  ghost predicate Speaks(net: Net, n: ApiNeighbor, v6: bool) {
    n.iface != "" || n.dualStack || net.ip(n.address) == Some(v6)
  }

  ghost function PrefixFamily(net: Net, p: string): (v6: Option<bool>) {
    if net.cidr(p).Some? then Some(net.cidr(p).value.v6) else None
  }

  ghost predicate AsksTag(n: ApiNeighbor, tag: Tag, p: string) {
    match tag
    case LocalPref(x) => exists e :: e in n.toAdvertise.withLocalPref && e.localPref == x && p in e.prefixes
    case Comm(c) => exists e :: e in n.toAdvertise.withCommunity && Parse(e.community) == Good(c) && p in e.prefixes
  }

  ghost predicate AsksFilter(net: Net, n: ApiNeighbor, v6: bool, x: Filter) {
    exists s :: s in n.toReceive.prefixes && PrefixFamily(net, s.prefix) == Some(v6) &&
        x == Filter(FamilyOf(v6), s.prefix, s.le, s.ge)
  }

  /** The parameters of the session: defaults where nothing is set, times in whole seconds. */
  ghost predicate AsksSession(env: Env, n: ApiNeighbor, s: Session) {
    && s.asn == (if n.dynamicASN != "" then n.dynamicASN else Dec(n.asn))
    && s.port == (if n.port.Some? then n.port.value else 179)
    && s.srcAddr == n.sourceAddress
    && s.ebgpMultiHop == n.ebgpMultiHop
    && s.localASN == n.localASN
    && (forall v6 :: HasFamily(s.ipFamily, FamilyOf(v6)) <==> Speaks(env.net, n, v6)) && s.ipFamily != Unknown
    && s.holdTime == (if n.holdTime.Some? then Seconds(n.holdTime.value) else 180)
    && s.keepaliveTime == (if n.keepaliveTime.Some? then Seconds(n.keepaliveTime.value) else 60)
    && s.connectTime == (if n.connectTime.Some? then Seconds(n.connectTime.value) else 60)
    && (if n.passwordSecret == "" then s.password == n.password
        else n.passwordSecret in env.secrets && env.secrets[n.passwordSecret].password == Some(s.password))
  }

  /** `inRouter` are the prefixes the router may advertise. */
  ghost predicate NeighborAsks(env: Env, n: ApiNeighbor, inRouter: iset<string>, f: PeerFact) {
    match f
    case HasSession(s) => AsksSession(env, n, s)
    case UsesBfd(p) => p != "" && p == n.bfdProfile
    case NextHop(v6, h) => h != "" && h == (if v6 then n.toAdvertise.nextHopV6 else n.toAdvertise.nextHopV4)
    case Advertises(v6, p) =>
      Speaks(env.net, n, v6) && PrefixFamily(env.net, p) == Some(v6) &&
      (if n.toAdvertise.mode == ALLOW_ALL then p in inRouter else p in n.toAdvertise.prefixes)
    case Tagged(family, tag, p) => TagRequested(env.net, n, family, tag, p)
    case AcceptsAll => n.toReceive.mode == ALLOW_ALL
    case Accepts(v6, x) => n.toReceive.mode == ALLOW_ALL || AsksFilter(env.net, n, v6, x)
    case Activates(af) => af in n.addressFamilies
  }

  // ---- tags

  lemma AddEntryExactly(net: Net, id: string, f: Family, advertised: set<string>, m: map<string, PrefixList>,
                        e: TagEntry,
                        family: string, tag: Tag, p: string)
    requires AddEntry(net, id, f, advertised, m, e).Ok? && f != DualStack
    ensures TaggedMap(AddEntry(net, id, f, advertised, m, e).value, family, tag, p) <==>
              TaggedMap(m, family, tag, p) || (family == FrrFamily(f) && e.tag == tag && p in e.prefixes &&
                                               CidrFamily(net, p) == f)
  {
    hide ListKey, ListName, CidrFamily, NoDuplicates, FrrFamily;
    var r := AddEntry(net, id, f, advertised, m, e).value;
    var ps, key := FilterPrefixes(net, e.prefixes, f), ListKey(e.tag, FrrFamily(f));
    if ps != [] {
      assert key !in m && r[key].tag == e.tag;
      if k :| k in m && m[k].ipFamily == family && m[k].tag == tag && p in m[k].prefixes {
        assert k in r && r[k] == m[k];
      }
      if p in ps { assert key in r && p in r[key].prefixes; }
    } else {
      assert p !in ps;
    }
  }

  ghost predicate Entered(es: seq<TagEntry>, tag: Tag, p: string) {
    exists e :: e in es && e.tag == tag && p in e.prefixes
  }

  lemma {:induction false} BuildExactly(net: Net, id: string, f: Family, advertised: set<string>,
                                        toAdd: map<string, PrefixList>,
                                        es: seq<TagEntry>, family: string, tag: Tag, p: string)
    requires BuildLists(net, id, f, advertised, toAdd, es).Ok? && f != DualStack
    ensures TaggedMap(BuildLists(net, id, f, advertised, toAdd, es).value, family, tag, p) <==>
              TaggedMap(toAdd, family, tag, p) || (family == FrrFamily(f) && Entered(es, tag, p) &&
                                                   CidrFamily(net, p) == f)
  {
    hide AddEntry, CidrFamily, TaggedMap, FrrFamily;
    if es != [] {
      var before, e := es[..|es| - 1], es[|es| - 1];
      assert es == before + [e];
      BuildExactly(net, id, f, advertised, toAdd, before, family, tag, p);
      AddEntryExactly(net, id, f, advertised, BuildLists(net, id, f, advertised, toAdd, before).value, e, family, tag,
                      p);
      EnteredStep(before, e, tag, p);
    }
  }

  lemma EnteredStep(before: seq<TagEntry>, e: TagEntry, tag: Tag, p: string)
    ensures Entered(before + [e], tag, p) <==> Entered(before, tag, p) || (e.tag == tag && p in e.prefixes)
  {
    if g :| g in before && g.tag == tag && p in g.prefixes { assert g in before + [e]; }
    if e.tag == tag && p in e.prefixes { assert e in before + [e]; }
  }

  lemma NothingTagged(family: string, tag: Tag, p: string)
    ensures !TaggedMap(map[], family, tag, p)
  {}

  lemma TagListsExactly(net: Net, id: string, family: Family, a: Advertise, inRouter: seq<string>, es: seq<TagEntry>,
                        listFamily: string, tag: Tag, p: string)
    requires TagLists(net, id, family, a, inRouter, es).Ok? && family != Unknown
    ensures TaggedIn(TagLists(net, id, family, a, inRouter, es).value, listFamily, tag, p) <==>
              exists v6 :: listFamily == FrrFamily(FamilyOf(v6)) && HasFamily(family, FamilyOf(v6)) &&
                  CidrFamily(net, p) == FamilyOf(v6) && Entered(es, tag, p)
  {
    hide BuildLists, PrefixesToAdvertise, CidrFamily, TaggedMap, TaggedIn, Entered, SortByName;
    var v4, v6 := PrefixesToAdvertise(net, a, inRouter, IPv4), PrefixesToAdvertise(net, a, inRouter, IPv6);
    NothingTagged(listFamily, tag, p);
    assert FamilyOf(false) == IPv4 && FamilyOf(true) == IPv6;
    if family == DualStack {
      var m := BuildLists(net, id, IPv4, v4, map[], es).value;
      BuildExactly(net, id, IPv4, v4, map[], es, listFamily, tag, p);
      BuildExactly(net, id, IPv6, v6, m, es, listFamily, tag, p);
      MapAndList(BuildLists(net, id, IPv6, v6, m, es).value, TagLists(net, id, family, a, inRouter, es).value,
                 listFamily, tag, p);
    } else {
      var advertised := if family == IPv4 then v4 else v6;
      BuildExactly(net, id, family, advertised, map[], es, listFamily, tag, p);
      MapAndList(BuildLists(net, id, family, advertised, map[], es).value,
                 TagLists(net, id, family, a, inRouter, es).value, listFamily, tag, p);
      assert exists b :: family == FamilyOf(b);
    }
  }

  lemma PrefEntered(n: ApiNeighbor, x: u32, p: string)
    ensures Entered(PrefEntries(n.toAdvertise.withLocalPref), LocalPref(x), p) <==> AsksTag(n, LocalPref(x), p)
  {
    var es := n.toAdvertise.withLocalPref;
    var ts := PrefEntries(es);
    if t :| t in ts && t.tag == LocalPref(x) && p in t.prefixes {
      var i :| 0 <= i < |ts| && ts[i] == t;
      assert es[i] in es;
    }
    if e :| e in es && e.localPref == x && p in e.prefixes { var i :| 0 <= i < |es| && es[i] == e; assert ts[i] in ts; }
  }

  ghost predicate Commended(es: seq<CommunityPrefixes>, c: Community, p: string) {
    exists e :: e in es && Parse(e.community) == Good(c) && p in e.prefixes
  }

  lemma {:induction false} CommunityEntered(es: seq<CommunityPrefixes>, c: Community, p: string)
    requires CommunityEntries(es).Ok?
    ensures Entered(CommunityEntries(es).value, Comm(c), p) <==> Commended(es, c, p)
  {
    hide Parse;
    if es != [] {
      var before, e := es[..|es| - 1], es[|es| - 1];
      assert es == before + [e];
      CommunityEntered(before, c, p);
      EnteredStep(CommunityEntries(before).value, TagEntry(Comm(Parse(e.community).c), e.prefixes), Comm(c), p);
      if Commended(before, c, p) {
        var g :| g in before && Parse(g.community) == Good(c) && p in g.prefixes;
        assert g in es;
      }
      if Parse(e.community) == Good(c) && p in e.prefixes { assert e in es; }
    }
  }

  // ---- filters

  lemma {:induction false} SelectorsExactly(net: Net, ss: seq<Selector>, x: Filter)
    requires SelectorFilters(net, ss).Ok?
    ensures x in SelectorFilters(net, ss).value <==>
              exists s :: s in ss && net.cidr(s.prefix).Some? &&
                  x == Filter(CidrFamily(net, s.prefix), s.prefix, s.le, s.ge)
  {
    if ss != [] {
      var before, s := ss[..|ss| - 1], ss[|ss| - 1];
      assert ss == before + [s];
      SelectorsExactly(net, before, x);
      if g :| g in before && net.cidr(g.prefix).Some? && x == Filter(CidrFamily(net, g.prefix), g.prefix, g.le, g.ge) {
        assert g in ss;
      }
      assert s in ss;
    }
  }

  lemma IncomingExactly(net: Net, n: ApiNeighbor, v6: bool, x: Filter)
    requires Incoming(net, n.toReceive).Ok?
    ensures Incoming(net, n.toReceive).value.all <==> n.toReceive.mode == ALLOW_ALL
    ensures n.toReceive.mode != ALLOW_ALL ==>
              (x in Filters(Incoming(net, n.toReceive).value, v6) <==> AsksFilter(net, n, v6, x))
  {
    hide SelectorFilters, SortFilters, OfFamily;
    if n.toReceive.mode != ALLOW_ALL {
      SelectorsExactly(net, n.toReceive.prefixes, x);
      var fs := SelectorFilters(net, n.toReceive.prefixes).value;
      assert x in Filters(Incoming(net, n.toReceive).value, v6) <==> x in fs && (x.ipFamily == IPv4) == !v6;
    }
  }

  /** By prefix, then by the upper and the lower length. */
  ghost predicate FilterBefore(a: Filter, b: Filter) {
    || Precedes(a.prefix, b.prefix)
    || (a.prefix == b.prefix && (a.le < b.le || (a.le == b.le && a.ge <= b.ge)))
  }

  ghost predicate FiltersInOrder(fs: seq<Filter>) { forall i, j | 0 <= i < j < |fs| :: FilterBefore(fs[i], fs[j]) }

  lemma FilterLeExactly(a: Filter, b: Filter)
    ensures FilterLe(a, b) <==> FilterBefore(a, b)
  {
    StrLeExactly(a.prefix, b.prefix);
    if a.prefix == b.prefix { NotBeforeItself(a.prefix); }
  }

  lemma NotBeforeItself(s: string)
    ensures !Precedes(s, s)
  {}

  lemma FilterOrder(a: Filter, b: Filter, c: Filter)
    ensures FilterBefore(a, b) || FilterBefore(b, a)
    ensures FilterBefore(a, b) && FilterBefore(b, c) ==> FilterBefore(a, c)
  {
    hide FilterBefore, StrLe;
    FilterLeExactly(a, b); FilterLeExactly(b, a); FilterLeExactly(b, c); FilterLeExactly(a, c);
    StrOrder();
  }

  lemma {:induction false} InsertedInOrder(f: Filter, s: seq<Filter>)
    requires FiltersInOrder(s)
    ensures FiltersInOrder(InsertFilter(f, s)) && multiset(InsertFilter(f, s)) == multiset(s) + multiset{f}
  {
    hide FilterBefore, FilterLe;
    if s == [] {
    } else if FilterLe(f, s[0]) {
      FilterLeExactly(f, s[0]);
      forall i | 0 <= i < |s| ensures FilterBefore(f, s[i]) { FilterOrder(f, s[0], s[i]); }
    } else {
      assert s == [s[0]] + s[1..];
      FilterLeExactly(f, s[0]);
      FilterOrder(f, s[0], f);
      InsertedInOrder(f, s[1..]);
      var r := InsertFilter(f, s[1..]);
      forall x | x in r ensures FilterBefore(s[0], x) {
        if x != f { var i :| 0 <= i < |s[1..]| && s[1..][i] == x; assert s[i + 1] == x; }
      }
    }
  }

  lemma {:induction false} SortedInOrder(fs: seq<Filter>)
    ensures FiltersInOrder(SortFilters(fs)) && multiset(SortFilters(fs)) == multiset(fs)
  {
    hide FilterBefore, InsertFilter;
    if fs != [] {
      var before, f := fs[..|fs| - 1], fs[|fs| - 1];
      assert fs == before + [f];
      SortedInOrder(before);
      InsertedInOrder(f, SortFilters(before));
    }
  }

  /** A translated neighbor lists its filters in order, so that of two with one key the later one survives merging. */
  lemma IncomingInOrder(net: Net, r: Receive, v6: bool)
    requires Incoming(net, r).Ok?
    ensures FiltersInOrder(Filters(Incoming(net, r).value, v6))
  {
    hide FiltersInOrder, SortFilters, SelectorFilters, OfFamily;
    if r.mode != ALLOW_ALL { SortedInOrder(OfFamily(SelectorFilters(net, r.prefixes).value, !v6)); }
    else { assert FiltersInOrder([]) by { NoneInOrder(); } }
  }

  lemma NoneInOrder()
    ensures FiltersInOrder([])
  {}

  // ---- a neighbor

  lemma FamilySpoken(net: Net, n: ApiNeighbor, v6: bool)
    requires NeighborFamily(net, n).Ok? && (n.address == "") != (n.iface == "")
    ensures HasFamily(NeighborFamily(net, n).value, FamilyOf(v6)) <==> Speaks(net, n, v6)
    ensures NeighborFamily(net, n).value != Unknown
  {}

  lemma FamilyOfPrefix(net: Net, p: string, v6: bool)
    ensures CidrFamily(net, p) == FamilyOf(v6) <==> PrefixFamily(net, p) == Some(v6)
  {}

  lemma SessionExactly(env: Env, n: ApiNeighbor, inRouter: seq<string>, vrf: string, profiles: set<string>, s: Session)
    requires TranslateNeighbor(env, n, inRouter, vrf, profiles).Ok?
    ensures s == SessionOf(TranslateNeighbor(env, n, inRouter, vrf, profiles).value) <==> AsksSession(env, n, s)
  {
    hide Outgoing, Incoming, NeighborID, NeighborName, Dec, NeighborFamily, Speaks, Seconds, HasFamily;
    var t := SessionOf(TranslateNeighbor(env, n, inRouter, vrf, profiles).value);
    forall v6 ensures HasFamily(t.ipFamily, FamilyOf(v6)) <==> Speaks(env.net, n, v6) { FamilySpoken(env.net, n, v6); }
    FamilySpoken(env.net, n, true);
    assert AsksSession(env, n, t);
    if AsksSession(env, n, s) { SameFamily(s.ipFamily, t.ipFamily); }
  }

  lemma SameFamily(a: Family, b: Family)
    requires a != Unknown && b != Unknown && forall v6 :: HasFamily(a, FamilyOf(v6)) <==> HasFamily(b, FamilyOf(v6))
    ensures a == b
  {
    assert HasFamily(a, FamilyOf(true)) <==> HasFamily(b, FamilyOf(true));
    assert HasFamily(a, FamilyOf(false)) <==> HasFamily(b, FamilyOf(false));
  }

  lemma AdvertisedExactly(net: Net, a: Advertise, inRouter: seq<string>, v6: bool, p: string)
    ensures p in PrefixesToAdvertise(net, a, inRouter, FamilyOf(v6)) <==>
              PrefixFamily(net, p) == Some(v6) && (if a.mode == ALLOW_ALL then p in inRouter else p in a.prefixes)
  {
    FamilyOfPrefix(net, p, v6);
  }

  ghost predicate TagRequested(net: Net, n: ApiNeighbor, family: string, tag: Tag, p: string) {
    exists v6 :: family == (if v6 then "ipv6" else "ip") && Speaks(net, n, v6) && PrefixFamily(net, p) == Some(v6) &&
        AsksTag(n, tag, p)
  }

  /** The families as the translation writes them. */
  lemma RequestedIn(net: Net, n: ApiNeighbor, family: string, tag: Tag, p: string, f: Family, es: seq<TagEntry>)
    requires (forall v6 :: HasFamily(f, FamilyOf(v6)) <==> Speaks(net, n, v6)) &&
              (Entered(es, tag, p) <==> AsksTag(n, tag, p))
    ensures (exists v6 :: family == FrrFamily(FamilyOf(v6)) && HasFamily(f, FamilyOf(v6)) &&
               CidrFamily(net, p) == FamilyOf(v6) && Entered(es, tag, p)) <==>
            TagRequested(net, n, family, tag, p)
  {
    hide Speaks, HasFamily, Entered, AsksTag;
    forall v6
      ensures CidrFamily(net, p) == FamilyOf(v6) <==> PrefixFamily(net, p) == Some(v6)
    {
      FamilyOfPrefix(net, p, v6);
    }
    forall v6 ensures FrrFamily(FamilyOf(v6)) == if v6 then "ipv6" else "ip" {}
  }

  lemma TaggedExactly(env: Env, n: ApiNeighbor, inRouter: seq<string>, vrf: string, profiles: set<string>,
                      family: string, tag: Tag, p: string)
    requires TranslateNeighbor(env, n, inRouter, vrf, profiles).Ok?
    ensures NeighborSays(TranslateNeighbor(env, n, inRouter, vrf, profiles).value, Tagged(family, tag, p)) <==>
              TagRequested(env.net, n, family, tag, p)
  {
    hide TagLists, Incoming, NeighborName, NeighborFamily, Speaks, HasFamily, TaggedIn, Entered, CidrFamily,
         PrefEntries, CommunityEntries, AsksTag, SortStrings, PrefixesToAdvertise, TagRequested, FrrFamily, ParseTimers,
         PasswordFor, NextHops;
    var a, fam, id := n.toAdvertise, NeighborFamily(env.net, n).value, NeighborID(n.address, n.iface, vrf);
    FamilySpoken(env.net, n, true);
    forall v6 ensures HasFamily(fam, FamilyOf(v6)) <==> Speaks(env.net, n, v6) { FamilySpoken(env.net, n, v6); }
    var es := if tag.LocalPref? then PrefEntries(a.withLocalPref) else CommunityEntries(a.withCommunity).value;
    TagEntered(n, tag, p);
    TagListsExactly(env.net, id, fam, a, inRouter, es, family, tag, p);
    RequestedIn(env.net, n, family, tag, p, fam, es);
  }

  lemma TagEntered(n: ApiNeighbor, tag: Tag, p: string)
    requires CommunityEntries(n.toAdvertise.withCommunity).Ok?
    ensures var a := n.toAdvertise;
            var es := if tag.LocalPref? then PrefEntries(a.withLocalPref) else CommunityEntries(a.withCommunity).value;
            Entered(es, tag, p) <==> AsksTag(n, tag, p)
  {
    hide Entered, CommunityEntries, PrefEntries;
    match tag
    case LocalPref(x) => PrefEntered(n, x, p);
    case Comm(c) => CommunityEntered(n.toAdvertise.withCommunity, c, p);
  }

  /** A translated neighbor says exactly what the API object asks for. */
  lemma NeighborExactly(env: Env, n: ApiNeighbor, inRouter: seq<string>, vrf: string, profiles: set<string>,
                        all: iset<string>, f: PeerFact)
    requires TranslateNeighbor(env, n, inRouter, vrf, profiles).Ok? && forall p :: p in all <==> p in inRouter
    ensures NeighborSays(TranslateNeighbor(env, n, inRouter, vrf, profiles).value, f) <==> NeighborAsks(env, n, all, f)
  {
    hide TagLists, Incoming, NeighborName, NeighborID, NeighborFamily, Speaks, HasFamily, PrefixFamily, PrefEntries,
         CommunityEntries, AsksTag, AsksFilter, AsksSession, SessionOf, TaggedIn, ParseTimers, PasswordFor,
         PrefixesToAdvertise;
    var t := TranslateNeighbor(env, n, inRouter, vrf, profiles).value;
    match f
    case HasSession(s) => SessionExactly(env, n, inRouter, vrf, profiles, s);
    case Tagged(family, tag, p) => TaggedExactly(env, n, inRouter, vrf, profiles, family, tag, p);
    case Advertises(v6, p) =>
      FamilySpoken(env.net, n, v6);
      AdvertisedExactly(env.net, n.toAdvertise, inRouter, v6, p);
    case AcceptsAll => IncomingExactly(env.net, n, true, Filter(IPv4, "", 0, 0));
    case Accepts(v6, x) => IncomingExactly(env.net, n, v6, x);
    case _ =>
  }

  // ---- a router

  /** The last router of the VRF in the configuration lists the prefix. */
  ghost predicate Provides(rs: seq<ApiRouter>, vrf: string, p: string) {
    exists i :: 0 <= i < |rs| && rs[i].vrf == vrf && p in rs[i].prefixes && forall j | i < j < |rs| :: rs[j].vrf != vrf
  }

  lemma {:induction false} ProvidesExactly(rs: seq<ApiRouter>, vrf: string, p: string)
    ensures vrf in PrefixesForVRFs(rs) && p in PrefixesForVRFs(rs)[vrf] <==> Provides(rs, vrf, p)
  {
    if rs != [] {
      var before, r := rs[..|rs| - 1], rs[|rs| - 1];
      ProvidesExactly(before, vrf, p);
      if r.vrf == vrf {
        if p in r.prefixes { assert rs[|rs| - 1] == r; }
      } else {
        if Provides(before, vrf, p) {
          var i :| 0 <= i < |before| && before[i].vrf == vrf && p in before[i].prefixes &&
              forall j | i < j < |before| :: before[j].vrf != vrf;
          forall j | i < j < |rs| ensures rs[j].vrf != vrf { if j < |before| { assert rs[j] == before[j]; } }
          assert rs[i] == before[i];
        }
        if Provides(rs, vrf, p) {
          var i :| 0 <= i < |rs| && rs[i].vrf == vrf && p in rs[i].prefixes &&
            forall j | i < j < |rs| :: rs[j].vrf != vrf;
          forall j | i < j < |before| ensures before[j].vrf != vrf { assert before[j] == rs[j]; }
          assert before[i] == rs[i];
        }
      }
    }
  }

  /** Its own prefixes, and those of the VRFs it imports, "default" standing for the unnamed one. */
  ghost predicate MayAdvertise(c: ApiConfig, r: ApiRouter, p: string) {
    p in r.prefixes || exists v :: v in r.imports && Provides(c.routers, if v == "default" then "" else v, p)
  }

  lemma {:induction false} ImportedExactly(c: ApiConfig, imports: seq<string>, p: string)
    requires ImportedPrefixes(imports, PrefixesForVRFs(c.routers)).Ok?
    ensures p in ImportedPrefixes(imports, PrefixesForVRFs(c.routers)).value <==>
              exists v :: v in imports && Provides(c.routers, if v == "default" then "" else v, p)
  {
    hide PrefixesForVRFs, Provides;
    if imports != [] {
      var before, v := imports[..|imports| - 1], imports[|imports| - 1];
      assert imports == before + [v];
      ImportedExactly(c, before, p);
      ProvidesExactly(c.routers, if v == "default" then "" else v, p);
      if w :| w in before && Provides(c.routers, if w == "default" then "" else w, p) { assert w in imports; }
      assert v in imports;
    }
  }

  ghost predicate RouterAsks(env: Env, c: ApiConfig, r: ApiRouter, f: RouterFact) {
    match f
    case Asn(asn) => asn == r.asn
    case RouterId(id) => id != "" && id == r.id
    case Network(v6, p) => p in r.prefixes && PrefixFamily(env.net, p) == Some(v6)
    case Imports(vrf) => vrf in r.imports
    case Peer(id, pf) => PeerAsked(env, r.neighbors, r.vrf, (iset p | MayAdvertise(c, r, p)), id, pf)
    case _ => EvpnSays(r.evpn, f)
  }

  ghost predicate PeerAsked(env: Env, ns: seq<ApiNeighbor>, vrf: string, all: iset<string>, id: string, f: PeerFact) {
    exists n :: n in ns && NeighborID(n.address, n.iface, vrf) == id && NeighborAsks(env, n, all, f)
  }

  lemma {:induction false} PeersExactly(env: Env, ns: seq<ApiNeighbor>, r: ApiRouter, inRouter: seq<string>,
                                        profiles: set<string>, all: iset<string>, id: string, f: PeerFact)
    requires TranslateNeighbors(env, ns, r, inRouter, profiles).Ok? && forall p :: p in all <==> p in inRouter
    ensures PeerSays(TranslateNeighbors(env, ns, r, inRouter, profiles).value, id, f) <==>
              PeerAsked(env, ns, r.vrf, all, id, f)
  {
    hide TranslateNeighbor, NeighborAsks, NeighborSays, NeighborID;
    if ns != [] {
      var before, n := ns[..|ns| - 1], ns[|ns| - 1];
      assert ns == before + [n];
      PeersExactly(env, before, r, inRouter, profiles, all, id, f);
      NeighborExactly(env, n, inRouter, r.vrf, profiles, all, f);
      TranslatedID(env, n, inRouter, r.vrf, profiles);
      var t, ts := TranslateNeighbor(env, n, inRouter, r.vrf, profiles).value,
          TranslateNeighbors(env, before, r, inRouter, profiles).value;
      PeerSaysStep(ts, t, id, f);
      AskedStep(env, before, n, r.vrf, all, id, f);
    }
  }

  lemma TranslatedID(env: Env, n: ApiNeighbor, inRouter: seq<string>, vrf: string, profiles: set<string>)
    requires TranslateNeighbor(env, n, inRouter, vrf, profiles).Ok?
    ensures ID(TranslateNeighbor(env, n, inRouter, vrf, profiles).value) == NeighborID(n.address, n.iface, vrf)
  {
    hide Outgoing, Incoming, NeighborFamily, ParseTimers, PasswordFor, NeighborName;
  }

  lemma AskedStep(env: Env, ns: seq<ApiNeighbor>, n: ApiNeighbor, vrf: string, all: iset<string>, id: string,
                  f: PeerFact)
    ensures PeerAsked(env, ns + [n], vrf, all, id, f) <==>
              PeerAsked(env, ns, vrf, all, id, f) ||
                  (NeighborID(n.address, n.iface, vrf) == id && NeighborAsks(env, n, all, f))
  {
    hide NeighborAsks, NeighborID;
    if k :| k in ns && NeighborID(k.address, k.iface, vrf) == id && NeighborAsks(env, k, all, f) {
      assert k in ns + [n];
    }
    assert n in ns + [n];
  }

  lemma RouterExactly(env: Env, c: ApiConfig, r: ApiRouter, profiles: set<string>, f: RouterFact)
    requires RawRouter(env, r, PrefixesForVRFs(c.routers), profiles).Ok?
    ensures RouterSays(RawRouter(env, r, PrefixesForVRFs(c.routers), profiles).value, f) <==> RouterAsks(env, c, r, f)
    ensures RawRouter(env, r, PrefixesForVRFs(c.routers), profiles).value.vrf == r.vrf
  {
    hide TranslateNeighbors, ValidOutgoing, ValidPrefixes, ValidImports, PrefixesForVRFs, ImportedPrefixes, PeerSays,
         PeerAsked, MayAdvertise, Provides, CidrFamily, PrefixFamily, EvpnSays;
    var imported := ImportedPrefixes(r.imports, PrefixesForVRFs(c.routers)).value;
    var inRouter := r.prefixes + imported;
    match f
    case Network(v6, p) => FamilyOfPrefix(env.net, p, v6);
    case Peer(id, pf) =>
      var all := iset p | MayAdvertise(c, r, p);
      forall p ensures p in all <==> p in inRouter { ReachableExactly(c, r, p); }
      PeersExactly(env, r.neighbors, r, inRouter, profiles, all, id, pf);
    case _ =>
  }

  lemma ReachableExactly(c: ApiConfig, r: ApiRouter, p: string)
    requires ImportedPrefixes(r.imports, PrefixesForVRFs(c.routers)).Ok?
    ensures MayAdvertise(c, r, p) <==> p in r.prefixes + ImportedPrefixes(r.imports, PrefixesForVRFs(c.routers)).value
  {
    hide PrefixesForVRFs, Provides, ImportedPrefixes;
    ImportedExactly(c, r.imports, p);
  }

  // ---- a configuration

  /** What a configuration asks for. */
  ghost predicate ConfigAsks(env: Env, c: ApiConfig, f: Fact) {
    match f
    case At(vrf, rf) => exists r :: r in c.routers && r.vrf == vrf && RouterAsks(env, c, r, rf)
    case Profile(p) => p in c.bfdProfiles
  }

  /** A configuration that translates says exactly what it asks for. */
  lemma ConfigExactly(env: Env, c: ApiConfig, f: Fact)
    requires TranslateConfig(env, c).Ok?
    ensures ConfigSays(env, c, f) <==> ConfigAsks(env, c, f)
  {
    hide RawRouter, RouterSays, RouterAsks, RawRouters, PrefixesForVRFs, ProfileNames;
    if f.At? {
      RawRoutersFacts(env, c, c.routers);
      var rs, ts := c.routers, TranslateConfig(env, c).value;
      forall i | 0 <= i < |rs|
        ensures ts[i].vrf == rs[i].vrf && (RouterSays(ts[i], f.fact) <==> RouterAsks(env, c, rs[i], f.fact))
      {
        RouterExactly(env, c, rs[i], ProfileNames(c.bfdProfiles), f.fact);
      }
      if t :| t in ts && t.vrf == f.vrf && RouterSays(t, f.fact) {
        var i :| 0 <= i < |ts| && ts[i] == t;
        assert rs[i] in rs;
      }
      if r :| r in rs && r.vrf == f.vrf && RouterAsks(env, c, r, f.fact) {
        var i :| 0 <= i < |rs| && rs[i] == r;
        assert ts[i] in ts;
      }
    }
  }

  ghost predicate AskedBy(env: Env, cs: seq<ApiConfig>, f: Fact) { exists c :: c in cs && ConfigAsks(env, c, f) }

  /** The result of a conversion says exactly what the API objects ask for, and nothing else. */
  lemma ResultIsRequested(env: Env, cs: seq<ApiConfig>, f: Fact)
    requires Convert(env, cs).Ok? && !AcceptFact(f)
    ensures ResultSays(Convert(env, cs).value, f) <==> AskedBy(env, cs, f)
  {
    hide Convert, ConfigSays, ConfigAsks, TranslateConfig, ResultSays, Contradict, Supplied;
    ConversionTheorem(env, cs);
    ResultTheorem(env, cs, f);
    forall c | c in cs ensures ConfigSays(env, c, f) <==> ConfigAsks(env, c, f) { ConfigExactly(env, c, f); }
  }

  /** Two configurations ask for things that contradict each other. */
  ghost predicate AskedApart(env: Env, a: ApiConfig, b: ApiConfig) {
    exists f, g :: ConfigAsks(env, a, f) && ConfigAsks(env, b, g) && Conflict(f, g)
  }

  /** Whether a list merges without dispute, in terms of the API objects alone once they translate. */
  lemma DisputesAreRequested(env: Env, cs: seq<ApiConfig>)
    ensures Undisputed(env, cs) <==>
            (forall c | c in cs :: TranslateConfig(env, c).Ok?) &&
              forall a, b | a in cs && b in cs :: !AskedApart(env, a, b)
  {
    hide Undisputed, ConfigSays, ConfigAsks, TranslateConfig, Conflict;
    UndisputedTheorem(env, cs);
    if forall c | c in cs :: TranslateConfig(env, c).Ok? {
      forall a, b | a in cs && b in cs ensures AskedApart(env, a, b) <==> Contradict(env, a, b) {
        forall f
          ensures (ConfigSays(env, a, f) <==> ConfigAsks(env, a, f)) &&
                    (ConfigSays(env, b, f) <==> ConfigAsks(env, b, f))
        {
          ConfigExactly(env, a, f);
          ConfigExactly(env, b, f);
        }
      }
    }
  }
}

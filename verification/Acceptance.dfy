/**
 * When a configuration is accepted, read off the API object: the exact conditions under which the
 * translation of one configuration, and the conversion of a list of them, succeed.
 */
module Acceptance {
  import opened Ordering
  import opened Communities
  import opened Configs
  import opened Facts
  import opened Api
  import opened Translate
  import opened TranslateFacts
  import opened Conversion
  import opened ConvertFacts
  import opened Requests

  // ---- tags

  ghost predicate InFamily(net: Net, p: string, f: Family) { CidrFamily(net, p) == f }

  /** No prefix of the family is listed twice. */
  ghost predicate ListedOnce(net: Net, ps: seq<string>, f: Family) {
    forall i, j | 0 <= i < j < |ps| && InFamily(net, ps[i], f) :: ps[i] != ps[j]
  }

  ghost predicate HasPrefixOf(net: Net, ps: seq<string>, f: Family) { exists p :: p in ps && InFamily(net, p, f) }

  /** The entries are accepted for a family: each tag is used once, on advertised prefixes, each listed once. */
  ghost predicate TagsFit(net: Net, f: Family, advertised: iset<string>, es: seq<TagEntry>) {
    forall j | 0 <= j < |es| :: EntryFits(net, f, advertised, es, j)
  }

  ghost predicate EntryFits(net: Net, f: Family, advertised: iset<string>, es: seq<TagEntry>, j: nat)
    requires j < |es|
  {
    && (forall p | p in es[j].prefixes && InFamily(net, p, f) :: p in advertised)
    && ListedOnce(net, es[j].prefixes, f)
    && forall i | 0 <= i < j && es[i].tag == es[j].tag :: !HasPrefixOf(net, es[i].prefixes, f)
  }

  lemma {:induction false} FilteredOnce(net: Net, ps: seq<string>, f: Family)
    requires f != DualStack
    ensures NoDuplicates(FilterPrefixes(net, ps, f)) <==> ListedOnce(net, ps, f)
  {
    hide CidrFamily;
    if ps != [] {
      var before, p := ps[..|ps| - 1], ps[|ps| - 1];
      assert ps == before + [p];
      FilteredOnce(net, before, f);
      var fs := FilterPrefixes(net, before, f);
      assert ListedOnce(net, ps, f) <==>
          ListedOnce(net, before, f) && !(InFamily(net, p, f) && p in before) by { OnceMore(net, before, p, f); }
      if InFamily(net, p, f) { AppendedOnce(fs, p); }
    }
  }

  lemma OnceMore(net: Net, before: seq<string>, p: string, f: Family)
    ensures ListedOnce(net, before + [p], f) <==> ListedOnce(net, before, f) && !(InFamily(net, p, f) && p in before)
  {
    hide CidrFamily;
    var ps := before + [p];
    if ListedOnce(net, ps, f) {
      forall i, j | 0 <= i < j < |before| && InFamily(net, before[i], f)
        ensures before[i] != before[j]
      {
        assert ps[i] == before[i] && ps[j] == before[j];
      }
      if InFamily(net, p, f) {
        forall i | 0 <= i < |before| ensures before[i] != p { assert ps[i] == before[i] && ps[|before|] == p; }
      }
    }
    if ListedOnce(net, before, f) && !(InFamily(net, p, f) && p in before) {
      forall i, j | 0 <= i < j < |ps| && InFamily(net, ps[i], f) ensures ps[i] != ps[j] {
        assert ps[i] == before[i] && before[i] in before;
        if j < |before| { assert ps[j] == before[j]; }
      }
    }
  }

  lemma AppendedOnce(fs: seq<string>, p: string)
    ensures NoDuplicates(fs + [p]) <==> NoDuplicates(fs) && p !in fs
  {
    var gs := fs + [p];
    if NoDuplicates(gs) {
      forall i, j | 0 <= i < j < |fs| ensures fs[i] != fs[j] { assert gs[i] == fs[i] && gs[j] == fs[j]; }
      forall i | 0 <= i < |fs| ensures fs[i] != p { assert gs[i] == fs[i] && gs[|fs|] == p; }
    }
  }

  /** The keys of the lists built so far. */
  ghost predicate Keyed(net: Net, f: Family, toAdd: map<string, PrefixList>, es: seq<TagEntry>,
                        m: map<string, PrefixList>) {
    forall k :: k in m <==> k in toAdd || UsesKey(net, f, es, k)
  }

  ghost predicate UsesKey(net: Net, f: Family, es: seq<TagEntry>, k: string) {
    exists i :: 0 <= i < |es| && HasPrefixOf(net, es[i].prefixes, f) && ListKey(es[i].tag, FrrFamily(f)) == k
  }

  /** All tags are of one kind, and none of the family has a list yet. */
  ghost predicate Unused(f: Family, toAdd: map<string, PrefixList>, es: seq<TagEntry>) {
    && (forall i, j | 0 <= i < |es| && 0 <= j < |es| :: es[i].tag.LocalPref? <==> es[j].tag.LocalPref?)
    && (forall e | e in es :: ListKey(e.tag, FrrFamily(f)) !in toAdd)
  }

  lemma SameKeySameTag(f: Family, s: Tag, t: Tag)
    requires s.LocalPref? <==> t.LocalPref?
    ensures ListKey(s, FrrFamily(f)) == ListKey(t, FrrFamily(f)) <==> s == t
  {
    hide ListKey;
    if ListKey(s, FrrFamily(f)) == ListKey(t, FrrFamily(f)) { ListKeyInjective(s, FrrFamily(f), t, FrrFamily(f)); }
  }

  lemma FitsPrefix(net: Net, f: Family, advertised: iset<string>, before: seq<TagEntry>, e: TagEntry)
    ensures TagsFit(net, f, advertised, before + [e]) <==>
              TagsFit(net, f, advertised, before) && EntryFits(net, f, advertised, before + [e], |before|)
  {
    hide ListedOnce, HasPrefixOf, InFamily;
    var es := before + [e];
    forall j | 0 <= j < |before|
      ensures EntryFits(net, f, advertised, es, j) <==> EntryFits(net, f, advertised, before, j)
    {
      assert es[j] == before[j] && forall i | 0 <= i < j :: es[i] == before[i];
    }
  }

  lemma Filtered(net: Net, ps: seq<string>, f: Family)
    requires f != DualStack
    ensures FilterPrefixes(net, ps, f) == [] <==> !HasPrefixOf(net, ps, f)
  {
    hide FilterPrefixes, CidrFamily;
    var fs := FilterPrefixes(net, ps, f);
    if fs != [] { assert fs[0] in fs && InFamily(net, fs[0], f); }
    if p :| p in ps && InFamily(net, p, f) { assert p in fs; }
  }

  /** Whether the key of the next entry is taken. */
  lemma KeyTaken(net: Net, f: Family, toAdd: map<string, PrefixList>, before: seq<TagEntry>, e: TagEntry,
                 m: map<string, PrefixList>)
    requires Keyed(net, f, toAdd, before, m) && Unused(f, toAdd, before + [e])
    ensures ListKey(e.tag, FrrFamily(f)) in m <==>
              exists i :: 0 <= i < |before| && before[i].tag == e.tag && HasPrefixOf(net, before[i].prefixes, f)
  {
    hide ListKey, HasPrefixOf, FrrFamily;
    var es := before + [e];
    assert e in es && es[|before|] == e;
    forall i | 0 <= i < |before|
      ensures ListKey(before[i].tag, FrrFamily(f)) == ListKey(e.tag, FrrFamily(f)) <==> before[i].tag == e.tag
    {
      assert es[i] == before[i];
      SameKeySameTag(f, before[i].tag, e.tag);
    }
  }

  lemma AddAccepts(net: Net, id: string, f: Family, advertised: set<string>, adv: iset<string>,
                   toAdd: map<string, PrefixList>, before: seq<TagEntry>, e: TagEntry, m: map<string, PrefixList>)
    requires f != DualStack && Keyed(net, f, toAdd, before, m) && Unused(f, toAdd, before + [e]) &&
             forall p :: p in adv <==> p in advertised
    ensures AddEntry(net, id, f, advertised, m, e).Ok? <==> EntryFits(net, f, adv, before + [e], |before|)
    ensures AddEntry(net, id, f, advertised, m, e).Ok? ==>
              Keyed(net, f, toAdd, before + [e], AddEntry(net, id, f, advertised, m, e).value)
  {
    hide ListKey, ListName, FrrFamily, CidrFamily, ListedOnce, NoDuplicates, Unused;
    var es, key := before + [e], ListKey(e.tag, FrrFamily(f));
    var ps := FilterPrefixes(net, e.prefixes, f);
    Filtered(net, e.prefixes, f);
    FilteredOnce(net, e.prefixes, f);
    KeyTaken(net, f, toAdd, before, e, m);
    assert es[|before|] == e && forall i | 0 <= i < |before| :: es[i] == before[i];
    if key !in m && ps == [] { NothingListed(net, e.prefixes, f); }
    if AddEntry(net, id, f, advertised, m, e).Ok? {
      KeyedStep(net, f, toAdd, before, e, m, AddEntry(net, id, f, advertised, m, e).value);
    }
  }

  lemma NothingListed(net: Net, ps: seq<string>, f: Family)
    requires !HasPrefixOf(net, ps, f)
    ensures ListedOnce(net, ps, f) && forall p | p in ps :: !InFamily(net, p, f)
  {
    hide CidrFamily;
    forall i | 0 <= i < |ps| ensures !InFamily(net, ps[i], f) { assert ps[i] in ps; }
  }

  lemma KeyedStep(net: Net, f: Family, toAdd: map<string, PrefixList>, before: seq<TagEntry>, e: TagEntry,
                  m: map<string, PrefixList>, r: map<string, PrefixList>)
    requires Keyed(net, f, toAdd, before, m)
    requires forall k :: k in r <==> k in m || (HasPrefixOf(net, e.prefixes, f) && k == ListKey(e.tag, FrrFamily(f)))
    ensures Keyed(net, f, toAdd, before + [e], r)
  {
    hide ListKey, HasPrefixOf, FrrFamily;
    var es := before + [e];
    forall k
      ensures k in r <==> k in toAdd || UsesKey(net, f, es, k)
    {
      if i :| 0 <= i < |before| && HasPrefixOf(net, before[i].prefixes, f) &&
              ListKey(before[i].tag, FrrFamily(f)) == k {
        assert es[i] == before[i];
      }
      if i :| 0 <= i < |es| && HasPrefixOf(net, es[i].prefixes, f) && ListKey(es[i].tag, FrrFamily(f)) == k {
        if i < |before| { assert es[i] == before[i]; } else { assert es[i] == e; }
      }
      assert es[|before|] == e;
    }
  }

  /** The tag builder accepts exactly the entries that fit. */
  lemma {:induction false} BuildAccepts(net: Net, id: string, f: Family, advertised: set<string>, adv: iset<string>,
                                        toAdd: map<string, PrefixList>, es: seq<TagEntry>)
    requires f != DualStack && Unused(f, toAdd, es) && forall p :: p in adv <==> p in advertised
    ensures BuildLists(net, id, f, advertised, toAdd, es).Ok? <==> TagsFit(net, f, adv, es)
    ensures BuildLists(net, id, f, advertised, toAdd, es).Ok? ==>
              Keyed(net, f, toAdd, es, BuildLists(net, id, f, advertised, toAdd, es).value)
  {
    hide AddEntry, EntryFits, ListKey, FrrFamily, HasPrefixOf;
    if es != [] {
      var before, e := es[..|es| - 1], es[|es| - 1];
      assert es == before + [e];
      assert forall i | 0 <= i < |before| :: es[i] == before[i];
      BuildAccepts(net, id, f, advertised, adv, toAdd, before);
      FitsPrefix(net, f, adv, before, e);
      if BuildLists(net, id, f, advertised, toAdd, before).Ok? {
        AddAccepts(net, id, f, advertised, adv, toAdd, before, e,
                   BuildLists(net, id, f, advertised, toAdd, before).value);
      }
    }
  }

  ghost predicate OneKind(es: seq<TagEntry>) {
    forall i, j | 0 <= i < |es| && 0 <= j < |es| :: es[i].tag.LocalPref? <==> es[j].tag.LocalPref?
  }

  lemma NothingUsed(f: Family, es: seq<TagEntry>)
    requires OneKind(es)
    ensures Unused(f, map[], es)
  {}

  /** The lists of one family do not stand in the way of the other. */
  lemma FamiliesApart(net: Net, es: seq<TagEntry>, m: map<string, PrefixList>)
    requires OneKind(es) && Keyed(net, IPv4, map[], es, m)
    ensures Unused(IPv6, m, es)
  {
    hide ListKey, HasPrefixOf;
    forall e | e in es ensures ListKey(e.tag, FrrFamily(IPv6)) !in m {
      var j :| 0 <= j < |es| && es[j] == e;
      forall i | 0 <= i < |es| ensures ListKey(es[i].tag, FrrFamily(IPv4)) != ListKey(e.tag, FrrFamily(IPv6)) {
        KeyFamilies(es[i].tag, es[j].tag);
      }
    }
  }

  lemma KeyFamilies(s: Tag, t: Tag)
    requires s.LocalPref? <==> t.LocalPref?
    ensures ListKey(s, "ip") != ListKey(t, "ipv6")
  {
    hide ListKey;
    if ListKey(s, "ip") == ListKey(t, "ipv6") { ListKeyInjective(s, "ip", t, "ipv6"); }
  }

  /** What a neighbor is told in a family. */
  ghost function ToldIn(net: Net, a: Advertise, all: iset<string>, v6: bool): iset<string> {
    iset p | PrefixFamily(net, p) == Some(v6) && (if a.mode == ALLOW_ALL then p in all else p in a.prefixes)
  }

  lemma TagListsAccept(net: Net, id: string, family: Family, a: Advertise, inRouter: seq<string>, all: iset<string>,
                       es: seq<TagEntry>)
    requires family != Unknown && OneKind(es) && forall p :: p in all <==> p in inRouter
    ensures TagLists(net, id, family, a, inRouter, es).Ok? <==>
              forall v6 | HasFamily(family, FamilyOf(v6)) :: TagsFit(net, FamilyOf(v6), ToldIn(net, a, all, v6), es)
  {
    hide BuildLists, PrefixesToAdvertise, TagsFit, OneKind, PrefixFamily, SortByName, ListKey;
    var v4, v6 := PrefixesToAdvertise(net, a, inRouter, IPv4), PrefixesToAdvertise(net, a, inRouter, IPv6);
    forall p ensures (p in ToldIn(net, a, all, false) <==> p in v4) && (p in ToldIn(net, a, all, true) <==> p in v6) {
      AdvertisedExactly(net, a, inRouter, false, p);
      AdvertisedExactly(net, a, inRouter, true, p);
    }
    NothingUsed(IPv4, es);
    NothingUsed(IPv6, es);
    assert FamilyOf(false) == IPv4 && FamilyOf(true) == IPv6;
    BuildAccepts(net, id, IPv4, v4, ToldIn(net, a, all, false), map[], es);
    if family == DualStack {
      var first := BuildLists(net, id, IPv4, v4, map[], es);
      if first.Ok? {
        FamiliesApart(net, es, first.value);
        BuildAccepts(net, id, IPv6, v6, ToldIn(net, a, all, true), first.value, es);
      }
    } else if family == IPv6 {
      BuildAccepts(net, id, IPv6, v6, ToldIn(net, a, all, true), map[], es);
    }
  }

  // ---- a neighbor

  ghost predicate ValidIdentity(c: ApiConfig, r: ApiRouter, n: ApiNeighbor) {
    && (n.address == "") != (n.iface == "")
    && (n.bfdProfile != "" ==> exists b :: b in c.bfdProfiles && b.name == n.bfdProfile)
    && (n.asn == 0) != (n.dynamicASN == "")
    && (n.dynamicASN != "" ==> n.dynamicASN == INTERNAL_ASN || n.dynamicASN == EXTERNAL_ASN)
    && !(n.localASN != 0 && n.asn != 0 && n.asn == r.asn)
  }

  /** Both times or none; the hold time is zero or at least three seconds, and not below the keepalive time. */
  ghost predicate ValidTimers(n: ApiNeighbor) {
    && (n.holdTime.Some? <==> n.keepaliveTime.Some?)
    && (n.holdTime.Some? ==>
        (Seconds(n.holdTime.value) == 0 || Seconds(n.holdTime.value) >= 3) && n.keepaliveTime.value <= n.holdTime.value)
  }

  ghost predicate ValidPassword(env: Env, n: ApiNeighbor) {
    && (n.password == "" || n.passwordSecret == "")
    && (n.passwordSecret != "" ==>
          n.passwordSecret in env.secrets && env.secrets[n.passwordSecret].basicAuth &&
              env.secrets[n.passwordSecret].password.Some?)
  }

  /** The prefix parses, and the neighbor speaks its family. */
  ghost predicate FitsNeighbor(net: Net, n: ApiNeighbor, p: string) {
    PrefixFamily(net, p).Some? && Speaks(net, n, PrefixFamily(net, p).value)
  }

  ghost predicate ValidHops(net: Net, n: ApiNeighbor) {
    && (n.toAdvertise.nextHopV4 != "" ==> net.ip(n.toAdvertise.nextHopV4) == Some(false) && Speaks(net, n, false))
    && (n.toAdvertise.nextHopV6 != "" ==> net.ip(n.toAdvertise.nextHopV6) == Some(true) && Speaks(net, n, true))
  }

  ghost predicate ValidPrefixLists(net: Net, n: ApiNeighbor, all: iset<string>) {
    var a := n.toAdvertise;
    && (forall e | e in a.withLocalPref :: forall p | p in e.prefixes :: FitsNeighbor(net, n, p))
    && (forall e | e in a.withCommunity :: forall p | p in e.prefixes :: FitsNeighbor(net, n, p))
    && (forall e, g | e in a.withLocalPref && g in a.withLocalPref :: forall p | p in e.prefixes && p in g.prefixes ::
          e.localPref == g.localPref)
    && (a.mode != ALLOW_ALL ==> forall p | p in a.prefixes :: FitsNeighbor(net, n, p) && p in all)
  }

  ghost predicate CommunitiesGood(es: seq<CommunityPrefixes>) {
    forall i | 0 <= i < |es| :: Parse(es[i].community).Good?
  }

  ghost function CommunityTags(es: seq<CommunityPrefixes>): (ts: seq<TagEntry>)
    requires CommunitiesGood(es)
  {
    seq(|es|, i requires 0 <= i < |es| => TagEntry(Comm(Parse(es[i].community).c), es[i].prefixes))
  }

  ghost predicate ValidTags(net: Net, n: ApiNeighbor, all: iset<string>) {
    var a := n.toAdvertise;
    && CommunitiesGood(a.withCommunity)
    && forall v6 | Speaks(net, n, v6) ::
         && TagsFit(net, FamilyOf(v6), ToldIn(net, a, all, v6), PrefEntries(a.withLocalPref))
         && TagsFit(net, FamilyOf(v6), ToldIn(net, a, all, v6), CommunityTags(a.withCommunity))
  }

  lemma {:induction false} CommunitiesParse(es: seq<CommunityPrefixes>)
    ensures CommunityEntries(es).Ok? <==> CommunitiesGood(es)
    ensures CommunityEntries(es).Ok? ==> CommunityEntries(es).value == CommunityTags(es)
  {
    hide Parse;
    if es != [] {
      var before, e := es[..|es| - 1], es[|es| - 1];
      CommunitiesParse(before);
      assert forall i | 0 <= i < |before| :: before[i] == es[i];
      assert es[|before|] == e;
      if CommunitiesGood(es) {
        assert CommunityTags(es) == CommunityTags(before) + [TagEntry(Comm(Parse(e.community).c), e.prefixes)];
      }
    }
  }

  /** A length that is set is not below that of the prefix, and the lower one not above the upper one. */
  ghost predicate LengthsInOrder(mask: nat, le: nat, ge: nat) {
    (le != 0 ==> mask <= le && ge <= le) && (ge != 0 ==> mask <= ge)
  }

  lemma LengthsOk(mask: nat, le: nat, ge: nat)
    ensures SelectorLengthsOk(mask, le, ge) <==> LengthsInOrder(mask, le, ge)
  {}

  ghost predicate ValidReceive(net: Net, n: ApiNeighbor) {
    n.toReceive.mode != ALLOW_ALL ==>
      forall s | s in n.toReceive.prefixes :: net.cidr(s.prefix).Some? &&
          LengthsInOrder(net.cidr(s.prefix).value.maskLength, s.le, s.ge)
  }

  ghost predicate ValidNeighbor(env: Env, c: ApiConfig, r: ApiRouter, n: ApiNeighbor) {
    && ValidIdentity(c, r, n) && (n.address != "" ==> env.net.ip(n.address).Some?)
    && ValidTimers(n) && ValidPassword(env, n)
    && ValidHops(env.net, n)
    && ValidPrefixLists(env.net, n, iset p | MayAdvertise(c, r, p)) &&
         ValidTags(env.net, n, iset p | MayAdvertise(c, r, p))
    && ValidReceive(env.net, n)
  }

  lemma {:induction false} SelectorsAccept(net: Net, ss: seq<Selector>)
    ensures SelectorFilters(net, ss).Ok? <==>
              forall s | s in ss :: net.cidr(s.prefix).Some? &&
                  LengthsInOrder(net.cidr(s.prefix).value.maskLength, s.le, s.ge)
  {
    hide SelectorLengthsOk, LengthsInOrder;
    if ss != [] {
      var before, s := ss[..|ss| - 1], ss[|ss| - 1];
      assert ss == before + [s];
      SelectorsAccept(net, before);
      if net.cidr(s.prefix).Some? { LengthsOk(net.cidr(s.prefix).value.maskLength, s.le, s.ge); }
      assert s in ss;
    }
  }

  lemma ReceiveAccepts(net: Net, n: ApiNeighbor)
    ensures Incoming(net, n.toReceive).Ok? <==> ValidReceive(net, n)
  {
    hide SelectorFilters, LengthsInOrder, SortFilters;
    SelectorsAccept(net, n.toReceive.prefixes);
  }

  lemma FitsFamilies(net: Net, n: ApiNeighbor, ps: seq<string>)
    requires NeighborFamily(net, n).Ok? && (n.address == "") != (n.iface == "")
    ensures PrefixesFit(net, ps, NeighborFamily(net, n).value) <==> forall p | p in ps :: FitsNeighbor(net, n, p)
  {
    hide NeighborFamily, Speaks, PrefixFamily, CidrFamily;
    var f := NeighborFamily(net, n).value;
    FamilySpoken(net, n, true);
    FamilySpoken(net, n, false);
    forall p ensures (CidrFamily(net, p) != Unknown && MatchesPrefix(net, f, p)) <==> FitsNeighbor(net, n, p) {
      FamilyOfPrefix(net, p, true);
      FamilyOfPrefix(net, p, false);
      KnownFamily(net, p);
    }
  }

  lemma KnownFamily(net: Net, p: string)
    ensures CidrFamily(net, p) == Unknown <==> PrefixFamily(net, p).None?
    ensures CidrFamily(net, p) == Unknown || CidrFamily(net, p) == IPv4 || CidrFamily(net, p) == IPv6
  {}

  lemma PrefixListsAccept(net: Net, n: ApiNeighbor, inRouter: seq<string>, all: iset<string>)
    requires NeighborFamily(net, n).Ok? && (n.address == "") != (n.iface == "") &&
             forall p :: p in all <==> p in inRouter
    ensures OutgoingOk(net, inRouter, n) <==> ValidPrefixLists(net, n, all)
  {
    hide NeighborFamily, PrefixesFit, FitsNeighbor;
    var a := n.toAdvertise;
    forall e | e in a.withLocalPref
      ensures PrefixesFit(net, e.prefixes, NeighborFamily(net, n).value) <==>
                forall p | p in e.prefixes :: FitsNeighbor(net, n, p)
    {
      FitsFamilies(net, n, e.prefixes);
    }
    forall e | e in a.withCommunity
      ensures PrefixesFit(net, e.prefixes, NeighborFamily(net, n).value) <==>
                forall p | p in e.prefixes :: FitsNeighbor(net, n, p)
    {
      FitsFamilies(net, n, e.prefixes);
    }
    FitsFamilies(net, n, a.prefixes);
  }

  lemma OutgoingAccepts(net: Net, id: string, n: ApiNeighbor, inRouter: seq<string>, all: iset<string>)
    requires NeighborFamily(net, n).Ok? && (n.address == "") != (n.iface == "") &&
             forall p :: p in all <==> p in inRouter
    ensures Outgoing(net, id, NeighborFamily(net, n).value, n.toAdvertise, inRouter).Ok? <==>
              ValidHops(net, n) && ValidTags(net, n, all)
  {
    hide NeighborFamily, TagLists, TagsFit, Speaks, HasFamily, PrefEntries, CommunityEntries, SortStrings,
         PrefixesToAdvertise, CommunitiesGood, CommunityTags;
    CommunitiesParse(n.toAdvertise.withCommunity);
    var f, a := NeighborFamily(net, n).value, n.toAdvertise;
    forall v6 ensures HasFamily(f, FamilyOf(v6)) <==> Speaks(net, n, v6) { FamilySpoken(net, n, v6); }
    FamilySpoken(net, n, true);
    assert FamilyOf(false) == IPv4 && FamilyOf(true) == IPv6;
    PrefKinds(a.withLocalPref);
    TagListsAccept(net, id, f, a, inRouter, all, PrefEntries(a.withLocalPref));
    if CommunityEntries(a.withCommunity).Ok? {
      CommunityKinds(CommunityEntries(a.withCommunity).value);
      TagListsAccept(net, id, f, a, inRouter, all, CommunityEntries(a.withCommunity).value);
    }
  }

  lemma PrefKinds(es: seq<LocalPrefPrefixes>)
    ensures OneKind(PrefEntries(es))
  {}

  lemma CommunityKinds(es: seq<TagEntry>)
    requires forall e | e in es :: e.tag.Comm?
    ensures OneKind(es)
  {
    forall i | 0 <= i < |es| ensures es[i].tag.Comm? { assert es[i] in es; }
  }

  /** One neighbor is accepted under exactly these conditions. */
  lemma NeighborAccepted(env: Env, c: ApiConfig, r: ApiRouter, n: ApiNeighbor, inRouter: seq<string>)
    requires forall p :: MayAdvertise(c, r, p) <==> p in inRouter
    ensures (&& OutgoingOk(env.net, inRouter, n)
             && !(n.localASN != 0 && n.asn != 0 && n.asn == r.asn)
             && TranslateNeighbor(env, n, inRouter, r.vrf, ProfileNames(c.bfdProfiles)).Ok?) <==>
            ValidNeighbor(env, c, r, n)
  {
    hide NeighborID, NeighborName, Outgoing, Incoming, OutgoingOk, MayAdvertise, ValidHops, ValidPrefixLists, ValidTags,
         ValidReceive;
    var all := iset p | MayAdvertise(c, r, p);
    var id := NeighborID(n.address, n.iface, r.vrf);
    assert n.address != "" ==> (NeighborFamily(env.net, n).Ok? <==> env.net.ip(n.address).Some?);
    ReceiveAccepts(env.net, n);
    if NeighborFamily(env.net, n).Ok? && (n.address == "") != (n.iface == "") {
      PrefixListsAccept(env.net, n, inRouter, all);
      OutgoingAccepts(env.net, id, n, inRouter, all);
    }
  }

  // ---- a configuration

  ghost predicate ValidRouter(env: Env, c: ApiConfig, r: ApiRouter) {
    && (forall p | p in r.prefixes :: PrefixFamily(env.net, p).Some?)
    && (forall v | v in r.imports :: Declared(c.routers, ImportedVRF(v)))
    && (forall n | n in r.neighbors :: ValidNeighbor(env, c, r, n))
  }

  ghost predicate Declared(rs: seq<ApiRouter>, vrf: string) { exists r :: r in rs && r.vrf == vrf }

  ghost predicate ValidConfig(env: Env, c: ApiConfig) {
    && (forall i, j | 0 <= i < j < |c.bfdProfiles| :: c.bfdProfiles[i].name != c.bfdProfiles[j].name)
    && (forall r | r in c.routers :: ValidRouter(env, c, r))
  }

  lemma {:induction false} DeclaredExactly(rs: seq<ApiRouter>, vrf: string)
    ensures vrf in PrefixesForVRFs(rs) <==> Declared(rs, vrf)
  {
    if rs != [] {
      var before, r := rs[..|rs| - 1], rs[|rs| - 1];
      assert rs == before + [r];
      DeclaredExactly(before, vrf);
      if x :| x in before && x.vrf == vrf { assert x in rs; }
      assert r in rs;
    }
  }

  lemma {:induction false} ImportsAccept(c: ApiConfig, imports: seq<string>)
    ensures ImportedPrefixes(imports, PrefixesForVRFs(c.routers)).Ok? <==>
              forall v | v in imports :: Declared(c.routers, ImportedVRF(v))
  {
    hide PrefixesForVRFs, Declared, ImportedVRF;
    if imports != [] {
      var before, v := imports[..|imports| - 1], imports[|imports| - 1];
      assert imports == before + [v];
      ImportsAccept(c, before);
      DeclaredExactly(c.routers, ImportedVRF(v));
      assert forall w :: w in imports <==> w in before || w == v;
    }
  }

  lemma {:induction false} NeighborsAccept(env: Env, ns: seq<ApiNeighbor>, r: ApiRouter, inRouter: seq<string>,
                                           profiles: set<string>)
    ensures TranslateNeighbors(env, ns, r, inRouter, profiles).Ok? <==>
              forall n | n in ns :: !(n.localASN != 0 && n.asn != 0 && n.asn == r.asn) &&
                  TranslateNeighbor(env, n, inRouter, r.vrf, profiles).Ok?
  {
    hide TranslateNeighbor;
    if ns != [] {
      var before, n := ns[..|ns| - 1], ns[|ns| - 1];
      assert ns == before + [n];
      NeighborsAccept(env, before, r, inRouter, profiles);
      assert n in ns;
    }
  }

  lemma RouterAccepted(env: Env, c: ApiConfig, r: ApiRouter)
    ensures RawRouter(env, r, PrefixesForVRFs(c.routers), ProfileNames(c.bfdProfiles)).Ok? <==> ValidRouter(env, c, r)
  {
    hide PrefixesForVRFs, ProfileNames, ImportedPrefixes, TranslateNeighbors, TranslateNeighbor, OutgoingOk,
         ValidNeighbor, MayAdvertise, CidrFamily, PrefixFamily, Declared, FilterPrefixes;
    var byVRF, profiles := PrefixesForVRFs(c.routers), ProfileNames(c.bfdProfiles);
    forall p ensures CidrFamily(env.net, p) == Unknown <==> PrefixFamily(env.net, p).None? { KnownFamily(env.net, p); }
    ImportsAccept(c, r.imports);
    forall v | v in r.imports ensures v in byVRF <==> Declared(c.routers, v) { DeclaredExactly(c.routers, v); }
    if ImportedPrefixes(r.imports, byVRF).Ok? {
      var inRouter := r.prefixes + ImportedPrefixes(r.imports, byVRF).value;
      forall p ensures MayAdvertise(c, r, p) <==> p in inRouter { ReachableExactly(c, r, p); }
      NeighborsAccept(env, r.neighbors, r, inRouter, profiles);
      forall n | n in r.neighbors
        ensures (OutgoingOk(env.net, inRouter, n) && !(n.localASN != 0 && n.asn != 0 && n.asn == r.asn) &&
                 TranslateNeighbor(env, n, inRouter, r.vrf, profiles).Ok?) <==> ValidNeighbor(env, c, r, n) {
        NeighborAccepted(env, c, r, n, inRouter);
      }
    }
  }

  lemma {:induction false} RoutersAccept(env: Env, c: ApiConfig, rs: seq<ApiRouter>)
    ensures RawRouters(env, c, rs).Ok? <==>
              forall r | r in rs :: RawRouter(env, r, PrefixesForVRFs(c.routers), ProfileNames(c.bfdProfiles)).Ok?
  {
    hide RawRouter, PrefixesForVRFs, ProfileNames;
    if rs != [] {
      var before, r := rs[..|rs| - 1], rs[|rs| - 1];
      assert rs == before + [r];
      RoutersAccept(env, c, before);
      assert r in rs;
    }
  }

  /** A configuration translates if and only if it is valid on its own. */
  lemma ConfigAccepted(env: Env, c: ApiConfig)
    ensures TranslateConfig(env, c).Ok? <==> ValidConfig(env, c)
  {
    hide RawRouters, RawRouter, ValidRouter, PrefixesForVRFs, ProfileNames;
    RoutersAccept(env, c, c.routers);
    forall r | r in c.routers
      ensures RawRouter(env, r, PrefixesForVRFs(c.routers), ProfileNames(c.bfdProfiles)).Ok? <==>
                ValidRouter(env, c, r) {
      RouterAccepted(env, c, r);
    }
  }

  // ---- a list of configurations

  /** Whoever asks for an EVPN feature that needs a neighbor, someone asks for an EVPN neighbor in that VRF. */
  ghost predicate NeedsMet(env: Env, cs: seq<ApiConfig>) {
    forall vrf, f | AskedBy(env, cs, At(vrf, f)) && Needs(f) :: exists id ::
        AskedBy(env, cs, At(vrf, Peer(id, Activates(EVPN_FAMILY))))
  }

  /**
   * `apiToFRR` succeeds if and only if every configuration is valid, no two of them ask for things
   * that contradict each other, and the needs for EVPN neighbors are met.
   */
  lemma ConvertsExactly(env: Env, cs: seq<ApiConfig>)
    ensures Convert(env, cs).Ok? <==>
            && (forall c | c in cs :: ValidConfig(env, c))
            && (forall a, b | a in cs && b in cs :: !AskedApart(env, a, b))
            && NeedsMet(env, cs)
  {
    hide Convert, Undisputed, ConfigSays, ConfigAsks, TranslateConfig, ValidConfig, AskedApart, Contradict, Needs;
    ConversionTheorem(env, cs);
    UndisputedTheorem(env, cs);
    DisputesAreRequested(env, cs);
    forall c | c in cs ensures TranslateConfig(env, c).Ok? <==> ValidConfig(env, c) { ConfigAccepted(env, c); }
    if forall c | c in cs :: TranslateConfig(env, c).Ok? {
      forall f ensures SaidBy(env, cs, f) <==> AskedBy(env, cs, f) {
        forall c | c in cs ensures ConfigSays(env, c, f) <==> ConfigAsks(env, c, f) { ConfigExactly(env, c, f); }
      }
      assert NeedsMet(env, cs) <==> Supplied(env, cs);
    }
  }
}

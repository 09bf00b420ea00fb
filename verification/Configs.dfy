/**
 * The FRR configuration a node ends up with (internal/frr/config.go) and the strings that
 * identify its parts: neighbor IDs, prefix-list names and the keys lists are merged by.
 * `nil` and empty slices are not told apart.
 */
module Configs {
  import opened Decimal
  import opened Communities

  datatype Option<+T> = None | Some(value: T)

  /** Error texts are not modelled: only whether an operation fails. */
  datatype Result<+T> = Ok(value: T) | Err {
    predicate IsFailure() { Err? }
    function PropagateFailure<U>(): Result<U> requires Err? { Err }
    function Extract(): T requires Ok? { value }
  }

  datatype Family = IPv4 | IPv6 | DualStack | Unknown

  datatype Filter = Filter(ipFamily: Family, prefix: string, le: nat, ge: nat)

  /** What a property prefix list sets on the prefixes it matches. */
  datatype Tag = LocalPref(pref: u32) | Comm(community: Community)

  datatype PrefixList = PrefixList(name: string, ipFamily: string, prefixes: set<string>, tag: Tag)

  datatype AllowedIn = AllowedIn(all: bool, v4: seq<Filter>, v6: seq<Filter>)

  datatype AllowedOut = AllowedOut(
    v4: seq<string>, v6: seq<string>, nextHopV4: string, nextHopV6: string,
    localPrefs: seq<PrefixList>, communities: seq<PrefixList>)

  datatype Neighbor = Neighbor(
    ipFamily: Family, name: string, asn: string, srcAddr: string, addr: string, iface: string,
    port: Option<int>, holdTime: Option<int>, keepaliveTime: Option<int>, connectTime: Option<int>,
    password: string, bfdProfile: string, gracefulRestart: bool, ebgpMultiHop: bool, localASN: nat,
    vrf: string, incoming: AllowedIn, outgoing: AllowedOut, alwaysBlock: seq<Filter>,
    addressFamilies: seq<string>)

  /** A neighbor of which only the address and the AS number are given. */
  const SILENT := Neighbor(
    IPv4, "1@10.0.0.1", "1", "", "10.0.0.1", "", None, None, None, None, "", "", false, false, 0, "",
    AllowedIn(false, [], []), AllowedOut([], [], "", "", [], []), [], [])

  datatype VniProps = VniProps(rd: string, importRTs: seq<string>, exportRTs: seq<string>)

  datatype L2Vni = L2Vni(vni: nat, props: VniProps)

  datatype L3Vni = L3Vni(vni: nat, props: VniProps, advertisePrefixes: seq<string>)

  datatype Evpn = Evpn(advertiseVNIs: Option<string>, advertiseSVI: bool, l2: seq<L2Vni>, l3: Option<L3Vni>)

  datatype Router = Router(
    asn: nat, id: string, neighbors: seq<Neighbor>, vrf: string,
    v4: seq<string>, v6: seq<string>, importVRFs: seq<string>, evpn: Option<Evpn>)

  datatype BfdProfile = BfdProfile(
    name: string, receiveInterval: Option<nat>, transmitInterval: Option<nat>, detectMultiplier: Option<nat>,
    echoInterval: Option<nat>, echoMode: bool, passiveMode: bool, minimumTTL: Option<nat>)

  datatype FrrConfig = FrrConfig(
    loglevel: string, hostname: string, routers: seq<Router>, bfdProfiles: seq<BfdProfile>, extraConfig: string)

  // ---- identifiers

  /** `NeighborConfig.ID`: the interface if there is one, else the address, then the VRF. */
  function NeighborID(addr: string, iface: string, vrf: string): (id: string) {
    (if iface != "" then iface else addr) + (if vrf != "" then "-" + vrf else "")
  }

  function ID(n: Neighbor): (id: string) { NeighborID(n.addr, n.iface, n.vrf) }

  function FrrFamily(f: Family): (s: string) { if f == IPv6 then "ipv6" else "ip" }

  /** `localPrefPrefixListKey` and `communityPrefixListKey` */
  function ListKey(tag: Tag, family: string): (k: string) {
    match tag
    case LocalPref(p) => Dec(p) + "-" + family
    case Comm(c) => String(c) + "-" + family
  }

  function KeyOfList(l: PrefixList): (k: string) { ListKey(l.tag, l.ipFamily) }

  function TagText(tag: Tag): (s: string) {
    match tag
    case LocalPref(p) => Dec(p)
    case Comm(c) => Spell(c)
  }

  function TagSuffix(tag: Tag): (s: string) {
    if tag.LocalPref? then "-localpref-prefixes" else "-community-prefixes"
  }

  /** `localPrefPrefixListName` and `communityPrefixListName` */
  function ListName(id: string, tag: Tag, family: string): (name: string) {
    id + "-" + TagText(tag) + "-" + family + TagSuffix(tag)
  }

  /** `ToAdvertisePrefixListV4` and `ToAdvertisePrefixListV6` */
  function AdvertiseName(id: string, v6: bool): (name: string) {
    id + "-allowed-" + (if v6 then "ipv6" else "ipv4")
  }

  /** The key `mergeIncomingFilters` identifies a filter by. */
  function FilterKey(f: Filter): (k: string) { f.prefix + Dec(f.le) + Dec(f.ge) }

  // ---- injectivity

  lemma LastHyphen(a: string, b: string, c: string, d: string)
    requires a + "-" + b == c + "-" + d
    requires '-' !in b && '-' !in d
    ensures a == c && b == d
  {
    var s, t := a + "-" + b, c + "-" + d;
    assert s[|a|] == '-' && t[|c|] == '-';
    assert a == s[..|a|] && c == t[..|c|];
    assert b == s[|a| + 1..] && d == t[|c| + 1..];
  }

  lemma SameSuffix(a: string, b: string, s: string)
    requires a + s == b + s
    ensures a == b
  {
    assert |a| == |b|;
    assert a == (a + s)[..|a|] && b == (b + s)[..|b|];
  }

  ghost predicate ListFamily(f: string) { f == "ip" || f == "ipv6" }

  lemma TagTextNoHyphen(tag: Tag)
    ensures '-' !in TagText(tag)
  {
    match tag
    case LocalPref(p) => DigitsExclude(Dec(p), '-');
    case Comm(c) => StringHasNoHyphen(c);
  }

  lemma SpellInjective(c: Community, d: Community)
    requires Spell(c) == Spell(d)
    ensures c == d
  {
    RoundTrip(c); RoundTrip(d);
  }

  /** Within one kind of list the merge key identifies the tag and the family. */
  lemma ListKeyInjective(t1: Tag, f1: string, t2: Tag, f2: string)
    requires ListFamily(f1) && ListFamily(f2) && (t1.LocalPref? <==> t2.LocalPref?)
    requires ListKey(t1, f1) == ListKey(t2, f2)
    ensures t1 == t2 && f1 == f2
  {
    match t1
    case LocalPref(p) => LastHyphen(Dec(p), f1, Dec(t2.pref), f2); DecInjective(p, t2.pref);
    case Comm(c) =>
      LastHyphen(String(c), f1, String(t2.community), f2);
      StringInjective(c, t2.community);
  }

  /** What an ID starts from: the interface of a neighbor or, without one, its address. */
  function BaseName(addr: string, iface: string): (name: string) { if iface != "" then iface else addr }

  /** Among neighbors with these base names, in whatever VRFs, the ID gives back the name and the VRF. */
  ghost predicate IDsTell(names: iset<string>) {
    forall a1, i1, v1, a2, i2, v2
      | BaseName(a1, i1) in names && BaseName(a2, i2) in names && NeighborID(a1, i1, v1) == NeighborID(a2, i2, v2)
      :: BaseName(a1, i1) == BaseName(a2, i2) && v1 == v2
  }

  /** No name begins with another name and a hyphen. */
  ghost predicate NoNameExtends(names: iset<string>) { forall s, t | s in names && t in names :: !(s + "-" <= t) }

  /** A longer name with the ID of a shorter one goes on with the hyphen that announces its VRF. */
  lemma ShorterExtends(s: string, v: string, t: string, w: string)
    requires NeighborID(s, "", v) == NeighborID(t, "", w) && |s| < |t|
    ensures s + "-" <= t
  {
    var id := NeighborID(s, "", v);
    assert id[..|s|] == s && id[|s|] == '-';
    assert id[..|t|] == t;
    assert t[..|s| + 1] == s + "-";
  }

  lemma SameNameSameVrf(s: string, v: string, t: string, w: string)
    requires NeighborID(s, "", v) == NeighborID(t, "", w) && |s| == |t|
    ensures s == t && v == w
  {
    var id := NeighborID(s, "", v);
    assert id[..|s|] == s && id[..|s|] == t;
    assert v != "" ==> id[|s| + 1..] == v;
    assert w != "" ==> id[|s| + 1..] == w;
  }

  /** An extended name takes the ID of the name it extends, in a VRF that starts with the extension. */
  lemma ExtensionCollides(s: string, t: string)
    requires s + "-" <= t
    ensures NeighborID(s, "", t[|s| + 1..] + "-x") == NeighborID(t, "", "x")
  {
    var u := t[|s| + 1..];
    assert t == s + "-" + u;
    assert s + ("-" + (u + "-x")) == (s + "-" + u) + ("-" + "x");
  }

  /** IDs tell neighbors and VRFs apart if and only if no name begins with another name and a hyphen. */
  lemma IDsTellExactly(names: iset<string>)
    ensures IDsTell(names) <==> NoNameExtends(names)
  {
    hide NeighborID;
    if NoNameExtends(names) {
      forall a1, i1, v1, a2, i2, v2
        | BaseName(a1, i1) in names && BaseName(a2, i2) in names && NeighborID(a1, i1, v1) == NeighborID(a2, i2, v2)
        ensures BaseName(a1, i1) == BaseName(a2, i2) && v1 == v2
      {
        var s, t := BaseName(a1, i1), BaseName(a2, i2);
        IDByName(a1, i1, v1); IDByName(a2, i2, v2);
        if |s| < |t| { ShorterExtends(s, v1, t, v2); }
        else if |t| < |s| { ShorterExtends(t, v2, s, v1); }
        else { SameNameSameVrf(s, v1, t, v2); }
      }
    } else {
      var s, t :| s in names && t in names && s + "-" <= t;
      ExtensionCollides(s, t);
      assert BaseName(s, "") == s && BaseName(t, "") == t && s != t;
    }
  }

  lemma IDByName(addr: string, iface: string, vrf: string)
    ensures NeighborID(addr, iface, vrf) == NeighborID(BaseName(addr, iface), "", vrf)
  {}

  /** In particular names without a hyphen, as addresses are, cannot be confused. */
  lemma NeighborIDInjective(a1: string, v1: string, a2: string, v2: string)
    requires '-' !in a1 && '-' !in a2
    requires NeighborID(a1, "", v1) == NeighborID(a2, "", v2)
    ensures a1 == a2 && v1 == v2
  {
    hide NeighborID;
    var names := iset{a1, a2};
    forall s, t | s in names && t in names ensures !(s + "-" <= t) {
      assert (s + "-")[|s|] == '-';
    }
    IDsTellExactly(names);
    assert BaseName(a1, "") == a1 && BaseName(a2, "") == a2;
  }

  lemma SuffixKind(p1: string, t1: Tag, p2: string, t2: Tag)
    requires p1 + TagSuffix(t1) == p2 + TagSuffix(t2)
    ensures p1 == p2 && (t1.LocalPref? <==> t2.LocalPref?)
  {
    var s1, s2 := TagSuffix(t1), TagSuffix(t2);
    assert |s1| == |s2| == 19;
    assert s1 == (p1 + s1)[|p1|..] && s2 == (p2 + s2)[|p2|..];
    assert s1[1] == 'l' <==> t1.LocalPref?;
    assert s2[1] == 'l' <==> t2.LocalPref?;
    SameSuffix(p1, p2, s1);
  }

  lemma TagTextInjective(t1: Tag, t2: Tag)
    requires (t1.LocalPref? <==> t2.LocalPref?) && TagText(t1) == TagText(t2)
    ensures t1 == t2
  {
    match t1
    case LocalPref(p) => DecInjective(p, t2.pref);
    case Comm(c) => SpellInjective(c, t2.community);
  }

  /** The kind, value and family of a property list can be read back from the end of its name. */
  lemma ListNameParts(i1: string, t1: Tag, f1: string, i2: string, t2: Tag, f2: string)
    requires ListFamily(f1) && ListFamily(f2)
    requires ListName(i1, t1, f1) == ListName(i2, t2, f2)
    ensures i1 == i2 && t1 == t2 && f1 == f2
  {
    var x1, x2 := TagText(t1), TagText(t2);
    SuffixKind(i1 + "-" + x1 + "-" + f1, t1, i2 + "-" + x2 + "-" + f2, t2);
    LastHyphen(i1 + "-" + x1, f1, i2 + "-" + x2, f2);
    TagTextNoHyphen(t1); TagTextNoHyphen(t2);
    LastHyphen(i1, x1, i2, x2);
    TagTextInjective(t1, t2);
  }

  /** A prefix list of a configuration: one that sets a tag, or the one listing what may be advertised. */
  datatype ListRole = Sets(tag: Tag, family: string) | Allowed(v6: bool)

  function RoleName(addr: string, vrf: string, role: ListRole): (name: string) {
    match role
    case Sets(tag, family) => ListName(NeighborID(addr, "", vrf), tag, family)
    case Allowed(v6) => AdvertiseName(NeighborID(addr, "", vrf), v6)
  }

  lemma AdvertiseNameParts(i1: string, b1: bool, i2: string, b2: bool)
    requires AdvertiseName(i1, b1) == AdvertiseName(i2, b2)
    ensures i1 == i2 && b1 == b2
  {
    var n1, n2 := AdvertiseName(i1, b1), AdvertiseName(i2, b2);
    assert n1[|n1| - 1] == (if b1 then '6' else '4');
    assert n2[|n2| - 1] == (if b2 then '6' else '4');
    var s := "-allowed-" + (if b1 then "ipv6" else "ipv4");
    assert n1 == i1 + s && n2 == i2 + s;
    SameSuffix(i1, i2, s);
  }

  lemma RolesApart(i1: string, t: Tag, f: string, i2: string, b: bool)
    ensures ListName(i1, t, f) != AdvertiseName(i2, b)
  {
    var n1, n2 := ListName(i1, t, f), AdvertiseName(i2, b);
    assert TagSuffix(t)[18] == 's';
    assert n1[|n1| - 1] == 's';
    assert n2[|n2| - 1] == '4' || n2[|n2| - 1] == '6';
  }

  /**
   * Prefix-list names do not clash: for neighbors identified by address, the name gives back the
   * address, the VRF, the kind of list, its value and its family.
   */
  lemma RoleNameInjective(a1: string, v1: string, r1: ListRole, a2: string, v2: string, r2: ListRole)
    requires '-' !in a1 && '-' !in a2
    requires r1.Sets? ==> ListFamily(r1.family)
    requires r2.Sets? ==> ListFamily(r2.family)
    requires RoleName(a1, v1, r1) == RoleName(a2, v2, r2)
    ensures a1 == a2 && v1 == v2 && r1 == r2
  {
    var i1, i2 := NeighborID(a1, "", v1), NeighborID(a2, "", v2);
    match (r1, r2)
    case (Sets(t1, f1), Sets(t2, f2)) =>
      ListNameParts(i1, t1, f1, i2, t2, f2);
      NeighborIDInjective(a1, v1, a2, v2);
    case (Allowed(b1), Allowed(b2)) =>
      AdvertiseNameParts(i1, b1, i2, b2);
      NeighborIDInjective(a1, v1, a2, v2);
    case (Sets(t, f), Allowed(b)) => RolesApart(i1, t, f, i2, b);
    case (Allowed(b), Sets(t, f)) => RolesApart(i2, t, f, i1, b);
  }

  /** Interface names have no such protection: a hyphen in the name reads like a VRF. */
  lemma InterfaceIDsCollide()
    ensures NeighborID("", "eth0-red", "") == NeighborID("", "eth0", "red")
    ensures NeighborID("", "10.0.0.1", "") == NeighborID("10.0.0.1", "", "")
  {
    assert "eth0-red" == "eth0" + ("-" + "red");
  }

  // ---- what the names look like

  lemma TagTexts()
    ensures TagText(LocalPref(7)) == "7" && TagText(Comm(Legacy(1, 2))) == "1:2" &&
              TagText(Comm(Large(1, 2, 3))) == "large:1:2:3"
  {
    assert Dec(7) == "7" && Dec(1) == "1" && Dec(2) == "2" && Dec(3) == "3";
    assert String(Legacy(1, 2)) == "1:2" && String(Large(1, 2, 3)) == "1:2:3";
  }

  lemma ListNamesSpelled(id: string, family: string)
    ensures ListName(id, LocalPref(7), family) == id + ("-7-" + family + "-localpref-prefixes")
    ensures ListName(id, Comm(Legacy(1, 2)), family) == id + ("-1:2-" + family + "-community-prefixes")
    ensures ListName(id, Comm(Large(1, 2, 3)), family) == id + ("-large:1:2:3-" + family + "-community-prefixes")
  {
    hide TagText;
    TagTexts();
    Around(id, "-7-", family, "-localpref-prefixes");
    Around(id, "-1:2-", family, "-community-prefixes");
    Around(id, "-large:1:2:3-", family, "-community-prefixes");
    assert "-" + "7" + "-" == "-7-" && "-" + "1:2" + "-" == "-1:2-" && "-" + "large:1:2:3" + "-" == "-large:1:2:3-";
    SplitText(id, "7"); SplitText(id, "1:2"); SplitText(id, "large:1:2:3");
  }

  lemma Around(a: string, b: string, c: string, d: string)
    ensures a + b + c + d == a + (b + c + d)
  {}

  lemma SplitText(id: string, text: string)
    ensures id + "-" + text + "-" == id + ("-" + text + "-")
  {}

  lemma OtherNamesSpelled()
    ensures AdvertiseName("eth0", false) == "eth0-allowed-ipv4" && AdvertiseName("eth0", true) == "eth0-allowed-ipv6"
    ensures NeighborID("10.0.0.1", "", "red") == "10.0.0.1-red" && NeighborID("", "eth0", "") == "eth0"
  {}

  lemma KeysSpelled()
    ensures ListKey(LocalPref(7), "ip") == "7-ip" && ListKey(Comm(Legacy(1, 2)), "ipv6") == "1:2-ipv6"
    ensures FilterKey(Filter(IPv4, "10.0.0.0/8", 9, 8)) == "10.0.0.0/898"
  {
    assert Dec(7) == "7" && Dec(1) == "1" && Dec(2) == "2" && Dec(9) == "9" && Dec(8) == "8";
    assert String(Legacy(1, 2)) == "1:2";
  }
}

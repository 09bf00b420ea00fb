/**
 * The FRRConfiguration API objects (api/v1beta1/frrconfiguration_types.go) and what the
 * conversion takes from outside: address parsing and secrets.
 */
module Api {
  import opened Decimal
  import opened Configs

  datatype LocalPrefPrefixes = LocalPrefPrefixes(prefixes: seq<string>, localPref: u32)

  datatype CommunityPrefixes = CommunityPrefixes(prefixes: seq<string>, community: string)

  datatype Advertise = Advertise(
    mode: string, prefixes: seq<string>, nextHopV4: string, nextHopV6: string,
    withLocalPref: seq<LocalPrefPrefixes>, withCommunity: seq<CommunityPrefixes>)

  datatype Selector = Selector(prefix: string, le: nat, ge: nat)

  datatype Receive = Receive(mode: string, prefixes: seq<Selector>)

  /** Durations are in nanoseconds. */
  datatype ApiNeighbor = ApiNeighbor(
    asn: nat, dynamicASN: string, sourceAddress: string, address: string, iface: string, port: Option<int>,
    password: string, passwordSecret: string, holdTime: Option<int>, keepaliveTime: Option<int>,
    connectTime: Option<int>, ebgpMultiHop: bool, bfdProfile: string, gracefulRestart: bool,
    toAdvertise: Advertise, toReceive: Receive, dualStack: bool, localASN: nat, addressFamilies: seq<string>)

  datatype ApiRouter = ApiRouter(
    asn: nat, id: string, vrf: string, neighbors: seq<ApiNeighbor>, prefixes: seq<string>,
    imports: seq<string>, evpn: Option<Evpn>)

  datatype ApiConfig = ApiConfig(
    name: string, rawPriority: int, rawConfig: string, routers: seq<ApiRouter>, bfdProfiles: seq<BfdProfile>,
    nodeSelector: string)

  const ALLOW_ALL := "all"
  const INTERNAL_ASN := "internal"
  const EXTERNAL_ASN := "external"
  const EVPN_FAMILY := "evpn"
  const VNIS_ALL := "All"

  /** What `net.ParseCIDR` finds: whether the address is IPv6, and the mask length. */
  datatype Cidr = Cidr(v6: bool, maskLength: nat)

  /** `net.ParseIP` (Some(true) for an IPv6 address) and `net.ParseCIDR`. */
  datatype Net = Net(ip: string -> Option<bool>, cidr: string -> Option<Cidr>)

  datatype Secret = Secret(basicAuth: bool, password: Option<string>)

  datatype Env = Env(net: Net, alwaysBlock: seq<Filter>, secrets: map<string, Secret>)
}

# frr-k8s: a verified model of configuration merging and delivery

frr-k8s turns the `FRRConfiguration` objects that select a node into one FRR configuration, decides
at admission whether a new object may join the others, delivers the result to FRR through a
debouncer, and mirrors the resulting BGP sessions into `BGPSessionState` objects. This project models
that logic in Dafny and proves what it is meant to guarantee.

`dafny verify dfyconfig.toml` checks everything.

## How it is organised

The conversion is measured against an independent reference. `Facts` says what a configuration
*says*, as a set of atomic facts (this router has this AS number, this neighbor is told this prefix
with this community, ...), and which two facts contradict each other. `ConvertFacts` proves that the
conversion succeeds exactly when every configuration translates, no two facts contradict each other
and every EVPN feature that needs an EVPN neighbor has one, and that the result then says exactly
what the configurations say, in a normal form that the facts determine. `Requests` and `Acceptance`
read the facts and the conditions off the API objects themselves, so that success and result of a
conversion are described without mentioning any step of it. Pairwise conflicts, order independence,
monotonicity and the safety of admission follow from that.

- `Ordering`, `Decimal`, `Communities`: sorted lists and maps, decimal numerals, BGP communities.
- `Configs`, `Api`: the FRR configuration and its identifiers; the API objects.
- `Merge`, `Translate`, `Conversion`: merging, translating and `apiToFRR`, on values.
- `Facts`, `MergeFacts`, `NeighborFacts`, `EvpnFacts`, `RouterFacts`, `TranslateFacts`, `FoldFacts`, `ConvertFacts`: facts, contradictions, and what each layer does to them.
- `Requests`, `Acceptance`, `Origins`: what the API objects ask for, when they are accepted, and which of them a neighbor comes from.
- `NormalForms`, `Normalising`, `Properties`, `OrderIndependence`, `Restarts`, `RawText`, `Guarantees`, `Removal`, `FilterKeys`: what follows for every list of configurations.
- `RouterOrder`, `Reordering`, `Witnesses`: the order of the routers inside one configuration, and small inputs where it, or the key of a filter, matters.
- `Aliasing`, `SelfMerge`, `Sharing`: the in-place merge of neighbor lists that share objects.
- `MergeLoops`, `MergeInPlace`, `TranslateLoops`, `ConvertLoops`: the code as it runs: loops over maps and classes updated in place, proved against the functions above.
- `Environments`, `Admission`, `AdmissionSafety`, `AdmissionLimits`: the webhook, runs of admitted changes, and admitted changes that break a node.
- `Debouncer`, `Pipeline`: the reload loop, and everything between the API server and FRR.
- `Sessions`, `SessionServer`: the session planner and its effect on the stored objects.

## Where the code sets the limits

- The key of an incoming filter is the prefix and the two lengths without separators. Different
  filters can share it and then one is dropped. `FilterKeys` states exactly when a merge loses nothing,
  `Guarantees.AcceptedExactly` when a conversion does not, and `Witnesses.FilterLost` shows one that does.
- `GracefulRestart` is neither compared nor merged: the first description of a neighbor wins
  (`Restarts.RestartIsFirst`). It is what can follow the order of the configurations
  (`OrderIndependence.RestartFollowsOrder`), and `OrderIndependence.OrderExactly` says when it does.
- A neighbor's ID does not tell an interface from an address, nor a hyphen in a name from the one
  before a VRF (`Configs.InterfaceIDsCollide`). `Configs.IDsTellExactly` says for which names IDs can
  be trusted. Order independence of the fields that are taken from the first neighbor asks that
  neighbors sharing an ID are of the same kind.
- Within one configuration the last router of a VRF provides the prefixes others import, and the first
  one that describes a neighbor decides on graceful restart. Swapping two routers can decide whether
  the configuration is accepted (`Witnesses.SwapMatters`), and can change graceful restart although
  every router translates as before (`Witnesses.RestartFollowsRouters`). What else the result says does
  not follow the order, except for what neighbors are told. `Reordering.ReorderedExactly` says exactly
  when a list still converts and when its result is the same, for configurations whose neighbors of
  one ID are of the same kind and whose filters do not hide one another.
- Merging happens in place and the objects of a list may be shared. Then the result can differ from
  the merge of the values (`Sharing.SharedListDiffers`); `Sharing.SharedMergeExact` says exactly when
  it does. The lists the conversion passes are never of that kind.
- Clearing timers that have their default values one by one can leave a hold time without a keepalive
  time or the reverse (`Normalising.CleanDefaultsKeepsMeaning`).
- The demand for an EVPN neighbor can be met by another configuration and so is not kept when
  configurations are removed: `Removal.RemovalExact` says when it is, `Removal.RemovalCanBreak` shows
  a deletion that breaks a node.
- The webhook passes over stored objects that bear the name of the new one, in any namespace, and over
  nodes that the new object does not select. `AdmissionSafety.AdmitKeepsSafe` says exactly when an
  admitted change is safe; `AdmissionLimits.NamesakesCanBreak` and `AdmissionLimits.LeavingCanBreak`
  show two that are not.
- The webhook clears references to secrets before it judges (`Admission.AdmitsExactly`), so it admits
  one that the controller cannot follow (`AdmissionLimits.SecretCanBreak`).
- An empty list of address families means unicast when it is rendered but merges as an empty set
  (`Normalising.UnicastMerged`, `Normalising.UnicastLost`).
- Two sessions of a VRF with one label keep the session planner writing forever
  (`SessionServer.RepeatedNeverIdle`).
- A write to a stored session state restores its status and leaves its labels, so an object with a
  label too many keeps the planner writing forever too (`SessionServer.RestExactly`).
- A nil configuration sent after another one would reach the reload function
  (`Debouncer.NilReachesBody`); the pipeline never sends one.

## Model

| member | source | states |
|---|---|---|
| `Communities.New` | internal/community/community.go:34-76 | the loop over the fields of a community parses exactly what `Parse` does |
| `Communities.ParseAccepts` | internal/community/community.go:34-76 | a text parses to a community if and only if it consists of two 16-bit numerals, or of the marker `large` and three 32-bit numerals, that denote its parts |
| `Communities.RoundTrip` | internal/community/community.go:34-118 | parsing inverts printing, with the marker put before large communities |
| `Communities.LargeNeedsMarker` | internal/community/community.go:34-118 | without the marker the text of a large community is rejected |
| `Communities.StringInjective` | internal/community/community.go:92-118 | the printed text identifies the community, of either kind, although it has no marker |
| `Communities.ToUint32` | internal/community/community.go:97-99 | a legacy community as one number, from which both halves can be read back |
| `Communities.LessThanStrictWeakOrder` | internal/community/community.go:133-160 | the order is irreflexive and transitive, ties are transitive, and only u:l and 65536u+l:0:0 tie |
| `Communities.LessThanExactly` | internal/community/community.go:133-160 | it is the order of the numbers whose digits are the three parts of a large community, a legacy one being the first digit |
| `Configs.IDsTellExactly` | internal/frr/config.go:94-104 | for any set of interface names and addresses: the ID gives back name and VRF, whatever the VRFs, if and only if no name begins with another name and a hyphen |
| `Configs.NeighborIDInjective` | internal/frr/config.go:94-104 | in particular for names without a hyphen, as addresses are |
| `Configs.InterfaceIDsCollide` | internal/frr/config.go:94-104 | IDs of interface neighbors can coincide with others |
| `Configs.ListKeyInjective` | internal/controller/api_to_config.go:476-482 | within one kind of tag the merge key identifies tag and family |
| `Configs.RoleNameInjective` | internal/controller/api_to_config.go:465-474 | the names of local-preference, community and to-advertise lists are injective in address, VRF, kind, value and family |
| `Configs.ListNamesSpelled` | internal/controller/api_to_config.go:465-474 | how the names of local-preference and community lists are spelled, for one tag of each kind |
| `Configs.OtherNamesSpelled` | internal/frr/config.go:94-112 | how IDs and the names of to-advertise lists are spelled |
| `Configs.KeysSpelled` | internal/controller/api_to_config.go:476-482 | how the keys of lists and filters are spelled |
| `MergeLoops.MergePrefixLists` | internal/controller/merge.go:155-191 | the two loops over a map compute the merged lists |
| `MergeFacts.MergeListsFacts` | internal/controller/merge.go:155-191 | merged lists set a tag on a prefix if and only if one of the inputs does, sorted and one list per tag and family |
| `MergeLoops.CheckPrefs` | internal/controller/merge.go:129-135 | the nested loop, in any order within a list, finds out whether the recorded preferences agree |
| `MergeFacts.PrefsAgreeFacts` | internal/controller/merge.go:123-135 | that check succeeds exactly when no prefix has two local preferences |
| `MergeLoops.MergeOutgoing` | internal/controller/merge.go:105-143 | the code computes the merge of what is advertised |
| `MergeFacts.MergeAllowedOutOk` | internal/controller/merge.go:105-153 | merging succeeds exactly when next hops and local preferences agree |
| `MergeLoops.MergeIncoming` | internal/controller/merge.go:194-242 | the code computes the merge of what is accepted |
| `MergeFacts.MergeAllowedInFacts` | internal/controller/merge.go:194-242 | accept-all absorbs, and no filter appears that was not listed |
| `FilterKeys.FiltersKeptIffNoCollision` | internal/controller/merge.go:194-242 | merging keeps exactly the listed filters if and only if no two different ones share a key |
| `FilterKeys.AcceptsUnion` | internal/controller/merge.go:194-242 | for any notion of matching, the merged neighbor accepts a route if and only if one of the two did, when keys do not collide or one accepts everything |
| `FilterKeys.LengthsInjective` | internal/controller/merge.go:235-239 | two filters on one prefix with one key have the same lengths, if these pass validation and stay within 100 or the prefix is longer than 10 bits |
| `FilterKeys.KeysDifferExactly` | internal/controller/api_to_config.go:540-554 | those bounds are exact: for every prefix length and every limit up to 128, all validated filters with lengths up to the limit have their own keys if and only if the limit is at most 100 or the prefix is longer than 10 bits |
| `FilterKeys.PrefixesCollide` | internal/controller/merge.go:235-239 | two filters on different prefixes share a key and one is dropped |
| `NeighborFacts.AgreeIsNoClash` | internal/controller/merge.go:264-333 | the compatibility checks, together with those of the outgoing merge, fail exactly when two facts of the two neighbors contradict each other |
| `NeighborFacts.MergeNeighborsFacts` | internal/controller/merge.go:82-102 | merging two neighbors succeeds exactly when no facts contradict each other, and the result is normal and says what either says |
| `NeighborFacts.FoldNeighborsFacts` | internal/controller/merge.go:59-78 | merging a list succeeds exactly when no two neighbors of one ID contradict each other, and leaves one neighbor per ID that says what all of them say |
| `Normalising.UnicastMerged` | internal/controller/merge.go:97 | unicast stays activated for the merged neighbor if and only if an empty list does not meet a non-empty one without unicast |
| `Normalising.UnicastLost` | internal/controller/merge.go:97 | two neighbors that merge and lose unicast |
| `MergeLoops.MergeL2VNIs` | internal/controller/merge.go:376-405 | the loops over the VNIs compute the merged list or fail with it |
| `MergeLoops.MergeEvpnConfigs` | internal/controller/merge.go:335-429 | the code computes the merge of the EVPN settings, with those loops |
| `EvpnFacts.MergeVniPropsFacts` | internal/controller/merge.go:435-474 | merging VNI properties fails exactly on contradicting facts and otherwise joins them |
| `EvpnFacts.MergeL2Facts` | internal/controller/merge.go:376-405 | one entry per VNI, failing exactly when two entries of one VNI contradict each other |
| `EvpnFacts.MergeEvpnFacts` | internal/controller/merge.go:335-429 | merging EVPN settings fails exactly when they disagree and otherwise joins what they say |
| `RouterFacts.MergeRoutersFacts` | internal/controller/merge.go:23-54 | merging two normal routers succeeds exactly when no two facts contradict each other; the result is normal and says what either says |
| `RouterFacts.SelfMergeNormalises` | internal/controller/api_to_config.go:766-770 | merging a router with itself succeeds exactly when it does not contradict itself, and puts it into normal form without changing what it says |
| `Normalising.SelfMergeIdempotent` | internal/controller/api_to_config.go:766-770 | a second self-merge changes nothing |
| `Normalising.NormalComparesPlainly` | internal/controller/merge.go:319-333 | in normal form, being equal up to defaults is being equal |
| `Normalising.CleanDefaultsKeepsMeaning` | internal/controller/merge.go:212-225 | clearing defaults keeps the effective session parameters, and leaves one timer of a pair without the other if and only if exactly one of them has its default |
| `Aliasing.ExecStands` | internal/controller/merge.go:59-102 | with objects shared in any way the in-place merge succeeds exactly when the entry values do not clash; only the first object of each ID changes, and it says what all entry values of its ID say |
| `Sharing.SharedMergeExact` | internal/controller/merge.go:59-102 | with objects shared in any way the in-place merge and the merge of the entry values succeed together, and give equal values if and only if on entry, for every ID none of whose descriptions accepts everything, the filters of its first object topped with those of its other objects are the filters of all its descriptions |
| `Sharing.InPlaceExact` | internal/controller/merge.go:59-78 | the same for the sorted lists the two merges return |
| `Sharing.AgreeingAlike` | internal/controller/merge.go:59-102 | it is enough that no two filters of a neighbor share a key |
| `Sharing.DistinctAlike` | internal/controller/merge.go:59-102 | or that no object is listed twice |
| `Sharing.DoubledAlike` | internal/controller/api_to_config.go:766-770 | or that a list of distinct objects is merged with itself |
| `Sharing.SharedListDiffers` | internal/controller/merge.go:59-102 | the list a, b, a with two filters that share a key: both merges succeed, with different values |
| `SelfMerge.SelfMergeIsPure` | internal/controller/merge.go:59-102 | a list merged with itself comes out as the merge of its entry values, collisions included |
| `SelfMerge.DistinctMergeIsPure` | internal/controller/merge.go:59-102 | so does a list without repeated objects, and objects outside it are untouched |
| `MergeInPlace.NeighborConfig.CleanNeighborDefaults` | internal/controller/merge.go:212-225 | the fields equal to their defaults are cleared in place, nothing else changes |
| `MergeInPlace.NeighborConfig.MergeInto` | internal/controller/merge.go:82-102 | in place, also when both are one object: succeeds with, and leaves, the merge of the two entry values |
| `MergeInPlace.MergeNeighborsLists` | internal/controller/merge.go:59-78 | for any sharing of objects the loop is the object-level fold: same outcome, same contents of every object, the first object of each ID in order |
| `MergeInPlace.MergeOwned` | internal/controller/merge.go:59-78 | for lists that share objects in any way: succeeds exactly when the merge of the entry values does, leaves the in-place merge of what the objects held, in the first object of each ID, and changes no other object |
| `MergeInPlace.MergedExactly` | internal/controller/merge.go:59-78 | that is the merge of the entry values if and only if their filters add up as above |
| `MergeInPlace.RouterConfig.Merge` | internal/controller/merge.go:23-54 | in place, also with itself or with a router that shares its neighbors: succeeds exactly when the join of the entry values does, leaves that join with the neighbors merged in place in the first object of each ID; all other neighbor objects keep their values |
| `TranslateLoops.BuildTagLists` | internal/controller/api_to_config.go:355-430 | the loops over the tagged prefixes of a family build the lists or reject them |
| `TranslateLoops.ToAdvertise` | internal/controller/api_to_config.go:278-327 | building both kinds of lists side by side, family by family, gives the outgoing part of a neighbor |
| `TranslateFacts.OutgoingFacts` | internal/controller/api_to_config.go:278-430 | every list holds only prefixes advertised in its family, no prefix has two preferences, and nothing belongs to a family the neighbor lacks |
| `TranslateLoops.ToReceive` | internal/controller/api_to_config.go:484-536 | the loop validates the selectors and separates the families |
| `TranslateLoops.CheckOnePreference` | internal/controller/api_to_config.go:577-590 | the loop with its map of preferences accepts exactly the entries that fit the family and give no prefix two preferences |
| `TranslateLoops.ValidateOutgoingPrefixes` | internal/controller/api_to_config.go:568-610 | all the checks on what is to be advertised, for every neighbor |
| `TranslateLoops.CollectImported` | internal/controller/api_to_config.go:750-764 | the prefixes of all imported VRFs, failing on an unknown one |
| `TranslateFacts.RawRouterFacts` | internal/controller/api_to_config.go:75-104 | a translated router advertises only prefixes of its own or of VRFs it imports, uses only profiles of its configuration, and names its lists after its neighbors |
| `FoldFacts.AddRouterFacts` | internal/controller/api_to_config.go:106-120 | one more router is accepted exactly when it contradicts none seen for its VRF, and the router held then stands for all of them |
| `FoldFacts.AddProfilesFacts` | internal/controller/api_to_config.go:54-72 | profiles are accepted exactly when no name has two definitions |
| `ConvertLoops.NeighborToFRR` | internal/controller/api_to_config.go:165-233 | creates an object with the translated neighbor, or rejects it |
| `ConvertLoops.RouterToFRR` | internal/controller/api_to_config.go:134-163 | creates a router with new, distinct neighbor objects that hold the translation |
| `ConvertLoops.ValidateRouterConfig` | internal/controller/api_to_config.go:766-770 | merging the object with itself decides, and leaves, the self-merge of its value |
| `ConvertLoops.HoldRouter` | internal/controller/api_to_config.go:106-120 | validating a router and merging it into the one held for its VRF acts on that VRF only and keeps all objects separate |
| `ConvertLoops.AddBfdProfiles` | internal/controller/api_to_config.go:54-72 | names are unique within a configuration and agree with the others |
| `ConvertLoops.ValidateEvpnConfig` | internal/controller/api_to_config.go:831-858 | a router passes exactly when it has the EVPN neighbor it needs and an L3 VNI only without neighbors |
| `ConvertLoops.ValidateUniqueVNIs` | internal/controller/api_to_config.go:860-885 | in whatever order the VRFs are visited, passes exactly when no VNI number is used twice |
| `ConvertLoops.JoinRawConfigs` | internal/controller/api_to_config.go:666-679 | the loop over the sorted snippets gives the raw text |
| `RawText.RawTextExactly` | internal/controller/api_to_config.go:666-679 | the raw text of every result, position by position: the text of exactly the configurations that have one, as often as listed, each followed by a line end, by priority and then by name |
| `ConvertLoops.ApiToFRR` | internal/controller/api_to_config.go:38-132 | the conversion on objects succeeds with, and returns the values of, the conversion on values |
| `ConvertFacts.UndisputedTheorem` | internal/controller/api_to_config.go:38-121 | the configurations merge without dispute if and only if each translates and no two facts contradict each other |
| `ConvertFacts.ConversionTheorem` | internal/controller/api_to_config.go:38-132 | the conversion succeeds if and only if moreover every EVPN feature that needs a neighbor has one in its VRF |
| `Requests.SessionExactly` | internal/controller/api_to_config.go:165-276 | the session parameters of a translated neighbor are those of the API object, with defaults filled in and times in whole seconds |
| `Translate.Seconds` | internal/controller/api_to_config.go:694-719 | whole seconds, rounded towards zero |
| `Requests.TagListsExactly` | internal/controller/api_to_config.go:305-430 | a list of a family sets a tag on a prefix if and only if an entry with that tag lists it, the prefix is of that family and the neighbor has it |
| `Requests.IncomingExactly` | internal/controller/api_to_config.go:484-536 | a neighbor accepts exactly the selectors of the API object, in the list of their family |
| `Requests.IncomingInOrder` | internal/frr/config.go:196-207 | and lists them by prefix, upper length and lower length |
| `Requests.NeighborExactly` | internal/controller/api_to_config.go:165-233 | a translated neighbor says exactly what the API neighbor asks for, fact by fact |
| `Requests.ProvidesExactly` | internal/controller/api_to_config.go:742-748 | the prefixes others import from a VRF are those of its last router in the configuration |
| `RouterOrder.ReorderExactly` | internal/controller/api_to_config.go:75-104 | another order of the routers leaves the translation of every single router as it was if and only if neighbors told everything may be told the same and neighbors with a list may still be told all of it |
| `RouterOrder.SameProvidedSame` | internal/controller/api_to_config.go:742-764 | if the last router of each VRF provides the same prefixes, another order changes neither whether the configuration is accepted nor what it asks for |
| `Reordering.ReorderedExactly` | internal/controller/api_to_config.go:38-132 | reordering the routers of one configuration of any list that converts: it goes on converting if and only if that configuration is still valid; then only what neighbors are told and graceful restart can change, and, where neighbors of one ID are of the same kind and filters do not hide one another, the result is the same but for graceful restart if and only if neighbors are to be told the same, and the same outright if and only if moreover the first descriptions in reading order agree on graceful restart |
| `Reordering.UnmovedConverts` | internal/controller/api_to_config.go:38-132 | if every router translates as before, the list converts and says the same, listed filters apart; under the same hypotheses graceful restart alone can follow the order, and does if and only if it is read differently |
| `Reordering.ReorderedConverts` | internal/controller/api_to_config.go:38-132 | if the last router of each VRF provides the same prefixes, a list converts in either order or in none and its result says the same, listed filters and graceful restart apart; under the same hypotheses the results are equal if and only if graceful restart is read alike |
| `Witnesses.SwapMatters` | internal/controller/api_to_config.go:742-748 | two routers of a VRF whose order decides whether the configuration converts |
| `Witnesses.RestartFollowsRouters` | internal/controller/merge.go:59-102 | two routers of a VRF whose order changes no translation of a router, and changes graceful restart in the result |
| `Requests.ConfigExactly` | internal/controller/api_to_config.go:75-163 | a configuration that translates says exactly what its API object asks for |
| `Requests.DisputesAreRequested` | internal/controller/api_to_config.go:38-121 | valid configurations merge without dispute if and only if no two ask for contradicting things |
| `Requests.ResultIsRequested` | internal/controller/api_to_config.go:38-132 | the result says exactly what the API objects ask for, filters a neighbor lists apart |
| `Acceptance.BuildAccepts` | internal/controller/api_to_config.go:355-430 | tagged prefixes are accepted for a family if and only if every tag is used once on prefixes of that family, all of them advertised and listed once |
| `Acceptance.SelectorsAccept` | internal/controller/api_to_config.go:484-554 | selectors are accepted if and only if every prefix parses and every pair of lengths is in order |
| `Acceptance.NeighborAccepted` | internal/controller/api_to_config.go:165-353 | a neighbor is accepted if and only if its identity, family, timers, password, next hops, prefixes, tags and selectors are valid |
| `Acceptance.ConfigAccepted` | internal/controller/api_to_config.go:54-104 | a configuration translates if and only if its profiles are distinct and its routers' prefixes, imports and neighbors are valid |
| `Acceptance.ConvertsExactly` | internal/controller/api_to_config.go:38-132 | the conversion succeeds if and only if every API object is valid, no two ask for contradicting things, and the needs for EVPN neighbors are met |
| `ConvertFacts.ResultTheorem` | internal/controller/api_to_config.go:38-132 | the result says exactly what the configurations say, for every kind of fact but the filters a neighbor lists (see `Guarantees.AcceptedExactly`) |
| `ConvertFacts.ResultNormal` | internal/controller/api_to_config.go:38-132 | routers are sorted by VRF and in normal form, profiles sorted by name |
| `NormalForms.RouterUnique` | internal/controller/merge.go:33-51 | two normal routers that say the same, with neighbors of the same kinds, are equal but for graceful restart |
| `Properties.PairwiseTheorem` | internal/controller/api_to_config.go:47-121 | a list is undisputed if and only if each configuration is on its own and every two are together |
| `Properties.PairwiseConversion` | internal/controller/api_to_config.go:38-132 | the same for the success of the conversion, when no EVPN feature needs a neighbor |
| `Properties.PairwiseUpToNeeds` | internal/controller/api_to_config.go:38-132 | in general it takes the pairs and the demand for EVPN neighbors together |
| `Properties.CompatibilityIsNotTransitive` | internal/controller/merge.go:245-261 | although compatibility of two routers is not transitive |
| `Properties.UndisputedSubset` | internal/controller/api_to_config.go:38-121 | any part of an undisputed list is undisputed |
| `Properties.OnlyExtends` | internal/controller/api_to_config.go:47-129 | whatever the result for some configurations says, but for the filters a neighbor lists, the result for more says too |
| `Guarantees.AcceptanceExtends` | internal/controller/merge.go:194-242 | and what a neighbor accepts is still accepted with more configurations, when no two different filters of a neighbor share a key |
| `Guarantees.AcceptedExactly` | internal/controller/merge.go:194-242 | a neighbor of the result accepts exactly what the configurations accept from it if and only if one of them accepts everything or no two different filters listed for it share a key |
| `Witnesses.FilterLost` | internal/controller/merge.go:235-239 | a configuration that converts to a neighbor that does not accept all it lists |
| `Origins.ListedExactly` | internal/controller/api_to_config.go:484-536 | the filters listed for a neighbor by all translated routers are those of its API descriptions that do not accept everything |
| `OrderIndependence.SameConfigsSaySame` | internal/controller/api_to_config.go:38-132 | success depends on which configurations there are, not on their order or repetition |
| `OrderIndependence.JoinRawsSame` | internal/controller/api_to_config.go:666-679 | that text does not depend on the order of the configurations, when priorities and names tell the snippets apart |
| `OrderIndependence.SameRequestsSameResult` | internal/controller/api_to_config.go:38-132 | lists that describe the same neighbors, say the same and have the same raw text convert to the same result but for graceful restart, and to the same outright if and only if the first descriptions agree on it |
| `OrderIndependence.OrderIndependence` | internal/controller/api_to_config.go:38-132 | permuting the configurations changes neither success nor any field of the result but graceful restart, and not even that if and only if the first descriptions of each neighbor agree on it |
| `Restarts.RestartIsFirst` | internal/controller/merge.go:59-102 | in every result graceful restart is that of the first description of the neighbor in reading order |
| `OrderIndependence.OrderExactly` | internal/controller/api_to_config.go:38-132 | every permutation converts to the same result if and only if, for every neighbor, the first descriptions in any two configurations agree on graceful restart |
| `OrderIndependence.RestartFollowsOrder` | internal/controller/merge.go:82-102 | two configurations that convert in either order, with different results |
| `Guarantees.AdvertisedIsGrounded` | internal/controller/api_to_config.go:75-119 | in every result an advertised prefix belongs to the router or to a router of the result it imports from |
| `Guarantees.TagsAreAdvertised` | internal/controller/api_to_config.go:355-430 | in every result tags are set only on prefixes advertised to the neighbor in that family |
| `Guarantees.OneLocalPreference` | internal/controller/merge.go:123-135 | in every result a prefix has at most one local preference per neighbor |
| `Guarantees.SingleFamily` | internal/controller/api_to_config.go:278-353 | in every result a single-family neighbor has no prefix, tag or next hop of the other family |
| `Guarantees.BfdProfileDefined` | internal/controller/api_to_config.go:174-176 | in every result a neighbor's profile is in the result as the configuration that set it defines it, and no name has two definitions |
| `Guarantees.VnisAreUnique` | internal/controller/api_to_config.go:860-885 | in every result each VNI occurs once over all VRFs and both kinds, and an L3 VNI stands alone |
| `Guarantees.ResultAscends` | internal/controller/api_to_config.go:648-664 | in every result routers ascend by VRF, neighbors by ID, profiles by name, VNIs by number, prefixes and imports by their texts, compared character by character |
| `Guarantees.NeighborIdentity` | internal/controller/api_to_config.go:165-233 | in every result a neighbor is at an address or interface configured for its VRF, is named after it and its AS number, and blocks the prefixes to be blocked |
| `Removal.RemovalExact` | internal/controller/api_to_config.go:844-846 | what is left after a removal converts if and only if it still supplies the EVPN neighbors it needs |
| `Removal.RemovalCanBreak` | internal/controller/api_to_config.go:844-846 | a list that converts and a part of it that does not |
| `Environments.ConvertsInEveryEnvironment` | internal/controller/validate.go:22-36 | without references to secrets, blocked prefixes and secrets never decide whether a conversion succeeds |
| `Admission.ConfigsForNode` | internal/controller/frrconfiguration_controller.go:205-221 | the matching configurations in list order, failing when some selector does not parse |
| `Admission.MatchingInOrder` | internal/controller/frrconfiguration_controller.go:205-221 | those are, position by position, all that match, in list order |
| `Admission.ResetSecrets` | internal/controller/validate.go:39-47 | no neighbor refers to a secret any more, and nothing else changes |
| `Admission.Validate` | internal/controller/validate.go:22-36 | decides whether the configurations without their references to secrets convert |
| `Admission.ValidatesExactly` | internal/controller/validate.go:22-36 | for all configurations, with references to secrets or not: the verdict is that of any controller, whatever its secrets and blocked prefixes, on the configurations without those references |
| `Admission.ValidateConfig` | internal/webhooks/frrconfiguration_webhook.go:144-223 | admits exactly when the selector parses and, on every node it matches, the stored configurations of other names followed by the new one validate |
| `Admission.AdmitsExactly` | internal/webhooks/frrconfiguration_webhook.go:144-223 | so a change is admitted if and only if its selector parses and, on every node it selects, the stored configurations of other names and the new one convert in any environment without their references to secrets |
| `AdmissionSafety.ValidatedConverts` | internal/controller/validate.go:22-36 | for configurations without secret references the verdict of the webhook is that of the controller |
| `AdmissionSafety.AdmitKeepsSafe` | internal/webhooks/frrconfiguration_webhook.go:144-223 | for configurations without secret references: after an admitted change no node has a dispute if and only if the new object agrees with its namesakes in other namespaces, and every node goes on converting any list it gets if and only if moreover each has the EVPN neighbors it needs |
| `AdmissionSafety.DeleteKeepsSafe` | internal/webhooks/frrconfiguration_webhook.go:140-142 | a deletion brings no dispute, and nodes go on converting if and only if each still has the EVPN neighbors it needs |
| `AdmissionSafety.AdmissionSafety` | internal/webhooks/frrconfiguration_webhook.go:144-223 | over every run of admitted changes and deletions of such configurations within one namespace no node ever has a dispute, so its configurations convert in every list order if and only if they bring the EVPN neighbors they need |
| `AdmissionSafety.PlainRunsAreSafe` | internal/webhooks/frrconfiguration_webhook.go:144-223 | without EVPN features that need a neighbor they always convert |
| `AdmissionSafety.NeverDisputedButForSecrets` | internal/webhooks/frrconfiguration_webhook.go:144-223 | over every run within one namespace, with references to secrets: without these no node ever has a dispute |
| `AdmissionLimits.NamesakesCanBreak` | internal/webhooks/frrconfiguration_webhook.go:181-203 | with two namespaces an admitted change can break a node |
| `AdmissionLimits.LeavingCanBreak` | internal/webhooks/frrconfiguration_webhook.go:144-223 | an admitted change of a selector can break a node that it leaves |
| `AdmissionLimits.SecretCanBreak` | internal/controller/validate.go:38-47 | an admitted reference to a secret that is not there breaks a node |
| `Debouncer.Debounce` | internal/frr/config.go:404-447 | the loop over requests and timeouts computes the state and the calls of the state machine that the following rows are about |
| `Debouncer.TimerExactly` | internal/frr/config.go:413-444 | in every run the timer is set if and only if there was news, another configuration than the last one sent or a replay of that one, or a failure, with no successful attempt since |
| `Debouncer.NoNewsIgnored` | internal/frr/config.go:418-425 | a configuration equal to the last one sent, or a replay before any was sent, changes nothing |
| `Debouncer.HoldsLatest` | internal/frr/config.go:413-431 | the configuration held is always the one sent last, although equal ones and early replays are ignored |
| `Debouncer.CallsAreHanded` | internal/frr/config.go:413-444 | at every timeout the reload function gets the configuration sent last |
| `Debouncer.NoLostUpdate` | internal/frr/config.go:404-447 | in every run: nothing was sent, or an attempt is due, or the last attempt succeeded with the latest configuration; a due attempt always has a configuration |
| `Debouncer.NilReachesBody` | internal/frr/config.go:413-444 | a run in which a nil configuration reaches the reload function |
| `Debouncer.Spacing` | internal/frr/config.go:427-441 | from an attempt to the next one at least the retry interval passes if it failed, and at least the reload interval if it did not |
| `Debouncer.RetriesPromptly` | internal/frr/config.go:435-440 | when due timers are served at once, a failed attempt is repeated after exactly the retry interval |
| `Debouncer.NewsAttempted` | internal/frr/config.go:427-431 | news that arrives while nothing is outstanding is attempted no earlier than the reload interval after it, and exactly then when due timers are served at once |
| `Debouncer.Attempted` | internal/frr/config.go:427-441 | when due timers are served at once, any news is attempted within the longer interval, however many events follow |
| `Pipeline.SetRouterIDs` | internal/frr/frr.go:58-64 | exactly the routers without an ID get the fallback, in place |
| `Pipeline.FRR.ApplyConfig` | internal/frr/frr.go:50-67 | sets the hostname and missing router IDs in place, or fails and changes nothing |
| `Pipeline.Reconcile` | internal/controller/frrconfiguration_controller.go:75-201 | sends exactly the finalised conversion of the node's configurations, or nothing when a step fails |
| `Pipeline.SentExactly` | internal/controller/frrconfiguration_controller.go:75-201 | when it sends something, in terms of the answers it gets, and what: the conversion with the log level, the host name and, in routers without an ID, the fallback |
| `Pipeline.Serve` | internal/frr/frr.go:124-152 | reconciliations and status polls, run one after the other, send the debouncer exactly the events of the run |
| `Pipeline.PollsExactly` | internal/frr/frr.go:131-147 | over every run: a poll asks for a replay if and only if its status has another update time than the last one fetched and does not say success, and then an attempt is due if anything was ever sent; any other poll changes nothing |
| `Pipeline.EmptyConverts` | internal/controller/frrconfiguration_controller.go:187-201 | the conversion of no configurations never fails |
| `Pipeline.WhatReachesFRR` | internal/controller/frrconfiguration_controller.go:151-173 | however reconciliations, failures, replays and timeouts interleave, FRR is told the configuration of the last successful reconciliation, and when nothing is due that one was applied last |
| `Pipeline.EveryRouterIdentified` | internal/frr/frr.go:58-64 | with a fallback every router sent has an ID |
| `Sessions.PeersStatusPerVRF` | cmd/status/controller/bgpsessionstate_controller.go:284-301 | the stored state listed first for every VRF and peer is kept, all others are duplicates |
| `Sessions.FirstWithIsFirst` | cmd/status/controller/bgpsessionstate_controller.go:284-301 | no object listed before the one kept has its VRF and peer |
| `Sessions.DesiredStatesForExisting` | cmd/status/controller/bgpsessionstate_controller.go:187-217 | in any order of the maps: what to write, session by session, and to remove exactly what no session asks for |
| `Sessions.AppliedExactly` | cmd/status/controller/bgpsessionstate_controller.go:187-246 | a state is written if and only if some session does not find an object that says all it should; it says so field by field and label by label (node, peer, VRF, BGP state, BFD state or N/A) under the name of the object found |
| `Sessions.RenameDefaultVRF` | cmd/status/controller/bgpsessionstate_controller.go:272-280 | the sessions of the default VRF move to the empty name, the others stay |
| `SessionServer.OnePassSettles` | cmd/status/controller/bgpsessionstate_controller.go:81-131 | for all stored objects and distinct labels, one pass leaves exactly one object per session, with the session's node, peer, VRF, BGP and BFD state, no other object of the node, and the other nodes' objects untouched; nothing is left to do if and only if the objects found had exactly the labels of their sessions |
| `SessionServer.SecondPassIdle` | cmd/status/controller/bgpsessionstate_controller.go:187-246 | on such a server there is nothing to delete, and nothing to write if and only if the labels are right, however objects are listed and sessions visited |
| `SessionServer.RestExactly` | cmd/status/controller/bgpsessionstate_controller.go:117-126 | over every run of passes for the same sessions: after each of them nothing is left to do if and only if the objects found by the first had exactly the labels of their sessions |
| `SessionServer.AddedLabel` | cmd/status/controller/bgpsessionstate_controller.go:117-126 | an object with one more label still belongs to its session and has the wrong labels |
| `SessionServer.RepeatedNeverIdle` | cmd/status/controller/bgpsessionstate_controller.go:187-217 | with a repeated label there is always something to write |
| `SessionServer.Server.Reconcile` | cmd/status/controller/bgpsessionstate_controller.go:81-131 | the whole pass on a server object is such a pass, and reaches that state under that condition |

## Left out

- Template rendering and FRR's own semantics: whether a filter matches a route is a parameter of `FilterKeys.AcceptsUnion`.
- Address parsing: `net.ParseIP`, `net.ParseCIDR` and the label form of a peer are uninterpreted functions of the text.
- Label selectors: parsing and matching are parameters; the selector cache is not modelled.
- The API server: lists are arbitrary sequences of the stored objects; a write of a session state sets the status of an object that exists and creates any other with its labels and status at once; errors of deletes and writes, owner references and stale caches are not modelled, so an admission is judged against the current objects.
- Webhook warnings about graceful restart and `disableMP`: they do not influence the decision.
- Error texts, and which of several errors is reported.
- Nil and empty slices are not told apart, and neither are slices sharing a backing array: lists are values, so that `resetSecrets` also clears the caller's copy is not visible.
- Sorting ties: snippets of equal priority and name, and selectors that are equal, are sorted stably here.
- Rounding of timers through floating point: seconds are rounded towards zero.
- `evpnToFRR`, `bfdProfileToFRR` and `alwaysBlockToFRR`: they copy fields, so EVPN settings and profiles have one type in `Api` and `Configs`, and blocked prefixes are given as filters.
- `hashRouterID` and `hasIPv4Address`: the fallback router ID is a parameter.
- Metrics, logging, liveness, dumps, node-state cleaning, generated clients and command-line entry points.

# Verified model of mesh-cni's stateful core

mesh-cni keeps four pieces of shared state, and this project models each of
them in Dafny and proves what it promises.

1. **Service table and its datapath.** The agent stores `service key -> list
   of endpoints` as two flat kernel maps per address family, each with a
   user-space cache, and one id counter for both families. Connect programs
   read the two maps without a lock. `ServiceTable.dfy` and `ServiceSpec.dfy`
   give each operation as a sequence of single map writes; `ServiceState.dfy`
   holds the classes, proved to perform exactly a prefix of that sequence when
   a write fails; `ServiceRefinement.dfy`, `ServiceIds.dfy`, `Connect4.dfy`,
   `ServiceInterleaving.dfy`, `ServiceMisrouting.dfy` and
   `ServiceStrictDelete.dfy` prove what follows over whole runs.
   `MeshEndpoints.dfy` and `Reconcile.dfy` cover how the lists are generated
   and fed in.
2. **Connection tracking** (`Conntrack.dfy`): the packet step, eviction, failed
   inserts and the periodic cleanup as one state machine with time.
3. **Write-through caches** (`IdentityLookup.dfy`, `PolicyCache.dfy`) in front
   of the identity tries and the policy map, with the longest-prefix lookup.
4. **Identity generation** (`IdentityGen.dfy`): a namespace pass, and a pod's
   addresses receiving its identity.

`Types.dfy`, `Sequences.dfy` and `BpfMap.dfy` hold shared types, ordered
comprehensions and the kernel map. Kernel maps are finite maps whose every
operation may fail and then changes nothing, but adds one to a ghost count of
failed operations, so that contracts can say that nothing else makes a call
fail; deleting an absent key succeeds,
as in the repository's in-memory map, and `ServiceStrictDelete.dfy` says what
changes where it does not. Address parsing, hashing, the random
words, the clock and the failures are parameters or free choices.

## Where the code falls short

The model keeps the code as written. Each of these has a lemma with an input
and a lemma with the exact condition.

- An update of a present key computes a new count and never stores it, so a
  grown list is shown cut at its first length (`GrowthNotShown`; exact
  condition in `LastListShownExactly`).
- An insertion that wrote its service entry and then lost an endpoint write, or
  one at counter value 65535, lets the id be issued again
  (`FailedInsertReissuesId`, `LastIdReissued`, the value being reached without
  failures by `CountersReached`; the next insertion gets the id exactly after
  such an insertion, `IdReissuedExactly`, and ids stay sound exactly without
  one, `IdsKeptExactly`). A connect to the first service can then be sent
  to the second one's backend (`FailedInsertMisroutes`); at every point of every
  run these events, and no others, make a stray rewrite possible
  (`MisroutesExactly`). The counter wraps as in a release build, which is what
  the Dockerfile makes.
- A pass of a service that is being deleted removes its keys and then adds them
  all again; the code has no early return there. The keys present afterwards
  are exactly those present before and those of the pass
  (`DeletionLeavesKeys`).
- A pass sends nothing for a key whose last ready backend is gone, so the old
  backends stay in place (`LastBackendStays`). Together with the unwritten count
  this is all that keeps a pass from showing what was generated
  (`PassConvergesExactly`).
- A packet whose refresh fails to be stored can cost its flow the entry within
  its timeout (`LostRefreshCutsFlow`, for every TCP and UDP flow; while entries
  are up to date exactly such a packet makes it possible,
  `LostRefreshCutsExactly`).
- Networks with host bits below the prefix can share a trie node, and then the
  skip of an equal write loses an update (`SharedNodeLosesUpdate`; exact for a
  step in `UpdateAgreesExactly` and `DeleteAgreesExactly`, and for all runs over
  a set of networks in `RunsAgreeExactly`). No caller in the repository passes
  host bits: the pod and node reconcilers write full-length prefixes.
- Two identities generated in one pass may get the same id (`TwoPodsCollide`).
  The pods, the controller's copy and the random source decide it: ids are
  distinct exactly when no two last pods of new names are given equal draws
  (`IdsDistinctExactly`).
- Kernel maps refuse to delete an absent key. There a service whose list has
  shrunk below its recorded count cannot be removed (`ShrunkNotRemoved`; exact
  in `SucceedsExactly`), however often it is tried (`RefusedAgain`).

## Model

| member | source | states |
|---|---|---|
| NetTypes.ParsedSpellings | mesh-cni-ebpf-common/src/lib.rs:68-81 | the nine spellings, written out, and no others parse, each to its own protocol |
| NetTypes.ProtocolRoundTrips | mesh-cni-ebpf-common/src/lib.rs:83-108 | printing then parsing gives the protocol back, a number decodes to it exactly when it is its own; numbers are 6, 17 and 132, texts TCP, UDP and SCTP |
| ByteOrder.SwapTwice | mesh-cni-service-ebpf/src/service.rs:76-78 | reversing the bytes of a fixed-width integer twice gives it back, for every width |
| ByteOrder.SwapReversesBytes | mesh-cni-service-ebpf/src/service.rs:76-78 | the bytes in memory after the swap are those before it in the opposite order, for every width |
| ByteOrder.SwappedBytes | mesh-cni-service-ebpf/src/service.rs:76-103 | four- and two-byte swaps written out byte by byte |
| Connect4.EncodedDecodes | mesh-cni-service-ebpf/src/service.rs:93-103 | an endpoint written in network byte order is read back as that endpoint |
| BpfMaps.BpfMap.GetState | mesh-cni/src/bpf/mod.rs:117-128 | a read of the whole map that succeeds returns exactly the map, and it fails only if an operation failed |
| ServiceState.ServiceEndpoint.Update | mesh-cni/src/bpf/service/state.rs:84-106 | performs a prefix of the update's writes; succeeds exactly when the list has at most 65535 elements and no map operation failed, and exactly when all writes were performed; answers the key's id or the advanced one, keeps both caches equal to their maps |
| ServiceState.ServiceEndpoint.Remove | mesh-cni/src/bpf/service/state.rs:108-120 | performs a prefix of the removal's writes, all of them exactly on success, and succeeds exactly when no map operation failed; keeps caches and maps equal |
| ServiceState.ServiceEndpoint.InsertNewService | mesh-cni/src/bpf/service/state.rs:126-149 | service entry first, then each endpoint in order, in map and cache alike; stops at the first failed operation and only there; a list too long for a u16 count fails before any write |
| ServiceState.ServiceEndpoint.InsertEndpoints | mesh-cni/src/bpf/service/state.rs:151-164 | writes the endpoints of a list of any length at positions 0 upwards, stopping only at a failed operation or at the first position that is no u16 |
| ServiceState.ServiceEndpoint.DeleteEndpoints | mesh-cni/src/bpf/service/state.rs:166-173 | deletes exactly the positions of the range in order, stopping only at a failed operation; none if the range is reversed |
| ServiceState.ServiceEndpointState.constructor | mesh-cni/src/bpf/service/state.rs:246-259 | over any maps the counter starts at 128; caches equal maps exactly if they did before |
| ServiceState.ServiceEndpointState.Update | mesh-cni/src/bpf/service/state.rs:261-300 | filters the list by family, performs a prefix of its writes, advances the counter exactly as the code does; succeeds exactly when the filtered list fits and no map operation failed; caches equal maps after every call, failed or not |
| ServiceState.ServiceEndpointState.Remove | mesh-cni/src/bpf/service/state.rs:302-313 | the same for removals, which fail only with a map operation |
| ServiceState.NewOverEmptyMaps | mesh-cni/src/bpf/service/state.rs:64-72 | over newly created maps the state starts empty at counter 128, with caches equal to maps and no failed operation |
| ServiceState.Gather | mesh-cni/src/bpf/service/state.rs:322-334 | one family's list per service: the endpoints found at positions below the count, in order |
| ServiceState.ServiceEndpointState.StateFromCache | mesh-cni/src/bpf/service/state.rs:315-351 | the table read from the caches is the observed table |
| ServiceState.ServiceEndpointState.StateFromMap | mesh-cni/src/bpf/service/state.rs:354-390 | fails only if a map read failed; otherwise the table read from the maps is that same table |
| ServiceSpec.FilterKeepsFamily4 | mesh-cni/src/bpf/service/state.rs:266-275 | the family filter drops nothing from an IPv4 list |
| ServiceSpec.FilterKeepsFamily6 | mesh-cni/src/bpf/service/state.rs:281-290 | the family filter drops nothing from an IPv6 list |
| ServiceSpec.FilterPicks4 | mesh-cni/src/bpf/service/state.rs:266-275 | from a mixed list the filter keeps exactly the IPv4 elements, unchanged and in order |
| ServiceSpec.FilterPicks6 | mesh-cni/src/bpf/service/state.rs:281-290 | and exactly the IPv6 elements |
| ServiceRefinement.UpdateLeavesExactly | mesh-cni/src/bpf/service/state.rs:84-164 | every entry of both maps after any number of the writes of an update: an absent key gets service entry, then endpoints; under the id of a present one positions are overwritten up to the new length and deleted from there up to the recorded one, its service entry unchanged |
| ServiceRefinement.RemoveLeavesExactly | mesh-cni/src/bpf/service/state.rs:108-120 | and of a removal: endpoints go from position 0 up to the recorded count, the service entry last, nothing else |
| ServiceRefinement.StepRefines | mesh-cni/src/bpf/service/state.rs:84-149 | one operation without failed writes keeps the flat maps a refinement of a map from keys to lists and recorded lengths |
| ServiceRefinement.RunShowsHistory | mesh-cni/src/bpf/service/state.rs:261-351 | after every failure-free run from empty maps exactly the keys added and not since removed are shown, each with its last list cut at the length recorded at insertion |
| ServiceRefinement.RunShowsHistoryFrom | mesh-cni/src/bpf/service/state.rs:261-351 | the same from any refined state |
| ServiceRefinement.LastListShownExactly | mesh-cni/src/bpf/service/state.rs:94-105 | a key shows its last list exactly when that list has not outgrown the recorded length |
| ServiceRefinement.GrowthNotShown | mesh-cni/src/bpf/service/state.rs:94-105 | a service inserted with one backend and updated to two shows one |
| ServiceRefinement.OtherKeysUnchanged | mesh-cni/src/bpf/service/state.rs:84-120 | an operation on one key leaves presence and shown list of every other key unchanged |
| ServiceRefinement.EnoughIds | mesh-cni/src/bpf/service/state.rs:296-298 | a run with no more operations than ids left never exhausts the counter |
| ServiceStrictDelete.SucceedsExactly | mesh-cni/src/bpf/mod.rs:105-107 | on maps that refuse to delete an absent key, after any run that succeeded, a removal succeeds exactly when the key's last list covers its recorded length, and an update exactly when its list fits and it or the last one does |
| ServiceStrictDelete.ShrunkNotRemoved | mesh-cni/src/bpf/service/state.rs:108-120 | there a service inserted with two backends and updated to one, both calls succeeding, cannot be removed |
| ServiceStrictDelete.RefusedAgain | mesh-cni/src/bpf/service/state.rs:108-120 | a removal refused there is refused however often it is tried again |
| ServiceIds.IdsKeptExactly | mesh-cni/src/bpf/service/state.rs:126-149 | with any number of an operation's writes performed, ids in use stay below the counter and unique, except exactly after a partly failed insertion or one at 65535 |
| ServiceIds.IdsNeverReissued | mesh-cni/src/bpf/service/state.rs:296-298 | over every run without such an insertion the issued ids strictly increase, so none is issued twice |
| ServiceIds.IdsFromEmpty | mesh-cni/src/bpf/service/state.rs:246-300 | from empty maps the first id issued is 128 and all are distinct, from 128 on and below the counter |
| ServiceIds.IdReissuedExactly | mesh-cni/src/bpf/service/state.rs:126-149 | in any state, for either family and any lists, the insertion after one that wrote its service entry gets the same id exactly when that one lost an endpoint write or ran at 65535 |
| ServiceIds.FailedInsertReissuesId | mesh-cni/src/bpf/service/state.rs:135-148 | after such an insertion the first service shows the list of the second one of its family as far as both lists go; losing the first endpoint write suffices for any non-empty list |
| ServiceIds.LastIdReissued | mesh-cni/src/bpf/service/state.rs:147-148 | at counter value 65535 two insertions of any family and list share an id without a failure |
| ServiceIds.CountersReached | mesh-cni/src/bpf/service/state.rs:296-298 | every counter value from 128 to 65535 is reached from empty maps by one service coming and going without a failure |
| Connect4.TryConnect4 | mesh-cni-service-ebpf/src/service.rs:44-114 | on raw bytes: only family 2 with a one-byte protocol is looked up, under the address and port whose bytes arrive highest first; denies exactly on count 0; on a rewrite the endpoint is the one at position (random word mod 65536) mod count and its address and port bytes are written highest first; otherwise nothing changes |
| Connect4.DecideOnRun | mesh-cni-service-ebpf/src/service.rs:51-74 | on every state a failure-free run leaves: deny exactly when the recorded count is 0, else the element of the key's last list at the drawn position, or no change at a position the list has shrunk below |
| Connect4.EveryObservedReached | mesh-cni-service-ebpf/src/service.rs:110-114 | every endpoint shown under a key is reached by some random word |
| ServiceInterleaving.InvKeptExactly | mesh-cni/src/bpf/service/state.rs:84-173 | every single map write, failure, call boundary and unlocked read keeps the ownership invariant behind lookup safety, except exactly the two events after which an id with a live service is the next to be issued |
| ServiceInterleaving.RewritesAreSupplied | mesh-cni-service-ebpf/src/service.rs:51-78 | from empty maps, however writes, failures and any number of two-read lookups interleave, a rewrite for a key leads to an endpoint a started update supplied for that key |
| ServiceInterleaving.ReadableWereSupplied | mesh-cni/src/bpf/service/state.rs:108-120 | entries left behind by a grown then removed service are never readable through another service's entry |
| ServiceInterleaving.FailedInsertMisroutes | mesh-cni/src/bpf/service/state.rs:135-148 | an eight-event interleaving in which a connect is sent to another service's backend |
| ServiceMisrouting.MisroutesExactly | mesh-cni/src/bpf/service/state.rs:126-149 | after any run without such events, an event is one of them if and only if some continuation without them makes a rewrite no started update supplied for its key |
| ServiceInterleaving.CallIsRun | mesh-cni/src/bpf/service/state.rs:261-313 | an undisturbed call of the agent, complete or failed part-way, is a run of the interleaved system ending in the state the method ends in |
| ServiceInterleaving.ReadsDecide | mesh-cni-service-ebpf/src/service.rs:51-74 | two undisturbed reads of the interleaved system rewrite exactly as the connect program decides |
| MeshEndpoints.ServiceIpsFromService | mesh-cni-crds/src/v1alpha1/meshendpoint.rs:147-166 | the list that ServiceIpsExact describes |
| MeshEndpoints.ServiceIpsExact | mesh-cni-crds/src/v1alpha1/meshendpoint.rs:147-166 | it holds the cluster addresses that parse, no others, in order and as often as listed |
| MeshEndpoints.BackendIpsFromSlice | mesh-cni-crds/src/v1alpha1/meshendpoint.rs:168-183 | the list that ReadyIpsExact describes |
| MeshEndpoints.ReadyIpsExact | mesh-cni-crds/src/v1alpha1/meshendpoint.rs:143-183 | it holds the addresses that parse of the endpoints that have conditions, are not said to be unready and are not terminating, in order |
| MeshEndpoints.ServiceNamesPortsProtocols | mesh-cni-crds/src/v1alpha1/meshendpoint.rs:204-225 | the list whose every element NamedPortsExact describes |
| MeshEndpoints.NamedPortsExact | mesh-cni-crds/src/v1alpha1/meshendpoint.rs:204-225 | that list has one element for each service port whose protocol text is one of the nine spellings, in order, with its own name (empty if it has none), its own number and that protocol |
| MeshEndpoints.FirstPortExact | mesh-cni-crds/src/v1alpha1/meshendpoint.rs:193-201 | the port found is that of the first entry with the name, a number and the protocol (TCP where absent or unknown), and none is found exactly when there is none |
| MeshEndpoints.GenerateMeshEndpointSpec | mesh-cni-crds/src/v1alpha1/meshendpoint.rs:88-121 | the nested loops build the ordered join |
| MeshEndpoints.MappingsExact | mesh-cni-crds/src/v1alpha1/meshendpoint.rs:88-141 | on the stored fields: a mapping is generated exactly when a slice of the same namespace labelled kubernetes.io/service-name with the name of the service has the ready address and a first port for a service port of a recognised spelling, with the numbers of both ports |
| MeshEndpoints.MappingAtOffset | mesh-cni-crds/src/v1alpha1/meshendpoint.rs:99-115 | a mapping built from a stored slice, one of its ready addresses and a service port stands at that triple's offset |
| MeshEndpoints.MappingsInOrder | mesh-cni-crds/src/v1alpha1/meshendpoint.rs:99-115 | offsets order mappings exactly by slice in store order, then address, then port |
| MeshEndpoints.EveryMappingPlaced | mesh-cni-crds/src/v1alpha1/meshendpoint.rs:99-115 | every position of the list is the offset of some slice, address and port |
| MeshEndpoints.ProtocolSurvivesMapping | mesh-cni-crds/src/v1alpha1/meshendpoint.rs:53-75 | protocol text written into a mapping parses back, and a pair is produced exactly for equal families |
| MeshEndpoints.GenerateBpfServiceEndpoints | mesh-cni-crds/src/v1alpha1/meshendpoint.rs:49-85 | the result has exactly the keys of the same-family pairs, each with all of its endpoints in order and multiplicity |
| MeshEndpoints.GroupingConserves | mesh-cni-crds/src/v1alpha1/meshendpoint.rs:77-81 | the lists together hold as many endpoints as there are same-family pairs |
| MeshEndpoints.GroupedListsFit | mesh-cni-crds/src/v1alpha1/meshendpoint.rs:55-75 | no list is empty and every endpoint has its key's family and protocol |
| MeshEndpoints.EndpointsForKey | mesh-cni-crds/src/v1alpha1/meshendpoint.rs:49-85 | a key receives exactly the backends mapped for its port and protocol in generation order, once for each time its address is listed |
| MeshEndpoints.PairsExact | mesh-cni-crds/src/v1alpha1/meshendpoint.rs:49-75 | a key and an endpoint are paired exactly when some listed address and mapping of one family carry their addresses, ports and the number of the protocol text |
| MeshEndpoints.GeneratedExactly | mesh-cni-crds/src/v1alpha1/meshendpoint.rs:49-225 | from stored objects to pairs: a key and an endpoint are generated exactly when the key has a cluster address, port and protocol number of the service, and the endpoint a ready address of the same family and the first fitting port of an owned slice |
| Reconcile.ReconcileResource | mesh-cni-service-bpf-controller/src/controller.rs:109-146 | missing namespace fails, the label mesh-cni.dev/multi-cluster or an outdated copy skips without change; otherwise it runs a whole pass of the generated lists, succeeding exactly when every list fits a u16 count and no map operation failed, or on failure its first operations and part of the writes of the one that failed |
| Reconcile.ServiceExactly | mesh-cni-service-bpf-controller/src/controller.rs:109-132 | on the stored objects: when a Service is skipped, and that its pairs come from its cluster addresses and the join |
| Reconcile.MeshEndpointExactly | mesh-cni-service-bpf-controller/src/controller.rs:109-132 | the same for a MeshEndpoint, whose pairs come from its own spec |
| Reconcile.FilterDropsNothing | mesh-cni/src/bpf/service/state.rs:265-291 | the filter in the update drops nothing from a generated list |
| Reconcile.PassHasIdsExactly | mesh-cni/src/bpf/service/state.rs:296-298 | a pass into an empty table finds an id for every key exactly when it has at most 65407 keys |
| Reconcile.ServicePassIsExact | mesh-cni-service-bpf-controller/src/controller.rs:134-145 | a successful pass of at most 65407 keys into an empty table leaves exactly the generated table |
| Reconcile.ServiceKeysShowBackends | mesh-cni-service-bpf-controller/src/controller.rs:53-60 | and each key shows the ready backends mapped for its port and protocol in generation order, once for each time the service lists its address, or is absent |
| Reconcile.ServiceShowsExactly | mesh-cni-service-bpf-controller/src/controller.rs:53-60 | from stored objects to the table: after such a pass an endpoint is shown under a key exactly when GeneratedExactly generates it |
| Reconcile.FirstPass | mesh-cni-service-bpf-controller/src/controller.rs:109-146 | an agent that starts on empty maps and reconciles one resource succeeds exactly when every generated list fits and no map operation failed, and then reports from its caches exactly the generated table |
| Reconcile.PassConvergesExactly | mesh-cni-service-bpf-controller/src/controller.rs:134-145 | from any state a failure-free run leaves, a pass makes a key show its generated list, or nothing if it has none, exactly when the list fits the recorded count or, if it has none, nothing was shown before |
| Reconcile.LastBackendStays | mesh-cni-service-bpf-controller/src/controller.rs:141-143 | a pass after the last ready backend is gone leaves the key showing its old list |
| Reconcile.OrderNotObservable | mesh-cni-service-bpf-controller/src/controller.rs:141-143 | two passes over the same lists in different hash-map orders leave the same observed table |
| Reconcile.RepeatedPassNotObservable | mesh-cni-service-bpf-controller/src/controller.rs:134-145 | repeating a pass of a resource that is not being deleted changes nothing observed |
| Reconcile.DeletionLeavesKeys | mesh-cni-service-bpf-controller/src/controller.rs:136-143 | after a pass of a resource being deleted exactly the keys present before and those of the pass are present, the latter with their whole list |
| Conntrack.ConntrackMap.HandleIpv4 | mesh-cni-policy-ebpf/src/ipv4.rs:12-92 | the packet step: own direction, else reverse, else a new entry for UDP or an opening TCP segment, else no change |
| Conntrack.OpeningEnters | mesh-cni-policy-ebpf/src/ipv4.rs:19-84 | a stored opening packet, in its own addresses and ports, leaves one entry of its direction with its time in an empty table |
| Conntrack.EitherDirectionRefreshes | mesh-cni-policy-ebpf/src/ipv4.rs:55-84 | a packet of either direction of such an entry, addresses and ports exchanged, changes its time and adds none |
| Conntrack.ConntrackMap.CleanupMap | mesh-cni/src/bpf/conntrack.rs:42-67 | succeeds exactly when no map operation failed, and then keeps precisely the entries seen within 43200 s for TCP and 60 s for any other protocol; an aborted pass has only removed others |
| Conntrack.OneDirectionOnly | mesh-cni-policy-ebpf/src/ipv4.rs:55-84 | over every run the entries of the two directions of one connection, with addresses and ports exchanged, are never both present unless they are the same |
| Conntrack.TcpEntriesPointAsOpened | mesh-cni-policy-ebpf/src/ipv4.rs:19-53 | every TCP entry has the addresses and ports, as sent, of an earlier SYN-without-ACK segment (section 3.5 of RFC 9293) between two resolved addresses |
| Conntrack.LastSeenNeverDecreases | mesh-cni-policy-ebpf/src/ipv4.rs:72-84 | on a monotonic clock last-seen times never decrease while an entry lives |
| Conntrack.StalenessBound | mesh-cni/src/bpf/conntrack.rs:12-30 | whatever the table holds at the start, with cleanups at most a gap apart, the first at the start, no entry is older than its timeout plus the gap |
| Conntrack.StalenessAtInterval | mesh-cni/src/bpf/conntrack.rs:12-14 | at the 300 s interval: 43500 s for TCP, 360 s for every other protocol |
| Conntrack.UpToDateKeptExactly | mesh-cni-policy-ebpf/src/ipv4.rs:72-84 | every event keeps entries at the time their flow was last seen in either direction, except exactly a refresh that failed to be stored |
| Conntrack.NoFlowCutShort | mesh-cni/src/bpf/conntrack.rs:57-64 | without lost refreshes no cleanup removes a flow seen in either direction within its timeout |
| Conntrack.LostRefreshCutsExactly | mesh-cni/src/bpf/conntrack.rs:57-64 | while entries are up to date, an event makes it possible that a later cleanup removes a flow seen within its timeout if and only if it is a refresh that failed to be stored |
| Conntrack.LostRefreshCutsFlow | mesh-cni-policy-ebpf/src/ipv4.rs:72-84 | any TCP or UDP flow can be removed within its timeout once the refresh of its second packet, of either direction, is lost |
| IdentityLookup.KeyRoundTrips | mesh-cni/src/bpf/ip/convert.rs:24-32 | trie-key encoding and decoding are inverse in both directions; the key keeps the prefix length and holds the bytes of the address in the opposite order |
| IdentityLookup.ContainsExactly | mesh-cni/src/bpf/ip/state.rs:78-85 | a network contains exactly the addresses of its own aligned block of 2^(host bits) |
| IdentityLookup.IpBpfState.Update | mesh-cni/src/bpf/ip/state.rs:155-169 | skips an equal cached value, else writes the trie and on success the cache; a skip is a success, and only a failed trie operation fails it |
| IdentityLookup.IpBpfState.Delete | mesh-cni/src/bpf/ip/state.rs:171-180 | removes from trie and, on success, cache; only a failed trie operation fails it |
| IdentityLookup.UpdateAgreesExactly | mesh-cni/src/bpf/ip/state.rs:155-169 | cache and trie keep agreeing except exactly when a clashing network's node is overwritten with another id |
| IdentityLookup.DeleteAgreesExactly | mesh-cni/src/bpf/ip/state.rs:171-180 | and except exactly when a deleted node also serves a clashing network |
| IdentityLookup.RunsAgreeExactly | mesh-cni/src/bpf/ip/state.rs:155-180 | all runs over a set of networks, whatever fails, keep cache and trie in agreement exactly when no two of the set share a trie node |
| IdentityLookup.WithoutHostBitsSeparate | mesh-cni/src/bpf/ip/state.rs:78-85 | networks without host bits never share a node |
| IdentityLookup.LookupShowsWritten | mesh-cni/src/bpf/ip/state.rs:76-109 | over every run on networks of which no two share a node, whatever fails, lookup gives the last id written and not deleted for the longest network containing the address |
| IdentityLookup.HostLookupIsPlainMap | mesh-cni/src/bpf/ip/state.rs:200-225 | with full-length prefixes only, lookup is a plain map from addresses to ids |
| IdentityLookup.SharedNodeLosesUpdate | mesh-cni/src/bpf/ip/state.rs:157-161 | two networks sharing a node make the skip lose an update |
| IdentityLookup.HostBitsShareNode | mesh-cni/src/bpf/ip/state.rs:78-85 | networks with host bits can share a node |
| IdentityLookup.IpNetworkState.Update | mesh-cni/src/bpf/ip/state.rs:76-95 | writes a network of any prefix length in its family's trie and cache, or skips it as equal, and leaves the other family alone |
| IdentityLookup.IpNetworkState.UpdateHost | mesh-cni/src/bpf/ip/state.rs:76-95 | after a success a host address resolves to the id, also when the write was skipped; after a failure, and for every other address always, resolution is as before |
| IdentityLookup.IpNetworkState.Delete | mesh-cni/src/bpf/ip/state.rs:98-109 | removes the host entry of the address in its family only; every other address resolves as before |
| PolicyCache.PolicyBpfState.Load | mesh-cni/src/bpf/policy/state.rs:116-127 | a successful load makes the cache equal to whatever the map holds; only a failed read fails it |
| PolicyCache.PolicyBpfState.Update | mesh-cni/src/bpf/policy/state.rs:129-142 | cache equals map after every call, failed or not; a success leaves the value in the map also when skipped; only a failed operation fails it |
| PolicyCache.PolicyBpfState.Delete | mesh-cni/src/bpf/policy/state.rs:144-152 | the same for deletes |
| IdentityGen.SanitizePodLabels | mesh-cni-k8s-utils/src/lib.rs:70-80 | removes exactly controller-revision-hash, pod-template-hash and pod-template-generation, and keeps every other label with its value |
| IdentityGen.SameNameExactly | mesh-cni-identity-gen-controller/src/controller.rs:80-103 | two pods of a namespace whose labels differ only in those three get the same name, and with an injective hash only such pods do |
| IdentityGen.DrawUnused | mesh-cni-identity-gen-controller/src/controller.rs:106-116 | returns the first drawn id that no stored identity uses |
| IdentityGen.GetOrGenerateIdentity | mesh-cni-identity-gen-controller/src/controller.rs:80-119 | its name is the hash of the namespace labels and the pod labels without those three; it is the stored identity of that name if there is one, without a draw, else a new one with these labels and the first unused draw |
| IdentityGen.CollectDesired | mesh-cni-identity-gen-controller/src/controller.rs:29-38 | the identities of the namespace's pods in their order, each new one with the draw that the pods before it leave to it, and exactly the needed names |
| IdentityGen.PatchDesired | mesh-cni-identity-gen-controller/src/controller.rs:40-50 | patches the desired identities in order up to the first failure, a later one of a name overwriting an earlier one |
| IdentityGen.PatchedExactly | mesh-cni-identity-gen-controller/src/controller.rs:40-50 | patching them leaves under every needed name the identity of its last pod and everything else as it was |
| IdentityGen.ReconcileNamespace | mesh-cni-identity-gen-controller/src/controller.rs:20-67 | after a success every needed name holds the identity of its last pod, stored or generated, and unneeded known ones are gone; with a current copy exactly the needed identities remain, reused ones unchanged, and a namespace that already holds exactly these is left as it is even by a failed pass; after a failure every entry is as before or as a success would leave it, and none is gone unless every needed one is there; it fails only with an API call; every pod of the namespace is then served, and no pod of another namespace adds or changes an identity |
| IdentityGen.IdsDistinctExactly | mesh-cni-identity-gen-controller/src/controller.rs:105-116 | after such a pass all ids are pairwise distinct exactly when the draws that the pods, the copy and the random source give the last pods of the new names are |
| IdentityGen.DistinctDrawsSuffice | mesh-cni-identity-gen-controller/src/controller.rs:105-116 | a source that never repeats itself keeps ids distinct, since later pods draw at later places |
| IdentityGen.TwoPodsCollide | mesh-cni-identity-gen-controller/src/controller.rs:105-116 | two pods of different names meet this in an empty store when the first two draws are equal |
| IdentityGen.PodsMatchExactlyOne | mesh-cni-crds/src/v1alpha1/identity.rs:28-35 | with an injective hash and well-named identities each pod matches exactly the one stored under its name |
| IdentityGen.FirstMatchIsOwn | mesh-cni-identity-controller/src/pod.rs:36-45 | so the first match does not depend on the store's order |
| IdentityGen.FirstMatchExactly | mesh-cni-identity-controller/src/pod.rs:36-45 | the match is the first entry of the namespace with exactly its labels and exactly the labels of the pod without the three |
| IdentityGen.ReconcilePod | mesh-cni-identity-controller/src/pod.rs:13-68 | succeeds exactly when the namespace is known and the pod is on the host network or has a match and no map operation failed; every address of the pod then resolves to the id of its first match; no other address ever resolves differently, and a pod on the host network changes nothing |

## Left out

- Restart over surviving pinned service maps: the constructor takes them, but the caches start empty while the maps may not, so the service results over runs start from empty maps.
- ServiceInterleaving.RewritesAreSupplied: a connect program reads an endpoint value in one step; the program keeps a reference and loads address and port separately (mesh-cni-service-ebpf/src/service.rs:68-78), so an entry overwritten between the two loads is not modelled.
- ServiceRefinement.RunShowsHistory: assumes that no map write fails and that ids are left; what failures leave is stated by ServiceState.ServiceEndpointState.Update, ServiceIds.IdsKeptExactly and ServiceInterleaving.RewritesAreSupplied.
- Conntrack: two packets interleaved between lookup and insert on different CPUs, and a cleanup interleaved with a refresh, are not modelled; every packet and cleanup is atomic.
- Conntrack.LostRefreshCutsExactly: assumes that the clock stays a TCP timeout below 2^64 ns, over 584 years after boot.
- IdentityGen.ReconcileNamespace: that each search for an unused id the pass makes ends is a precondition; a pass without new names makes none.
- Byte order assumes a little-endian host.
- Map capacity, except that inserts may fail and the connection table may evict.
- Raw packet parsing: packets are records of addresses, ports, protocol, SYN and ACK.
- The `EndpointSlice` controller variant, which nothing instantiates, and the node reconciler, which writes fixed ids the same way as pods.
- Kubernetes watchers, requeue timing, metrics, gRPC, CLI, program loading and network-policy selectors: input, output and library plumbing.

# Lightpath, modelled and proved in Dafny

Lightpath replaces kube-proxy by Envoy. Two programs do the work. The control plane keeps a cache of services and
endpoint slices, wakes a snapshot loop through a channel and a flag when the cache changes, and translates snapshots of
the cache into Envoy listeners, clusters and load assignments. The redirect program turns service events into iptables
rules that send traffic for service addresses to Envoy. This project models both, down to the loops and the locks, and
proves what they promise, or the exact condition under which they keep the promise.

| file | what it holds |
|---|---|
| `Kube.dfy` | the Kubernetes objects, reduced to the fields the code reads |
| `Meaning.dfy` | what the fields of those objects mean, written out for the theorems and unused by the code's model |
| `GoText.dfy` | Go's string order, decimal printing, fields joined by a separator |
| `CacheSpec.dfy` | the cache as a value: what each informer event does to it, snapshots, change reports |
| `History.dfy` | the cache told from the event history alone |
| `Convergence.dfy` | order independence, versions compared as text |
| `Namespaced.dfy` | the cache beside one keyed by namespace and name: exactly when the two agree |
| `ApiServer.dfy` | the API server's objects, by namespace and name, beside the cache: exactly when the two agree |
| `Resync.dfy` | when re-sending every live object brings the cache back to them |
| `StateCache.dfy` | the cache on the heap: classes, methods and loops, proved against `CacheSpec` |
| `Subscriber.dfy` | the notification protocol as interleaved steps of any number of goroutines |
| `Progress.dfy` | lock order, deadlock freedom, delivery from every state, and what a lost publication costs |
| `Delivery.dfy` | how long delivery can take under any schedule, and what never repairs a lost publication |
| `Naming.dfy` | the printed names |
| `Endpoints.dfy` | extraction of endpoints from slices |
| `Grouping.dfy` | grouping of endpoints into load assignments |
| `Mapper.dfy` | the translation of a whole snapshot |
| `Routing.dfy` | what a connection through a configuration reaches, and that it is what the services ask for |
| `Kubernetes.dfy` | where and with what backends Kubernetes lets a service port answer, and when the translation keeps it |
| `Consistency.dfy` | when the published clusters and load assignments carry the same names |
| `Settings.dfy` | annotation keys, and whose settings a shared cluster carries |
| `Redirect.dfy` | the rule chains, the address diff and the event handlers |
| `RedirectRun.dfy` | whole runs of the redirect program |
| `Netfilter.dfy` | what iptables makes of the rules: which packets a chain sends to the proxy |
| `EndToEnd.dfy` | the stages joined |

The main results:

- `EndToEnd.QuietProxyRoutesAsKubernetes`, `EndToEnd.QuietProxyServesEverywhereIff` and `EndToEnd.ClusterIPsForwarded`
  go from informer events to the backends a connection reaches. They join `ApiServer.AlwaysFollowsIff` or
  `Resync.HistoryRepairedIff`, `Subscriber.QuiescentDelivered` and `Kubernetes.KubernetesRoutingPreserved`, and the last
  one also `RedirectRun.AlwaysExactIff`. On the Kubernetes side stand the API server's objects by namespace and name, and
  the addresses Kubernetes gives a service: ClusterIPs, external addresses, and node ports of NodePort and LoadBalancer
  services. All three hold for all endpoints, and again for the ready ones against those marked healthy.
- `EndToEnd.ProxyIsOnlyStale` holds in every reachable state: the proxy routes as Kubernetes asked when the last published
  snapshot was taken.
- `Routing.RoutingPreserved` needs no support condition: it says which endpoints a connection reaches for every
  well-formed snapshot, Redis ports, unlisted families and named target ports included.

Promises the code does not keep on all inputs, each with the exact condition and an input that breaks it:

- Resource versions are compared as text, so revision 10 is refused while revision 9 is held
  (`Convergence.AcceptsNewerIff`, `Convergence.AcceptsNewerSliceIff`, `Convergence.RevisionTenIsRefused`).
- A slice that arrives before its service is lost, although the call reports a change. The cache follows the API server
  at every moment exactly when every event is in order, and, where labels stay in their namespace, a resync repairs it
  exactly when no two live services share a name and the cache holds nothing that is not live and nothing that refuses
  the live version (`ApiServer.AlwaysFollowsIff`, `Resync.ResyncIff`,
  `Convergence.SlicesBeforeServiceAreLost`, `CacheSpec.ReportsExact`).
- The cache is keyed by the bare service name. It is at every moment what one keyed by namespace and name would be
  exactly when no event names a service held under that name by another namespace, or changes its slices through a
  label (`Namespaced.AlwaysMirrorsIff`, `Convergence.NamespacesShareAContainer`).
- The order of slices comes from a map, and decides the conditions of an endpoint exactly when slices disagree about
  it (`Endpoints.ExtractionOrderFreeIff`, `Endpoints.OrderDecidesConditions`).
- A named target port is looked up as number 0, and its ClusterIP reaches nothing. The addresses with a listener reach
  what Kubernetes asks for exactly when every port and family with a listener is offered by its slices, under the target
  port's number, what they assign to it by name (`Kubernetes.BuiltFrontsAgreeIff`, `Kubernetes.SliceAgreesIff`,
  `Kubernetes.NamedTargetPortUnanswered`).
- The server checks that clusters and load assignments carry the same names, and only warns. They do exactly when every
  TCP port and listed family has an endpoint and every endpoint's port is a TCP port's target
  (`Consistency.ConsistentNamesIff`, `Consistency.NamedAndUdpPortsBreakConsistency`).
- External addresses and node ports of LoadBalancer services get no listener. The proxy serves every address as
  Kubernetes asks exactly when no port with backends has one (`Kubernetes.ServedEverywhereIff`,
  `Kubernetes.LoadBalancerUnanswered`). The repository's README.md (line 13) speaks of redirecting ClusterIPs and
  ExternalIPs to Envoy. The code does redirect both, so traffic for an external address ends at the proxy unless some
  service has it as a ClusterIP with that very port (`EndToEnd.RedirectedIsListenedIff`,
  `EndToEnd.ExternalAddressUnanswered`, `EndToEnd.BorrowedAddressUnanswered`). The model follows the code.
- A failed translation or server error consumes its event. The update is lost, so that no run without a new call
  delivers it, exactly when the last publication failed, the server is behind the cache, and nothing is going on but
  polling and calls that find nothing new; a resync of such calls never repairs it (`Delivery.LostIff`,
  `Delivery.RestIsLostIff`, `Delivery.ResyncNeverRepairs`, `Progress.AFailedPublicationLosesTheUpdate`). No wake-up is
  lost over it: what has changed since the last snapshot was taken is always still owed (`Subscriber.NoLostWakeUp`).
- An update can wait for the receive deadline (`Progress.StandstillIff`, `Progress.AnUpdateMayWaitForTheDeadline`).
- The diff of an update compares address texts while rules carry the parsed address, so a respelled address loses its
  rule (`RedirectRun.UpdateExactIff`, `RedirectRun.AlwaysExactIff`, `RedirectRun.RespellingLosesTheRule`).
- Settings of one port can be read from another port's annotations (`Settings.KeysCollideIff`,
  `Settings.UpstreamPortCollides`), and a port loses its settings to a later port with the same target
  (`Settings.SharedClusterSettings`, `Settings.EarlierPortLosesItsSettings`).

Conventions. Loops over Go maps pick any remaining key, so every result holds for every iteration order. Pointers to
Kubernetes objects are classes with one constant value. The address parser is a parameter: a function from text to
nothing, or a family and the printed form. A rule for text that does not parse is taken to be refused by iptables.
Envoy's snapshot cache is a map by resource name in which the later of two equal names stays. Envoy is taken to send a
redirected connection to the listener of its original address and port that does not bind, a connection to a port of
the node to the listener that binds it, and from there to the endpoints of the cluster of the filter chain; a listener
without a filter chain answers nothing. A rule's arguments are taken as pairs of a flag and a value that must all accept
a packet, and the first rule of a chain that does so decides. A ClusterIP has the family that the service lists in its
place; the code reads it off the address, and the two agree exactly when the IPv6 addresses, and only they, are written
with a colon (`Kubernetes.FamiliesReadIff`), as all real ones are.

## Model

| member | source | states |
|---|---|---|
| GoText.LessIff | pkg/state/cache.go:56 | the string comparison is decided at the first place where the strings differ, or by the shorter being a prefix |
| GoText.EqualLengthOrder | pkg/state/cache.go:56 | on decimal versions of equal length the string comparison that rejects stale objects is the numeric one |
| GoText.TextOrderAgreesIff | pkg/state/service.go:136 | for any two versions without leading zeros the string order agrees with the numeric order if and only if their common-length prefixes allow it |
| GoText.PrintIntInjective | pkg/translations/helper.go:22 | printing with `%d` is injective on all int32 values, negative ones included |
| GoText.PrintNatRoundTrip | pkg/translations/helper.go:26 | the printed decimal reads back as the number |
| CacheSpec.ApplyKeepsWellKeyed | pkg/state/cache.go:53-76 | no event breaks the structural invariant: service keys, slice keys and slice labels all name what they map to |
| CacheSpec.ReplayWellKeyed | pkg/state/cache.go:51-122 | the structural invariant over all runs |
| CacheSpec.InvalidLabelUnreachable | pkg/state/service.go:118-120 | through the cache the invalid-label status can never be returned |
| CacheSpec.ReportsExact | pkg/state/cache.go:34-122 | after any history a call returns true exactly when it changed the cache, or was a labelled slice event of an unregistered service |
| History.ServiceHistory | pkg/state/cache.go:51-95 | a service is stored exactly when it was updated since its last delete, and then it is the earliest such update of greatest version |
| History.SliceHistory | pkg/state/service.go:132-152 | a slice of a live service is stored exactly when it was updated since the later of its last delete and the service's creation, and then it is the earliest such update of greatest version |
| History.CacheTellsHistory | pkg/state/cache.go:34-122 | the whole cache refines the event history, after every sequence of events |
| History.HistoryDeterminesCache | pkg/state/cache.go:34-122 | the history description leaves no freedom: two caches that satisfy it are equal |
| Convergence.UpdatesConverge | pkg/state/service.go:132-142 | delete-free updates of held services bring the cache to the same value in any order and with any repeats, when a version identifies an object's content |
| Convergence.SlicesBeforeServiceAreLost | pkg/state/cache.go:118-121 | the two orders of one service and one slice end in different caches |
| Convergence.AcceptsNewerIff | pkg/state/cache.go:56-63 | an update of a held service is accepted exactly when it is numerically newer, if and only if the two numerals compare as text like numbers |
| Convergence.AcceptsNewerSliceIff | pkg/state/service.go:135-141 | the same for slices |
| Convergence.RevisionTenIsRefused | pkg/state/cache.go:56-63 | a concrete update that is lost: version 10 while 9 is held |
| Convergence.StoredVersionGrows | pkg/state/cache.go:51-80 | along every run without a delete the stored service stays or is replaced by an update of greater version |
| Convergence.NumericVersionsGrow | pkg/state/cache.go:56 | with versions of equal length that growth is numeric |
| Convergence.NamespacesShareAContainer | pkg/state/cache.go:53-76 | equally named services of two namespaces replace and delete each other |
| Namespaced.MirrorsIff | pkg/state/cache.go:51-122 | one event keeps the bare-name cache equal to one keyed by namespace and name exactly when it does not clash, through its name or through a label |
| Namespaced.AlwaysMirrorsIff | pkg/state/cache.go:51-122 | the two caches are equal, slices included, at every moment of a history exactly when no event of it clashes |
| Namespaced.GlobalKeysNeverClash | pkg/state/cache.go:53-76 | names used in one namespace only, by services and by labels, never clash |
| Namespaced.GlobalKeysMirror | pkg/state/cache.go:53-76 | so the cache is then always one keyed by namespace and name, slices included |
| ApiServer.ServiceFollowsIff | pkg/state/cache.go:51-80 | one service update keeps the cache, read by namespace and name, equal to the API server's objects exactly when a known service gets a greater version and a new one has no slices yet |
| ApiServer.RemovalFollows | pkg/state/cache.go:83-94 | a service deletion always keeps the two equal, by namespace and name |
| ApiServer.SliceFollowsIff | pkg/state/cache.go:96-122 | a slice update or deletion keeps them equal exactly when the slice stays with its live owner in its own namespace and an update carries a greater version |
| ApiServer.FollowsIff | pkg/state/cache.go:34-122 | for the bare-name cache the condition is the same and no clash with a live service of another namespace |
| ApiServer.AlwaysFollowsIff | pkg/state/cache.go:34-122 | the cache is what the API server's objects, by namespace and name, ask for at every moment of a history exactly when every event of it is in order: no stale version, no slice before its service, no clash of namespaces |
| Resync.ResyncIff | cmd/controlplane/controlplane.go:102-110 | where no live slice is labelled for another namespace's live service: whatever the cache holds, re-sending every live object makes it exactly those objects if and only if no two live services share a name and it held nothing that is not live and nothing that refuses the live version |
| Resync.HistoryRepairedIff | cmd/controlplane/controlplane.go:25 | a history that ends in such a resync ends with the cache following the API server under the same condition |
| StateCache.ServiceContainer.constructor | pkg/state/service.go:67-73 | a new container holds the service and no slices |
| StateCache.ServiceContainer.Update | pkg/state/service.go:93-106 | replaces the object and keeps the slices; fails on nil and then changes nothing |
| StateCache.ServiceContainer.UpdatEndpointslices | pkg/state/service.go:109-129 | new value and status are those of the value-level slice operation; nil fails and changes nothing |
| StateCache.ServiceContainer.UpdateEndpointSlice | pkg/state/service.go:132-142 | stores the slice unless one of the same name and no smaller version is held |
| StateCache.ServiceContainer.DeleteEndpointSlice | pkg/state/service.go:145-152 | removes the slice of that name, or reports that there is none |
| StateCache.ServiceContainer.DeepCopy | pkg/state/service.go:76-91 | a fresh container with fresh objects and the same value; only the options are shared |
| StateCache.ServiceContainer.Snapshot | pkg/state/service.go:154-170 | lists the object and every slice exactly once, in any order, and only objects of the container |
| StateCache.ClusterServiceStateCache.constructor | pkg/state/cache.go:25-31 | a new cache is empty |
| StateCache.ClusterServiceStateCache.UpdateServices | pkg/state/cache.go:34-48 | heap value and result are those of the event on the old value, nil included |
| StateCache.ClusterServiceStateCache.UpdateService | pkg/state/cache.go:51-80 | the same for insertion and in-place update, changing one container only |
| StateCache.ClusterServiceStateCache.DeleteService | pkg/state/cache.go:83-94 | the same for deletion |
| StateCache.ClusterServiceStateCache.UpdatEndpointSlice | pkg/state/cache.go:96-122 | the same for slice events, unlabelled and unowned slices included |
| StateCache.ClusterServiceStateCache.DeepCopy | pkg/state/cache.go:124-136 | a cache, containers and objects all fresh, with the same value |
| StateCache.ClusterServiceStateCache.Snapshot | pkg/state/cache.go:138-154 | a snapshot that shares no object with the cache and shows every service of its value exactly once |
| StateCache.HandleAll | pkg/state/cache.go:34-122 | any sequence of calls leaves the heap cache at the replay of the events |
| StateCache.SnapshotAfter | pkg/state/cache.go:138-154 | a snapshot taken after any calls on a new cache shows exactly the replay of their events |
| StateCache.CopyIsIsolated | pkg/state/cache.go:124-136 | after a deep copy, any calls on the original and any on the copy each have the effect they would have alone |
| Subscriber.StepInv | pkg/state/subscriber.go:52-79 | every step of every goroutine keeps the protocol invariant: lock ownership, faithful copies, the log, wake-ups owed since the last snapshot taken, paid snapshots |
| Subscriber.NoLostWakeUp | pkg/state/subscriber.go:52-79 | in every reachable interleaving a cache changed since the last snapshot was taken is owed to a pending dispatcher, the flag or a taken event, whatever failed before; only a failed publication keeps a taken snapshot from the server |
| Subscriber.QuiescentTaken | pkg/state/subscriber.go:52-66 | at quiescence the last snapshot taken is the whole cache, failures or not |
| Subscriber.QuiescentDelivered | cmd/controlplane/controlplane.go:34-57 | at quiescence, with no failed publication, the server holds the value of the cache, which is the replay of the whole history |
| Subscriber.NeverGoesBack | cmd/controlplane/controlplane.go:143-159 | along every run the server never returns to an older configuration |
| Subscriber.SnapshotsArePaidFor | pkg/state/subscriber.go:55-78 | snapshots received, plus one if the flag is set, never exceed completed dispatches |
| Subscriber.SnapshotIsAtomic | pkg/state/cache.go:124-136 | although containers are copied one by one between other goroutines' steps, the copy is the cache at one instant |
| Subscriber.AnnouncementIsTaken | pkg/state/subscriber.go:72-78 | an announcement made while the receiver waits is taken by it, and only any other goes on to mark the flag |
| Subscriber.ChangesAreLocked | pkg/state/service.go:98-115 | in every reachable state whoever changes a container that stays in the cache holds its mutex and the cache's |
| Progress.LockOrder | pkg/state/subscriber.go:52-85 | whoever waits for a lock holds only locks of lower rank: flag, then cache, then container |
| Progress.NoWaitCycle | pkg/state/cache.go:106-111 | no ring of goroutines of any length waits for one another |
| Progress.UnparkedMoves | pkg/state/subscriber.go:69-79 | unless the receiver sits in its select, some thread has an enabled step that is no new call and no deadline |
| Progress.SomeStepHelps | pkg/state/subscriber.go:52-79 | outside rest there is always a step that lowers the measure of pending work |
| Progress.CanAlwaysDeliver | cmd/controlplane/controlplane.go:143-159 | from every reachable state a finite run without new events reaches rest with the cache delivered, unless only a failed publication is left |
| Progress.StandstillIff | cmd/controlplane/controlplane.go:36-37 | only the deadline can move the system exactly when the receiver is in its select and every busy dispatcher waits for its lock |
| Progress.AnUpdateMayWaitForTheDeadline | pkg/state/subscriber.go:72-78 | a reachable state in which an undelivered update waits for the deadline |
| Progress.AFailedPublicationLosesTheUpdate | cmd/controlplane/controlplane.go:39-49 | a reachable state at rest in which a failed publication left the server behind the cache |
| Progress.PollingNeverRepairs | cmd/controlplane/controlplane.go:143-159 | from rest, a run without a new handler call never changes what the server holds |
| Delivery.StepsAreBounded | pkg/state/subscriber.go:52-79 | under any schedule a run without new calls takes at most a number of non-polling steps that is computed from its first state |
| Delivery.FairRoundsDeliver | cmd/controlplane/controlplane.go:143-159 | once the snapshot loop has gone more rounds than that, none of which polls while something else could move, it has come by rest with the whole cache delivered, unless the last publication failed |
| Delivery.ResyncNeverRepairs | cmd/controlplane/controlplane.go:39-49 | polling and calls that find nothing new in the cache never change what the server holds |
| Delivery.LostIff | cmd/controlplane/controlplane.go:39-49 | in a reachable state no run without a new call or failure delivers the cache exactly when the last publication failed, the server is behind, and only polling and calls that find nothing new are going on |
| Delivery.RestIsLostIff | cmd/controlplane/controlplane.go:39-49 | at rest that is exactly when the server is behind |
| Delivery.ResendFindsNothing | pkg/state/cache.go:56-63 | re-sending an object at the version the cache holds finds nothing new |
| Naming.ClusterNameInjective | pkg/translations/helper.go:21-23 | for fields without the separator, equal cluster names mean equal family, namespace, service and port |
| Naming.ListenerNameInjective | pkg/translations/helper.go:25-27 | the same for listener names, with the address |
| Naming.OwnClusterNameInjective | pkg/translations/helper.go:21-23 | within one service no condition on the fields is needed |
| Naming.PipesCollide | pkg/translations/helper.go:22 | with the separator in a field two services share a cluster name |
| Endpoints.ExtractEndpointMetaAndState | pkg/translations/mapper_endpoints.go:33-64 | the three nested loops yield exactly the keys some slice offers, each with conditions offered for it, and write the visited tuples in order |
| Endpoints.LastWriterWins | pkg/translations/mapper_endpoints.go:46-58 | every key carries the conditions of the last tuple that has it |
| Endpoints.TuplesAreOffered | pkg/translations/mapper_endpoints.go:38-60 | the visited tuples are exactly those some slice, port and endpoint describe: first address, family of the address type, port number or 0, zone and node or "None", conditions with their defaults |
| Endpoints.ExtractedIsOffered | pkg/translations/mapper_endpoints.go:33-64 | a key is extracted exactly when it is offered, with conditions offered for it |
| Endpoints.ExtractionOrderFree | pkg/state/service.go:165-167 | slices that agree on what each writes last give one result in every order, repeated or not |
| Endpoints.ExtractionOrderFreeIff | pkg/translations/mapper_endpoints.go:33-64 | the result is the same for every order of the slices exactly when they agree so |
| Endpoints.ConsistentIsOrderFree | pkg/translations/mapper_endpoints.go:33-64 | duplicates with equal conditions are enough for that |
| Endpoints.OrderDecidesConditions | pkg/translations/mapper_endpoints.go:46-58 | two concrete slices of one service whose order decides whether an endpoint is ready |
| Endpoints.MapEndpointMetaAndStateToEndpoint | pkg/translations/mapper_endpoints.go:66-95 | the reassigned status variable ends in the health that the conditions mean: healthy exactly when ready and not terminating |
| Grouping.MapEndpointSliceToLocalityEndpoints | pkg/translations/mapper_endpoints.go:98-149 | in every map order the result is a partition of the extracted endpoints; every endpoint of a slice stands in a group of its zone and node under its family's and port's name, and every endpoint of every group stands there for one of a slice, with the health its conditions mean |
| Grouping.GroupEndpoints | pkg/translations/mapper_endpoints.go:103-122 | the first loop nests every endpoint under its cluster name and locality |
| Grouping.FillAssignments | pkg/translations/mapper_endpoints.go:125-135 | the second loop gives every assignment the localities of its own name |
| Grouping.ListAssignments | pkg/translations/mapper_endpoints.go:137-140 | the last loop lists every assignment exactly once |
| Grouping.EndpointsConserved | pkg/translations/mapper_endpoints.go:98-149 | a partition holds as many endpoints as were extracted, none at two places |
| Mapper.MapServicePortToListeners | pkg/translations/mapper_listener.go:13-49 | both loops produce the specified listeners; `ListenerFronts` says what these answer |
| Mapper.MapServicePortToClusters | pkg/translations/mapper_cluster.go:13-108 | one cluster per family of the service; `ConfiguredCluster` says which exist |
| Mapper.EnvoySnapshotFromKubeSnapshot | pkg/translations/mapper.go:15-32 | the nested loops produce the specified clusters and listeners and a partition per service |
| Mapper.IndexLast | pkg/translations/mapper.go:34-40 | of resources with one name the last stays |
| Mapper.Translate | pkg/translations/mapper.go:15-43 | the whole translation returns one of the configurations the theorems speak of |
| Routing.ListenersListed | pkg/translations/mapper.go:21-29 | the listeners are exactly those of the TCP ports' ClusterIPs and node ports |
| Routing.ListenerFronts | pkg/translations/mapper_listener.go:19-80 | a listener of a port takes connections to an address and port, with a filter chain of the port's protocol to its cluster, exactly where the port answers; only node ports bind |
| Routing.ConfiguredFronts | pkg/translations/portsettings.go:14-29 | in the final configuration the chains at an address and port are exactly one for each front there: HTTP exactly when the port's appProtocol, or else its name, is "http", none exactly for Redis, else TCP |
| Routing.ConfiguredListeners | pkg/translations/mapper.go:34-40 | no listener is lost to a name clash in a well-formed snapshot |
| Routing.ConfiguredCluster | pkg/translations/mapper_cluster.go:19-24 | the cluster a port targets exists exactly when the family is listed |
| Routing.TargetReaches | pkg/translations/mapper_endpoints.go:98-149 | the targeted cluster reaches exactly the service's extracted endpoints of the family and target port |
| Routing.RoutingPreserved | pkg/translations/mapper.go:15-43 | through any configuration for a well-formed snapshot, listener to cluster to assignment to localities, a connection reaches exactly the endpoints of the ports that answer there, handled by the port's protocol, Redis and unlisted families excepted |
| Kubernetes.FamiliesReadIff | pkg/translations/helper.go:14-19 | the families the code reads off the ClusterIPs are those the service lists in their places exactly when the IPv6 addresses, and only they, contain a colon |
| Kubernetes.CoveredIff | pkg/translations/mapper_listener.go:19-46 | the code builds a listener for every address Kubernetes gives a port exactly when external addresses are ClusterIPs too and no LoadBalancer node port is allocated |
| Kubernetes.SliceAgreesIff | pkg/translations/mapper_cluster.go:21 | lookup by target port number finds the backends Kubernetes assigns by port name, label and namespace exactly when the numbers agree |
| Kubernetes.NamedTargetPortNeverAgrees | pkg/translations/mapper_cluster.go:21 | a named target port never agrees with slices that carry real port numbers |
| Kubernetes.ForeignSliceAgreesIff | pkg/state/cache.go:101-111 | a slice of another namespace that came in through its label agrees only if it offers nothing |
| Kubernetes.EndpointsOffered | pkg/translations/mapper_endpoints.go:33-95 | the endpoints a port's assignment holds are those its slices offer under the number, and the healthy ones the ready ones |
| Kubernetes.KubernetesRoutingPreserved | pkg/translations/mapper.go:15-43 | for supported services a connection reaches only backends Kubernetes assigns to its destination, and all of them where the code builds every front Kubernetes has; for all endpoints, and for healthy against ready ones |
| Kubernetes.ServedEverywhereIff | pkg/translations/mapper_listener.go:18-46 | every address and port is served as Kubernetes asks if and only if no port with backends has an external address of its own or a LoadBalancer node port |
| Kubernetes.LoadBalancerUnanswered | pkg/translations/mapper_listener.go:33-46 | a concrete supported LoadBalancer service whose node port and external address reach nothing |
| Kubernetes.ReachesOffered | pkg/translations/mapper.go:15-43 | whatever the slices, a connection reaches exactly the backends that the fronts built at its destination offer |
| Kubernetes.BuiltFrontsAgreeIff | pkg/translations/mapper_cluster.go:19-24 | every address with a listener reaches what Kubernetes asks for if and only if every port and family with a listener is offered exactly what its slices assign to it |
| Kubernetes.NamedTargetPortUnanswered | pkg/translations/mapper_listener.go:26 | a concrete ClusterIP service with a named target port whose ClusterIP reaches nothing though Kubernetes assigns it a backend |
| Kubernetes.IPv6ServiceReached | pkg/translations/mapper_listener.go:26 | a concrete IPv6 service whose ClusterIP reaches its endpoint, by HTTP |
| Consistency.ConsistentNamesIff | pkg/server/server.go:76-82 | clusters and load assignments carry the same names exactly when every TCP port and listed family has an endpoint, and every endpoint's family is listed and its port the target of a TCP port |
| Consistency.NamedAndUdpPortsBreakConsistency | pkg/translations/mapper.go:22-31 | a concrete named target port and a concrete UDP port each break it |
| Settings.KeysCollideIff | pkg/translations/helper.go:29-31 | two (port, setting) pairs of the table share a key exactly when they are identical or an `-upstream` port meets an idle-timeout or request-timeout pair |
| Settings.UpstreamPortCollides | pkg/translations/helper.go:29-31 | a concrete annotation that two ports share |
| Settings.SettingsApart | pkg/wellknown/wellknown.go:12-81 | no other two settings of the table can meet in one key, whatever the port names |
| Settings.SharedClusterSettings | pkg/translations/mapper_cluster.go:16-24 | in the final configuration a targeted cluster carries the settings of the service's last TCP port with that target number |
| Settings.EarlierPortLosesItsSettings | pkg/translations/mapper_cluster.go:16-24 | a concrete service of two ports with one target, whose first port's settings are lost |
| Redirect.IptablesRedirect.constructor | pkg/redirect/iptables.go:38-44 | starts without rules |
| Redirect.IptablesRedirect.AddIP | pkg/redirect/iptables.go:90-107 | inserts the rule into the chain of the address's family if it is absent |
| Redirect.IptablesRedirect.RemoveIP | pkg/redirect/iptables.go:109-131 | removes the rule from that chain if it is present |
| Redirect.SvcIPDiff | pkg/redirect/kube.go:17-45 | adds the parsed new ClusterIPs and external addresses that are not old, removes the parsed old ones that are not new, without repeats and in any order |
| Redirect.EventHandler.AddFunc | pkg/redirect/kube.go:51-62 | adds a rule for every address of the service |
| Redirect.EventHandler.UpdateFunc | pkg/redirect/kube.go:65-89 | first adds, then removes what the diff says, under the new object's comment |
| Redirect.EventHandler.DeleteFunc | pkg/redirect/kube.go:92-103 | removes the rule of every address of the service |
| RedirectRun.DeleteRuleRemoves | pkg/redirect/iptables.go:115-123 | on a chain without duplicates, deleting a rule takes it and nothing else away |
| RedirectRun.AddAllAdds | pkg/redirect/kube.go:54-61 | adding keeps both chains free of duplicates and adds exactly the rules of the addresses |
| RedirectRun.RemoveAllRemoves | pkg/redirect/kube.go:95-102 | removing takes exactly the rules of the addresses away |
| RedirectRun.DiffTurnsOldIntoNew | pkg/redirect/kube.go:17-45 | nothing is both added and removed, and adding then removing turns the old texts into the new |
| RedirectRun.CommentInjective | pkg/redirect/kube.go:12-14 | services of different keys have different comments |
| RedirectRun.OthersAskElsewhere | pkg/redirect/kube.go:12-14 | no two services ask for one rule, even when they share an external address |
| RedirectRun.UpdateExactIff | pkg/redirect/kube.go:65-89 | an update leaves the chains exact exactly when no dropped text names an address still asked for under another text |
| RedirectRun.AlwaysExactIff | pkg/redirect/kube.go:48-105 | along every run the two chains hold exactly the rules the live services ask for at every moment, if and only if every update is free of such aliases |
| RedirectRun.CanonicalRunsAreExact | pkg/redirect/kube.go:48-105 | with texts written as Go prints addresses they always do |
| RedirectRun.HandleAll | pkg/redirect/kube.go:48-105 | every sequence of handler calls on empty chains is a run of the theorems |
| RedirectRun.AliasedUpdateLosesTheRule | pkg/redirect/kube.go:25-43 | after an aliased update the rule is gone although the service asks for it |
| RedirectRun.RespellingLosesTheRule | pkg/redirect/kube.go:25-43 | a concrete run of two events that ends inexact |
| EndToEnd.ProxyIsOnlyStale | cmd/controlplane/controlplane.go:34-57 | in every reachable state the proxy routes as Kubernetes asked at the moment of the history when the last published snapshot was taken |
| EndToEnd.QuietProxyRoutesAsKubernetes | cmd/controlplane/controlplane.go:34-57 | at rest, with every event since start-up or since a resync in order, a connection reaches only backends Kubernetes assigns to it by the live objects, and all of them where the code builds what Kubernetes asks for; for every interleaving and map order |
| EndToEnd.QuietProxyServesEverywhereIff | cmd/controlplane/controlplane.go:34-57 | at rest every address and port is served as Kubernetes asks if and only if no live port with backends has an external address of its own or a LoadBalancer node port |
| EndToEnd.ListeningAtIff | pkg/translations/mapper_listener.go:18-46 | something listens at an address and port exactly when a service port answers there |
| Netfilter.RuleMeans | pkg/redirect/iptables.go:86-88 | a rule redirects to the proxy's port exactly the TCP packets to its address |
| Netfilter.ExactRedirects | pkg/redirect/iptables.go:90-131 | exact chains send to the proxy's port exactly the TCP packets of each family to the addresses that live services list |
| Netfilter.RunRedirects | pkg/redirect/kube.go:48-105 | so at every moment of a run without aliased updates |
| Netfilter.RulesNameTheirService | pkg/redirect/kube.go:12-14 | every rule carries the comment of a live service that lists its address |
| EndToEnd.RedirectedIff | pkg/redirect/iptables.go:86-88 | a packet is sent to the proxy exactly when it is TCP and some live service has its destination as a ClusterIP or external address |
| EndToEnd.RedirectedIsListenedIff | pkg/redirect/iptables.go:86-88 | every TCP packet to a listed address is sent to the proxy, and all connections to a listed address and a TCP port of its service find a listener exactly when each such address is a ClusterIP of a service with that very port |
| EndToEnd.ExternalAddressUnanswered | pkg/translations/mapper_listener.go:18-31 | a concrete service of two external addresses: packets to each are redirected, and nothing listens there at any port |
| EndToEnd.BorrowedAddressUnanswered | pkg/redirect/iptables.go:86-88 | a concrete service whose external address is another's ClusterIP, redirected and answered at the other's port only |
| EndToEnd.ClusterIPsForwarded | pkg/redirect/kube.go:48-105 | the whole path, for a control plane at rest and any run of the redirect program without aliased updates over the same services: where the code builds what Kubernetes asks for, a packet is sent to the proxy and its connection reaches a backend exactly when it is TCP and Kubernetes assigns that backend to its destination by the live objects |

## Left out

- `bpf/`: non-functional by the repository's own account.
- Envoy's protobuf messages: filter chains keep only their protocol and target cluster, clusters only their name and the service port their settings come from, listeners no buffer limits.
- `getPortSettings` field by field, default values, parsing of annotation values and the load-balancing policy names: one branch each.
- gRPC and xDS serving, Kubernetes clients, informer wiring, signal handling, logging and version strings.
- The iptables library: a rule is inserted if absent and removed if present, and other failures of iptables do not occur. `Prereqs` and `Cleanup` are straight-line calls around it.
- `net.ParseIP`: a parameter of the theorems, with no property assumed except where a lemma names one.
- Tombstones of missed deletions, and type assertions on event objects.
- Fairness of Go's scheduler and mutexes: `FairRoundsDeliver` takes it as a condition on the rounds of the snapshot loop.
- Load-balancer ingress addresses of a service's status, which neither program reads.
- Server shutdown: the receive loop is modelled without cancellation of its outer context.
- StateCache.ClusterServiceStateCache.UpdateServices: the classes hold no mutexes; the locking of these calls is the step relation of `Subscriber`, and the two meet in the value-level `Apply`.
- StateCache.ServiceContainer.DeepCopy: Kubernetes objects are constant, so writes of other code into a shared object are not modelled; freshness of the copies is.
- Mapper.EnvoySnapshotFromKubeSnapshot: it requires that endpoints of slices with ports carry an address, which the API server guarantees; the code panics otherwise.
- Routing.RoutingPreserved: it is stated for well-formed snapshots, that is separator-free names, distinct (namespace, name), known families, distinct TCP ports and node ports within a service, and no any-address among the ClusterIPs of a node-port service.
- RedirectRun.AlwaysExactIff: it is stated for what an informer sends (an update or deletion carries the last object seen) and for namespaces without a slash, which Kubernetes guarantees.
- EndToEnd.ClusterIPsForwarded: node ports are not redirected, so the any-addresses are excluded.
- Kubernetes.ServedEverywhereIff: it is stated for snapshots in which no two service ports are given one address and port, which Kubernetes leaves undecided.
- Resync.ResyncIff: foreign-namespace labels are excluded, because what they leave in the cache depends on the order in which the two informers send.
- The webhook, deployment manifests, benchmarks and results.

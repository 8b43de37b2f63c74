# wls-ingress: a model of the ingress controller

wls-ingress routes HTTP traffic to WebLogic pods and keeps every session on the pod that
created it. Three things have to work together for that: the routing table must follow the
cluster although events are dropped, merged and skipped on the way; sessions in the shared Redis
database must never lead to another pod; and the comparison that decides whether to reload must
not overlook a change. This project models the code that does this and proves it.

Check it with `dafny verify dfyconfig.toml`.

## Main results

- **Convergence** (`Pipeline.Convergence`, `RoutingConverges`, `ConvergenceIsStable`, `Drains`). In every
  reachable state with nothing on its way, the handler routes by a configuration equal to what
  `getConfiguration` returns for the store, for any interleaving of changes, ring drops, skips, failed
  syncs and changes in the middle of a sync. End to end: a host is unknown exactly when no ingress of the
  class names it, and otherwise has exactly the sockets that services and Endpoints objects offer to the
  port in the first path of its routing rule. Left alone, the pipeline
  gets there within a bound that is computed from its state; and the next sync reloads nothing exactly
  when ingresses with equal creation times do no harm.
- **Sticky sessions** (`Sessions.StickySafety`, `SessionsReturnToTheirServer`, `StickyPersistence`, `OnlyUnlistedSessionsAreCleaned`,
  `Persistence.RoutableSessionsPersist`).
  Over every run of any number of controllers, a request with a bound session goes to the bound host
  or gets an error, and that is the host which served the request that the session was issued for. From the moment a session is published, and even if a clean with an older list is
  running then, as long as it is used at least hourly and its address is on every list passed to `Clean`,
  each request that carries it is sent to its address or is on the way there, however its commands
  interleave with others. A clean ends only sessions whose address is not on its list. With the lists that
  the code makes, those of installed configurations and of active endpoints, this becomes: a session
  persists while its address stays routable.
- **Skip rule** (`TaskQueue.SkipSoundness`, `SkippedOnlyWhenCovered`, `SyncsAreCaused`, `Coalescing`). Whatever is
  enqueued waits, is being synced, or has been covered by a successful sync that began no earlier. What must
  not be skipped is synced unless a successful sync began more than a day later, and no sync begins but for a
  request or a failure that no successful sync has covered.
- **Matching** (`Sets.GreedyIsComplete`, `Sets.Compare`). The greedy matching, which never backtracks,
  succeeds exactly when a bijection exists, for every equivalence relation.
- **Equality** (`Types.ConfigurationsEqualIffSameViews`, `ConfigurationEqualIsEquivalence`,
  `EqualConfigurationsRouteAlike`). Configurations compare equal exactly when they hold the same entries up to
  order at both levels; this is an equivalence and a congruence for routing.
- **Building** (`Routing.ConfigurationExact`, `Builder.SpecHoldsExactlyWhenUnambiguous`, `OrderIndependence`,
  `Endpoints.EndpointsExact`, `Store.DerivedIndexIsExact`). What the configuration contains, and
  exactly when it is what the rules ask for.
- **Ties** (`Ties.NeverReloadsIffTiesAreHarmless`). Exactly when an unchanged store can cause a reload
  because ingresses share a creation time.
- **Periodic cleaning** (`Status.PeriodicCleaningKeepsRoutableSessionsIff`). Exactly when it keeps every
  session that is bound to a routable address.

## How it is laid out

| file | models |
|---|---|
| Go.dfy, Sorting.dfy | the Go values and library functions used: nilable pointers and slices, Itoa and Atoi, substring search, JoinHostPort, SliceStable |
| Sets.dfy | internal/sets/match.go |
| Types.dfy | internal/ingress/types.go, types_equals.go, controller/config |
| Endpoints.dfy, Builder.dfy | controller/endpoints.go, controller.go, util.go |
| Store.dfy | controller/store/store.go, annotations/class/main.go |
| Routing.dfy | what a configuration holds, read off the ingresses, services and Endpoints objects |
| Ties.dfy | what the order of ingresses with equal creation times does to the configuration |
| TaskQueue.dfy | internal/task/queue.go |
| Pipeline.dfy | the steps from a cluster change to the installed configuration |
| RedisKeys.dfy, Redis.dfy | internal/redis/redis.go and the text of session cookies |
| Handler.dfy | internal/ingress/handler/http/handler.go |
| Sessions.dfy | the session protocol of many controllers over one database |
| Persistence.dfy | that protocol with the lists that OnUpdate and the status syncer pass to Clean |
| Status.dfy, Controller.dfy | internal/ingress/status/status.go; syncIngress and OnUpdate |

Code that changes objects or runs loops is a class or a method here, proved against functions; the
protocols are state machines whose steps are those same functions, with theorems over all runs.

## Assumptions

- The clock never goes back. Coalescing speaks of elements stamped strictly before a sync began.
- A queue has one worker, key functions succeed, and nothing is shutting down.
- Every rule has HTTP with at least one path: the first path is read without a check
  (internal/ingress/controller/controller.go:166). This is `Builder.Usable`.
- Service objects and DNS answers do not change during a run of the pipeline: the service informer has
  no handlers (internal/ingress/controller/store/store.go:359), so their changes trigger no sync.
- An informer reports an add for a key that it did not have, and an update together with the object that it
  had. The object in a delete or a tombstone may be any state of the ingress, and a tombstone may hold
  something else or nothing.
- A session id is fresh when it is issued: nobody has used its key before.
- The Redis prefix has no glob metacharacters.
- Conversion of an extensions-API ingress succeeds, and every ingress and service has a namespace.

## Where the code does less than its words

- `internal/ingress/types.go:25` calls the upstream name unique. It is not, and a host can be left without the
  endpoints of its own service (`Builder.UpstreamsCollide`). The configuration is as specified in every
  cluster store exactly when the rules are unambiguous (`Builder.SpecHoldsExactlyWhenUnambiguous`), which
  namespaces and ports without dashes guarantee.
- A delete is ignored when its tombstone holds no networking-API ingress (store.go:236), and when the object
  that it carries is of another class than the stored ingress (store.go:243), as a tombstone with an older
  state may be. `Store.DeletesAreLost` shows such deletes, `Store.HandleKeepsAgreementIff` says exactly when
  a notification keeps the derived store right, and `Store.DerivedIndexIsExact` what the store holds after
  any sequence of them: the class-valid ingresses and what such deletes have left.
- Ingresses created at the same time are listed in cache order. That order is hidden exactly when creation
  times are distinct (`Store.ListOrderHiddenIffDistinctTimes`), and causes no reload exactly when the ties are
  harmless (`Ties.NeverReloadsIffTiesAreHarmless`, with a store that can reload for ever in
  `Ties.TiesCanReload`).
- The comment at `internal/ingress/annotations/class/main.go:34-35` says that an empty class setting accepts
  ingresses of class wls. The code does not: no named class belongs to two settings
  (`Store.ClassesAreDisjoint`).
- A cookie value in double quotes is stored with its quotes and sent back without them, so it is never
  found again (`RedisKeys.BindingRoundTrip`).
- ExternalName services are routable and not listed by `getActiveEndpoints`. If an Endpoints object of the same
  name exists, the next periodic clean ends their sessions (`Status.ExternalNamesAreNotListed`); if none
  does, `getActiveEndpoints` fails (status.go:268-271) and nothing is cleaned. A clean keeps all routable
  sessions exactly when every external name that a host is routed to is an active address too
  (`Status.PeriodicCleaningKeepsRoutableSessionsIff`).
- A class lookup for a host that is not known goes to any endpoint, whatever session it carries, and panics
  when the first entry has none (`Handler.WLSHandler.HandleRootWLS`). Sticky safety is about all other requests.

## Model

| member | source | states |
|---|---|---|
| Sets.Compare | internal/sets/match.go:23-71 | the loop with the visited array decides `Same`; on non-nil lists and an equivalence, exactly the existence of a bijection |
| Sets.Match | internal/sets/match.go:49-70 | the outer loop refines matching the head with its first partner and dropping both |
| Sets.Visit | internal/sets/match.go:52-63 | the inner loop marks exactly the first unvisited partner |
| Sets.GreedyIsComplete | internal/sets/match.go:51-70 | for an equivalence, greedy succeeds if and only if a bijection pairs related elements |
| Sets.GreedyIffCounts | internal/sets/match.go:51-70 | for an equivalence, greedy succeeds if and only if every element has equally many relatives on both sides |
| Sets.GreedyGivesBijection | internal/sets/match.go:51-70 | a successful greedy matching is a bijection, for any relation |
| Sets.GreedyMissesWithoutEquivalence | internal/sets/match.go:51-70 | a relation that is no equivalence, with a bijection that greedy misses |
| Sets.SameIsEquivalence | internal/sets/match.go:37-70 | comparing slices, nil ones included, lifts an equivalence to an equivalence |
| Types.EndpointEqualIsEquivalence | internal/ingress/types_equals.go:21-48 | Endpoint.Equal is reflexive, symmetric and transitive |
| Types.BackendEqualIsEquivalence | internal/ingress/types_equals.go:51-98 | Backend.Equal is reflexive, symmetric and transitive |
| Types.ConfigurationBackendEqualIsEquivalence | internal/ingress/controller/config/config_equals.go:38-52 | ConfigurationBackend.Equal is reflexive, symmetric and transitive |
| Types.ConfigurationEqualIsEquivalence | internal/ingress/controller/config/config_equals.go:21-35 | Configuration.Equal is reflexive, symmetric and transitive |
| Types.EndpointsEqualIffSameViews | internal/ingress/types_equals.go:21-98 | endpoint slices compare equal if and only if both are nil, or neither is and they have the same multiset of address, port, and target UID and resource version |
| Types.ConfigurationsEqualIffSameViews | internal/ingress/controller/config/config_equals.go:21-70 | configurations compare equal if and only if both have nil services, or neither has and they have the same multiset of entries, each seen as its hostname, backend name, service namespace and name, and multiset of endpoints |
| Types.EqualConfigurationsRouteAlike | internal/ingress/handler/http/handler.go:202-217 | equal configurations without duplicate hosts leave each host unknown, empty, or with the same multiset of address and port |
| Types.EqualToRoutable | internal/ingress/controller/config/config_equals.go:21-52 | what is equal to a configuration that can be walked without a nil and lists no host twice is one too |
| Types.DuplicateHostsBreakRouting | internal/ingress/handler/http/handler.go:210-214 | with a host listed twice, equal configurations can route it differently |
| Go.JoinHostPortInjective | internal/ingress/controller/endpoints.go:118-119 | the dedup key decides host and port, bracketed hosts included |
| Endpoints.GetEndpoints | internal/ingress/controller/endpoints.go:97-134 | the triple loop with the dedup map returns the first occurrences of the admitted servers: exactly what is offered |
| Endpoints.KeepsFirstInOrder | internal/ingress/controller/endpoints.go:117-129 | each result is the first candidate at its socket, target included, in candidate order |
| Endpoints.KeepsEverySocket | internal/ingress/controller/endpoints.go:117-129 | no candidate socket is lost |
| Endpoints.EndpointsExact | internal/ingress/controller/endpoints.go:97-131 | the result holds exactly the sockets that positive ports of the protocol and the name offer with each address, each once, with the target of the first place in the loops that offers it |
| Endpoints.TargetPort | internal/ingress/controller/endpoints.go:100-115 | a port is used exactly when protocol, name and positivity admit it |
| Builder.GetServiceEndpoints | internal/ingress/controller/controller.go:108-158 | exactly the sockets offered to the first service port whose name, number or target port was asked for, each once, or those of an external name; an error exactly for an unknown service |
| Builder.ServiceEndpointsExact | internal/ingress/controller/controller.go:108-158 | each socket is in the endpoints of a service port once if the store serves it to that port, and otherwise not at all |
| Builder.AskingByNumberOrName | internal/ingress/controller/controller.go:143-145 | a path that gives the number or the name of the service's only port has exactly what is offered to that port |
| Builder.CreateUpstreams | internal/ingress/controller/controller.go:162-189 | the nested loops compute the upstream map in which later rules overwrite |
| Builder.CreateServers | internal/ingress/controller/controller.go:193-215 | the nested loops compute the server map in which first rules win |
| Builder.GetConfiguration | internal/ingress/controller/controller.go:88-105 | one entry per server in some order, nil when there is none |
| Builder.ServerOfHost | internal/ingress/controller/controller.go:162-215 | unconditionally: the hosts served are the named non-empty ones, each by the last rule with its first rule's upstream name |
| Routing.ConfigurationExact | internal/ingress/controller/controller.go:88-215 | a host is listed if and only if it is not empty and has a rule; its backend has the upstream name of its first rule, and the service and exactly the served sockets of the first path of the last rule with that name |
| Routing.LookupExact | internal/ingress/handler/http/handler.go:202-217 | a lookup answers nil exactly for a host that is empty or has no rule, and otherwise those sockets |
| Routing.LaterPathsDoNotShow | internal/ingress/controller/controller.go:166-168 | paths behind the first of their rule change nothing |
| Builder.SpecHoldsExactlyWhenUnambiguous | internal/ingress/controller/controller.go:162-215 | for rules of namespaced ingresses: in every cluster store each host has the endpoints of its first rule's service, if and only if the rules are unambiguous |
| Builder.AmbiguityShows | internal/ingress/controller/controller.go:162-215 | each ambiguous host has a cluster store in which its service has endpoints and the host gets none |
| Builder.ConfigurationMeetsSpec | internal/ingress/controller/controller.go:88-215 | each named host appears exactly once, and with unambiguous rules routes to its first rule's service |
| Builder.UpstreamInjective | internal/ingress/controller/util.go:34-36 | upstream names without dashes in namespace and port are injective |
| Builder.NoDashesUnambiguous | internal/ingress/controller/util.go:34-36 | so such rules are unambiguous |
| Builder.UpstreamsCollide | internal/ingress/controller/util.go:34-36 | two targets in two namespaces with one upstream name, and a cluster store in which the first host loses its endpoints |
| Builder.IterationOrderDoesNotShow | internal/ingress/controller/controller.go:94-103 | any two map iteration orders give equal configurations |
| Builder.OrderIndependence | internal/ingress/controller/controller.go:66-72 | with distinct creation times no listing or iteration order shows, so an unchanged store causes no reload |
| Ties.EqualIffServersEqual | internal/ingress/controller/config/config_equals.go:21-52 | generated configurations are equal if and only if they have the same hosts with equal backends |
| Ties.Decided | internal/ingress/controller/controller.go:162-215 | in any listing order a host is routed by an earliest ingress that names it, to the backend of a latest one that uses the upstream name |
| Ties.CanComeFirst | internal/ingress/controller/store/store.go:445-450 | each of the earliest ingresses is the one that decides, in some listing order |
| Ties.CanComeLast | internal/ingress/controller/store/store.go:445-450 | each of the latest ingresses is the one whose backend is used, in some listing order |
| Ties.NeverReloadsIffTiesAreHarmless | internal/ingress/controller/controller.go:66-72 | no two configurations of an unchanged store differ, if and only if tied ingresses agree on each host's upstream name and its backend |
| Ties.DistinctTimesAreHarmless | internal/ingress/controller/store/store.go:445-450 | distinct creation times meet that condition |
| Ties.TiesCanReload | internal/ingress/controller/store/store.go:445-450 | a store of two ingresses of one moment that does not |
| Builder.TotalLookup | internal/ingress/handler/http/handler.go:71-103 | no nil is met; nil endpoints exactly for unnamed hosts; otherwise the endpoints of the routing rule |
| Store.NormalizedCopy | internal/ingress/controller/store/store.go:371-386 | the deep copy has every empty path rewritten in place, and the cached original is unchanged |
| Store.K8sStore.SyncIngress | internal/ingress/controller/store/store.go:367-395 | the derived store gets the normalized copy, made in memory of its own; the cached original is unchanged |
| Store.NormalizedChangesOnlyEmptyPaths | internal/ingress/controller/store/store.go:376-386 | in the copy every empty path is "/", nothing else differs, and copying again changes nothing |
| Store.IsValid | internal/ingress/annotations/class/main.go:42-60 | an ingress that names a class belongs to exactly that setting, one that names none to "wls" and to the empty setting |
| Store.ClassesAreDisjoint | internal/ingress/annotations/class/main.go:42-60 | two class settings accept the same ingress if and only if it names no class and they are the default and the empty one |
| Store.K8sStore.OnAdd | internal/ingress/controller/store/store.go:258-273 | an ingress of the class is stored, normalized, and its event pushed; any other is ignored; the rules of the cached object are as they were |
| Store.K8sStore.OnUpdate | internal/ingress/controller/store/store.go:275-301 | the same after an update, class changes included |
| Store.K8sStore.OnDelete | internal/ingress/controller/store/store.go:227-255 | the same after a delete or a tombstone |
| Store.HandleKeepsAgreementIff | internal/ingress/controller/store/store.go:227-302 | a notification keeps the derived store in agreement with the cache if and only if it is not a lost delete: one of a class-valid ingress that carries no class-valid ingress which the handler recognises |
| Store.HandleIsExact | internal/ingress/controller/store/store.go:227-302 | any notification: the store stays the class-valid part of the cache plus what lost deletes have left |
| Store.DerivedIndexIsExact | internal/ingress/controller/store/store.go:227-302 | the same after any sequence of notifications, deletes with stale, extensions-API or missing objects included |
| Store.DerivedIndexAgreement | internal/ingress/controller/store/store.go:227-302 | from the empty store, after any notifications: it holds exactly the class-valid ingresses, normalized, if and only if no lost delete is left, and so whenever none was among them |
| Store.DeletesAreLost | internal/ingress/controller/store/store.go:227-246 | tombstones with an extensions-API ingress, with an older state in another class and with nothing are legal, push no event, and leave the ingress stored although the cache has dropped it |
| Store.SilentMeansUnchanged | internal/ingress/controller/store/store.go:258-300 | no event pushed, nothing changed |
| Store.PushesIffSeenChanges | internal/ingress/controller/store/store.go:227-302 | an event is pushed if and only if an ingress of the class comes, goes, or is replaced by a different object |
| Store.ListIngresses | internal/ingress/controller/store/store.go:432-453 | what the cache lists, sorted by creation time, with every group of ties in the order of the cache |
| Sorting.SliceStableIsTheStableOrder | internal/ingress/controller/store/store.go:445-450 | for a strict weak order, the result is the only list that is sorted and has every group of ties in its old order |
| Store.ListOrderHiddenIffDistinctTimes | internal/ingress/controller/store/store.go:445-450 | the cache's listing order is hidden if and only if creation times are distinct |
| TaskQueue.Queue.Enqueue | internal/task/queue.go:73-94 | the element and its timestamp, a day ahead when not skippable |
| TaskQueue.Queue.Take | internal/task/queue.go:108-123 | skips exactly the elements older than the last sync, else begins a sync |
| TaskQueue.Queue.Finish | internal/task/queue.go:126-137 | success remembers when the sync began, failure requeues with a fresh timestamp |
| TaskQueue.Queue.Drain | internal/task/queue.go:106-139 | with successful syncs, elements stamped before the loop cost one sync, that of the first one the last sync does not cover, or none; the queue is empty afterwards |
| TaskQueue.Queue.Work | internal/task/queue.go:106-139 | the worker's loop with anything done by others before each Get and during each sync, failing syncs included, computes AfterPasses |
| TaskQueue.PassesAreRuns | internal/task/queue.go:106-139 | what the loop and the others do together is a run, so SkipSoundness, SkippedOnlyWhenCovered, SyncsAreCaused and Coalescing hold of it |
| TaskQueue.SkipSoundness | internal/task/queue.go:73-139 | over every run, an enqueued key waits, is in a sync that began no earlier, or a successful sync began no earlier |
| TaskQueue.SkippedOnlyWhenCovered | internal/task/queue.go:79-123 | over every run, each request waits, or a sync of its key has begun since it was made, or a successful sync began after it: by more than 24 hours if it is not skippable |
| TaskQueue.SyncsAreCaused | internal/task/queue.go:118-136 | over every run, a sync begins only for a request or a failed sync of the key that no successful sync has covered, requests that are not skippable being covered a day later |
| TaskQueue.Coalescing | internal/task/queue.go:118-123 | in every run, requests that a successful sync has covered, however many, start no sync in any continuation without a new request or a failure for the key |
| Pipeline.StepKeepsInv | internal/ingress/controller/controller.go:59-85 | every step keeps: the table is right, or a sync reads the current store, or one is owed |
| Pipeline.SilentEndpointsChange | internal/ingress/controller/store/store.go:317-326 | an endpoints update that pushes no event cannot change what is built |
| Pipeline.Convergence | internal/ingress/controller/wls.go:211-288 | in every reachable quiescent state the handler's configuration is equal to what the store generates; the store is the class-valid part of the cache plus what lost deletes have left, and without such deletes exactly that part |
| Pipeline.RoutingConverges | internal/ingress/handler/http/handler.go:202-217 | in every reachable quiescent state each host is unknown exactly when no ingress of the class names it, and otherwise has exactly the sockets that the store serves for the first path of its routing rule |
| Pipeline.ConvergenceIsStable | internal/ingress/controller/controller.go:66-72 | there, no next sync can reload, if and only if ties are harmless; distinct creation times suffice |
| Pipeline.MeasureFalls | internal/ingress/controller/wls.go:211-231 | every internal step lowers a measure of the pending work |
| Pipeline.Progress | internal/task/queue.go:106-139 | until it is quiescent, the pipeline can take an internal step |
| Pipeline.Drains | internal/ingress/controller/wls.go:211-231 | a run of internal steps is no longer than the measure, and where it can go no further the table is right |
| RedisKeys.SharedKeyIff | internal/redis/redis.go:176-191 | two ids share a key if and only if they are the same or one is the other with the namespace in front |
| RedisKeys.FreeIdsHaveOwnKeys | internal/redis/redis.go:176-191 | distinct ids free of the namespace have distinct keys inside it |
| RedisKeys.RenamespacingIsIdentity | internal/redis/redis.go:126-147 | scanned keys are not changed by namespacing them again |
| RedisKeys.NamespacedKeyIdempotent | internal/redis/redis.go:176-184 | namespacing twice is namespacing once |
| RedisKeys.ExtractsTheId | internal/ingress/handler/http/handler.go:142-144 | from a header carrying JSESSIONID=v the id extracted is v |
| RedisKeys.NoIdIffNoMarker | internal/ingress/handler/http/handler.go:134-149 | no id is extracted if and only if the header has no session marker |
| RedisKeys.BindingRoundTrip | internal/ingress/handler/http/handler.go:134-154 | a cookie value is extracted as it is, stored under its own key, and found again if and only if it is not quoted |
| Redis.Manager.AddCookie | internal/redis/redis.go:97-104 | the entry written, for an hour |
| Redis.Manager.GetEndpoint | internal/redis/redis.go:150-168 | the endpoint of a live session, the empty text otherwise, and the hour renewed on request |
| Redis.Manager.GetAllEntries | internal/redis/redis.go:126-147 | exactly the live in-namespace entries that can be read, in any scan order |
| Redis.Manager.Clean | internal/redis/redis.go:52-74 | removes exactly the live in-namespace entries with an unlisted endpoint whose commands succeed |
| Handler.WLSHandler.GetHost | internal/ingress/handler/http/handler.go:193-200 | the host without its port |
| Handler.WLSHandler.GetEndpoints | internal/ingress/handler/http/handler.go:202-217 | the loop finds the routed endpoints |
| Handler.WLSHandler.HandleRootWLS | internal/ingress/handler/http/handler.go:61-183 | which requests get which error and which are forwarded; to which URL: that of the known proxy, or else the chosen endpoint's address and port, or the session's address at 7001; which session is bound, and that no other proxy changes |
| Handler.WithProxyMatches | internal/ingress/handler/http/handler.go:115-180 | adding a proxy keeps every proxy leading to the host that is its key |
| Sessions.StepKeepsInv | internal/ingress/handler/http/handler.go:105-181 | every step of every controller keeps entries, pending bindings, requests and cleaners consistent with the bound addresses |
| Sessions.StickySafety | internal/ingress/handler/http/handler.go:105-181 | over every run, every request that looked up a bound session went to the bound host or was refused; the bound host is the one that served the request for which the session was issued |
| Sessions.SessionsReturnToTheirServer | internal/ingress/handler/http/handler.go:114-181 | over every run: a session issued for a request is never bound to another address than that of the endpoint chosen for the request, and every request that carries it goes there or is refused |
| Sessions.ServedByTheChosen | internal/ingress/handler/http/handler.go:114-131 | a request without a session is forwarded to the host of the endpoint chosen for it, whatever proxies there are |
| Sessions.OnlyUnlistedSessionsAreCleaned | internal/redis/redis.go:52-74 | in any interleaving a live session ends only after its hour, or by a clean whose list lacks its address |
| Sessions.PublishedIsSafe | internal/redis/redis.go:52-74 | once published, a session lives and no running clean can delete it, whatever list it has |
| Sessions.RefreshRenews | internal/redis/redis.go:161-166 | a lookup's refresh gives a live session an hour from then |
| Sessions.UndisturbedClean | internal/redis/redis.go:52-74 | the steps of a clean that nobody interferes with, in any order of reads and deletes, remove exactly the stale entries, as Redis.Manager.Clean does |
| Sessions.SessionStays | internal/redis/redis.go:150-168 | every attentive run keeps the session and brings all its requests to its address |
| Sessions.SendGoesToItsAddress | internal/ingress/handler/http/handler.go:166-181 | a request that found its session goes to that address, or is refused only when a URL does not parse |
| Sessions.PendingCanBeSent | internal/ingress/handler/http/handler.go:154-181 | a request on its way is never stuck, and ends at its address |
| Sessions.StickyPersistence | internal/redis/redis.go:97-168 | from publication on, in every run with hourly use and the address on every list: the session lives, and each request with it was sent to its address or is on the way, at every controller and in every interleaving |
| Persistence.AddressesAreRouted | internal/ingress/controller/wls.go:278-286 | an address is one of the configuration if and only if the handler routes some host to it |
| Persistence.RoutableIsListed | internal/ingress/status/status.go:96-114 | the list of OnUpdate holds exactly the routable addresses; the list of a periodic clean holds all of them when routed external names are active addresses |
| Persistence.RoutableSessionsPersist | internal/redis/redis.go:97-168 | from publication on, in every run with hourly use in which every clean takes its list from the code and the address is routable there: the session lives, and each request with it was sent to its address or is on the way |
| Status.SortedEqualIffSameMultiset | internal/ingress/status/status.go:284-360 | sorting and comparing pointwise decides equality as multisets |
| Status.SortingAgreesWithMatching | internal/ingress/status/status.go:333-360 | and answers as the greedy matching under field equality |
| Status.IngressSliceEqual | internal/ingress/status/status.go:345-360 | the loop decides equality of the lists |
| Status.UpdateStatus | internal/ingress/status/status.go:284-306 | exactly the ingresses whose published addresses differ as multisets are queued, in order; all lists are left sorted with their contents unchanged |
| Status.GetActiveEndpoints | internal/ingress/status/status.go:261-281 | every address behind every rule and no other, or an error when a service has no endpoints object |
| Status.RoutableAddressesAreListedIff | internal/ingress/status/status.go:261-281 | on one snapshot every routable address is listed, if and only if every external name that a host is routed to is an active address too |
| Status.PeriodicCleaningKeepsRoutableSessionsIff | internal/ingress/status/status.go:102-113 | periodic cleaning removes no session bound to a routable address, under exactly the same condition |
| Status.NoExternalNamesNeeded | internal/ingress/status/status.go:261-281 | rules without ExternalName services meet it |
| Status.ExternalNamesAreNotListed | internal/ingress/status/status.go:261-281 | a store with an ExternalName service that is routable, not listed, and whose session is removed |
| Controller.WLSController.OnUpdate | internal/ingress/controller/wls.go:273-288 | installs the configuration; a leader keeps the sessions of routable addresses, and without faults no other in its namespace |
| Controller.WLSController.SyncIngress | internal/ingress/controller/controller.go:59-85 | afterwards the handler's configuration is equal to the generated one; it was replaced exactly when it was not |
| Controller.Addresses | internal/ingress/controller/wls.go:279-284 | the list holds exactly the addresses of the configuration |

## Left out

- The proxying of bytes and URL parsing (an oracle says whether it succeeds): forwarding is "chosen address".
- Leader election, informers, the client-go work queue, rate limiting and the ring channel are modelled by
  their contracts only.
- DNS lookups of ExternalName services: a set of resolvable names stands for them.
- Redis sentinel failover and retries: a command may fail, and that is all.
- Kubernetes API calls of the status syncer, its worker pool, and sliceToStatus, whose pre-sort updateStatus
  sorts again.
- RemoveEndpoint and removeProxy: nothing calls them.
- Annotation extraction, flags, metrics, health checks, shutdown: easy or foreign.
- The address comparison with which each Equal begins: the values are compared instead, and the proofs of
  reflexivity show that the shortcut never changes an answer.
- TaskQueue.Queue.Drain: runs the worker's endless loop until the queue is empty, while nothing is added and no
  sync fails; the loop with everything interleaved is TaskQueue.Queue.Work, to which TaskQueue.Coalescing applies.
- Pipeline.Convergence: services and DNS are fixed in a run, because their changes trigger no sync.
- Sessions.StickyPersistence: a request for a host without endpoints is answered before its session is looked up.
- Sessions.StickySafety: about hosts, and not about class lookups; the port is that of the first proxy made for
  the address, and that the address belongs to the requested host is not enforced by the code.

# Conrogate in Dafny

A model of the parts of the Conrogate API gateway whose behaviour is more than plumbing, with
proofs about every input, every run or every interleaving.

- **Configuration** (`Config*.dfy`, `VersionLog.dfy`): the five-phase rollback over four tables, the
  snapshot a publish takes, and the version log as a state machine of racing publishers and rollbacks.
- **Load balancing** (`Signatures.dfy`, `SmoothWeights.dfy`, `WeightTable.dfy`,
  `WeightedRoundRobin.dfy`, `FairSelect.dfy`, `ListOrder.dfy`, `SharedVectors.dfy`, `HashRing.dfy`,
  `ConsistentHash.dfy`, `CacheRace.dfy`, `RingCache.dfy`, `RingOrder.dfy`): smooth weighted round robin, and the hash ring with its cache.
- **Overload control** (`RetryBudget.dfy`, `RetryRace.dfy`, `HttpRetry.dfy`, `AdaptiveLimit.dfy`,
  `AdaptiveRace.dfy`, `Breaker.dfy`, `RateCalls.dfy`, `SlidingWindow.dfy`, `FixedWindow.dfy`,
  `FixedWindowRuns.dfy`, `TokenBucket.dfy`): budget, concurrency limit, circuit breaker and local rate limiters, both as
  the code runs them and, for the lock-free ones, as threads interleaved one atomic operation at a time.
- **TLS** (`ClientHello.dfy`): the server-name parser, against an encoder of section 4.1.2 of RFC 8446
  and section 3 of RFC 6066.
- **Fast forms** (`LatencyHistogram.dfy`, `HostMatch.dfy`, `RouteMatch.dfy`, `RouteTable.dfy`):
  the latency histogram against exact quantiles, and the route table against a best match.
- **Shared** (`Common.dfy`, `Division.dfy`, `Filtering.dfy`, `Sorting.dfy`): results, elapsed time, integer
  division, filtering and a stable sort.

`dafny verify dfyconfig.toml` checks the whole project.

Time, the hash functions, the regular-expression engine, UTF-8 validity, the upstream's answers and
health are parameters. Floating-point numbers are real numbers, counters are unbounded except where
32-bit range is the subject, and a database transaction is all or nothing.

## Where the code differs from what one might expect

- Rolling back to a snapshot whose upstream no longer exists creates the upstream without its nodes;
  `ConfigRoundTrip.NodesComeBackIff` is the exact condition.
- An enabled route may point at an upstream that is no longer live; after a rollback it points at none,
  and only then do enabled routes, upstreams or enabled bindings differ from what was published
  (`ConfigRoundTrip.RollbackRoundTripIff`).
- A rollback restores the tables before it records its version, so it can end with the one and without
  the other (`VersionLog.HalfDoneIff`).
- A publish captures only enabled bindings, so a rollback removes disabled ones on the snapshot's routes;
  `ConfigRoundTrip.LiveBindingsIff` is the exact condition for the live bindings to come back.
- `|` in a node address can make two node lists share a signature (`Signatures.BarCollides`,
  `SharedVectors.BarredVectorTooShort`).
- A reordered list shares its signature but not its positions. Weighted selection is fair in any order
  only for lists of equal nodes (`ListOrder.FairInAnyOrderIff`), and cached rings are right only if no list
  comes in two orders (`RingOrder.CachedIsFreshIff`); the queries behind the lists have no ORDER BY.
- The weighted balancer is documented to keep separate state per upstream; upstreams with the same
  addresses and weights share it (`SharedVectors.LeavesAloneIff`).
- Removing a node can move keys between nodes that stay, exactly when it changes their numbers of points
  (`ConsistentHash.OnlyItsKeysMoveIff`).
- A decrease ratio above one can take the limit over its maximum (`AdaptiveLimit.RangeKeptIff`).
- A closed breaker can be at or above its failure threshold, because a success is not checked against it
  (`Breaker.ClosedBelowIff`).
- A full sliding- or fixed-window table is swept by the caller's window, not the entry's; a key with a
  longer window can be forgotten. `SweepHarmlessIff` in each module says when a sweep is harmless, and
  `SlidingWindow.ForgettingBreaksBound`, `FixedWindow.ForgettingChangesDecision` and
  `FixedWindowRuns.BoundIff` that it matters.
- A refilled token bucket lets one request through uncharged, so limit + rate*t is not a bound
  (`TokenBucket.PlainBoundIff`).
- With `min_requests` 0 and no requests yet, the retry ratio is not a number and the retry is granted
  (`RetryBudget.WarmGrant`).
- With `half_open_max` 0 a half-open breaker refuses everyone (`Breaker.HalfOpenAdmits`).
- The histogram documents a conservative estimate; from 2^26 ms on it is an underestimate
  (`LatencyHistogram.ConservativeIff`).

## Model

| member | source | states |
|---|---|---|
| `ConfigRollback.ApplySnapshot` | crates/conrogate-storage/src/repository/config_version_repo.rs:191-483 | fails exactly when a binding names a route the snapshot does not hold; otherwise, from a consistent database and an applicable snapshot, the result holds exactly the snapshot (`Restored`), every other row has the fate `AllAccounted` states, and the database is consistent again |
| `ConfigRollback.ApplyRestores` | crates/conrogate-storage/src/repository/config_version_repo.rs:191-483 | the five phases together restore the snapshot: enabled routes, upstreams, nodes, bindings, up to renaming of ids |
| `ConfigRollback.AllAccounted` | crates/conrogate-storage/src/repository/config_version_repo.rs:191-483 | what becomes of every row: dead rows stay; a live upstream, route or binding takes the snapshot's values or goes, except that an unnamed disabled route stays with its bindings; old nodes of live upstreams go; new rows hold snapshot values |
| `ConfigRollback.RoutesComeBack` | crates/conrogate-storage/src/repository/config_version_repo.rs:304-389 | after the run the enabled live routes are the snapshot's, field for field by name, each pointing at a live upstream with the snapshot's upstream name, or at none if the snapshot lacks that upstream |
| `ConfigRollback.UpstreamsComeBack` | crates/conrogate-storage/src/repository/config_version_repo.rs:198-302 | the live upstreams are exactly those the snapshot names |
| `ConfigRollback.NodesComeBack` | crates/conrogate-storage/src/repository/config_version_repo.rs:198-269 | nodes match the snapshot for every upstream that was live before; an upstream that had to be created has no nodes |
| `ConfigRollback.BindingsComeBack` | crates/conrogate-storage/src/repository/config_version_repo.rs:391-477 | the live bindings on the snapshot's routes are exactly the snapshot's |
| `ConfigRollback.DisabledStay` | crates/conrogate-storage/src/repository/config_version_repo.rs:365-389 | disabled routes the snapshot does not name are left as they are; `AllAccounted` says the same of their bindings |
| `ConfigRollback.StaysConsistent` | crates/conrogate-storage/src/repository/config_version_repo.rs:191-483 | names stay unique among live rows and no row is left without its parent |
| `ConfigUpstreams.ReplaceNodes` | crates/conrogate-storage/src/repository/config_version_repo.rs:219-243 | the upstream's live nodes become the given list in order; other upstreams keep theirs |
| `ConfigUpstreams.UpsertUpstreams` | crates/conrogate-storage/src/repository/config_version_repo.rs:198-269 | phase 1: every snapshot upstream is placed under its name, with the map from snapshot ids to row ids; other rows untouched |
| `ConfigUpstreams.PruneUpstreams` | crates/conrogate-storage/src/repository/config_version_repo.rs:271-302 | phase 2: live upstreams without a name in the snapshot are soft-deleted with their nodes, and nothing else changes |
| `ConfigUpstreams.LiveIsPlaced` | crates/conrogate-storage/src/repository/config_version_repo.rs:198-302 | an upstream live after phase 2 is one that phase 1 placed |
| `ConfigUpstreams.NamesStayUnique` | crates/conrogate-storage/src/repository/config_version_repo.rs:198-302 | phases 1 and 2 keep live upstream names unique |
| `ConfigRoutes.UpsertRoutes` | crates/conrogate-storage/src/repository/config_version_repo.rs:304-363 | phase 3: every snapshot route is placed under its name with its upstream id renamed; other rows untouched |
| `ConfigRoutes.PruneRoutes` | crates/conrogate-storage/src/repository/config_version_repo.rs:365-389 | phase 4: enabled live routes without a name in the snapshot are soft-deleted, and their ids returned |
| `ConfigRoutes.IdsInjective` | crates/conrogate-storage/src/repository/config_version_repo.rs:304-363 | distinct snapshot routes get distinct row ids |
| `ConfigRoutes.LiveIsNamed` | crates/conrogate-storage/src/repository/config_version_repo.rs:365-389 | an enabled route live after phase 4 has a name in the snapshot |
| `ConfigBindings.DropUnlisted` | crates/conrogate-storage/src/repository/config_version_repo.rs:391-404 | phases 5a and 5c: exactly the bindings on the given routes that are not listed are soft-deleted |
| `ConfigBindings.UpsertBindings` | crates/conrogate-storage/src/repository/config_version_repo.rs:406-453 | phase 5b: fails exactly on an unknown route; otherwise every snapshot binding is placed on its renamed route |
| `ConfigBindings.LiveIsListed` | crates/conrogate-storage/src/repository/config_version_repo.rs:455-477 | a binding live on a snapshot route after phase 5c is one the snapshot lists |
| `ConfigRoundTrip.CapturedIsApplicable` | crates/conrogate-server/src/service.rs:314-328 | the snapshot taken when publishing can always be applied |
| `ConfigRoundTrip.CapturedIsSelfContainedIff` | crates/conrogate-server/src/service.rs:314-328 | it holds every upstream its routes point at if and only if no enabled route pointed at a dead one |
| `ConfigRoundTrip.RollbackRoundTripIff` | crates/conrogate-server/src/service.rs:364-381 | publish, then any changes, then roll back: the enabled routes, the upstreams and the enabled bindings read by name are the published ones if and only if no enabled route pointed at a dead upstream |
| `ConfigRoundTrip.LiveBindingsIff` | crates/conrogate-server/src/service.rs:314-328 | the live bindings of enabled routes, with their enabled flag, come back if and only if none of them was disabled when published |
| `ConfigRoundTrip.DanglingLosesUpstream` | crates/conrogate-storage/src/repository/config_version_repo.rs:304-363 | a route that did comes back pointing at none |
| `ConfigCapture.Capture` | crates/conrogate-server/src/service.rs:314-328 | the snapshot publishing builds captures exactly the live configuration of any consistent database |
| `ConfigRoundTrip.RollbackRoundTrip` | crates/conrogate-server/src/service.rs:364-381 | publish, then any changes, then roll back: routes, upstreams and enabled bindings read by name are those that were published |
| `ConfigRoundTrip.NodesComeBackIff` | crates/conrogate-storage/src/repository/config_version_repo.rs:246-266 | the published nodes of an upstream, in whatever order the query gave them, come back if and only if the upstream was still live before the rollback, or it had none |
| `VersionLog.RunKeepsInv` | crates/conrogate-storage/src/repository/config_version_repo.rs:29-69 | in every interleaving of publishers and rollbacks the log is 1..n, each row based on its predecessor, hashes match contents, rollbacks copy earlier rows |
| `VersionLog.AtMostOnePublishPerBase` | crates/conrogate-storage/src/migration/m20260101_000005_config_versions.rs:97-106 | of two publishes from the same base at most one succeeds |
| `VersionLog.InsertSucceedsIff` | crates/conrogate-storage/src/repository/config_version_repo.rs:132-169 | an insert goes through exactly when nobody has appended since the latest version was read |
| `VersionLog.LogOnlyGrows` | crates/conrogate-storage/src/repository/config_version_repo.rs:36-69 | a row, once in the log, stays there unchanged |
| `VersionLog.ContentWasPublished` | crates/conrogate-storage/src/repository/config_version_repo.rs:132-169 | whatever a version holds was published at that version or an earlier one |
| `VersionLog.RollbackOutcome` | crates/conrogate-server/src/service.rs:370-381 | in every interleaving a finished rollback either found no target and left the tables alone, or restored them from the target, row or no row |
| `VersionLog.HalfDoneIff` | crates/conrogate-server/src/service.rs:377-381 | a rollback ends with the tables restored and no row if and only if somebody inserted a row between its read of the latest version and its insert |
| `VersionLog.PublisherSlipsIn` | crates/conrogate-storage/src/repository/config_version_repo.rs:132-169 | that can happen to every rollback: one publish in between is enough |
| `VersionLog.AloneRollsBack` | crates/conrogate-server/src/service.rs:364-381 | from every reachable state a rollback that nobody disturbs restores the tables and appends a copy of its target |
| `ConfigService.Service.LatestVersion` | crates/conrogate-storage/src/repository/config_version_repo.rs:122-130 | the largest version, 0 for an empty log |
| `ConfigService.Service.Publish` | crates/conrogate-storage/src/repository/config_version_repo.rs:29-69 | succeeds exactly when the base is the latest version, appends one row, keeps log and tables valid, and every version restorable if the snapshot is applicable |
| `ConfigService.Service.PublishCurrent` | crates/conrogate-server/src/service.rs:307-333 | publishing appends a version whose snapshot captures the tables and can be applied, so every version stays restorable |
| `ConfigService.Service.RollbackConfig` | crates/conrogate-server/src/service.rs:364-381 | one caller at a time: restores the tables and appends a copy of the target row, or changes nothing; with all versions restorable it succeeds exactly for a target in the log and keeps everything valid; a target published from some tables gives their configuration back exactly when no enabled route dangled, and their live bindings exactly when none was disabled; `VersionLog.HalfDoneIff` has the racing case |
| `Signatures.SignatureIff` | crates/conrogate-balancer/src/weighted.rs:35-42 | equal signatures exactly when the parts are equal up to order, for separator-free parts |
| `Signatures.BarCollides` | crates/conrogate-balancer/src/weighted.rs:35-42 | a part made of x, the separator and y passes for the two parts x and y, whatever they are, in sorted order |
| `Signatures.DecimalReads` | crates/conrogate-balancer/src/weighted.rs:38 | the decimal text of a number denotes that number and has no leading zero |
| `SmoothWeights.PaidBalanced` | crates/conrogate-balancer/src/weighted.rs:80-91 | a selection keeps the vector summing to zero with every entry above minus the total |
| `SmoothWeights.BalancedUpper` | crates/conrogate-balancer/src/weighted.rs:80-91 | then every entry is at most (n-1)(T-1) |
| `SmoothWeights.NoOverflow` | crates/conrogate-balancer/src/weighted.rs:78-91 | no intermediate value leaves 32 bits when n*T fits |
| `SmoothWeights.NeverAhead` | crates/conrogate-balancer/src/weighted.rs:63-93 | from fresh, after k selections node i has been picked c times with T*c < k*w_i + T |
| `SmoothWeights.NeverBehind` | crates/conrogate-balancer/src/weighted.rs:63-93 | and k*w_i <= T*c + (n-1)(T-1): no node falls further behind |
| `SmoothWeights.Periodic` | crates/conrogate-balancer/src/weighted.rs:63-93 | the vector returns to the same state after T selections, from any reached state |
| `SmoothWeights.ExactlyFair` | crates/conrogate-balancer/src/weighted.rs:63-93 | any T selections in a row pick node i exactly w_i times |
| `WeightTable.NextTableOk` | crates/conrogate-balancer/src/weighted.rs:66-72 | every vector in the table stays balanced for its signature and the table within MAX_STATES |
| `WeightTable.HistoryIsRun` | crates/conrogate-balancer/src/weighted.rs:63-93 | interleaved calls under other signatures do not disturb a list's own run; `SharedVectors.LeavesAloneIff` says which lists have another signature |
| `WeightTable.HistorySince` | crates/conrogate-balancer/src/weighted.rs:66-72 | a history is a history again from each clearing of the table on |
| `WeightTable.FairInService` | crates/conrogate-balancer/src/weighted.rs:63-93 | exact fairness of one list in a history of interleaved calls, from the beginning or the last clearing on, while the list keeps its order |
| `WeightTable.FewKeysNeverClear` | crates/conrogate-balancer/src/weighted.rs:66-69 | a history of at most MAX_STATES different signatures never clears the table |
| `WeightedRoundRobin.SameSignature` | crates/conrogate-balancer/src/weighted.rs:35-42 | lists share a signature exactly when they have the same (address, weight) pairs, and then the same length and total |
| `WeightedRoundRobin.Balancer.Select` | crates/conrogate-balancer/src/weighted.rs:50-94 | fails exactly when no node is enabled with a weight; otherwise returns such a node of the list, the last greatest entry, and advances that list's vector alone |
| `WeightedRoundRobin.EligibleIsKept` | crates/conrogate-balancer/src/weighted.rs:55-56 | the nodes to choose from are the enabled ones with a weight, each position once and in order |
| `Filtering.KeptUnique` | crates/conrogate-balancer/src/weighted.rs:55-56 | there is only one list that holds each accepted position once and in order |
| `WeightedRoundRobin.LastGreatest` | crates/conrogate-balancer/src/weighted.rs:84-89 | the last index of the greatest entry |
| `WeightedRoundRobin.Advance` | crates/conrogate-balancer/src/weighted.rs:78-91 | one selection in place is the step the fairness theorems are about |
| `WeightedRoundRobin.ServiceKeepsTableOk` | crates/conrogate-balancer/src/weighted.rs:63-91 | over any sequence of calls, permuted lists included, every vector stays balanced and the table bounded |
| `WeightedRoundRobin.ServiceNeverOverflows` | crates/conrogate-balancer/src/weighted.rs:63-91 | over any sequence of calls the index is in range and nothing overflows when n*T <= i32::MAX |
| `WeightedRoundRobin.FairService` | crates/conrogate-balancer/src/weighted.rs:50-94 | over any sequence of calls, from the beginning or the last clearing on, any T consecutive selections of a list that keeps its order pick each node by its weight |
| `FairSelect.FairSelect` | crates/conrogate-balancer/src/weighted.rs:50-94 | as callers see it: on a balancer asked about at most MAX_STATES different lists, among any T consecutive answers for a list that keeps its order each node is given out exactly by its weight in the list as passed, disabled and weightless nodes never |
| `SharedVectors.LeavesAloneIff` | crates/conrogate-balancer/src/weighted.rs:3-42 | serving one upstream leaves another's weight state alone if and only if their (address, weight) pairs differ as multisets, or there is one node |
| `SharedVectors.SharedVectorStarves` | crates/conrogate-balancer/src/weighted.rs:3-42 | two upstreams with the same two addresses of equal weight, called in turn, each get one node only |
| `SharedVectors.BarredNode` | crates/conrogate-balancer/src/weighted.rs:35-42 | a node whose address holds another part and the separator shares its signature with two nodes |
| `SharedVectors.BarredVectorTooShort` | crates/conrogate-balancer/src/weighted.rs:72-82 | those two nodes then meet a vector of one entry, and the update of the second is out of range |
| `ListOrder.FairInAnyOrderIff` | crates/conrogate-balancer/src/weighted.rs:35-93 | a list is served by weight in whatever orders it arrives if and only if its nodes are all the same |
| `ListOrder.HeaviestTakesAll` | crates/conrogate-balancer/src/weighted.rs:35-93 | for every list there are orders in which every request, for any number of them, goes to its heaviest node |
| `ListOrder.AlternatingStarves` | crates/conrogate-balancer/src/weighted.rs:35-93 | plain alternation is enough: two nodes of weights 2 and 1 listed in alternating order share one signature and one vector, and the lighter one is never served |
| `ConsistentHash.BuildRing` | crates/conrogate-balancer/src/consistent_hash.rs:54-66 | the ring holds exactly the nodes' points, a point claimed twice under the later node; non-empty for a non-empty list |
| `ConsistentHash.PointsFollowWeight` | crates/conrogate-balancer/src/consistent_hash.rs:56-59 | a node has its share of the points by weight, rounded down but at least one: both bounds, monotone in weight, all of them for the heaviest |
| `ConsistentHash.NodeLeaves` | crates/conrogate-balancer/src/consistent_hash.rs:54-66 | removing a node (read backwards: adding one) that leaves the others' numbers of points alone moves no key between them, collisions and wrap-around included |
| `ConsistentHash.SameHeaviestKeepsCounts` | crates/conrogate-balancer/src/consistent_hash.rs:54-59 | a removal that leaves the greatest weight as it was changes no staying node's number of points |
| `ConsistentHash.HeaviestLeaves` | crates/conrogate-balancer/src/consistent_hash.rs:54-66 | if a staying node's number of points changes and another one stays, some hash moves a key between the two |
| `ConsistentHash.OnlyItsKeysMoveIff` | crates/conrogate-balancer/src/consistent_hash.rs:54-66 | under every hash only the removed node's keys move, if and only if every staying node keeps its number of points or at most one stays |
| `HashRing.Lookup` | crates/conrogate-balancer/src/consistent_hash.rs:130-140 | the first point at or after the hash, or the smallest point |
| `HashRing.MinimalDisruption` | crates/conrogate-balancer/src/consistent_hash.rs:130-140 | on any claims: without entry j, a key either belonged to j or stays |
| `HashRing.ChosenUnique` | crates/conrogate-balancer/src/consistent_hash.rs:130-140 | a key has one node, in range |
| `HashRing.ChosenExists` | crates/conrogate-balancer/src/consistent_hash.rs:130-140 | a key has a node as soon as there is a point |
| `CacheRace.EveryCallIsFresh` | crates/conrogate-balancer/src/consistent_hash.rs:99-125 | any number of threads racing through lookup, build and double-checked write each end with what building their own list gives |
| `CacheRace.AlwaysFreshIff` | crates/conrogate-balancer/src/consistent_hash.rs:99-125 | every finished call of every run from an empty cache is fresh if and only if the signature decides what is built |
| `RingCache.SignatureDecidesList` | crates/conrogate-balancer/src/consistent_hash.rs:44-51 | among order-preserving parts of one configured list, equal signatures mean equal lists |
| `RingCache.Healthy` | crates/conrogate-gateway/src/pool.rs:82-94 | what the pool passes on is an order-preserving part of the configured list: exactly the healthy enabled nodes, or all if there is none |
| `RingCache.LabelDecides` | crates/conrogate-balancer/src/consistent_hash.rs:44-51 | a label tells the id, the address and the weight |
| `RingCache.KeepIsSublist` | crates/conrogate-gateway/src/health.rs:114-126 | filtering keeps a part of the configured list order-preserving |
| `RingCache.PartOfConcat` | crates/conrogate-gateway/src/pool.rs:96-99 | one balancer serves all upstreams: a part of one upstream's list is an order-preserving part of all the lists put together |
| `RingCache.CachedIsFresh` | crates/conrogate-balancer/src/consistent_hash.rs:98-125 | from an empty cache, in every interleaving, every finished call has the ring of a fresh build |
| `RingOrder.CachedIsFreshIff` | crates/conrogate-balancer/src/consistent_hash.rs:44-125 | under every hash, in every run from an empty cache every call gets the ring of its own list, addresses and weights changing between lists included, if and only if no two lists have the same ids, addresses and weights in different orders |
| `RingOrder.SharesSignatureIff` | crates/conrogate-balancer/src/consistent_hash.rs:44-51 | lists share a signature exactly when they have the same ids, addresses and weights in some order |
| `RingOrder.RoutesAlikeIff` | crates/conrogate-balancer/src/consistent_hash.rs:54-66 | the ring of one order serves another under every hash if and only if the orders are the same |
| `RingOrder.ReorderedMisroutes` | crates/conrogate-balancer/src/consistent_hash.rs:130-140 | for any two orders of one list some hash sends a key to the wrong node |
| `RingOrder.ReorderedListMisroutes` | crates/conrogate-balancer/src/consistent_hash.rs:44-51 | for two nodes with disjoint points, under any hash, every key goes to the wrong node |
| `RingCache.Balancer.Select` | crates/conrogate-balancer/src/consistent_hash.rs:81-141 | fails exactly when no node is enabled; otherwise returns an enabled node of the list: without a key the first one, with a key the one a fresh ring chooses, whatever was cached |
| `RingCache.Balancer.RingFor` | crates/conrogate-balancer/src/consistent_hash.rs:97-128 | the ring used is that of the enabled nodes and not empty |
| `RetryBudget.WarmGrant` | crates/conrogate-traffic/src/retry_budget.rs:85-103 | in a warm window a retry is granted exactly when retries < ratio * total, or nothing has been counted yet |
| `RetryBudget.CountersAreTheTrace` | crates/conrogate-traffic/src/retry_budget.rs:63-124 | over any trace and any number of windows, total and retries are the forwards and the granted consumes since the last event that came a whole window after the beginning of the one before |
| `RetryBudget.GrantedIff` | crates/conrogate-traffic/src/retry_budget.rs:76-119 | a consume is granted exactly when, of the events before it in its window, fewer than min_requests are forwards, or the granted consumes are below their share, or there are none |
| `RetryBudget.Budget.RefreshWindow` | crates/conrogate-traffic/src/retry_budget.rs:63-71 | resets both counters exactly when the window has passed |
| `RetryBudget.Budget.TryConsume` | crates/conrogate-traffic/src/retry_budget.rs:76-119 | one thread's decision and new counters |
| `RetryBudget.Budget.RecordRequest` | crates/conrogate-traffic/src/retry_budget.rs:121-124 | one more request in the current window |
| `RetryRace.RetriesStayBounded` | crates/conrogate-traffic/src/retry_budget.rs:63-124 | for N threads in any interleaving, resets included: retries <= max(min_requests, 1) - 1 + N or retries < ratio*total + N, and retries are the granted calls plus the threads between their increments |
| `RetryRace.StepKeepsInv` | crates/conrogate-traffic/src/retry_budget.rs:76-124 | each atomic operation keeps the invariant behind that bound |
| `RetryRace.CountKeepsBound` | crates/conrogate-traffic/src/retry_budget.rs:85-117 | a successful compare-and-swap, or a cold increment on an old read, stays within the bound |
| `RetryRace.AloneIsOneCall` | crates/conrogate-traffic/src/retry_budget.rs:76-119 | a thread that meets nobody does what one sequential call does |
| `HttpRetry.Handle` | crates/conrogate-protocol/src/http.rs:347-417 | at most max_retries + 1 forwards, exactly one if not retryable; the result is the last forward's; every earlier one was a timeout, a failed connect or a status of 500 or more and was followed by a grant; stopping early has a reason; the counters are the budget's after these attempts |
| `HttpRetry.HandledIsServed` | crates/conrogate-protocol/src/http.rs:352-417 | inside one window a request adds its forwards to the total and all but one to the retries, a refused consume adding nothing |
| `HttpRetry.WindowLedger` | crates/conrogate-traffic/src/retry_budget.rs:76-124 | over a window, total = forwards = requests + retries, and the retries are affordable |
| `HttpRetry.LoadAmplification` | crates/conrogate-protocol/src/http.rs:352-417 | forwards are what the budget counted and exceed the requests by at most min_requests, or by r*req/(1-r) + 1 |
| `AdaptiveLimit.P99Index` | crates/conrogate-traffic/src/adaptive.rs:141 | in range, with fewer than one sample in a hundred ranked above it |
| `AdaptiveLimit.SlowIff` | crates/conrogate-traffic/src/adaptive.rs:135-148 | the 99th percentile is over the threshold exactly when one sample in a hundred, cut to whole milliseconds, is |
| `AdaptiveLimit.BadIff` | crates/conrogate-traffic/src/adaptive.rs:131-148 | a window is bad exactly when a request failed or one in a hundred was slow |
| `AdaptiveLimit.NextInRange` | crates/conrogate-traffic/src/adaptive.rs:144-171 | an adjustment keeps min <= limit <= max |
| `AdaptiveLimit.DecreaseIs` | crates/conrogate-traffic/src/adaptive.rs:148-150 | a bad window leaves the whole part of limit * ratio, or the minimum if that is more |
| `AdaptiveLimit.RangeKeptIff` | crates/conrogate-traffic/src/adaptive.rs:144-171 | adjustments keep every limit in range if and only if the greatest limit, decreased, is not above the maximum (`Bounded`) |
| `AdaptiveLimit.DocumentedRatio` | crates/conrogate-traffic/src/adaptive.rs:144-171 | a ratio of at most one is bounded, and then bad windows never raise the limit and healthy ones never lower it |
| `AdaptiveLimit.GeometricDecrease` | crates/conrogate-traffic/src/adaptive.rs:148-150 | k bad windows leave at most max(min, ratio^k * start) |
| `AdaptiveLimit.ReachesMinimum` | crates/conrogate-traffic/src/adaptive.rs:148-150 | with ratio < 1 the minimum is reached and kept |
| `AdaptiveLimit.LinearIncrease` | crates/conrogate-traffic/src/adaptive.rs:159-162 | k healthy windows give min(max, start + k*step) |
| `AdaptiveLimit.Controller.constructor` | crates/conrogate-traffic/src/adaptive.rs:91-107 | the initial limit is clamped into its range |
| `AdaptiveLimit.Controller.MaybeAdjust` | crates/conrogate-traffic/src/adaptive.rs:109-172 | adjusts once per window that has samples, takes them, and otherwise leaves the limit |
| `AdaptiveLimit.Controller.TryAcquire` | crates/conrogate-traffic/src/adaptive.rs:187-237 | admits exactly when fewer are in flight than the limit in force |
| `AdaptiveLimit.Controller.Release` | crates/conrogate-traffic/src/adaptive.rs:229-236 | gives the slot back |
| `AdaptiveLimit.Controller.RecordLatency` | crates/conrogate-traffic/src/adaptive.rs:239-242 | appends the sample |
| `AdaptiveRace.PermitsConserved` | crates/conrogate-traffic/src/adaptive.rs:109-237 | in every interleaving with out-of-date reads and racing adjustments: min <= limit <= max, inflight = live permits <= max, and at rest accepted = released + inflight |
| `AdaptiveRace.StepKeepsInv` | crates/conrogate-traffic/src/adaptive.rs:187-237 | each atomic operation keeps that invariant |
| `AdaptiveRace.AloneIsOneCall` | crates/conrogate-traffic/src/adaptive.rs:187-227 | a thread that meets nobody gets a slot exactly when fewer are taken than the limit |
| `AdaptiveRace.AloneGivesBack` | crates/conrogate-traffic/src/adaptive.rs:109-172 | a release alone undoes that, and an adjustment alone sets the next limit |
| `Breaker.CircuitBreaker.RefreshWindow` | crates/conrogate-traffic/src/breaker.rs:86-92 | clears the counts exactly when the window has passed |
| `Breaker.CircuitBreaker.TryAllow` | crates/conrogate-traffic/src/breaker.rs:212-237 | decision and new state of an allow |
| `Breaker.CircuitBreaker.RecordSuccess` | crates/conrogate-traffic/src/breaker.rs:240-264 | new state after a success |
| `Breaker.CircuitBreaker.RecordFailure` | crates/conrogate-traffic/src/breaker.rs:267-294 | new state after a failure |
| `Breaker.ModeChanges` | crates/conrogate-traffic/src/breaker.rs:212-294 | every mode change and the exact condition for it |
| `Breaker.NeverStraightToClosed` | crates/conrogate-traffic/src/breaker.rs:215-256 | open, then closed, has half-open in between |
| `Breaker.OpenWaits` | crates/conrogate-traffic/src/breaker.rs:217-228 | an open breaker admits exactly from `wait` after the latest failure in the trace on |
| `Breaker.AdmitsIff` | crates/conrogate-traffic/src/breaker.rs:212-237 | over every run: a closed breaker admits everyone, an open one from `wait` after the latest failure on, a half-open one everyone unless half_open_max is 0 |
| `Breaker.NothingAdmittedWhileOpen` | crates/conrogate-traffic/src/breaker.rs:217-228 | after a trip nothing is admitted before the wait has passed since the latest failure, the trip or a later one |
| `Breaker.HalfOpenAdmits` | crates/conrogate-traffic/src/breaker.rs:229-236 | half-open has no failures and fewer than half_open_max successes; it refuses nobody exactly when half_open_max >= 1 |
| `Breaker.ClosingIsEarned` | crates/conrogate-traffic/src/breaker.rs:246-254 | closing takes at least half_open_max successes and no failure since becoming half-open |
| `Breaker.CountsAreTheTrace` | crates/conrogate-traffic/src/breaker.rs:86-92 | the counts are the trace's outcomes since the last reset, windows read off the event times |
| `Breaker.TripsIff` | crates/conrogate-traffic/src/breaker.rs:274-283 | a closed breaker trips exactly on a failure at which the outcomes in the trace since then number at least min_requests and at least the threshold share of them failed |
| `Breaker.ClosesIff` | crates/conrogate-traffic/src/breaker.rs:246-288 | a half-open breaker closes exactly on the success that makes half_open_max of them in the trace, and opens exactly on a failure |
| `Breaker.ClosedAboveThreshold` | crates/conrogate-traffic/src/breaker.rs:256-260 | in every configuration that is not decisive some run leaves the breaker closed at or above both thresholds, because successes do not re-evaluate them |
| `Breaker.ClosedStaysBelow` | crates/conrogate-traffic/src/breaker.rs:240-294 | in a decisive configuration (threshold above 0 and above (min_requests - 1) / min_requests; with a window of 0 either threshold above 0 or min_requests above 1) every closed state of every run is below the thresholds |
| `Breaker.ClosedBelowIff` | crates/conrogate-traffic/src/breaker.rs:240-294 | a closed breaker is always below the thresholds if and only if the configuration is decisive |
| `SlidingWindow.Limiter.Acquire` | crates/conrogate-traffic/src/limiter.rs:110-147 | decision and new table, sweep and pruning included |
| `SlidingWindow.Retain` | crates/conrogate-traffic/src/limiter.rs:139 | keeps exactly the times inside the window, in order |
| `SlidingWindow.DecidesAsUnforgetting` | crates/conrogate-traffic/src/limiter.rs:110-147 | while no sweep forgets the key: a call at t is admitted exactly when fewer than limit of all its admissions ever lie in the `window` moments up to t; pruning and sweeping are not felt |
| `SlidingWindow.RefusedIffFull` | crates/conrogate-traffic/src/limiter.rs:138-143 | refused exactly when the window already holds limit admissions |
| `SlidingWindow.AtMostLimitPerWindow` | crates/conrogate-traffic/src/limiter.rs:110-147 | any interval as long as the window holds at most limit admissions |
| `SlidingWindow.SweepHarmlessIff` | crates/conrogate-traffic/src/limiter.rs:114-129 | a sweep leaves a key's live admissions alone if and only if it is not the case that the table is full, the caller's window is over for the key and its own is not (`Forgets`) |
| `SlidingWindow.LongEnough` | crates/conrogate-traffic/src/limiter.rs:114-129 | no call forgets the key when each call that finds the table full has a window no shorter than the key's |
| `SlidingWindow.ForgettingBreaksBound` | crates/conrogate-traffic/src/limiter.rs:110-147 | the condition is exact: after any call that forgets the key, limit more calls put more than limit admissions in one window |
| `SlidingWindow.ShorterWindowForgets` | crates/conrogate-traffic/src/limiter.rs:114-129 | a caller with a shorter window can make a full table forget a key that is at its limit |
| `FixedWindow.Limiter.Acquire` | crates/conrogate-traffic/src/limiter.rs:44-81 | decision and new table |
| `FixedWindow.DecidesAsUnswept` | crates/conrogate-traffic/src/limiter.rs:44-81 | while no sweep forgets the key, sweeping never changes a decision |
| `FixedWindow.AdmittedIff` | crates/conrogate-traffic/src/limiter.rs:53-81 | then a call is admitted exactly when no window has begun, the last one is over, or it holds fewer than limit admissions, read off the admissions alone |
| `FixedWindow.LessThanTwiceLimit` | crates/conrogate-traffic/src/limiter.rs:44-81 | while no sweep forgets the key, any interval as long as the window holds at most twice the limit less one |
| `FixedWindowRuns.TwiceLessOneAttained` | crates/conrogate-traffic/src/limiter.rs:44-81 | for every limit above zero and window above one a run attains that |
| `FixedWindowRuns.BoundIff` | crates/conrogate-traffic/src/limiter.rs:44-81 | with no caller's window below w, intervals stay below twice the limit in every run if and only if w is no shorter than the key's window |
| `FixedWindowRuns.ForgottenHasNoBound` | crates/conrogate-traffic/src/limiter.rs:48-51 | with callers of a shorter window w, one window of the key takes k times the limit for every k with (k-1)*w below it; any k when w is 0 |
| `FixedWindow.SweepHarmlessIff` | crates/conrogate-traffic/src/limiter.rs:48-51 | a sweep leaves the window a key counts in alone if and only if it does not forget the key, or that window began just now with nothing counted |
| `FixedWindow.LongEnough` | crates/conrogate-traffic/src/limiter.rs:48-51 | no call forgets the key when each call that finds the table full has a window no shorter than the key's |
| `FixedWindow.ShorterWindowForgets` | crates/conrogate-traffic/src/limiter.rs:48-51 | a caller with a shorter window can make a full table forget a key that is at its limit |
| `FixedWindow.ForgettingChangesDecision` | crates/conrogate-traffic/src/limiter.rs:44-81 | the condition is exact: after any call that forgets the key, a further call is admitted that the unswept window refuses |
| `TokenBucket.Limiter.Acquire` | crates/conrogate-traffic/src/limiter.rs:301-344 | decision and new bucket; other keys untouched |
| `TokenBucket.StaysValid` | crates/conrogate-traffic/src/limiter.rs:309-344 | stored tokens stay in [0, capacity) |
| `TokenBucket.RateFills` | crates/conrogate-traffic/src/limiter.rs:301-308 | in one window, or a millisecond if that is longer, the rate adds the whole limit |
| `TokenBucket.LevelStep` | crates/conrogate-traffic/src/limiter.rs:309-344 | a charged call takes one token, and the level rises by at most the rate |
| `TokenBucket.OpenedAndFreed` | crates/conrogate-traffic/src/limiter.rs:318-344 | buckets are opened and dropped in turn |
| `TokenBucket.AdmissionBound` | crates/conrogate-traffic/src/limiter.rs:301-344 | over any stretch: charged <= limit + rate*t, free <= rate*t and all <= limit + 2*rate*t, each of the last two one more if there was a bucket at the start |
| `TokenBucket.BoundAttained` | crates/conrogate-traffic/src/limiter.rs:301-344 | for every limit above zero and every whole rate*t some stretch admits exactly that many, with a bucket at the start and without |
| `TokenBucket.FreeAdmissionsExceed` | crates/conrogate-traffic/src/limiter.rs:318-321 | for every limit above zero a run exceeds limit + rate*t by a free admission |
| `TokenBucket.PlainBoundIff` | crates/conrogate-traffic/src/limiter.rs:301-344 | every run admits at most limit + rate*t if and only if the limit is zero |
| `TokenBucket.BriskMeetsPlainBound` | crates/conrogate-traffic/src/limiter.rs:309-344 | a run in which each call comes before the last charged token is back has no free admission and meets limit + rate*t |
| `TokenBucket.CloseMeetsPlainBound` | crates/conrogate-traffic/src/limiter.rs:309-344 | with a limit of two or more it is enough that consecutive calls are less than one token's time apart |
| `TokenBucket.CloseMeetsPlainBoundIff` | crates/conrogate-traffic/src/limiter.rs:309-344 | such calls always meet limit + rate*t if and only if the limit is not one |
| `ClientHello.ExtractSni` | crates/conrogate-protocol/src/tls.rs:49-133 | computes the parse of the whole buffer, with every read in range and termination on every byte string |
| `ClientHello.ExtensionsFrom` | crates/conrogate-protocol/src/tls.rs:97-131 | the extension loop, by offsets, is the recursive scan |
| `ClientHello.NamesAt` | crates/conrogate-protocol/src/tls.rs:107-128 | the name loop, by offsets, is the recursive scan |
| `ClientHello.ParseEncoded` | crates/conrogate-protocol/src/tls.rs:49-133 | parsing any encoded well-formed message, with anything after it, gives its first non-empty host name (none if that is not text) |
| `ClientHello.FoundIsThere` | crates/conrogate-protocol/src/tls.rs:49-133 | on every buffer: a name that is found is valid text in the first record, a handshake record with a ClientHello, inside an extension of type 0, after a zero byte and its own two-byte length |
| `ClientHello.ExtensionsRoundTrip` | crates/conrogate-protocol/src/tls.rs:97-131 | the same for any extension list |
| `ClientHello.OnlyTheRecordCounts` | crates/conrogate-protocol/src/tls.rs:51-57 | on every buffer: a cut-off record gives none, bytes after the record change nothing |
| `ClientHello.TruncatedIsNothing` | crates/conrogate-protocol/src/tls.rs:51-57 | every proper prefix of an encoding gives none |
| `LatencyHistogram.Histogram.Add` | crates/conrogate-gateway/src/telemetry.rs:90-92 | the bins count the samples added so far |
| `LatencyHistogram.Histogram.Count` | crates/conrogate-gateway/src/telemetry.rs:94-96 | the number of samples |
| `LatencyHistogram.Histogram.Percentile` | crates/conrogate-gateway/src/telemetry.rs:99-115 | for 0 < p <= 1 the answer is above the nearest-rank quantile by at most a factor of two, or 2^26; 0 without samples or for p > 1, 2 for p <= 0 |
| `LatencyHistogram.BinIff` | crates/conrogate-gateway/src/telemetry.rs:81-88 | bins up to k hold exactly the latencies under 2^(k+1), the last one the rest |
| `LatencyHistogram.ConservativeIff` | crates/conrogate-gateway/src/telemetry.rs:99-115 | the answer is above the nearest-rank quantile (the least value that a share p of the samples does not exceed) exactly when that is below 2^26, and then at most twice it |
| `LatencyHistogram.ConservativeAnswer` | crates/conrogate-gateway/src/telemetry.rs:99-115 | there is exactly one such quantile for every percentage of some samples |
| `LatencyHistogram.MonotoneInP` | crates/conrogate-gateway/src/telemetry.rs:99-115 | a larger percentage never gives a smaller answer |
| `HostMatch.MatchHost` | crates/conrogate-gateway/src/route.rs:308-326 | slices only at character boundaries and in range |
| `HostMatch.MatchesIffAccepts` | crates/conrogate-gateway/src/route.rs:308-326 | accepts exactly the pattern ignoring case, or for `*.s` one non-empty dot-free label before `.s` |
| `HostMatch.SameIgnoringCaseIff` | crates/conrogate-gateway/src/route.rs:308-326 | equal ignoring case means equal but for ASCII letters 32 apart |
| `RouteMatch.CompiledAgrees` | crates/conrogate-gateway/src/route.rs:51-82 | matching with precompiled, position-aligned expressions is matching the conditions as written |
| `RouteMatch.StartsWithIff` | crates/conrogate-gateway/src/route.rs:51-82 | a prefix condition holds exactly when the text is the prefix and something more |
| `RouteMatch.HeadersDoNotMatter` | crates/conrogate-gateway/src/route.rs:269-278 | without header conditions the headers do not matter |
| `RouteTable.RouteMatcher.LoadWithBindings` | crates/conrogate-gateway/src/route.rs:99-178 | the table holds exactly the enabled routes whose expressions compile, by protocol, sorted, with their bindings, and the flags for headers |
| `RouteTable.RouteMatcher.MatchRoute` | crates/conrogate-gateway/src/route.rs:195-209 | the first match of that protocol's sorted entries: nothing exactly when no route is a candidate, otherwise a best one with its own fields |
| `RouteTable.RouteMatcher.MatchHttpRequest` | crates/conrogate-gateway/src/route.rs:216-236 | with headers parsed on demand, the answer that the request's full path, method, host, headers and query give |
| `RouteTable.SortSorts` | crates/conrogate-gateway/src/route.rs:157-163 | priority descending, then id ascending |
| `RouteTable.LookupIsBest` | crates/conrogate-gateway/src/route.rs:195-209 | finds nothing exactly when no enabled, compilable route of the protocol holds; otherwise one that none beats in priority, then id |
| `RouteTable.LookupAnswers` | crates/conrogate-gateway/src/route.rs:137-209 | what is found carries the route's id, protocol, upstream, host header and flags, its enabled bindings in order, and the body flag they imply |
| `RouteTable.ChainIsOwn` | crates/conrogate-gateway/src/route.rs:108-135 | with distinct ids a route carries exactly its own enabled bindings, each once and in order, and needs the body exactly when one of them does |
| `RouteTable.HeadersOnDemand` | crates/conrogate-core/src/protocol.rs:140-193 | skipping headers when no loaded route has header conditions gives the same answer |

## Left out

- Redis: cluster breaker counts, the shared token bucket and the configuration cache; their store and clock are not defined by this code.
- SQL, JSON, SHA-256, SeaHash, the regular-expression engine and UTF-8 validation: tables are maps, the rest are parameters.
- Timestamps, remarks and authors of versions, and the diff of two versions: copied or compared fields without further state.
- Pairing of node selection and release inside the HTTP handler: some paths return without a release, so it is not conserved.
- Networking, TLS setup, WebSocket and TCP copying, DNS, health probes, control-plane handlers, auth, audit, metrics storage and the dashboard: input and output.
- Plugins, plain round robin, least connections, IP blacklist and forwarded-address resolution: they would add only easy members.
- ConfigUpstreams.UpsertUpstreams: assumes live upstream names are unique, which no index enforces; with duplicates the row the database returns first is not determined.
- ConfigRoundTrip.RollbackRoundTripIff: says nothing about nodes; `ConfigRoundTrip.NodesComeBackIff` states when they come back.
- ConfigService.Service.RollbackConfig: one caller at a time; `VersionLog.HalfDoneIff` is about racing callers.
- WeightedRoundRobin.Balancer.Select: node addresses are taken to be free of `|`, as host:port addresses are.
- RingCache.Balancer.Select: configured nodes have distinct ids and `|`-free addresses, and the lists passed are order-preserving parts of one configured list (`RingOrder.CachedIsFreshIff` is about any lists); the threads' critical sections are in `CacheRace`, this method is one thread.
- HttpRetry.Handle: the backoff sleep and a failure to rebuild the request before a forward are not modelled.
- RetryRace.RetriesStayBounded: the ratio is at least zero, as its documentation says; 64-bit wrap-around of the counters is not modelled, and between the two stores of an expiry nothing is claimed.
- HttpRetry.LoadAmplification: requests one after another in one window; a request that spans an expiry is covered by `HttpRetry.Handle` only.
- AdaptiveLimit.NextInRange: the configuration has min <= max; otherwise the clamp in the code panics.
- SlidingWindow.DecidesAsUnforgetting: one limit and window per key.
- FixedWindow.DecidesAsUnswept: the same proviso.
- TokenBucket.AdmissionBound: one limit and window per key.
- ListOrder.AlternatingStarves: one pair of weights; `ListOrder.FairInAnyOrderIff` is for all lists.
- ClientHello.ParseEncoded: messages that fit one record; one split over several records is not found by this code.
- LatencyHistogram.Histogram.Add: 64-bit overflow of a bin is not modelled.
- RouteTable.RouteMatcher.MatchHttpRequest: the splitting of the query string and the decoding of header values are taken as done.
- Update in place of table rows: the phases of `apply_snapshot` work on table values and return new ones, inside one transaction.

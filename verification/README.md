# A verified model of pecs-registry

pecs-registry is a service registry client. Providers hold instances and broadcast changes; a service
directory keeps one snapshot per service in step with a provider by listing it, watching it and
reconciling periodically; selectors choose an instance from a snapshot; change streams hand snapshots on
to Tower and Tonic. This project models those parts in Dafny and proves what they keep over whole runs.
`dafny verify dfyconfig.toml` checks everything.

How the pieces fit:

- `Types`, `Arithmetic` - shared values and facts. A string is its bytes; equality, containment and hashing
  all work on those. `Option` stands for the source's optional values and error returns.
- `Snapshots` - what one event does to an instance list, and the last-writer-wins law behind replays.
- `LocalProvider` - the in-memory provider as a class.
- `WatchProtocol` - provider, broadcast log, subscription and snapshot of one service as a step machine.
  Registrations change the provider and broadcast in two separate steps, tasks hold listings while others
  run, streams break and fall behind, and out-of-band writes happen. The set `missed` is bookkeeping: ids
  the snapshot may have wrong with no pending event to put them right.
- `Rcu` - the compare-and-swap retry of snapshot writes. `Watchers` - the active-watch table, its lock, its
  tokens and loops. `Directory` - the directory as a class, proved against those two machines.
- `Weighted`, `ConsistentHash` (with `Fnv`), `P2C`, `RoundRobin`, `Canary` - the selectors. A selector
  returns the position of the chosen instance in the list it was given.
- `Discover` - the diffing listeners for Tower and Tonic. `sent` is everything put on the channel.
- `EtcdKeys` - the etcd key scheme, the watch translation and the prefix listing.

Choices that matter when reading the contracts:

- Machine integers: hashes are 64-bit words with wrap-around; the counters of round robin and P2C wrap at
  2^64. Running weights are unbounded integers compared from the smallest `isize` on, as the scan does. The
  theorems about runs ask that the weights leave room beforehand, and `FreshNeverOverflows`,
  `RoomyNeverOverflows` and `RunNeverOverflows` show that then no stored weight, raised weight or total
  leaves `isize`.
- Weights are reals: the truncation to hundredths is modelled, floating-point rounding is not.
- The position of a hash on the ring is its value as a number. The standard library's sort and binary
  search are modelled by their contracts: a stable sort, and any matching index.
- A map or set is iterated in an arbitrary order wherever the source iterates one.
- At most one registration or deregistration of the same id is in flight at a time, and while one is, that id
  is not added or removed either: the provider changes and the event that tells of it stay in one order per id.

Where the code does less than its documentation suggests, the model follows the code, and a theorem says
exactly when the promise holds; most come with a failing case beside them:

- a drained snapshot can be wrong until a reconciliation: `SubscriberRightExactly` and
  `ReconnectRightExactly`, with the run `GapBetweenListAndSubscribe`; clearing the provider sends no event: `ClearGoesUnseen`;
- the topology fingerprint does not see where one id ends: `CacheRightExactly` for the rings served over a
  run, `EveryKeyRightExactly` for the keys sent through a stale ring, with `StaleCacheMisroutes`;
- repeated ids, and notifications after them: `TonicRepairsExactly`, `TonicInStepExactly` and
  `TonicRunExactly` with `TonicDuplicateIds` and `TonicConfusionStays`; `PickReturnedExactly`, `RefinesExactly` and
  `FilterHoldsExactly` with `RepeatedIdEscapesFilter`;
- Tower is not told of a changed instance, nor again of a change that was lost: `TowerInstancesExactly` and
  `TowerInStepExactly`;
- the round-robin counter wraps: `FairExactly` with `WrapRepeatsAPosition`;
- slashes in etcd names and ids: `OverlapExactly` with `NestedNamesOverlap`, `LastSegmentIsId` and
  `DeletionReachesId`.

## Model

| member | source | states |
|---|---|---|
| WatchProtocol.StepKeepsInv | src/directory.rs:136-163 | every step of provider, tasks and watch loop keeps the protocol invariant: log, held listings and snapshot are right about every id outside the bookkeeping sets |
| WatchProtocol.StepKeepsProviderSide | src/provider/local.rs:34-59 | the provider's half of the invariant survives every step whatever the snapshot holds |
| WatchProtocol.AlwaysAgrees | src/directory.rs:199-249 | in every run the snapshot with its pending events replayed agrees with the provider on every id that was not missed and is not mid-registration |
| WatchProtocol.StoreKeepsAt | src/directory.rs:156-160 | after storing a listing every id is right of which nothing was said between the listing and the events still to be delivered |
| WatchProtocol.MissedOnlyOutOfReach | src/directory.rs:136-163 | in every run without out-of-band writes an id is missed only if held at the start or spoken of by an event that will not be delivered any more, since the latest store |
| WatchProtocol.ReconcileClearsMissed | src/directory.rs:230-235 | a reconciliation by the loop leaves nothing missed, from any snapshot |
| WatchProtocol.SelfHealing | src/directory.rs:230-240 | from any snapshot, after one reconciliation and a drained stream the snapshot lists exactly the provider's instances, whatever interleaves |
| WatchProtocol.SubscriberRightExactly | src/directory.rs:136-163 | after any run of provider activity and deliveries since the subscription the snapshot with pending events is right about an id if and only if something was said about the id since or the snapshot was right about it at the subscription |
| WatchProtocol.RightNowExactly | src/directory.rs:230-240 | at any moment the snapshot with pending events is right about an id if and only if a pending event speaks of it or the snapshot is right already |
| WatchProtocol.ReconnectRightExactly | src/directory.rs:199-249 | a reconnection does not list again: pending events are lost and the snapshot is right if and only if it was without them |
| WatchProtocol.LagRightExactly | src/provider/local.rs:133-157 | after falling behind an id is right if and only if the rest of the stream speaks of it or the snapshot is right already |
| WatchProtocol.OutOfBandRightExactly | src/directory.rs:136-163 | a saved list or an event applied by hand is right until the stream speaks if and only if it says what the provider holds |
| WatchProtocol.GapBetweenListAndSubscribe | src/directory.rs:136-163 | a fault-free run in which an instance added between listing and subscribing is absent from the drained snapshot |
| WatchProtocol.ClearGoesUnseen | src/provider/local.rs:62-68 | clearing the provider sends no event: what was right stays right if and only if the provider did not hold the id |
| Snapshots.ApplyLookup | src/directory.rs:263-283 | each event decides exactly the ids it touches, for any list, repeated ids included |
| Snapshots.OverlapHarmless | src/directory.rs:230-240 | replaying events c..n over the state after m of them, c <= m <= n, gives the state after n for every id |
| Snapshots.UpsertKeepsOrder | src/directory.rs:264-273 | an upsert leaves a known id in its place and puts a new one last |
| Snapshots.WithoutConcat | src/directory.rs:274-279 | a delete keeps the order of what stays |
| Snapshots.ToldOfOwnService | src/provider/local.rs:133-157 | a watcher is told exactly of the upserts and deletes that name its service and of the resets whose first instance does |
| Snapshots.ReplayKeepsDistinct | src/directory.rs:263-283 | ids stay distinct over any stream whose resets have distinct ids |
| LocalProvider.Put | src/provider/local.rs:39-42 | storing an instance changes one id of one service |
| LocalProvider.Drop | src/provider/local.rs:52-54 | removing changes at most one id of one service and never creates a service |
| LocalProvider.LocalRegistry.AddInstance | src/provider/local.rs:34-44 | stores the instance and broadcasts its upsert |
| LocalProvider.LocalRegistry.RemoveInstance | src/provider/local.rs:47-59 | removes the id and broadcasts the delete even if nothing was stored |
| LocalProvider.LocalRegistry.Clear | src/provider/local.rs:62-68 | empties the provider and broadcasts nothing |
| LocalProvider.LocalRegistry.Register | src/provider/local.rs:79-101 | stores, remembers the key, broadcasts |
| LocalProvider.LocalRegistry.Deregister | src/provider/local.rs:103-122 | undoes the latest registration, once |
| LocalProvider.LocalRegistry.ListInstances | src/provider/local.rs:124-131 | returns each instance of the service exactly once, in some order |
| Rcu.NoLostUpdates | src/directory.rs:256-288 | in every interleaving the table is the fold of the committed writes and every finished call is committed exactly once |
| Rcu.FinishedCallsAreCommitted | src/directory.rs:253-288 | a finished call reports the very list it committed, and no two calls share a commit |
| Rcu.ServicesIndependent | src/directory.rs:256-288 | a service's list is decided by its own writes alone |
| Rcu.FoldKeepsDistinct | src/directory.rs:263-283 | ids stay distinct if every reset and loaded list has distinct ids |
| Watchers.OneLiveWatcher | src/directory.rs:169-188 | in every interleaving, whenever the lock is free, a watched service has exactly one running loop with an uncancelled token and any other has none; no loop with an uncancelled token has stopped |
| Watchers.WatchedAsLastAsked | src/directory.rs:169-176 | in every run a service is watched if and only if the latest ensure, unwatch or shutdown that concerns it was an ensure, and others' requests leave its entry alone |
| Directory.ServiceDirectory.GetInstances | src/directory.rs:106-112 | a reader sees the fold of the service's own writes since the latest shutdown, untouched by other services |
| Directory.ServiceDirectory.ApplyEvent | src/directory.rs:253-301 | rewrites one service's list, leaves the others, and notifies with the list it wrote |
| Directory.ServiceDirectory.LoadOrWatch | src/directory.rs:115-166 | serves the snapshot only under a live watcher, else stores and serves the provider's listing, else the saved one, else an error that changes nothing; other services keep list and watcher |
| Directory.ServiceDirectory.EnsureWatcherStarted | src/directory.rs:169-188 | leaves exactly one live loop and keeps an existing one; other services keep theirs |
| Directory.ServiceDirectory.Unwatch | src/directory.rs:304-310 | leaves the service no live loop; other services keep entry and loop |
| Directory.ServiceDirectory.Shutdown | src/directory.rs:313-319 | leaves no live loop and no snapshot |
| Weighted.Scaled | src/selector/weighted.rs:48 | the weight in truncated hundredths, at least 100 |
| Weighted.WinnerIsFirstGreatest | src/selector/weighted.rs:43-58 | the scan finds the first greatest running weight |
| Weighted.NextView | src/selector/weighted.rs:43-64 | with distinct ids one call raises every id and charges the total to a leader |
| Weighted.ExactFairness | src/selector/weighted.rs:43-65 | from fresh weights every window of W / g calls picks id i exactly w_i / g times, for every common divisor g |
| Weighted.Periodic | src/selector/weighted.rs:43-65 | the schedule repeats with period W / g |
| Weighted.PeriodReturnsToZero | src/selector/weighted.rs:43-65 | after one period every running weight is back at zero |
| Weighted.BoundedError | src/selector/weighted.rs:39-64 | from any starting weights that leave room in isize the error of proportionality stays below a bound independent of the number of calls |
| Weighted.RoomyNeverOverflows | src/selector/weighted.rs:47-53 | in such a run no stored weight, raised weight or total leaves isize |
| Weighted.FreshBounds | src/selector/weighted.rs:43-64 | from fresh weights every stored weight stays strictly between -W and (n - 1) * W |
| Weighted.FreshNeverOverflows | src/selector/weighted.rs:47-53 | no stored or raised weight leaves isize when n * W fits |
| Weighted.NextConserves | src/selector/weighted.rs:43-64 | one call keeps the sum of all stored weights, repeated ids included |
| Weighted.RunConservesInRange | src/selector/weighted.rs:38-64 | over any sequence of lists the stored weights of a service sum to zero while each call's first listed weight is at least the smallest isize |
| Weighted.RunConserves | src/selector/weighted.rs:38-64 | so they do whenever the totals of the run sum to an isize |
| Weighted.RunNeverOverflows | src/selector/weighted.rs:47-53 | in such a run no stored or raised weight leaves isize, repeated ids included |
| Weighted.Scan | src/selector/weighted.rs:43-58 | the loop computes the raised weights, the total and the winner |
| Weighted.AnswersExactlyFair | src/selector/weighted.rs:26-69 | if a service is always given one list, every window of W / g recorded answers holds position i exactly w_i / g times |
| Weighted.AnswersBoundedError | src/selector/weighted.rs:26-69 | after any calls whatever, answers on one list stay proportional up to an error fixed by the weights found |
| Weighted.WeightedRoundRobinSelector.Select | src/selector/weighted.rs:26-69 | none, the only one, or the winner from the weights that exactly this service's earlier calls left behind; other services keep theirs |
| Weighted.WeightedRoundRobinSelector.ExactlyFair | src/selector/weighted.rs:26-69 | so any selector object answers exactly fairly, whatever is asked for other services in between |
| Fnv.Fnv1aHash | src/selector/consistent_hash.rs:21-33 | the byte loop and the mixer compute the hash function |
| Fnv.ComputeFingerprint | src/selector/consistent_hash.rs:36-45 | the nested loops fold the concatenation of the ids |
| Fnv.KnownAnswers | src/selector/consistent_hash.rs:21-33 | published vectors of the byte loop and a finished hash |
| Fnv.FingerprintOfOne | src/selector/consistent_hash.rs:36-45 | the fingerprint of one id is its fold, without the mixer |
| Fnv.StepUndone | src/selector/consistent_hash.rs:23-26 | a hash step is injective in the state, with an exhibited inverse |
| Fnv.StepSeparatesBytes | src/selector/consistent_hash.rs:23-26 | a hash step is injective in the byte |
| Fnv.FinaliseBijective | src/selector/consistent_hash.rs:27-32 | the mixer is a bijection of 64-bit words with an exhibited inverse |
| Fnv.OneByteNeverCollides | src/selector/consistent_hash.rs:21-33 | equal-length strings differing in exactly one byte never collide |
| Fnv.FingerprintSeesOneByte | src/selector/consistent_hash.rs:36-45 | nor do fingerprints of id sequences whose concatenations differ in one byte |
| ConsistentHash.NodeKeysDistinct | src/selector/consistent_hash.rs:100-103 | virtual nodes have different keys |
| ConsistentHash.SharedPositionIsCollision | src/selector/consistent_hash.rs:100-108 | two virtual nodes share a position if and only if the hash collides on their keys |
| ConsistentHash.NumberedReplicasDistinct | src/selector/consistent_hash.rs:21-33 | ids that differ in the last byte alone never share a position, with one virtual node each |
| ConsistentHash.NodeKeyExample | src/selector/consistent_hash.rs:102 | the key of a virtual node, byte by byte |
| ConsistentHash.FirstMetIsSuccessor | src/selector/consistent_hash.rs:157-167 | the nearest node clockwise is the one at the least position not before the hash, or at the least of all |
| ConsistentHash.SortByHash | src/selector/consistent_hash.rs:112 | sorted and a permutation |
| ConsistentHash.BuildComplete | src/selector/consistent_hash.rs:99-112 | a ring holds exactly the virtual nodes of its ids |
| ConsistentHash.BinarySearch | src/selector/consistent_hash.rs:158 | a match, or the insertion point |
| ConsistentHash.LandingIsNearest | src/selector/consistent_hash.rs:158-167 | search with wrap-around lands on the node at the least clockwise distance |
| ConsistentHash.RoutedToOwner | src/selector/consistent_hash.rs:149-173 | the instance found through a ring with the nodes of the listed ids is the owner of the key |
| ConsistentHash.ScaleOutDisruption | src/selector/consistent_hash.rs:132-173 | adding an instance moves a key only to the new instance, one-instance lists included |
| ConsistentHash.ScaleInDisruption | src/selector/consistent_hash.rs:132-173 | removing an instance moves only its own keys |
| ConsistentHash.OrderIrrelevant | src/selector/consistent_hash.rs:132-173 | list order does not matter |
| ConsistentHash.SameKeySameId | src/selector/consistent_hash.rs:140-147 | requests with one key, whatever their clients, on lists with the same ids are answered with the same id |
| ConsistentHash.CacheIsRebuild | src/selector/consistent_hash.rs:74-117 | after any requests on any services a request gets the very ring a rebuild would give, if fingerprints separate the id sequences of each service |
| ConsistentHash.SameNodesExactly | src/selector/consistent_hash.rs:99-112 | two rings hold the same nodes if and only if they were built for the same ids |
| ConsistentHash.ServedRightExactly | src/selector/consistent_hash.rs:74-97 | after a right history of its service a request gets a ring with the right nodes if and only if its fingerprint differs from the latest one or the ids are the same |
| ConsistentHash.CacheRightExactly | src/selector/consistent_hash.rs:74-117 | every request of a service in a run gets the right nodes if and only if consecutive requests of that service with one fingerprint always name the same ids |
| ConsistentHash.EveryKeyRightExactly | src/selector/consistent_hash.rs:149-173 | through a stale ring every key still reaches its owner if and only if no listed id is missing from the ring and the first instance owns the positions of the virtual nodes of all that left |
| ConsistentHash.StaleRingRoutesToFirst | src/selector/consistent_hash.rs:169-173 | a stale ring without listed ids sends every key to the first instance |
| ConsistentHash.StaleCacheMisroutes | src/selector/consistent_hash.rs:36-45 | a failing case: two topologies with one fingerprint and a key routed to the wrong instance |
| ConsistentHash.ConsistentHashSelector.GetOrBuildRing | src/selector/consistent_hash.rs:74-117 | answers from the cache on an equal fingerprint, else rebuilds and stores |
| ConsistentHash.KeyThenIpThenName | src/selector/consistent_hash.rs:140-147 | the key decides if there is one, else the client's address, else the service's name |
| ConsistentHash.ConsistentHashSelector.Select | src/selector/consistent_hash.rs:127-174 | none iff the list is empty, always a list member, and the owner of the hash of key, client address or service name, in that order, while requests of this service with one fingerprint name the same ids |
| P2C.TwoDistinctIndices | src/selector/p2c.rs:84-87 | the two indices are in range and different |
| P2C.EveryPairOnce | src/selector/p2c.rs:84-87 | any len * (len - 1) consecutive seeds give every ordered pair exactly once |
| P2C.ScoresCompareCrosswise | src/selector/p2c.rs:98-99 | scores compare as crosswise products of load and weight |
| P2C.BusierScoresHigher | src/selector/p2c.rs:98-99 | more load scores strictly higher |
| P2C.HeavierScoresLower | src/selector/p2c.rs:98-99 | more weight scores strictly lower if and only if it exceeds a tenth |
| P2C.P2CSelector.Inflight | src/selector/p2c.rs:92-97 | the counter read is the number of outstanding guards |
| P2C.P2CSelector.GetInflightCounter | src/selector/p2c.rs:42-55 | a counter is created at most once per id and never replaced |
| P2C.P2CSelector.Acquire | src/selector/p2c.rs:58-62 | one more outstanding guard for that id and no other |
| P2C.P2CSelector.Drop | src/selector/p2c.rs:15-19 | one less, never below zero |
| P2C.P2CSelector.PickTwo | src/selector/p2c.rs:76-88 | the indices of the wrapped seed; the seed counter advances |
| P2C.P2CSelector.ScoresCompareLoads | src/selector/p2c.rs:91-99 | scores compare as outstanding guards plus one against weight, crosswise |
| P2C.P2CSelector.BusierOfEqualsLoses | src/selector/p2c.rs:110-145 | of a compared pair with equal weights the one with strictly more outstanding guards is never chosen |
| P2C.P2CSelector.Select | src/selector/p2c.rs:110-145 | the no busier of the compared pair by outstanding guards and weight, the first on a tie; never the unique instance with the strictly highest score |
| P2C.P2CSelector.SelectWithGuard | src/selector/p2c.rs:65-73 | chooses as select does and counts the request against the chosen instance alone |
| RoundRobin.RoundRobinSelector.GetCounter | src/selector/round_robin.rs:23-35 | created at zero on first use |
| RoundRobin.RoundRobinSelector.Select | src/selector/round_robin.rs:39-55 | the position the counter names, then advances it with wrap-around; other services keep their counters |
| RoundRobin.PicksInOrder | src/selector/round_robin.rs:52-54 | until the counter wraps, positions are taken in list order |
| RoundRobin.ServicesIndependent | src/selector/round_robin.rs:23-54 | with requests for other services in between a service is answered as if it were alone |
| RoundRobin.FairAmongOthers | src/selector/round_robin.rs:44-54 | so the exact condition for evenness holds per service |
| RoundRobin.ExactlyFair | src/selector/round_robin.rs:44-54 | k * n calls without a wrap choose each of n instances k times |
| RoundRobin.FairExactly | src/selector/round_robin.rs:44-54 | k * n calls choose each of n instances k times if and only if the counter does not wrap, or n divides the word size, or the wrap falls between rounds |
| RoundRobin.WrapRepeatsAPosition | src/selector/round_robin.rs:53 | a failing case: three instances at the wrap |
| Canary.PickReturnedExactly | src/selector/canary.rs:34-58 | for any list the first instance with the picked id is returned, which is the picked one if and only if no earlier instance has its id |
| Canary.RefinesExactly | src/selector/canary.rs:34-58 | every pick an inner selector can make is honoured if and only if no matching instance repeats an earlier id |
| Canary.FilterHoldsExactly | src/selector/canary.rs:56-57 | no pick lets an instance without the tag through if and only if the first instance with a matching one's id matches too |
| Canary.RefinesInner | src/selector/canary.rs:34-58 | if no match repeats an earlier id the very instance and state of the inner selector on the matching ones are returned |
| Canary.DistinctMatchesComeFirst | src/selector/canary.rs:56-57 | with distinct ids no match repeats an earlier id |
| Canary.NoMatch | src/selector/canary.rs:59-64 | without a match, the whole list or nothing |
| Canary.UntaggedIsInner | src/selector/canary.rs:64 | a request without a tag is the inner call on the whole list |
| Canary.DeclinedAsksAgain | src/selector/canary.rs:55-64 | if the inner selector declines the matching ones it is asked with the whole list |
| Canary.ReturnsExactlyTagged | src/selector/canary.rs:34-53 | with distinct ids the filter can return for a match exactly the instances with the metadata entry, the group, the namespace, or an id containing the value |
| Canary.RepeatedIdEscapesFilter | src/selector/canary.rs:56-57 | a failing case: a repeated id and an instance without the tag returned |
| Canary.HitsAreInnerHits | src/selector/canary.rs:34-58 | calls through the filter are inner calls on the matching subset, state included |
| Canary.FairAmongMatching | src/selector/canary.rs:34-64 | k * n same-tag requests over round robin hit each of n matches k times if and only if round robin itself is even there |
| Discover.TowerReplay | src/discover.rs:80-100 | one notification brings the consumer to exactly the listed ids, known ones as first announced and new ones as listed, with orderly changes when ids are distinct |
| Discover.TowerInstancesExactly | src/discover.rs:91-98 | the consumer then holds the listed instances if and only if those it already held are unchanged |
| Discover.TowerInStepExactly | src/discover.rs:80-100 | after lost changes, exactly when a notification still brings the consumer to the listed ids |
| Discover.NothingNew | src/discover.rs:91-98 | a notification with known ids sends nothing |
| Discover.TowerStream.constructor | src/discover.rs:57-74 | the initial inserts are what is known |
| Discover.TowerStream.OnChange | src/discover.rs:76-101 | over any notifications the consumer holds exactly the ids last notified, each with the instance listed when it was announced |
| Discover.TonicReplay | src/discover.rs:167-212 | one notification with distinct ids brings the consumer to exactly the listed URLs that parse |
| Discover.InStepIsOnEndpoints | src/discover.rs:138-148 | with distinct ids in step means: on the gRPC endpoint of every listed instance whose URL parses, by its own scheme or http, and on nothing else |
| Discover.OnlyGrpcMatters | src/discover.rs:167-212 | lists that differ in anything but ids and gRPC endpoints send the same changes |
| Discover.DefaultUrlExample | src/discover.rs:142 | the URL of an endpoint without a scheme, byte by byte |
| Discover.TonicInsertsFresh | src/discover.rs:178-192 | with distinct ids a moved instance is removed before it is inserted: no insert names an id still held |
| Discover.UnchangedSendsNothing | src/discover.rs:175-178 | while every listed URL is the known one nothing is sent |
| Discover.TonicRepairsExactly | src/discover.rs:167-212 | whatever the consumer held and the listener knew, one notification leaves it on exactly the listed URLs that parse if and only if every id is repaired: new with a last URL that parses, or nothing held and none parsing; at a new URL; unchanged and right before; or gone |
| Discover.TonicDistinctExactly | src/discover.rs:167-212 | for distinct ids that is: unchanged ids were right before, and ids held but not known are listed with a URL that parses |
| Discover.TonicInStepExactly | src/discover.rs:167-212 | from a consumer in step: if and only if no repeated id is confusing |
| Discover.TonicRunExactly | src/discover.rs:163-213 | over any notifications the consumer is in step after each if and only if none is confusing after the one before |
| Discover.TonicDuplicateIds | src/discover.rs:175-191 | a failing case: an id listed twice and the consumer on the wrong URL |
| Discover.TonicConfusionStays | src/discover.rs:175-178 | a failing case: afterwards a list of distinct ids sends nothing and leaves the consumer there |
| Discover.InitialInStep | src/discover.rs:138-157 | the initial population is in step with what is remembered, and with the list if and only if no repeated id is confusing |
| Discover.TonicChannel.OnChange | src/discover.rs:163-213 | after any notification the consumer holds exactly the listed URLs that parse if and only if every id is repaired; from a consumer in step if and only if no repeated id is confusing, so with distinct ids it is always on the listed gRPC endpoints |
| Types.UrlDeterminesEndpoint | src/instance.rs:27-30 | two URLs are equal if and only if port and the part before it are; for schemes without a colon, if and only if scheme, address and port are |
| Types.UrlShape | src/instance.rs:27-30 | a URL starts with the endpoint's own scheme, or the default, and address, and its end reads back as the port |
| Types.DecimalReadsBack | src/instance.rs:29 | decimal digits read back in base ten as the number |
| EtcdKeys.LastSegmentIsId | src/provider/etcd.rs:77-85 | the last segment of a key is its id exactly when the id has no slash |
| EtcdKeys.PrefixIffService | src/provider/etcd.rs:77-95 | for slash-free names a key has a service's prefix exactly when it belongs to it |
| EtcdKeys.TrimTakesSlashes | src/provider/etcd.rs:77-95 | trimming takes slashes off both ends and nothing else |
| EtcdKeys.KeySegments | src/provider/etcd.rs:77-95 | when no slash is left after trimming a key reads, between slashes: nothing, namespace, group, service, id, each trimmed |
| EtcdKeys.KeysDetermineAll | src/provider/etcd.rs:77-85 | no two slash-free configurations, services or ids share a key |
| EtcdKeys.OverlapExactly | src/provider/etcd.rs:77-95 | for any names, when a service sees every key, some key, or a key with a slash-free id of another service, each if and only if |
| EtcdKeys.NestedNamesOverlap | src/provider/etcd.rs:77-95 | a failing case: a service sees another's key |
| EtcdKeys.WatchTracksKeySpace | src/provider/etcd.rs:363-393 | folding the translated events keeps a list in step with the key space, over all interleaved registrations |
| EtcdKeys.DeletionReachesId | src/provider/etcd.rs:376-391 | the deletion of a key removes its id if and only if the id has no slash; otherwise it removes the id that follows the last slash and nothing else |
| EtcdKeys.ListInstances | src/provider/etcd.rs:324-331 | the decodable values in the server's order |
| EtcdKeys.DecodedConcat | src/provider/etcd.rs:324-331 | decoding works entry by entry in order |
| EtcdKeys.DecodedOne | src/provider/etcd.rs:324-331 | an entry gives its instance, or nothing if it does not decode |
| EtcdKeys.ListingTracks | src/provider/etcd.rs:324-331 | a prefix listing of a key space written by registrations agrees with it on every id |

## Left out

- etcd, Nacos and HTTP clients, leases, timeouts and retries: foreign calls whose behaviour the source does not show. A key space with its event stream stands in for etcd.
- Disk persistence and JSON: the saved list is an arbitrary optional list, and a stored value decodes or does not.
- The async runtime, real time and backoff: scheduling is an arbitrary interleaving, and no future is dropped midway.
- Delivery after cancellation: a cancelled loop may still handle one event it had already received; the watcher theorem counts loops by token, as the table does.
- Order of notifications: two concurrent writers of one service may notify listeners in the reverse of their commit order.
- Full channels: streams are proved for channels with room; `TowerInStepExactly` says what a lost change does. More than 64 initial Tower instances block before the stream is returned.
- Clear as a protocol step: `ClearGoesUnseen` shows why the protocol invariant excludes it.
- Concurrent callers of one selector: each call is one step, as under the selector's write lock; P2C scores may be read at different moments.
- The random selector, builder, configuration and error types: thin.
- Floating-point rounding, NaN weights and weights too large for isize.
- How evenly the hash spreads keys: a statistical claim.
- WatchProtocol.AlwaysAgrees: says nothing of ids whose registration is in flight, because provider and log disagree on them by design.
- Weighted.BoundedError: asks that the starting weights leave room in isize for the run, where the source's additions would overflow.

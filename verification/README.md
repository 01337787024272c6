# Verified models of distributed-core

Dafny models of the algorithmic cores of distributed-core, a TypeScript library for clustered
applications, with machine-checked proofs about them. `dafny verify dfyconfig.toml` checks
everything.

| files | what they model |
|---|---|
| `EventLog.dfy` | the event bus: what log compaction keeps and replay yields |
| `BusProtocol.dfy`, `BusObject.dfy`, `ReplayOrder.dfy`, `VersionReuse.dfy` | the event bus: versioned publishing across compactions and crashes, replay order, uniqueness of versions |
| `HashRing.dfy`, `Placement.dfy`, `Rebalance.dfy` | the consistent hash ring, hash placement, orphan reclaim, rebalancing |
| `ClusterLoad.dfy`, `Dampening.dfy`, `Throttle.dfy` | the rebalance policy: loads and cluster mean, percentile dampening, transfer throttle |
| `JoinGate.dfy`, `JoinRace.dfy`, `DownstreamJoin.dfy`, `ContextMerge.dfy` | the pipeline executor: joins one arrival at a time and interleaved, search for the nearest join, context merge |
| `Cancellation.dfy`, `Traversal.dfy`, `StrandedSteps.dfy` | the pipeline executor: step records, cancel, how a run comes to start nodes, and where that leaves steps behind |
| `RateLimiter.dfy` | the token-bucket rate limiter |
| `CircuitBreaker.dfy` | the circuit breaker under overlapping calls |
| `ModuleRegistry.dfy` | the application registry and its stop order |
| `MessageBatcher.dfy`, `FlushTimers.dfy`, `BatcherObject.dfy` | the message batcher: queues and batches, flush timers, the object |
| `StableSort.dfy`, `Common.dfy` | filter and stable sort on sequences; shared definitions |

## How the models are built

Objects that the source updates in place are classes. A method is the code between two awaits, or an
operation listed below as one step, and is proved equal to a step of a state machine on values. The
results are proved for every run of that machine, so for every interleaving of its steps. A valid
object of such a class carries the run that led to it, so the results hold of the object. Loops of
the source are loops here, with a specification function or an outright postcondition. Where a
promise of the code or its comments does not hold for all inputs, a lemma gives the failing case and
another states the exact condition.

Assumptions that shape the models:

- Numbers are unbounded integers or reals. The clock is an integer parameter that never goes back.
- The hash function, random draws, and the outcome of calls into other code are parameters, so the
  results hold for all of them.
- `Array.prototype.sort` is stable (ECMA-262, since the 2019 edition). JSON encoding and decoding of
  an event is the identity. Objects are compared by keys and values, not by key order.
- A compaction reads the log in one step and swaps it in another, one compaction at a time. A crash
  keeps any prefix of the log that contains everything synced, or nothing if it falls into the swap,
  and loses every publish in flight. Publishing happens between `start` and `stop`, with a log file
  configured.
- A rebalance pass takes its snapshot and plans in one step and carries out each transfer in another;
  passes of all nodes interleave. The members stay the same, and all nodes share one view of who owns
  what.
- One registration of a module is one step, and so is one arrival at a join in `JoinGate.dfy`;
  `JoinRace.dfy` and `Traversal.dfy` have the steps of an arrival. Any failed node downstream of a
  fork's branch can be the one the branch reports, and an execution can return with any handle. Every
  edge has a source handle and every join a mode, as their types demand.

## What was found

- Versions never repeat across restarts exactly when every compaction keeps at least one event per
  type, nothing is appended between its reading and its swap of the log, and no crash falls into the
  swap (`VersionsNeverRepeatIff`). Publishing is held back only during the swap (EventBus.ts:455), so
  an append can come after the reading and is then lost.
- Replay is documented to yield events in version order because the log is written in that order
  (EventBus.ts:361). It does so over all runs exactly when at most one publish at a time is between
  its assignment and its append (`ReplaysInOrderIff`).
- Nodes that see one membership in different orders agree on owners exactly when no two nodes share a
  virtual-node hash (`AgreementIff`, `ReclaimIff`).
- Recorded transfers respect `maxTransfersPerSecond` exactly when at most one transfer is in flight at
  a time (`RecordsSpacedIff`); the calls of `router.transfer`, which the option is documented to limit
  (RebalancePolicy.ts:63), only if none of them fails either, because failed calls are not recorded
  (`CallsSpacedIff`).
- A single spike is documented not to start a rebalance (RebalancePolicy.ts:144). With the default
  percentile that holds exactly for windows of 21 samples or more (`SingleSpikeIff`). A larger
  percentile is documented to be slower to act (RebalancePolicy.ts:116). It never is
  (`LargerPercentileReactsMore`), and it is quicker for some window of every size above one
  (`ReactsAlikeIff`). A percentile outside the range from 0 to 1 turns the dampening off
  (`SpikesAreDampenedIff`).
- The guard against rebalancing everywhere at once works exactly for thresholds that are not negative
  (`SomeoneStaysIff`).
- A join is documented to fire once (PipelineExecutor.ts:862). It does over all interleavings exactly
  when at most one of its arrivals is in progress at a time, whatever its mode and its incoming edges
  (`FiresAtMostOnceIff`).
- A join that has been announced decides to fire at most once more, however many arrivals overlap
  (`FiresOnceMore`).
- Deep merge commutes exactly on conflict-free contexts and is not associative in general
  (`CommutesIff`, `AssociatesIff`, `NotAssociative`); a join's merged context is independent of
  arrival order exactly when no two branches conflict (`OrderFreeIff`).
- `cancel` settles every step, at every point of a run and while it winds down, exactly when that run
  never starts a node that is in flight (`CancelSettlesIff`). On the definition it is enough that no
  edge leads to the trigger, at most one to any other node, and no join is downstream of a fork
  (`TreeSettles`); if arrivals at joins come one at a time, joins and forks are free (`SerialSettles`).
  Without one or the other a step can be left running: by two edges into a node, by two edges into a
  join, and by a failed branch reported to a join with one edge (`DoubleEntryCanStrand`,
  `DoubleEntryJoinStrands`, `ReportedFailureStrands`).
- A rate-limit check throws exactly when its own eviction removes the bucket it is about to use
  (`ThrowsIff`), and every limiter can come to that, whatever its options (`EveryLimiterCanThrow`).
- A half-open breaker can get stuck exactly when `successThreshold > halfOpenMaxCalls`
  (`NeverStuckIff`).
- Every dependency of a registered module stays registered, at every point of a run and however its
  pending unregistrations end, exactly when no accepted registration lists a module that is being
  unregistered (`StaysClosedIff`).
- A message that waits in the batcher waits for a timer that will fire, exactly when no timer has fired
  on an empty queue (`AlwaysTimelyIff`). `flushByPriority` empties queues without clearing their timer;
  the timer then leaves its table entry behind, and no further one is set (`PriorityFlushStrands`).
- The batcher's age limit is meant for the oldest message of a queue (MessageBatcher.ts:173). It looks at
  the last one in priority order, so an added message can leave one waiting that is too old, unless it
  brings the queue to a limit or none was waiting (`AgeLimitIff`, `OldMessageWaits`).
- The stop order lists dependencies before their dependents, the opposite of the comment at
  ApplicationRegistry.ts:48 (`CalculateStopOrder`, `DocumentedOrderIff`, `DocumentedOrderFails`).

## Model

| member | source | states |
|---|---|---|
| `StableSort.SortIsStable` | src/routing/ConsistentHashRing.ts:33 | the sort is an ordered permutation that keeps the order of equal keys |
| `StableSort.Unique` | src/routing/ConsistentHashRing.ts:33 | two ordered sequences that agree on the elements of every key are equal, so the stable sort is unique |
| `StableSort.FilterSort` | src/routing/ConsistentHashRing.ts:33-40 | filtering before or after a stable sort gives the same sequence |
| `EventLog.EventsPicked` | src/messaging/EventBus.ts:379 | the events of a log are those of exactly the lines the bus wrote, each at its own place, in file order |
| `EventLog.EventsIn` | src/messaging/EventBus.ts:379 | an event is in the log if and only if the bus wrote a line with it |
| `EventLog.EventsCount` | src/messaging/EventBus.ts:409 | there are as many events as lines the bus wrote |
| `EventLog.FindSlot` | src/messaging/EventBus.ts:422-428 | the binary search returns the number of events below the version |
| `EventLog.BoundedStep` | src/messaging/EventBus.ts:420-441 | one step of the trimmed bucket is the suffix of one step of the never-trimmed one, for every log including repeated versions |
| `EventLog.UpdateBucket` | src/messaging/EventBus.ts:421-441 | the bucket is the last `keep` of all events of the type put in order |
| `EventLog.StreamBuckets` | src/messaging/EventBus.ts:402-444 | after the stream each type seen has its bucket of the `keep` highest events, in order of first appearance, and the count is the number of lines the bus wrote |
| `EventLog.Compact` | src/messaging/EventBus.ts:395-482 | the streaming pass, the gathering and the final sort compute `Compacted`, for every log and every limit; everything kept is a line the bus wrote, and the entries read are as many as there are such lines |
| `EventLog.CompactedMembers` | src/messaging/EventBus.ts:402-482 | with distinct versions, an event is kept if and only if fewer than `keep` events of its type are newer |
| `EventLog.CompactedAscending` | src/messaging/EventBus.ts:482 | the kept events are in strictly ascending version order |
| `EventLog.CompactedSize` | src/messaging/EventBus.ts:445-449 | the number kept is the sum over types of min(keep, events of the type), for every log |
| `EventLog.CompactedCount` | src/messaging/EventBus.ts:402-482 | for every log and limit each event is kept as often as its bucket holds it, and no more often than it was there |
| `EventLog.CompactedKeepsHighest` | src/messaging/EventBus.ts:402-482 | for every log, repeated versions included: if a copy of an event is dropped, every kept event of its type has a version at least as high |
| `EventLog.CompactedPerType` | src/messaging/EventBus.ts:420-449 | for every log the number kept of each type is min(keep, events of the type) |
| `EventLog.CompactedSorted` | src/messaging/EventBus.ts:482 | for every log the kept events are in version order |
| `EventLog.CompactedNotLonger` | src/messaging/EventBus.ts:515-519 | for every log and limit no more events are kept than there were |
| `EventLog.CompactedTypes` | src/messaging/EventBus.ts:520 | a compaction that keeps anything keeps something of every type, so the types visited are those of the log |
| `EventLog.CompactedTwice` | src/messaging/EventBus.ts:390-482 | compacting to m and then to n is compacting to the smaller of the two |
| `EventLog.ReplayStream` | src/messaging/EventBus.ts:369-388 | the stream yields the events of exactly the lines the bus wrote with the given version or a higher one, each at its own place, in file order |
| `EventLog.ReplayKeepsEvents` | src/messaging/EventBus.ts:369-388 | a replay of a type from a version loses no event to a compaction if and only if at most `keep` events of the type have that version or more |
| `EventLog.ReplayUnchanged` | src/messaging/EventBus.ts:369-388 | for every log with distinct versions, what a subscriber to a type sees of a replay is the same sequence after a compaction if and only if at most `keep` events were wanted and it was in version order before |
| `EventLog.RestoreVersion` | src/messaging/EventBus.ts:131-142 | the restore loop computes the highest version among the lines the bus wrote, 0 if there is none |
| `EventLog.CompactedMaxVersion` | src/messaging/EventBus.ts:508-513 | keeping at least one event per type keeps the highest version |
| `EventLog.CompactedCovers` | src/messaging/EventBus.ts:402-452 | an event in the log or superseded by n newer ones of its type stays so under any compaction that keeps at least n |
| `BusProtocol.RunKeepsInv` | src/messaging/EventBus.ts:131-146 | the protocol invariant holds after every run of publish phases, undisturbed compactions and crashes |
| `BusProtocol.BroadcastSafety` | src/messaging/EventBus.ts:196-239 | over every run whose compactions are undisturbed and keep at least n >= 1 per type: logged and broadcast versions are distinct, and every broadcast event is in the durable log unless n newer ones of its type are |
| `BusProtocol.VersionsAreConsecutive` | src/messaging/EventBus.ts:200-209 | in every run without a crash the k-th publish gets version k; in every run at all a compaction leaves the counter alone, although it provides for raising it |
| `VersionReuse.WipingRepeatsVersions` | src/messaging/EventBus.ts:411 | a compaction that keeps nothing lets a version be broadcast twice |
| `VersionReuse.LostAppendRepeatsVersions` | src/messaging/EventBus.ts:402-457 | so does an append between the reading and the swap of a compaction, whatever it keeps |
| `VersionReuse.SwapCrashRepeatsVersions` | src/messaging/EventBus.ts:461-496 | so does a crash after the old log is deleted and before the new one is written |
| `VersionReuse.VersionsNeverRepeatIff` | src/messaging/EventBus.ts:75-77 | no run repeats a broadcast version if and only if compaction keeps at least one event per type, no append comes between its reading and its swap, and no crash falls into the swap |
| `ReplayOrder.RunKeepsOrder` | src/messaging/EventBus.ts:200-231 | with one publish at a time between assignment and append the log stays in version order over every run, compactions and crashes included |
| `ReplayOrder.AppendsMayReorder` | src/messaging/EventBus.ts:200-231 | a run of two overlapping publishes whose replay is out of version order |
| `ReplayOrder.ReplaysInOrderIff` | src/messaging/EventBus.ts:361-388 | over all runs with at most w publishes between assignment and append, every replay from every version is in version order if and only if w <= 1 |
| `BusObject.EventBus.Safe` | src/messaging/EventBus.ts:196-239 | the safety of broadcasts as a fact about the fields of any bus in a state it can be in |
| `BusObject.EventBus.AssignVersion` | src/messaging/EventBus.ts:200-209 | the next version is assigned; one step of the protocol |
| `BusObject.EventBus.AppendEntry` | src/messaging/EventBus.ts:217-227 | the event goes to the end of the log; one step of the protocol |
| `BusObject.EventBus.SyncLog` | src/messaging/EventBus.ts:228-231 | everything logged becomes durable; one step of the protocol |
| `BusObject.EventBus.Deliver` | src/messaging/EventBus.ts:233 | the synced event is broadcast; one step of the protocol |
| `BusObject.EventBus.ReadForCompaction` | src/messaging/EventBus.ts:390-449 | the kept events, all lines of the log the bus wrote, and the number of such lines; something of every type is kept unless nothing is |
| `BusObject.EventBus.SwapLog` | src/messaging/EventBus.ts:451-521 | the log is rewritten as the kept events and synced, the counter never falls below them; entries kept and removed add up to those read, and the types of the new log are counted |
| `BusObject.EventBus.Restart` | src/messaging/EventBus.ts:119-146 | after a crash the counter is the highest version of what survived |
| `HashRing.WalkSplits` | src/routing/ConsistentHashRing.ts:76-88 | on an ordered ring the walk from a key is the part at or after its hash, then the part before |
| `HashRing.DecimalDenotes` | src/routing/ConsistentHashRing.ts:22 | replica numbers are written in decimal digits that denote them, without leading zeros |
| `HashRing.VirtualKeysDiffer` | src/routing/ConsistentHashRing.ts:22 | no two virtual nodes are hashed from the same string, whatever the nodes are called |
| `HashRing.PreferenceNodes` | src/routing/ConsistentHashRing.ts:67-97 | a preference list names every node of the ring exactly once, in the order in which they first come in the walk |
| `HashRing.RemoveKeepsPreferences` | src/routing/ConsistentHashRing.ts:39-41 | after removing a node every key's full preference list is the old one without that node |
| `HashRing.RemoveMovesOnlyOwnKeys` | src/routing/ConsistentHashRing.ts:39-62 | only keys owned by the removed node change their owner |
| `HashRing.AddThenRemove` | src/routing/ConsistentHashRing.ts:20-41 | adding a new node and removing it again restores the ring exactly |
| `HashRing.AddMovesKeysOnlyToNewNode` | src/routing/ConsistentHashRing.ts:20-34 | a new node only inserts itself into preference lists, so each key keeps its owner or gets the new node |
| `HashRing.OwnerLeadsPreference` | src/routing/ConsistentHashRing.ts:46-97 | the owner is the head of the preference list, and there is none exactly on an empty ring |
| `HashRing.BuildSortsOnce` | src/routing/ConsistentHashRing.ts:102-110 | sorting after every added node equals sorting all virtual nodes once |
| `HashRing.BuildIn` | src/routing/ConsistentHashRing.ts:20-34 | the ring holds exactly the virtual nodes of its nodes, each with the hash of its own string |
| `HashRing.ConsistentHashRing.AddNode` | src/routing/ConsistentHashRing.ts:20-34 | the new ring is the stable sort of the old one and the node's virtual nodes |
| `HashRing.ConsistentHashRing.RemoveNode` | src/routing/ConsistentHashRing.ts:39-41 | the ring without the node, still ordered |
| `HashRing.ConsistentHashRing.GetNode` | src/routing/ConsistentHashRing.ts:46-62 | the owner of the key: the first virtual node at or after its hash, wrapping around |
| `HashRing.ConsistentHashRing.GetNodes` | src/routing/ConsistentHashRing.ts:67-97 | min(count, nodes of the ring) distinct nodes: those that come first in the walk, in its order, and none before them is skipped |
| `HashRing.ConsistentHashRing.Rebuild` | src/routing/ConsistentHashRing.ts:102-110 | the ring built from the alive members: it holds exactly the virtual nodes of members listed as alive |
| `Placement.SelectNode` | src/routing/PlacementStrategy.ts:31-36 | the owner on a ring built from the candidates, which is one of them; the local node if there are no candidates or no virtual nodes |
| `Placement.SameRing` | src/routing/PlacementStrategy.ts:24-37 | without cross-node hash ties the ring does not depend on the order of the members |
| `Placement.AgreementIff` | src/routing/PlacementStrategy.ts:15-37 | every order of the members gives every key the same owner if and only if no two nodes share a virtual-node hash |
| `Placement.OneReclaims` | src/routing/AutoReclaimPolicy.ts:55-74 | without ties exactly one survivor selects itself for an orphan, whatever order each sees the others in |
| `Placement.ReclaimIff` | src/routing/AutoReclaimPolicy.ts:55-74 | with two or more survivors that holds for all orphans and views if and only if nodes have virtual nodes and no ties |
| `Placement.AutoReclaimPolicy.HandleOrphaned` | src/routing/AutoReclaimPolicy.ts:55-74 | a claim timer is set exactly when the node selects itself, otherwise the orphan is recorded as skipped |
| `Rebalance.WalkOwned` | src/routing/RebalancePolicy.ts:503-527 | the planned transfers: exactly the owned resources whose selected node is another member, to that node; skipped plus planned is the number owned |
| `Rebalance.PlanInOrder` | src/routing/RebalancePolicy.ts:507-527 | transfers are planned in the order the resources are listed |
| `Rebalance.PlanAgrees` | src/routing/RebalancePolicy.ts:507-527 | whatever order the node sees the members in, it plans exactly the moves to the agreed ideal owners |
| `Rebalance.StepMakesProgress` | src/routing/RebalancePolicy.ts:529-541 | of all interleaved steps only a successful transfer moves a resource: one misplaced resource of the pass's node, straight to its ideal owner, lowering the misplaced count by one |
| `Rebalance.TransfersAreConserved` | src/routing/RebalancePolicy.ts:503-541 | over every interleaving of passes successes plus still misplaced equals initially misplaced, and nothing on its ideal owner moves |
| `Rebalance.Convergence` | src/routing/RebalancePolicy.ts:185-187 | once every owner has completed one pass without failures, however the passes interleaved, every resource is on its ideal owner |
| `Rebalance.RebalancePolicy.EvictAged` | src/routing/RebalancePolicy.ts:367-374 | what is left is the end of the window behind samples that are all too old, and holds exactly the samples that are not |
| `Rebalance.RebalancePolicy.PercentileOfWindow` | src/routing/RebalancePolicy.ts:366-388 | too old samples leave, all others stay, and the result is the interpolated percentile of their loads |
| `Rebalance.RebalancePolicy.Measure` | src/routing/RebalancePolicy.ts:397-406 | the local load is the sum of what can be measured, its sample is recorded behind the others, too old samples leave, and the percentile is that of the window |
| `ClusterLoad.TotalCountsEach` | src/routing/RebalancePolicy.ts:397-401 | each resource adds its own load to the sum wherever it is listed, nothing if it cannot be measured or is negative |
| `Rebalance.RebalancePolicy.Judge` | src/routing/RebalancePolicy.ts:408-501 | no verdict without a provider or another node's load; else the two gates are applied to the load and the dampened load over the mean of the local load and those of the other nodes |
| `ClusterLoad.ClusterMean` | src/routing/RebalancePolicy.ts:439-461 | the mean of the local load and those reported for the other nodes, whatever is reported for the local one; none if no other node is known |
| `ClusterLoad.SomeoneStaysIff` | src/routing/RebalancePolicy.ts:176-184 | when two or more nodes judge by the same loads one of them does not rebalance, whatever their windows, if and only if the threshold is not negative |
| `Rebalance.RebalancePolicy.WaitForThrottleSlot` | src/routing/RebalancePolicy.ts:568-592 | the least wait after which a transfer recorded before any other respects the limit, whatever else is in flight |
| `Throttle.WaitIsLeast` | src/routing/RebalancePolicy.ts:568-592 | from any time on a recorded transfer respects the limit if and only if that time has reached the end of the wait |
| `Rebalance.RebalancePolicy.RecordTransfer` | src/routing/RebalancePolicy.ts:559-564 | the time is recorded and the stored ones trimmed; a spaced history stays spaced if the transfer had its slot, although only the last `limit` times are stored |
| `Dampening.PercentileOf` | src/routing/RebalancePolicy.ts:375-387 | computes the percentile of the loads, 0 on an empty window; a configured percentile outside the range from 0 to 1 gives NaN as soon as there are two samples |
| `Dampening.JudgeIff` | src/routing/RebalancePolicy.ts:463-501 | below threshold, dampened or rebalance, each if and only if the load is (not) above 1 + threshold times a positive mean and the dampened load is (not) within 1 + 0.85 threshold times it |
| `Dampening.WithstandsIff` | src/routing/RebalancePolicy.ts:366-388 | no k spikes among n samples can push the percentile above the others if and only if its rank is at most n-1-k |
| `Dampening.SpikesNeverRebalance` | src/routing/RebalancePolicy.ts:475-501 | up to k spikes never start a rebalance while all other samples are within the dampened gate |
| `Dampening.SpikesAreDampenedIff` | src/routing/RebalancePolicy.ts:366-501 | that holds for all windows of n samples that end with the current load if and only if the percentile is between 0 and 1 and its rank at most n-1-k, or the dampened gate is negative and k < n |
| `Dampening.SingleSpikeIff` | src/routing/RebalancePolicy.ts:140-145 | with the default percentile a single spike never starts a rebalance if and only if the window has 21 samples or more (or the gate is negative) |
| `Dampening.LargerPercentileReactsMore` | src/routing/RebalancePolicy.ts:112-118 | whatever window starts a rebalance with a percentile starts one with every larger percentile |
| `Dampening.ReactsAlikeIff` | src/routing/RebalancePolicy.ts:112-118 | two percentiles p <= q decide every window of n samples alike if and only if n is 1 or they are equal |
| `Throttle.TransfersAreSpaced` | src/routing/RebalancePolicy.ts:550-592 | over every run with one transfer in flight at a time any limit+1 consecutive recorded transfers span at least 1000 ms |
| `Throttle.OverlappingTransfersExceedLimit` | src/routing/RebalancePolicy.ts:324-342 | two transfers in flight already record limit+1 transfers at one instant, for every limit |
| `Throttle.FailingTransfersExceedLimit` | src/routing/RebalancePolicy.ts:558-564 | failing calls, one at a time, are made limit+1 at one instant, for every limit |
| `Throttle.RecordsSpacedIff` | src/routing/RebalancePolicy.ts:550-592 | over all runs with at most w transfers in flight the recorded transfers respect the limit if and only if w <= 1 |
| `Throttle.CallsSpacedIff` | src/routing/RebalancePolicy.ts:63-67 | over all such runs the calls of `router.transfer` respect the limit if and only if there are none, or w is 1 and none fails |
| `JoinGate.FiringDecides` | src/applications/pipeline/PipelineExecutor.ts:937-992 | when a join fires early, every completion of its arrivals in every order has the same verdict |
| `JoinGate.FailedIff` | src/applications/pipeline/PipelineExecutor.ts:975-992 | the fail decision is false if and only if every branch completed (all), some branch did (any), or at least min(n, connected) did (n_of_m) |
| `JoinGate.FiresWhenDecided` | src/applications/pipeline/PipelineExecutor.ts:937-960 | an all join has fired if and only if every connected edge has reported, a join of another mode if and only if the missing branches cannot change its verdict |
| `JoinGate.VerdictIsFinal` | src/applications/pipeline/PipelineExecutor.ts:937-992 | the verdict at the first firing prefix is that of the full set of arrivals |
| `JoinGate.FiredWhenAllReported` | src/applications/pipeline/PipelineExecutor.ts:928-960 | a join has fired once every connected edge has reported |
| `JoinGate.VerdictIgnoresOrder` | src/applications/pipeline/PipelineExecutor.ts:928-992 | the verdict is the same for every order of arrival |
| `JoinGate.FiresOnce` | src/applications/pipeline/PipelineExecutor.ts:862-918 | over every run of arrivals at any joins each join fires at most once, at the first arrival that lets it, and later arrivals are dropped |
| `JoinGate.CompleteJoinVerdict` | src/applications/pipeline/PipelineExecutor.ts:852-992 | once as many arrivals have come as there are connected edges a join has fired exactly once, and has passed if and only if those arrivals do |
| `JoinGate.EarlyFiring` | src/applications/pipeline/PipelineExecutor.ts:937-960 | before that it has fired if and only if it is not an all join and its verdict is decided |
| `JoinGate.JoinTable.HandleArrival` | src/applications/pipeline/PipelineExecutor.ts:852-919 | the join tables after one arrival; once as many have come as there are connected edges the join has fired once, and has passed if and only if those arrivals do |
| `JoinGate.JoinTable.Fired` | src/applications/pipeline/PipelineExecutor.ts:852-919 | a join has fired at most once, with the verdict of the first of its arrivals that let it fire; it has passed if and only if as many arrivals as there are connected edges do |
| `JoinRace.RunKeepsInv` | src/applications/pipeline/PipelineExecutor.ts:862-918 | over every interleaving of any number of arrivals the firings number at most the arrivals no longer in progress, and at most one if arrivals do not overlap |
| `JoinRace.SerialIsAtomic` | src/applications/pipeline/PipelineExecutor.ts:852-919 | arrivals that do not overlap announce exactly what the single-step join announces for them |
| `JoinRace.SerialVerdict` | src/applications/pipeline/PipelineExecutor.ts:852-992 | so once as many have come as there are connected edges the join has announced one verdict, passed if and only if those arrivals do |
| `JoinRace.FiresOnceMore` | src/applications/pipeline/PipelineExecutor.ts:909-910 | however many arrivals overlap, once a join has been announced it decides to fire at most once more |
| `JoinRace.HitsFireTwice` | src/applications/pipeline/PipelineExecutor.ts:896-918 | two overlapping arrivals can fire a join of any mode and any number of incoming edges twice |
| `JoinRace.FiresAtMostOnceIff` | src/applications/pipeline/PipelineExecutor.ts:862-918 | over all interleavings with at most w arrivals in progress a join fires at most once if and only if w <= 1 |
| `DownstreamJoin.FindDownstreamJoin` | src/applications/pipeline/PipelineExecutor.ts:473-503 | terminates on every graph, finds nothing exactly when no join is reachable (or the start is a join with no edge to report), else a join at minimum distance with an edge into it |
| `DownstreamJoin.Frontier` | src/applications/pipeline/PipelineExecutor.ts:482-501 | whatever is reachable in d steps has been visited by then, or the queue is not past d |
| `ContextMerge.DeepMerge` | src/applications/pipeline/PipelineExecutor.ts:1247-1268 | the loop over the entries computes the recursive merge |
| `ContextMerge.MergeAt` | src/applications/pipeline/PipelineExecutor.ts:1247-1268 | at every path the merge of two contexts holds a value if and only if the second has it there, or the first does and the second writes nothing there or above |
| `ContextMerge.CommutesIff` | src/applications/pipeline/PipelineExecutor.ts:1247-1268 | merging commutes if and only if the contexts have no conflict |
| `ContextMerge.AssociatesIff` | src/applications/pipeline/PipelineExecutor.ts:1247-1268 | merging three contexts is associative if and only if no path has objects outside and something else between, unless the last covers the first |
| `ContextMerge.NotAssociative` | src/applications/pipeline/PipelineExecutor.ts:1247-1268 | a concrete triple on which merging is not associative |
| `ContextMerge.MergeJoinContexts` | src/applications/pipeline/PipelineExecutor.ts:1057-1064 | the fold over all arrivals' contexts |
| `ContextMerge.LastWriterWins` | src/applications/pipeline/PipelineExecutor.ts:1053-1065 | at every path the merged context holds a value if and only if some context has it there and no later one writes over it |
| `ContextMerge.MergeIgnoresOrder` | src/applications/pipeline/PipelineExecutor.ts:1053-1065 | pairwise conflict-free contexts merge to the same result in every order |
| `ContextMerge.OrderFreeIff` | src/applications/pipeline/PipelineExecutor.ts:1053-1065 | the merged context is the same in every order if and only if no two contexts conflict |
| `Cancellation.RunKeepsInv` | src/applications/pipeline/PipelineExecutor.ts:534-602 | at every await of every run without self-overlap a running or awaiting step is in the frontier |
| `Cancellation.CancelKeepsOutcomes` | src/applications/pipeline/PipelineExecutor.ts:284-294 | cancel keeps every recorded outcome in every run, and turns every live step into a cancelled one in runs without self-overlap |
| `Cancellation.RunTells` | src/applications/pipeline/PipelineExecutor.ts:534-602 | in every run without self-overlap a node has a record if and only if something has happened to it, and the record says what happened last: running, awaiting, completed or failed |
| `Cancellation.CancelTells` | src/applications/pipeline/PipelineExecutor.ts:264-313 | cancel then leaves a node completed or failed if and only if that was last reported, cancelled if and only if something had happened to it but no end was reported last, skipped if and only if nothing had |
| `Cancellation.OverlapStrandsStep` | src/applications/pipeline/PipelineExecutor.ts:540-602 | from any state, starting a node that is in flight lets cancel leave it running after at most two more steps |
| `Cancellation.CancelSettlesIff` | src/applications/pipeline/PipelineExecutor.ts:264-321 | for every run, cancel leaves every node of the definition with a settled step at every point of it and while it winds down, if and only if the run never starts a node that is in flight |
| `Traversal.SerialSettles` | src/applications/pipeline/PipelineExecutor.ts:390-532 | with arrivals one at a time at every join, cancel settles every step at any point of any run, if no edge leads to the trigger and at most one to any other node that is not a join |
| `Traversal.TreeSettles` | src/applications/pipeline/PipelineExecutor.ts:390-532 | with arrivals interleaving freely, so does it if no edge leads to the trigger, at most one to any other node, and no join is downstream of a fork |
| `Traversal.RefiredJoinCanStrand` | src/applications/pipeline/PipelineExecutor.ts:1047-1050 | in any run, a join that fires again while a node it leads to is at work lets cancel leave that node running |
| `Traversal.EdgesMatchOutcomes` | src/applications/pipeline/PipelineExecutor.ts:1047-1050 | in every run an error edge out of a join is chosen only if the join has fired as failed, any other edge only if it has fired as passed |
| `Traversal.FiringOpens` | src/applications/pipeline/PipelineExecutor.ts:1002-1050 | a firing join announces whether its arrivals pass and opens exactly its "out" edges if they do, exactly its "error" edges otherwise |
| `StrandedSteps.DoubleEntryCanStrand` | src/applications/pipeline/PipelineExecutor.ts:458-464 | two edges that the trigger follows together to one node let cancel leave a step running |
| `StrandedSteps.DoubleEntryJoinStrands` | src/applications/pipeline/PipelineExecutor.ts:896-918 | so do two edges into a join of any mode, in a definition that meets every other condition |
| `StrandedSteps.ReportedFailureStrands` | src/applications/pipeline/PipelineExecutor.ts:427-454 | so does a failed fork branch reported to a join, in a definition with one edge into every node |
| `Cancellation.StepTable.BeginNode` | src/applications/pipeline/PipelineExecutor.ts:540-551 | the step is recorded as running and enters the frontier |
| `Cancellation.StepTable.EndNode` | src/applications/pipeline/PipelineExecutor.ts:573-597 | the outcome goes to the execution's own record |
| `Cancellation.StepTable.LeaveNode` | src/applications/pipeline/PipelineExecutor.ts:599-601 | the node leaves the frontier |
| `Cancellation.StepTable.MarkAwaiting` | src/applications/pipeline/PipelineExecutor.ts:786-787 | the record under the node's id becomes awaiting |
| `Cancellation.StepTable.BeginJoin` | src/applications/pipeline/PipelineExecutor.ts:868-887 | the join's step is recorded as running on its first arrival and enters the frontier |
| `Cancellation.StepTable.SettleJoin` | src/applications/pipeline/PipelineExecutor.ts:1002-1036 | the join leaves the frontier and gets its outcome in one step |
| `Cancellation.StepTable.Cancel` | src/applications/pipeline/PipelineExecutor.ts:264-313 | before the run or a second time nothing changes; else live frontier steps become cancelled, unreached nodes skipped, all else stays, and every step is settled if no node was started while in flight |
| `RateLimiter.RefillTwice` | src/common/RateLimiter.ts:41-45 | refilling at two times is refilling at the later one |
| `RateLimiter.EarnedIsProduct` | src/common/RateLimiter.ts:43 | the yield of n milliseconds is n times the refill rate |
| `RateLimiter.CheckSpends` | src/common/RateLimiter.ts:47-80 | a check that does not throw decides on the key's level and takes one token if there is one; one that throws takes nothing |
| `RateLimiter.CheckLeavesOthers` | src/common/RateLimiter.ts:47-80 | a check, evicting or not, changes no other key's level now or later |
| `RateLimiter.BurstBound` | src/common/RateLimiter.ts:41-84 | in any interval of d ms of any run the checks of a key that return allowed number at most burstLimit + d * maxRequests / windowMs, and another burstLimit for every reset of the key |
| `RateLimiter.RetryAfterIsLeast` | src/common/RateLimiter.ts:72-79 | after a denial a check m ms later is allowed if and only if burstLimit >= 1 and m >= retryAfter |
| `RateLimiter.ResetAtIsLeast` | src/common/RateLimiter.ts:64-73 | the bucket is full at a later time if and only if that time has reached resetAt |
| `RateLimiter.RemainingIsExact` | src/common/RateLimiter.ts:62-70 | of whatever checks follow at the same instant, evicting or not, exactly the first `remaining` of the key are allowed |
| `RateLimiter.ResetRestores` | src/common/RateLimiter.ts:82-84 | a reset makes the key's level full and touches no other |
| `RateLimiter.ThrowsIff` | src/common/RateLimiter.ts:50-60 | a check throws if and only if its eviction removes the bucket it is about to use |
| `RateLimiter.EveryLimiterCanThrow` | src/common/RateLimiter.ts:50-60 | whatever the options, some run from the empty limiter has a check that throws |
| `RateLimiter.EvictionInvisible` | src/common/RateLimiter.ts:97-107 | evicting idle full buckets changes no key's level now or later |
| `RateLimiter.StatsInvisible` | src/common/RateLimiter.ts:109-115 | the refill done for statistics changes no key's level now or later |
| `RateLimiter.EvictionAndStatsInvisible` | src/common/RateLimiter.ts:41-115 | in every run the results of the checks that do not throw are those of a limiter that never evicts, keeps no statistics and is not asked the throwing checks |
| `RateLimiter.RateLimiter.EvictIdle` | src/common/RateLimiter.ts:97-107 | the loop removes exactly the idle full buckets |
| `RateLimiter.RateLimiter.CheckKey` | src/common/RateLimiter.ts:47-80 | the new buckets and the result of one check |
| `RateLimiter.RateLimiter.ResetKey` | src/common/RateLimiter.ts:82-84 | the key's level is full afterwards, every other level is as before |
| `RateLimiter.RateLimiter.StatsOf` | src/common/RateLimiter.ts:109-115 | the refilled bucket and its whole tokens, nothing for an unknown key |
| `CircuitBreaker.RunKeepsInv` | src/transport/CircuitBreaker.ts:71-254 | the breaker invariant holds after every run of overlapping calls, timers, resets and forced opens |
| `CircuitBreaker.BreakerSafety` | src/transport/CircuitBreaker.ts:71-254 | failures stay below the threshold while CLOSED, no half-open episode admits more than the limit, a timer is armed exactly while OPEN and not forced, and once OPEN no call starts until the timer fires or the breaker is reset |
| `CircuitBreaker.CircuitBreaker.Safe` | src/transport/CircuitBreaker.ts:71-254 | the same limits as a fact about the fields of any breaker in a state it can be in |
| `CircuitBreaker.NeverStuckIff` | src/transport/CircuitBreaker.ts:78-89 | a half-open breaker with no probe in flight always admits a call if and only if successThreshold <= halfOpenMaxCalls |
| `CircuitBreaker.OpensIffBurst` | src/transport/CircuitBreaker.ts:136-171 | a closed breaker opens if and only if some stretch of outcomes has failureThreshold more failures than successes; until then the failure count is the largest excess up to now |
| `CircuitBreaker.ModeChanges` | src/transport/CircuitBreaker.ts:71-254 | over every run each step changes the mode as stated: CLOSED opens on a failure that completes a burst, OPEN goes half-open when the timer fires, HALF_OPEN opens on any failure and closes on the success that reaches the threshold, reset closes, forceOpen opens; a failure that opens arms the timer; a call is let through if and only if CLOSED, or HALF_OPEN with fewer calls tried than the limit |
| `CircuitBreaker.CircuitBreaker.BeginCall` | src/transport/CircuitBreaker.ts:71-89 | the call is admitted if and only if the breaker is CLOSED, or HALF_OPEN with fewer calls tried than the limit; the state with it in flight |
| `CircuitBreaker.CircuitBreaker.EndCallSucceeded` | src/transport/CircuitBreaker.ts:136-150 | the state after a success, whatever mode the call started in; HALF_OPEN closes if and only if it is the success that reaches the threshold |
| `CircuitBreaker.CircuitBreaker.EndCallFailed` | src/transport/CircuitBreaker.ts:155-171 | the state after a failure, whatever mode the call started in; HALF_OPEN always opens, CLOSED if and only if a burst is complete, and opening arms the timer |
| `CircuitBreaker.CircuitBreaker.TimerCallback` | src/transport/CircuitBreaker.ts:205-210 | an open breaker begins a half-open episode with cleared counters |
| `CircuitBreaker.CircuitBreaker.ManualReset` | src/transport/CircuitBreaker.ts:228-239 | closed, counters cleared, timer disarmed |
| `CircuitBreaker.CircuitBreaker.ForceToOpen` | src/transport/CircuitBreaker.ts:244-254 | open, timer disarmed, counters kept |
| `ModuleRegistry.RegisterKeepsInv` | src/applications/ApplicationRegistry.ts:69-92 | registration keeps every dependency registered, and registered first |
| `ModuleRegistry.UnregisterKeepsInv` | src/applications/ApplicationRegistry.ts:118-147 | so does unregistration, which is refused while there are dependents |
| `ModuleRegistry.RegisterIff` | src/applications/ApplicationRegistry.ts:69-92 | a registration is accepted if and only if the id is new and all dependencies are registered, and comes last; otherwise nothing changes, and the first missing dependency is named |
| `ModuleRegistry.UnregisterIff` | src/applications/ApplicationRegistry.ts:118-147 | an unregistration goes through if and only if the module is registered, nobody lists it and it stops, and leaves all others as they were; otherwise nothing changes, and the dependents are named |
| `ModuleRegistry.RegisterThenUnregister` | src/applications/ApplicationRegistry.ts:69-147 | unregistering right after a registration restores the registry |
| `ModuleRegistry.ClosedAndAcyclic` | src/applications/ApplicationRegistry.ts:69-147 | in every reachable registry every dependency is registered and no chain of dependencies returns to its start |
| `ModuleRegistry.RegisteredTooLate` | src/applications/ApplicationRegistry.ts:118-142 | a run in which a module registered while its dependency is being stopped is left without it |
| `ModuleRegistry.StaysClosedIff` | src/applications/ApplicationRegistry.ts:69-147 | for every run, every dependency is registered at every point of it and however the pending unregistrations end, if and only if no accepted registration lists a module that is being unregistered |
| `ModuleRegistry.GetDependents` | src/applications/ApplicationRegistry.ts:285-293 | exactly the modules that list the given one, in registration order |
| `ModuleRegistry.Visit` | src/applications/ApplicationRegistry.ts:300-311 | lists the module and all its dependents, dependents first, and nothing twice |
| `ModuleRegistry.CalculateStopOrder` | src/applications/ApplicationRegistry.ts:295-318 | every registered module exactly once, each after everything it depends on |
| `ModuleRegistry.DocumentedOrderIff` | src/applications/ApplicationRegistry.ts:48-50 | the order stops dependents before dependencies if and only if no module has a dependency |
| `ModuleRegistry.DocumentedOrderFails` | src/applications/ApplicationRegistry.ts:48-50 | a registry reached by two registrations for which no order the search may return does |
| `ModuleRegistry.ApplicationRegistry.RegisterModule` | src/applications/ApplicationRegistry.ts:69-113 | the registry and module state after a registration, with the error of a failed initialisation, or which check refused it and that nothing changed |
| `ModuleRegistry.ApplicationRegistry.UnregisterModule` | src/applications/ApplicationRegistry.ts:118-147 | the registry after an unregistration, or which check refused it and that nothing changed |
| `MessageBatcher.RunKeepsInv` | src/transport/MessageBatcher.ts:79-351 | over every run of adds and flushes: per destination and priority, emitted then pending is exactly what was added, in order; urgent messages are emitted in order; queues are priority-ordered and below both limits |
| `MessageBatcher.EmittedOrPending` | src/transport/MessageBatcher.ts:79-351 | every message is emitted or pending exactly as often as it was added |
| `MessageBatcher.WaitsByPriority` | src/transport/MessageBatcher.ts:112-113 | over every run what waits for a destination is in order of descending priority |
| `MessageBatcher.AddFlushesIff` | src/transport/MessageBatcher.ts:101-181 | over every run an added message is emitted together with all that waits for its destination if and only if it brings the queue to the count or byte limit, or outranks a last message that is too old; otherwise all of it waits |
| `MessageBatcher.AgeLimitIff` | src/transport/MessageBatcher.ts:173-178 | no message that is too old waits after an add if and only if the add reached a limit or none waited before |
| `MessageBatcher.OldMessageWaits` | src/transport/MessageBatcher.ts:173-178 | two messages of one priority after which a message as old as the age limit still waits |
| `FlushTimers.AlwaysTimelyIff` | src/transport/MessageBatcher.ts:183-215 | for every run, whatever waits at any point of it or is added next waits for a timer that will fire, if and only if no timer has fired on an empty queue |
| `FlushTimers.IdleTimerStrands` | src/transport/MessageBatcher.ts:186-205 | once a timer has fired on an empty queue the next message to its destination waits without one |
| `FlushTimers.PriorityFlushStrands` | src/transport/MessageBatcher.ts:330-345 | a run in which a flush by priority leads to that |
| `MessageBatcher.Clamp` | src/transport/MessageBatcher.ts:93 | the priority is left alone inside the range from 1 to the number of levels and goes to the nearer end outside it |
| `BatcherObject.MessageBatcher.ShouldFlushQueue` | src/transport/MessageBatcher.ts:158-181 | true exactly when the count, byte or age limit is reached |
| `BatcherObject.MessageBatcher.AddMessage` | src/transport/MessageBatcher.ts:79-126 | an urgent message is emitted, another is queued by priority; its queue is flushed if and only if it brings it to a limit, else a timer is set unless the table has one |
| `BatcherObject.MessageBatcher.FlushDestination` | src/transport/MessageBatcher.ts:201-227 | the whole queue of the destination is emitted and its timer cleared, nothing changes if the queue is empty |
| `BatcherObject.MessageBatcher.TimerCallback` | src/transport/MessageBatcher.ts:191-193 | the flush by a timer; the table stays current if there was something to flush |
| `BatcherObject.MessageBatcher.FlushAll` | src/transport/MessageBatcher.ts:316-325 | nothing is left pending |
| `BatcherObject.MessageBatcher.FlushByPriority` | src/transport/MessageBatcher.ts:330-351 | exactly the messages below the given priority are left pending |

## Left out

- Event bus: handlers, durable subscriptions and checkpoints, the deprecated-name events and metrics.
- Event bus: two compactions at once, a crash that leaves part of the rewritten log, appends that the reader still meets while it reads, and a stop while a publish is in flight.
- Hash ring: the 32-bit MD5 hash itself, `getAllNodes` and `getStats`.
- `LocalPlacement`, `RandomPlacement` and `LeastLoadedPlacement`: single expressions or a running minimum.
- Reclaim: claiming after the timer fires, and re-checking ownership; these depend on the entity registry.
- Rebalance policy: triggers, jitter and events; a pass whose gates are shut never begins.
- Pipeline executor: node implementations, condition and prompt interpolation, run-level pass or fail, approvals beyond the awaiting mark, and how a failure travels up to the fork that reports it.
- Traversal.TreeSettles: one way only; with exclusive branches, loops or forks that cannot fail some definitions outside it are settled too.
- Traversal.SerialSettles: one way only, for the same reason.
- Context merge: the array-collect and last-writer-wins strategies, aliasing between snapshots, and keys that name members of `Object.prototype`.
- Cancel: what suspended executions and firing joins still do after `cancel` has returned.
- Circuit breaker: call timeouts (a timed-out call is a failed one), option updates, `destroy`, rates, health checks and the breaker manager.
- Application registry: configuration updates, health checks and module contexts.
- Message batcher: compression, batch ids, statistics, `clear` and option updates.
- Connection pool, failure detection, gossip, coordinators, cryptography, forwarding, command line and diagnostics.

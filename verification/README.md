# Timpani: a verified model

Timpani starts time-triggered tasks on several nodes at one agreed instant. An orchestrator
(`timpani-o`, in a Rust and in an older C++ version) takes a workload, computes its hyperperiod,
places its tasks on nodes and CPUs, and hands each node its schedule. Nodes (`timpani-n`) meet at a
start barrier, arm their timers and watch for deadline misses. This project models the parts whose
behaviour is spread over several functions or over time, and proves what holds of them in every run:

* **Start barrier** (`SyncBarrier`, `GrpcServices`). `SyncTimer` and `AddSchedInfo` as a step system:
  one critical section, one channel read or one wake-up is one step; the order of steps, clock
  readings, timer firings and client disconnects are arbitrary. Every workload ever stored is an
  epoch with its own watch channel.
* **Scheduler** (`Tasks`, `Placement`, `PlacementLaws`, `GlobalScheduler`). The three placement
  algorithms over one live load map, admission control and highest-CPU-first packing.
* **Wire format and cache** (`SerialBuffer`, `ScheduleWire`, `ScheduleCache`). The libtrpc stack
  buffer, the schedule that the C++ orchestrator writes into it and a node reads back (integers in
  network byte order, Appendix B of RFC 791), and the cached bytes behind the "changed" flag.
* **Hyperperiod** (`HyperperiodMath`, `HyperperiodManager`, `HyperperiodTimers`). Euclid, the checked
  and the unchecked LCM, the timers that rely on it and the power-of-two fast path.
* **Node monitors** (`ApexMonitor`, `SchedTrace`). The Apex.OS fault windows with their periodic reset
  timer, and the trace program's two maps with a lossy ring buffer.

`Runs` defines runs of a step system, `Division` and `Wrappers` hold small helpers. Where the source
changes fields or loops, there is a class or a method whose contract ties it to a function, and the
laws are proved of that function.

## Assumptions

* The tokio watch channel: a send without receivers stores nothing; `changed()` reports a change when
  the version differs from the one last seen, and an error only when the sender is gone and the
  present version has been seen. A returning or cancelled handler drops its receiver.
* Utilisation is exact (`real`); rounding of `f64` is abstracted away. `f64::MAX` as the starting
  value of a minimum search is "none yet".
* `Config.order` is the iteration order of the sorted node map; `ValidConfig` says that it lists
  exactly the configured nodes in ascending order and that CPU numbers are 32-bit.
* `1u64 << cpu` for a CPU number of 64 or more shifts modulo 64, as a release build does.
* `time_t` and clock readings are unbounded; the common start time is normalised.
* A handler of the Apex monitor and a tracepoint hit are each one step. The D-Bus callback of the C++
  orchestrator is two steps (snapshot, then serialize), and callbacks run one at a time.
* Memory allocation succeeds.

## Where the code and its description differ

* A check-in after the release broadcasts a new start time (`LateCheckInAnswersAnew`), although
  `doc/docs/api.md:201` promises a late joiner the past one, so the acks of one workload may carry
  different start times (`StartTimesMayDiffer`). They agree if and only if no two acknowledging reads
  are separated by late check-ins that change the latest start time (`AcksAgreeExactlyWhen`); in
  particular if there are no late check-ins (`AcksAgreeWithoutLateCheckIns`) or no node repeats its
  check-in (`SingleCheckInsAgree`). The number of broadcasts is known exactly
  (`BroadcastsAreCompletionPlusLate`).
* The transitions listed at `timpani_rust/timpani-o/src/grpc/mod.rs:94-96` are narrower than the code:
  a timeout overwrites a released barrier, also that of a workload which the timed-out call never
  subscribed to, and a later check-in may release it again. "All ack or none" is therefore false
  (`MixedOutcomesHappen`, `EveryTimeoutHitsCurrentWorkload`). A waiting call ends in an ack if and only
  if its own timer has not fired, all nodes have checked in and no timeout has come since the latest
  broadcast (`CallAcksExactlyWhen`).
* A pinned task may leave its pinned CPU (`PinnedTaskMayMove`). It keeps it exactly when that CPU has
  room at the task's turn (`PinnedCpuIsKeptExactlyWhenItHasRoom`).
* The mask that a node downloads is meant to name the assigned CPU. It does so exactly for CPU numbers
  below 64 (`MaskNamesCpuExactlyBelow64`); the shift at
  `timpani_rust/timpani-o/src/grpc/node_service.rs:121` names another CPU for larger ones, which the
  configuration allows.
* A task that a searching algorithm places on a node whose name is empty is dropped from the schedule
  without an error. `NothingIsLostExactlyWhenNodesAreNamed` says which configurations lose nothing.
* `timpani_rust/timpani-o/src/hyperperiod/math.rs:13` describes the result for a zero argument
  differently from what the loop returns and the tests at lines 75-79 expect; the model follows the
  code (`EuclidGcd`).
* A `SchedInfo` callback that an `AddSchedInfo` call interrupts may answer with the replaced schedule
  under hyperperiod 0 (`InterruptedReplyMayMix`); `ReplyMatchesStartExactlyWhen` says exactly when the
  reply is the schedule that was current when the callback began.
* The Apex windows tumble: enough misses within one period may go unreported
  (`DenseMissesMayGoUnreported`). `DenseMissesAreReportedExactlyWhen` says when they are reported.
* A trace span may cover time off the CPU (`DroppedSlotJoinsTwoExecutions`). It is one uninterrupted
  execution exactly when no switch away was dropped inside it
  (`SpanIsUnbrokenExactlyWhenNothingWasDropped`). Its wake-up may be older than an execution in between
  (`DroppedSlotKeepsStaleWakeUp`); `SpanWakeUpIsTheLatest` says where it comes from and when that happens.

The barrier runs that show a failure start from a workload that the services accept
(`ExampleRunsAreReal`).

## Model

| member | source | states |
|---|---|---|
| `SyncBarrier.StartTime` | timpani_rust/timpani-o/src/grpc/node_service.rs:92-102 | The start instant is exactly one second ahead, with nanoseconds below one second. |
| `SyncBarrier.StepKeepsInv` | timpani_rust/timpani-o/src/grpc/node_service.rs:182-319 | Every check-in, read, wake-up, timer firing, timeout, disconnect and replacement keeps the barrier invariant: released implies all checked in, waiting means never changed, handlers of replaced workloads see Cancelled, loop bodies are bounded. |
| `SyncBarrier.ReachableInv` | timpani_rust/timpani-o/src/grpc/node_service.rs:170-320 | The invariant holds after every sequence of events. |
| `SyncBarrier.CurrentIsLastStored` | timpani_rust/timpani-o/src/grpc/schedinfo_service.rs:173-192 | In every run the current workload is, with id, schedule and hyperperiod, the one stored last. |
| `SyncBarrier.ReachableHistory` | timpani_rust/timpani-o/src/grpc/node_service.rs:200-214 | The recorded set is the set of nodes that checked in for that workload; a released value is the latest broadcast there; the number of broadcasts is that of completing plus late check-ins. |
| `SyncBarrier.AckOnlyAfterAllCheckedIn` | timpani_rust/timpani-o/src/grpc/node_service.rs:182-268 | Barrier safety: in every interleaving, an ack means that every node holding tasks in the caller's workload has checked in for that same workload. |
| `SyncBarrier.AckHappened` | timpani_rust/timpani-o/src/grpc/node_service.rs:207-268 | Every acknowledged call was acknowledged by a read of its own, with the start time broadcast last in its own workload before that read. |
| `SyncBarrier.AckStays` | timpani_rust/timpani-o/src/grpc/node_service.rs:250-268 | A read that finds the barrier released acknowledges its call for good, with the latest start time. |
| `SyncBarrier.BroadcastsAreCompletionPlusLate` | timpani_rust/timpani-o/src/grpc/node_service.rs:203-214 | Broadcasts are exactly one for the completing check-in plus one per later check-in. |
| `SyncBarrier.BroadcastBound` | timpani_rust/timpani-o/src/grpc/node_service.rs:203-214 | At most max(0, check-ins - (active nodes - 1)) start times are broadcast in a workload. |
| `SyncBarrier.AcksAgreeExactlyWhen` | timpani_rust/timpani-o/src/grpc/node_service.rs:203-268 | In every run, all acks of a workload carry the same start time if and only if any two acknowledging reads find the same latest start time. |
| `SyncBarrier.AcksAgreeWithoutLateCheckIns` | timpani_rust/timpani-o/src/grpc/node_service.rs:203-268 | In particular all acks agree if no check-in of the workload finds its set already complete, whatever timeouts, repetitions and disconnects are interleaved. |
| `SyncBarrier.SingleCheckInsAgree` | timpani_rust/timpani-o/src/grpc/node_service.rs:203-268 | If no node repeats its check-in, all acks of a workload carry the same start time, whatever timeouts and disconnects are interleaved. |
| `SyncBarrier.LateCheckInAnswersAnew` | timpani_rust/timpani-o/src/grpc/node_service.rs:203-214 | In any reachable state every check-in after an ack of the current workload is late and is acknowledged with a start time of its own, equal to the earlier one exactly if the clock reads the same. |
| `SyncBarrier.StartTimesMayDiffer` | timpani_rust/timpani-o/src/grpc/node_service.rs:203-214 | A run in which two calls of one workload are acknowledged with different start times. |
| `SyncBarrier.CancellationIsFinal` | timpani_rust/timpani-o/src/grpc/schedinfo_service.rs:173-192 | A call still waiting when its workload is replaced never acks in any continuation; its channel stays Cancelled and it can only end aborted, out of time or disconnected. |
| `SyncBarrier.ClosedChannelIsNeverSeen` | timpani_rust/timpani-o/src/grpc/node_service.rs:293-298 | The "channel closed" answer is unreachable. |
| `SyncBarrier.NeverWaitsAgain` | timpani_rust/timpani-o/src/grpc/mod.rs:44-121 | A barrier that has left Waiting never returns to it, in any continuation. |
| `SyncBarrier.NoLostWakeUp` | timpani_rust/timpani-o/src/grpc/node_service.rs:177-319 | Once a barrier has left Waiting, each subscribed call finishes by its own steps alone, with the barrier's answer unless its timer had won. |
| `SyncBarrier.HandlersTerminate` | timpani_rust/timpani-o/src/grpc/node_service.rs:250-319 | In every run a call makes at most four moves and enters its wait loop's body at most twice. |
| `SyncBarrier.TimedOutHasCause` | timpani_rust/timpani-o/src/grpc/node_service.rs:300-312 | A barrier shows TimedOut only if some call timed out while its workload was current. |
| `SyncBarrier.FailuresHaveCauses` | timpani_rust/timpani-o/src/grpc/node_service.rs:269-316 | Aborted means replaced; deadline-exceeded means that this call timed out, or some call did while this workload was current. |
| `SyncBarrier.CompleteSetIsReleased` | timpani_rust/timpani-o/src/grpc/node_service.rs:203-214 | A workload whose active nodes have all checked in is no longer Waiting. |
| `SyncBarrier.ReleasedExactlyWhen` | timpani_rust/timpani-o/src/grpc/node_service.rs:203-312 | While somebody waits, the current barrier is released if and only if all active nodes have checked in and no call timed out since the latest broadcast. |
| `SyncBarrier.CallAcksExactlyWhen` | timpani_rust/timpani-o/src/grpc/node_service.rs:203-319 | A live call of the current workload ends in an ack by its own steps if and only if its timer has not fired and the barrier is released in that sense. |
| `SyncBarrier.UndisturbedReleaseAcksAll` | timpani_rust/timpani-o/src/grpc/node_service.rs:203-268 | In particular, without a timeout in the current workload, a complete set means that each waiting call whose own timer has not fired finishes with the released start time. |
| `SyncBarrier.MixedOutcomesHappen` | timpani_rust/timpani-o/src/grpc/node_service.rs:299-316 | A run in which both nodes checked in and the barrier was released, yet one call acks and the other ends out of time. |
| `SyncBarrier.StaleHandlerSurvivesReplacement` | timpani_rust/timpani-o/src/grpc/node_service.rs:299-316 | A run in which a call of a replaced workload is about to time out while another call waits in the next one. |
| `SyncBarrier.EveryTimeoutHitsCurrentWorkload` | timpani_rust/timpani-o/src/grpc/node_service.rs:307-312 | In any reachable state, a timeout of a call of whatever workload ends every other call waiting in the current one out of time, released or not. |
| `SyncBarrier.TimeoutOverwritesExactlyWhenSomebodyWaits` | timpani_rust/timpani-o/src/grpc/node_service.rs:307-312 | A timeout overwrites the current barrier if a call still waits there, and otherwise leaves it as it is. |
| `SyncBarrier.DisconnectEndsOneCall` | timpani_rust/timpani-o/src/grpc/node_service.rs:248-319 | A client that goes away ends its own call and changes nothing else. |
| `Tasks.UtilizationIsShare` | timpani_rust/timpani-o/src/task.rs:210-220 | A task's share times its period is its runtime. |
| `Tasks.Utilization` | timpani_rust/timpani-o/src/task.rs:210-220 | A share is never negative, and zero without a period. |
| `Tasks.TrailingZeros` | timpani_rust/timpani-o/src/task.rs:112-128 | The pinned CPU is the lowest set bit of the mask: that bit is set and all lower ones are clear. |
| `Tasks.RequestSurvivesToNode` | timpani_rust/timpani-o/src/grpc/node_service.rs:112-125 | Through working copy, nanosecond schedule and download, name, priority, policy and all times of a request are kept, negative times becoming 0 and unknown policies normal; the mask is the one bit of the CPU number modulo 64. |
| `Tasks.MaskNamesCpuExactlyBelow64` | timpani_rust/timpani-o/src/grpc/node_service.rs:121-121 | The downloaded mask names the assigned CPU if and only if that is below 64. |
| `Placement.HighestFit` | timpani_rust/timpani-o/src/scheduler/mod.rs:527-549 | Some CPU that fits exactly if there is one, and then the highest-numbered. |
| `Placement.AdmissionNamesFirstFailure` | timpani_rust/timpani-o/src/scheduler/mod.rs:440-474 | A refusal names the first failing test (node, memory, pinned CPU) with the values that decided it. |
| `Placement.CandidateIsFeasible` | timpani_rust/timpani-o/src/scheduler/mod.rs:440-550 | Admission and CPU search succeed exactly when the node exists, its memory and the pinned CPU allow the task and some CPU stays within 0.90. |
| `Placement.LeastLoadedIsMinimal` | timpani_rust/timpani-o/src/scheduler/mod.rs:285-314 | least_loaded finds nothing exactly if no node qualifies, and otherwise the first node in name order of minimal load. |
| `Placement.TightestIsMaximal` | timpani_rust/timpani-o/src/scheduler/mod.rs:400-426 | best_fit_decreasing's search finds nothing exactly if no node qualifies, and otherwise the first node in name order of maximal resulting load. |
| `Placement.ChoiceIsFeasible` | timpani_rust/timpani-o/src/scheduler/mod.rs:161-371 | Whatever the algorithm, a task is placed only on a node that can take it, on the CPU that the CPU search names. |
| `Placement.NothingIsSkipped` | timpani_rust/timpani-o/src/scheduler/mod.rs:244-273 | The "skipping" branches of least_loaded and best_fit_decreasing are unreachable. |
| `PlacementLaws.EveryRunKeepsInv` | timpani_rust/timpani-o/src/scheduler/mod.rs:161-371 | After every successful run: the load map covers exactly the configured CPUs, loads agree and stay within 0.90, every task is placed on a configured CPU and packed. |
| `PlacementLaws.TrackedLoadIsExact` | timpani_rust/timpani-o/src/scheduler/mod.rs:554-584 | At every step the tracked load of each CPU is the sum of runtime/period over the tasks placed there so far, and at most 0.90. |
| `PlacementLaws.NoHigherCpuHasRoom` | timpani_rust/timpani-o/src/scheduler/mod.rs:488-574 | At the end no task away from a pinned CPU sits below a CPU of its node that could still take it. |
| `PlacementLaws.PinnedCpuIsLeftOnlyWhenFull` | timpani_rust/timpani-o/src/scheduler/mod.rs:501-525 | A pinned task placed elsewhere means that its pinned CPU is too full for it, to the end. |
| `PlacementLaws.PinnedCpuIsKeptExactlyWhenItHasRoom` | timpani_rust/timpani-o/src/scheduler/mod.rs:501-525 | A pinned task ends on its pinned CPU if and only if that CPU could take it within 0.90 at the task's turn. |
| `PlacementLaws.CpuAtItsTurn` | timpani_rust/timpani-o/src/scheduler/mod.rs:488-550 | Every task's CPU, from the tasks placed before it: the pinned CPU, which the node has, if that has room, else the highest-numbered one with room. |
| `PlacementLaws.PinnedTaskMayMove` | timpani_rust/timpani-o/src/scheduler/mod.rs:515-523 | Two tasks pinned to one CPU, the second of which is placed on another. |
| `PlacementLaws.TargetedPinnedCpuIsKeptExactlyWhenItHasRoom` | timpani_rust/timpani-o/src/scheduler/mod.rs:161-226 | For target_node_priority: if and only if the pinned CPU of the task's own target could take it at its turn. |
| `PlacementLaws.AtMostOneHalfEmptyCpu` | timpani_rust/timpani-o/src/scheduler/mod.rs:488-574 | With no pinned tasks, of two used CPUs of a node at most one ends at or below 0.45. |
| `PlacementLaws.PlacementKeepsRequests` | timpani_rust/timpani-o/src/scheduler/mod.rs:554-574 | Placement changes nothing of a task but its assignment, and keeps number and order. |
| `PlacementLaws.CapacityTestIsRedundant` | timpani_rust/timpani-o/src/scheduler/mod.rs:414-422 | In a reachable state the `after <= cpu_count` test never removes a candidate. |
| `PlacementLaws.NodeLoadIsExact` | timpani_rust/timpani-o/src/scheduler/mod.rs:585-595 | The per-node total read from the load map is the sum over the tasks placed on the node, without rescanning them. |
| `PlacementLaws.RefusalMeansBlocked` | timpani_rust/timpani-o/src/scheduler/mod.rs:161-426 | In a reachable state a task is refused exactly when no node (for target_node_priority: not its target) can take it or a required field is missing, with that error. |
| `PlacementLaws.FailsExactlyWhenBlocked` | timpani_rust/timpani-o/src/scheduler/mod.rs:161-426 | Search completeness: a run fails exactly when some task, at its turn, is blocked; the error names that task. |
| `PlacementLaws.TargetNodeIsHonoured` | timpani_rust/timpani-o/src/scheduler/mod.rs:161-226 | target_node_priority puts every task on its own, named target. |
| `PlacementLaws.LeastLoadedNodeAtItsTurn` | timpani_rust/timpani-o/src/scheduler/mod.rs:232-314 | least_loaded puts every task on the first node, in name order, of lowest total load over the tasks placed before, among those that can take it. |
| `PlacementLaws.BestFitNodeAtItsTurn` | timpani_rust/timpani-o/src/scheduler/mod.rs:320-426 | best_fit_decreasing puts every task on its target if it names one that can take it at its turn, and otherwise on the first node, in name order, of highest total load that can. |
| `PlacementLaws.SchedMapGroupsByNode` | timpani_rust/timpani-o/src/scheduler/mod.rs:700-709 | The schedule maps exactly the nodes with tasks to the entries of those tasks, in order. |
| `PlacementLaws.NodesHoldAllTasks` | timpani_rust/timpani-o/src/scheduler/mod.rs:700-709 | The nodes together hold as many entries as there are assigned tasks. |
| `PlacementLaws.EveryNamedTaskIsScheduledOnce` | timpani_rust/timpani-o/src/scheduler/mod.rs:106-155 | Placement conservation for every successful run: each task not on a node named "" is held exactly once, under its node, in order; the schedule holds all tasks if and only if none landed on "". |
| `PlacementLaws.NothingIsLostExactlyWhenNodesAreNamed` | timpani_rust/timpani-o/src/scheduler/mod.rs:232-426 | No run loses a task if and only if the algorithm is target_node_priority or no node named "" has a CPU. |
| `PlacementLaws.EveryTaskIsScheduledOnce` | timpani_rust/timpani-o/src/scheduler/mod.rs:106-155 | Under that condition a successful schedule holds every task exactly once, under its assigned node; only nodes with tasks appear. |
| `GlobalScheduler.SortDescending` | timpani_rust/timpani-o/src/scheduler/mod.rs:527-529 | A permutation of the CPUs in descending order. |
| `GlobalScheduler.FindBestCpuForTask` | timpani_rust/timpani-o/src/scheduler/mod.rs:488-550 | The loop over sorted CPUs finds what the specification says: the pinned CPU if it fits, else the highest fit. |
| `GlobalScheduler.FindBestNodeLeastLoaded` | timpani_rust/timpani-o/src/scheduler/mod.rs:285-314 | The loop computes the node of LeastLoadedNodeAtItsTurn. |
| `GlobalScheduler.FindBestNodeBestFitDecreasing` | timpani_rust/timpani-o/src/scheduler/mod.rs:376-426 | The loop computes the node of BestFitNodeAtItsTurn: the target if it can take the task, else the tightest node. |
| `GlobalScheduler.ScheduleTargetNodePriority` | timpani_rust/timpani-o/src/scheduler/mod.rs:161-226 | The updating loop yields the placement run that the laws are about, errors included. |
| `GlobalScheduler.ScheduleLeastLoaded` | timpani_rust/timpani-o/src/scheduler/mod.rs:232-281 | The updating loop yields the placement run that the laws are about, errors included. |
| `GlobalScheduler.SortByRuntime` | timpani_rust/timpani-o/src/scheduler/mod.rs:328-329 | A permutation of the tasks, largest runtime first. |
| `GlobalScheduler.ScheduleBestFitDecreasing` | timpani_rust/timpani-o/src/scheduler/mod.rs:320-371 | The updating loop yields the placement run of some order of the tasks by decreasing runtime. |
| `GlobalScheduler.BuildSchedMap` | timpani_rust/timpani-o/src/scheduler/mod.rs:700-709 | The loop builds the map of SchedMapGroupsByNode. |
| `GlobalScheduler.Schedule` | timpani_rust/timpani-o/src/scheduler/mod.rs:106-155 | Which error comes first, and otherwise, for each of the three names, the grouped result of that algorithm's run. |
| `GrpcServices.AcceptedScheduleHasActiveNodes` | timpani_rust/timpani-o/src/grpc/mod.rs:108-119 | An accepted request has active nodes, all configured and all holding tasks. |
| `GrpcServices.StoredWorkloadsHaveActiveNodes` | timpani_rust/timpani-o/src/grpc/node_service.rs:188-190 | In every run over requests each stored workload has active nodes, all holding tasks; "no active nodes" is never answered. |
| `GrpcServices.AcceptedExactlyWhen` | timpani_rust/timpani-o/src/grpc/schedinfo_service.rs:90-195 | A request is accepted if and only if a configuration is loaded, the workload has a name, its positive periods have a common multiple within an hour, and every task names a node that has its CPU and, at its turn, one with room. |
| `GrpcServices.DownloadAnswersRequest` | timpani_rust/timpani-o/src/grpc/node_service.rs:131-166 | From request to download: each node gets exactly the tasks that named it, in request order, as requested; the mask is that of the lowest requested CPU, which the node has, if that had room at the task's turn, and otherwise (or without a requested CPU) of the highest with room. |
| `GrpcServices.EveryReplyAnswersTheLatestRequest` | timpani_rust/timpani-o/src/grpc/node_service.rs:131-166 | In every run, what all nodes would download answers as a whole the request whose workload was stored last: its id, the least common multiple of its periods and, for each node, exactly its tasks. |
| `GrpcServices.RunStoresAccepted` | timpani_rust/timpani-o/src/grpc/schedinfo_service.rs:173-192 | Every run over accepted requests stores only workloads of accepted requests. |
| `GrpcServices.TwoNodesIsAccepted` | timpani_rust/timpani-o/src/grpc/schedinfo_service.rs:90-195 | A concrete request for two nodes is accepted with the workload of the example runs. |
| `GrpcServices.ExampleRunsAreReal` | timpani_rust/timpani-o/src/grpc/schedinfo_service.rs:90-195 | The example runs store only workloads of accepted requests. |
| `GrpcServices.Orchestrator.constructor` | timpani_rust/timpani-o/src/grpc/mod.rs:135-137 | The store starts empty, with an empty run. |
| `GrpcServices.Orchestrator.Broadcast` | timpani_rust/timpani-o/src/grpc/node_service.rs:209-212 | A send changes value and version of the current channel exactly if somebody is subscribed. |
| `GrpcServices.Orchestrator.AddSchedInfo` | timpani_rust/timpani-o/src/grpc/schedinfo_service.rs:90-195 | A rejected request changes nothing; an accepted one adds the step that stores its workload to the run and becomes the request that is served. |
| `GrpcServices.Orchestrator.Replace` | timpani_rust/timpani-o/src/grpc/schedinfo_service.rs:173-192 | Cancelling the old barrier and storing the workload is one step of the run. |
| `GrpcServices.Orchestrator.GetSchedInfo` | timpani_rust/timpani-o/src/grpc/node_service.rs:131-166 | A reply exactly when a request was accepted, and then the current workload's, which answers the request accepted last: workload id, hyperperiod and the node's tasks. |
| `GrpcServices.Orchestrator.CheckIn` | timpani_rust/timpani-o/src/grpc/node_service.rs:182-235 | The locked part of SyncTimer adds the barrier's check-in step to the run, refusals included. |
| `GrpcServices.Orchestrator.ReadBarrier` | timpani_rust/timpani-o/src/grpc/node_service.rs:250-290 | The top of the wait loop adds the barrier's read step to the run. |
| `GrpcServices.Orchestrator.TimeOut` | timpani_rust/timpani-o/src/grpc/node_service.rs:299-316 | The locked part of a timeout adds the barrier's expiry step to the run. |
| `SerialBuffer.BigEndianRoundTrip` | libtrpc/src/serialize.h:21-79 | Bytes in network order give back the integer. |
| `SerialBuffer.BytesRoundTrip` | libtrpc/src/serialize.h:51-79 | Every byte string is the network-order form of the integer read from it. |
| `SerialBuffer.MostSignificantByteFirst` | libtrpc/src/serialize.c:20-34 | The first byte is the most significant one, the rest is the form of the remainder. |
| `SerialBuffer.PopIntUndoesPush` | libtrpc/src/serialize.h:21-79 | Popping a pushed integer gives its value modulo the width and the bytes below. |
| `SerialBuffer.PopBlobUndoesPush` | libtrpc/src/serialize.c:152-179 | Popping a pushed blob gives the blob and the bytes below. |
| `SerialBuffer.PopStrUndoesPush` | libtrpc/src/serialize.c:181-195 | Popping a pushed string gives the characters before its NUL and the bytes below. |
| `SerialBuffer.PopEachUndoesPush` | timpani-n/src/trpc.c:83-105 | If one pop undoes one push, popping a list and prepending each value restores the original order. |
| `SerialBuffer.PushEachInParts` | timpani-o/src/dbus_server.cpp:151-177 | Pushing node by node is pushing the concatenated tasks. |
| `SerialBuffer.StackRoundTrip` | libtrpc/src/serialize.c:126-195 | Any sequence of pushes followed by the matching pops in reverse gives the same values and the bytes below. |
| `SerialBuffer.SignedValueRecovered` | libtrpc/src/serialize.h:21-79 | A signed integer in range is recovered by reading the popped value as two's complement. |
| `SerialBuffer.SerialBuf.New` | libtrpc/src/serialize.c:76-95 | An empty buffer of the given size, 32 bytes for size 0. |
| `SerialBuffer.SerialBuf.Make` | libtrpc/src/serialize.c:97-109 | A full buffer over given bytes. |
| `SerialBuffer.SerialBuf.Reserve` | libtrpc/src/serialize.c:126-143 | Room for the bytes asked for, contents kept across a reallocation. |
| `SerialBuffer.SerialBuf.SerializeInt` | libtrpc/src/serialize.h:21-49 | The contents grow by the integer in network order. |
| `SerialBuffer.SerialBuf.SerializeBlob` | libtrpc/src/serialize.c:152-164 | The contents grow by the bytes and their 32-bit length. |
| `SerialBuffer.SerialBuf.SerializeStr` | libtrpc/src/serialize.c:181-184 | The contents grow by the characters before the NUL and their length. |
| `SerialBuffer.SerialBuf.DeserializeInt` | libtrpc/src/serialize.h:51-79 | Pops an integer, or fails and changes nothing when too few bytes are left. |
| `SerialBuffer.SerialBuf.DeserializeBlob` | libtrpc/src/serialize.c:166-179 | Pops a blob, or fails when the length or the bytes are missing, consuming at most the length. |
| `SerialBuffer.SerialBuf.SerializeAll` | libtrpc/src/serialize.c:126-184 | A sequence of pushes, whatever reallocations occur, leaves earlier bytes untouched. |
| `SerialBuffer.SerialBuf.DeserializeAll` | libtrpc/src/serialize.c:166-195 | The matching pops return all values and restore position and contents. |
| `ScheduleWire.SerializeTask` | timpani-o/src/dbus_server.cpp:158-174 | One task is written field by field in the format that PopTaskUndoesPush reads. |
| `ScheduleWire.SerializeNodes` | timpani-o/src/dbus_server.cpp:151-177 | All tasks of all nodes are written in order, and the count is the sum of the nodes' task numbers. |
| `ScheduleWire.SerializeSchedule` | timpani-o/src/dbus_server.cpp:135-178 | A fresh buffer holds the encoded schedule. |
| `ScheduleWire.DeserializeTask` | timpani-n/src/trpc.c:87-96 | Reads a task exactly when one can be popped, consuming its bytes. |
| `ScheduleWire.DeserializeSchedInfo` | timpani-n/src/trpc.c:70-121 | Reads a schedule exactly when the bytes decode, consuming them; any short read is an error. |
| `ScheduleWire.PopTaskUndoesPush` | timpani-n/src/trpc.c:87-96 | Reading a written task gives its fields, names cut to 15 and node ids to 63 bytes, numbers modulo their width. |
| `ScheduleWire.PopTasksUndoesPush` | timpani-n/src/trpc.c:83-105 | Reading written tasks gives them in their original order. |
| `ScheduleWire.ScheduleRoundTrip` | timpani-n/src/trpc.c:76-121 | Deserializing a serialized schedule gives workload id, hyperperiod, count and tasks in order, and consumes every byte. |
| `ScheduleWire.TaskStandsAt` | timpani-o/src/dbus_server.cpp:151-177 | Task j of node i is written after all tasks of the nodes before i and j tasks of its own node. |
| `ScheduleWire.EveryTaskArrives` | timpani-n/src/trpc.c:76-121 | Decoding an encoded schedule consumes every byte and gives workload id, hyperperiod, the sum of the nodes' task numbers, and task j of node i at its place for all i and j. |
| `ScheduleWire.LongNamesAreCut` | timpani-o/src/dbus_server.cpp:161-174 | Names are cut to 15 bytes and node ids to 63. |
| `ScheduleWire.FittingFieldsArriveUnchanged` | timpani-o/src/dbus_server.cpp:143-178 | Fields within their widths and lengths arrive unchanged. |
| `ScheduleWire.HyperperiodShows` | timpani-o/src/dbus_server.cpp:142-148 | Two serializations that differ in the hyperperiod alone are equal exactly if the hyperperiods agree in 64 bits. |
| `ScheduleCache.RunKeepsInvariants` | timpani-o/src/dbus_server.cpp:200-231 | In every run of AddSchedInfo calls and two-step callbacks, bytes not marked outdated are a serialization of the present store. |
| `ScheduleCache.AddKeepsCoherence` | timpani-o/src/schedinfo_service.cpp:51-79 | An AddSchedInfo call, accepted or not, in the middle of a callback or not, keeps the cache coherent. |
| `ScheduleCache.AtMostOneWorkload` | timpani-o/src/schedinfo_service.cpp:51-79 | At most one workload is ever stored; a scheduled one has a positive hyperperiod, Apex.OS has none. |
| `ScheduleCache.UninterruptedReplyIsFresh` | timpani-o/src/dbus_server.cpp:200-231 | Cache coherence: after any history, a callback that no AddSchedInfo interrupts answers with a fresh serialization of current schedule and hyperperiod, or nothing if none is stored. |
| `ScheduleCache.StoreIsLatestCall` | timpani-o/src/schedinfo_service.cpp:50-187 | In every run the store is empty if there was no call or the latest one was refused, and otherwise holds exactly that call's workload, with that call's own nodes and hyperperiod. |
| `ScheduleCache.UninterruptedReplyDecodesToSchedule` | timpani-o/src/dbus_server.cpp:116-231 | That reply decodes on the node to the latest call's workload, every task in its place and nothing left over; there is none if that call was refused. |
| `ScheduleCache.InterruptedReplyMayMix` | timpani-o/src/dbus_server.cpp:200-222 | A callback interrupted by a replacing call may answer with the replaced schedule under hyperperiod 0. |
| `ScheduleCache.ReplyMatchesStartExactlyWhen` | timpani-o/src/dbus_server.cpp:200-222 | With any AddSchedInfo calls in between, the reply is the store as it was when the callback began if and only if it came from the cache, there was no call, the workload is Apex.OS, or the last call that computed its hyperperiod found the same value and was the last call or was refused. |
| `ScheduleCache.Orchestrator.constructor` | timpani-o/src/dbus_server.cpp:18-27 | Nothing is stored or cached at first. |
| `ScheduleCache.Orchestrator.AddSchedInfo` | timpani-o/src/schedinfo_service.cpp:50-187 | Store, flag and hyperperiod table after accepted, rejected and Apex.OS requests; a rejected request has already dropped the previous workload. |
| `ScheduleCache.Orchestrator.BeginSchedInfoCallback` | timpani-o/src/schedinfo_service.cpp:236-245 | Snapshot of the store; the flag is read and cleared. |
| `ScheduleCache.Orchestrator.SerializeSchedInfo` | timpani-o/src/dbus_server.cpp:116-181 | The bytes encode the first workload of the snapshot under its hyperperiod as known now, or 0. |
| `ScheduleCache.Orchestrator.FinishSchedInfoCallback` | timpani-o/src/dbus_server.cpp:210-231 | Outdated bytes are freed, missing ones made, and the reply is what is cached. |
| `HyperperiodMath.EuclidGcd` | timpani_rust/timpani-o/src/hyperperiod/math.rs:17-24 | The loop yields the greatest common divisor: it divides both and every common divisor divides it; 0 only for two zeros. |
| `HyperperiodMath.GcdDividesBoth` | timpani_rust/timpani-o/src/hyperperiod/math.rs:17-24 | The gcd divides both arguments. |
| `HyperperiodMath.GcdIsCombination` | timpani_rust/timpani-o/src/hyperperiod/math.rs:17-24 | The gcd is an integer combination of its arguments. |
| `HyperperiodMath.GcdIsGreatest` | timpani_rust/timpani-o/src/hyperperiod/math.rs:17-24 | Every common divisor divides the gcd. |
| `HyperperiodMath.LcmIsCommonMultiple` | timpani_rust/timpani-o/src/hyperperiod/math.rs:34-46 | a / gcd * b is a positive common multiple. |
| `HyperperiodMath.LcmDividesCommonMultiples` | timpani_rust/timpani-o/src/hyperperiod/math.rs:34-46 | It divides every common multiple. |
| `HyperperiodMath.ListLcmIsLcm` | timpani_rust/timpani-o/src/hyperperiod/math.rs:53-57 | The folded LCM of positive periods is a common multiple that divides all others. |
| `HyperperiodMath.OrderAndDuplicatesIrrelevant` | timpani_rust/timpani-o/src/hyperperiod/mod.rs:168-200 | The LCM depends only on which periods occur, so sorting and deduplicating is harmless. |
| `HyperperiodMath.FoldStopsAtFirstOverflow` | timpani_rust/timpani-o/src/hyperperiod/math.rs:34-57 | An overflowing fold stops at the first prefix that no longer fits and names it. |
| `HyperperiodMath.LcmOfSliceIsExact` | timpani_rust/timpani-o/src/hyperperiod/math.rs:53-57 | The true LCM if it is below 2^64, and otherwise an overflow that names the longest fitting prefix's LCM and the next period. |
| `HyperperiodMath.WrappingLcm` | timpani-o/src/hyperperiod_manager.cpp:125-131 | The unchecked form is the LCM modulo 2^64. |
| `HyperperiodMath.CalculateLcm` | timpani-o/src/hyperperiod_manager.cpp:133-151 | The unchecked loop yields the least common multiple exactly when that fits in 64 bits. |
| `HyperperiodManager.Periods` | timpani_rust/timpani-o/src/hyperperiod/mod.rs:168-172 | Exactly the positive periods of the workload's tasks. |
| `HyperperiodManager.OnePeriodPerContributor` | timpani_rust/timpani-o/src/hyperperiod/mod.rs:168-172 | One period for each task of the workload that has one. |
| `HyperperiodManager.SortedUnique` | timpani_rust/timpani-o/src/hyperperiod/mod.rs:178-184 | Strictly ascending, with exactly the given values. |
| `HyperperiodManager.Manager.WithLimit` | timpani_rust/timpani-o/src/hyperperiod/mod.rs:141-146 | An empty table with the given limit. |
| `HyperperiodManager.Manager.CalculateHyperperiod` | timpani_rust/timpani-o/src/hyperperiod/mod.rs:162-228 | Success exactly when some period counts, the true LCM is below 2^64 and within the limit; the stored value is that LCM; each failure has its own cause and leaves the table alone; an overflow names the LCM of the smallest periods that fit and the next one. |
| `HyperperiodManager.Manager.ClearWorkload` | timpani_rust/timpani-o/src/hyperperiod/mod.rs:242-246 | Removes that workload's entry and no other. |
| `HyperperiodTimers.ArmTaskTimer` | timpani-n/src/core.c:271-274 | The armed times are normalised and exact: start, then one period. |
| `HyperperiodTimers.ArmHyperperiodTimer` | timpani-n/src/hyperperiod.c:123-135 | The armed times are normalised and exact: one hyperperiod after the start, then one hyperperiod. |
| `HyperperiodTimers.CycleHoldsExactlyItsExpiries` | timpani-n/src/hyperperiod.c:113-135 | Every cycle holds exactly H / p expiries of a task timer, with consecutive numbers, and ends on the last of them. |
| `HyperperiodTimers.HyperperiodIsShortestAlignedCycle` | timpani-o/src/hyperperiod_manager.cpp:133-151 | The hyperperiod ends every cycle on an expiry of all task timers, and every cycle length that does so is a multiple of it. |
| `HyperperiodTimers.MaskTestFindsPow2` | timpani-n/src/hyperperiod.c:76-82 | H & (H - 1) is zero exactly for powers of two. |
| `HyperperiodTimers.MaskIsRemainder` | timpani-n/src/hyperperiod.c:82-84 | Masking with 2^k - 1 is the remainder modulo 2^k. |
| `HyperperiodTimers.RelativeTime` | timpani-n/src/hyperperiod.c:64-86 | Elapsed time modulo H on either path for every 64-bit elapsed time, 0 before the start, unchanged without a hyperperiod. |
| `ApexMonitor.CountersDescribeWindow` | timpani-n/src/core.c:316-344 | In every run with a monotone clock the counters describe one window: so many misses, all within one period of the first, with no report or reset since. |
| `ApexMonitor.ReportIsJustified` | timpani-n/src/core.c:316-344 | A reported miss is the last of exactly max(1, allowable) misses within one period of the first of them, none counted for an earlier report. |
| `ApexMonitor.ReportsAreBounded` | timpani-n/src/core.c:316-344 | With any clock, reports times max(1, allowable) plus the open count never exceeds the misses. |
| `ApexMonitor.TicksOnlyClearEarly` | timpani-n/src/apex_monitor.c:271-286 | With timer steps the counters are those without them, or cleared where those have run out. |
| `ApexMonitor.TimerStepsAreInvisible` | timpani-n/src/apex_monitor.c:271-286 | Inserting or removing periodic timer steps never changes which events report. |
| `ApexMonitor.TickClearsExactlyRunOutWindows` | timpani-n/src/apex_monitor.c:271-286 | A timer step clears the counters exactly if the open window's first miss lies more than a period back. |
| `ApexMonitor.DenseBurstIsReportedExactlyWhen` | timpani-n/src/core.c:316-344 | From any counters, max(1, allowable) misses within one period lead to a report if and only if the first opens a window or the open window is filled before its period ends. |
| `ApexMonitor.DenseMissesAreReportedExactlyWhen` | timpani-n/src/core.c:316-344 | The same for every run with a monotone clock, timer steps and dropped faults mixed in, in terms of the misses in the window open before the burst. |
| `ApexMonitor.DenseMissesMayGoUnreported` | timpani-n/src/core.c:316-344 | Enough misses within one period, none reported, because they straddle two windows. |
| `ApexMonitor.MonitoredTask.HandleFault` | timpani-n/src/core.c:295-358 | One fault is one step of the window model, and whether it is reported. |
| `ApexMonitor.MonitoredTask.HandleTimer` | timpani-n/src/apex_monitor.c:271-286 | One timer firing is one step of the window model. |
| `ApexMonitor.MonitoredTask.HandleReset` | timpani-n/src/core.c:410-436 | A reset clears the counters. |
| `SchedTrace.RunIsConsistent` | timpani-n/src/schedstat.bpf.c:71-148 | In every run with a monotone clock all records lie in the past and a running task started after its last span. |
| `SchedTrace.FilterHoldsAddedPids` | timpani-n/src/trace_bpf.c:218-268 | A process is tracked exactly if it was added and not removed since. |
| `SchedTrace.EmittedSpansAreOrdered` | timpani-n/src/schedstat.bpf.c:92-148 | Whatever is dropped, emitted spans have wakeup <= start <= stop, and those of one process are ordered and disjoint. |
| `SchedTrace.SpanIsUnbrokenExactlyWhenNothingWasDropped` | timpani-n/src/schedstat.bpf.c:71-148 | Each emitted span names a wake-up, a later switch to the process, both while tracked, and the switch away that emitted it, at exactly its three times; it is one uninterrupted execution if and only if no switch away was dropped in between. |
| `SchedTrace.DroppedSlotJoinsTwoExecutions` | timpani-n/src/schedstat.bpf.c:103-111 | A run in which a dropped slot makes one span of two executions. |
| `SchedTrace.SpanWakeUpIsTheLatest` | timpani-n/src/schedstat.bpf.c:71-148 | A span's wake-up is the latest one recorded before its start: a wake-up at that instant, or that of the process's previous span, carried over by a preemption; the span is the first execution since then if and only if no switch to the process was dropped or untracked in between. |
| `SchedTrace.DroppedSlotKeepsStaleWakeUp` | timpani-n/src/schedstat.bpf.c:103-111 | A run in which a dropped slot leaves a span with a wake-up that belongs to an earlier execution. |
| `SchedTrace.Untouched` | timpani-n/src/schedstat.bpf.c:71-148 | Steps that do not concern a process leave its records alone. |
| `SchedTrace.SliceOpens` | timpani-n/src/schedstat.bpf.c:131-145 | A recorded wake-up and the next switch to the process open a slice with those times exactly if the map has room, and use the wake-up up. |
| `SchedTrace.SliceCloses` | timpani-n/src/schedstat.bpf.c:103-129 | An open slice and the next switch away emit one span; a preempted task keeps its wake-up. |
| `SchedTrace.SliceIsEmitted` | timpani-n/src/schedstat.bpf.c:71-148 | Completeness: wake-up, next switch to and next switch away produce exactly one span with those times, unless a slot or a map entry was missing. |
| `SchedTrace.Tracer.OnWaking` | timpani-n/src/schedstat.bpf.c:71-90 | One waking tracepoint is one step of the trace model. |
| `SchedTrace.Tracer.OnSwitch` | timpani-n/src/schedstat.bpf.c:92-148 | One switch tracepoint is one step of the trace model, dropped slots and full maps included. |
| `SchedTrace.Tracer.Track` | timpani-n/src/trace_bpf.c:233-240 | Adding a process to the filter is one step of the trace model. |
| `SchedTrace.Tracer.Untrack` | timpani-n/src/trace_bpf.c:259-266 | Removing a process from the filter is one step of the trace model. |

## Left out

- gRPC, tonic, D-Bus, sockets, epoll, BPF loading, logging, command line, YAML and configuration checks: plumbing around the state modelled here.
- The Liu and Layland check: it only logs a warning.
- `sorted_cpus`, `clear_all` and the readers of the hyperperiod table: single lookups or sorts that nothing modelled here calls.
- `ReportDMiss` and fault forwarding: a lookup and a remote call.
- The C++ scheduler, its affinity conversion and the grouping of Apex.OS requests: their results are inputs of `ScheduleCache`. The older polling `SyncCallback` is not modelled.
- Serialization of `float` and `double`, and `reset_serial_buf`: not used for the schedule.
- `reserve_space` failing for lack of memory, and destination arrays that are too small for a malformed message: the model's strings have no fixed size.
- The hyperperiod statistics counters and `init_hyperperiod`: plain assignments and logs.
- The start time of an unsynchronised node, whose nanoseconds are not carried: a normalised start is assumed.
- The list of Apex.OS tasks, their affinity changes and coredata messages: the windows of one task are modelled; a reset that does not reach a task is no event for it.
- The CPU number in a trace event, two CPUs inside a tracepoint at once, and filter updates that the kernel refuses: a refused update is no event.
- Races inside the C handlers and memory lifetime of the C++ task arrays.
- ScheduleWire.ScheduleRoundTrip: for fewer than 2^31 tasks, because the task counter of the original is a C `int`.

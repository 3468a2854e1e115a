# Verified model of the SciCompute runtime

A Dafny model of six parts of the runtime library, with proofs of what each of them guarantees.
`dafny verify dfyconfig.toml` checks everything.

| file | models |
|---|---|
| `Sequences.dfy`, `Ring.dfy` | lists as sets, 64-bit wrap-around, remainders, the slot arithmetic of a bounded ring |
| `MpscQueue.dfy` | the multi-producer queue with a sequence number per slot, one transition per atomic access |
| `MpscCalls.dfy` | what its calls of `Push` and `Pop` amount to, told from the schedule |
| `SpscQueue.dfy` | the two-index ring, one transition per atomic access |
| `QueueClasses.dfy` | both queues as classes over arrays, called by one thread at a time |
| `Digraph.dfy`, `TaskGraph.dfy` | adjacency lists, paths and orders; the `TaskGraph` class with its searches |
| `GraphExecutor.dfy` | the scheduling loop and the pool workers, one transition per shared access |
| `ExecutorProgress.dfy` | what they bring about: passes that hand over, `cancel`, runs that finish |
| `InlineExecutor.dfy` | the executor without a pool, as a class with the loops of the code |
| `ThreadPool.dfy` | the mutex-protected queue, its workers and its clients, one transition per access |
| `ThreadPoolCalls.dfy` | what becomes of the calls of its clients, and of a worker's round |
| `FreeList.dfy`, `LockFreeStack.dfy`, `FixedPool.dfy`, `SlabPool.dfy` | the intrusive free list, the growing pool, the eight size classes and the bridge |
| `ConcurrentPool.dfy` | the growing pool under any number of threads, one transition per access |
| `PoolCalls.dfy` | its calls when nothing interrupts them, and its two settings |
| `Tensor.dfy` | shapes, row-major strides, views, the two contiguity tests, `fill` |
| `Reduction.dfy`, `LayerNorm.dfy` | the grid-stride sum and the one-pass normalisation against their sequential references |

## Form

The queues, the executor with a pool, the thread pool and the growing block pool are concurrent:
their guarantees are about interleavings, so each is a state value and a step function with one case
per atomic access or critical-section step. A run is any list of actions by any number of threads
(an action its thread cannot take changes nothing), and the theorems hold for the state after every
list. History fields (`claims`, `popped`, `log`, `dequeued`, `refused`, ...) record what happened; no
step depends on them, except that a pool's tickets are numbered in the order of acceptance. The two
queues and the block pool are also classes, for calls that nothing interrupts. Everything else keeps
the form of the code: classes with fields and `modifies` clauses, arrays updated in place, loops with
invariants. Where CUDA threads run between two barriers, a loop picks the next thread arbitrarily, so
the result holds for every order. `new char[]` is a parameter that names the returned address,
constrained only to overlap nothing handed out before. Clients may overwrite the first word of a
block they hold (`ClientWrites`).

The step functions follow these lines, one case per access:

* `MpscQueue`: `Initial` is the state that `Init` and a successful `Reserve` build
  (include/bridges/impl/ipc_queue_impl.hpp:180-193); `ProducerStep` is `Push` (207-234): position load,
  sequence load, compare-exchange, data write, publishing store; `ConsumerStep` is `Pop` (237-251);
  `ReserveStep` is `Reserve` on a quiescent queue (155-177).
* `SpscQueue`: `ProducerStep` and `ConsumerStep` are `Push` and `Pop`
  (include/bridges/impl/ipc_queue_impl.hpp:104-128). The size queries of both queues change nothing, so
  they are theorems about the states in which their two loads happen.
* `GraphExecutor`: `ScheduleStep` is `execute` with `process_ready_tasks` and the ready scan
  (src/scheduler/task_graph.cpp:140-161, 235-302); `WorkStep` is a submitted job with
  `FunctionalTask::execute` (src/scheduler/task.cpp) and `mark_completed`.
* `ThreadPool`: `WorkerStep` is `worker_loop` with one step per load of the wait predicate
  (src/scheduler/thread_pool.cpp:23-53); `ClientStep` is `enqueue`
  (include/scheduler/thread_pool.hpp:84-89), `wait_all`, `pause`, `resume` and `shutdown`.
* `ConcurrentPool`: `AdvanceStep` is `Allocate` with the `Expand` inside it
  (src/bridges/pool_bridge.cpp:50-100); `Pop` and `Push` of the free list are atomic.

Atomics are sequentially consistent, queue positions and tensor extents are unbounded integers,
and sums are exact reals.

## Where the code stops short of what one would expect

* `MPSCQueue::Reserve(1)` on a fresh queue builds a one-slot ring, which `Init` refuses. On it a
  second `Push` overwrites the first. The FIFO guarantee holds for all runs exactly from two slots
  on (`FifoNeedsTwoSlots`).
* `Pop` may return false although a later `Push` has already returned true
  (`PopMayMissACompletedPush`); `PopOutcomesAreExact` says exactly when it returns false.
* `SPSCQueue::SizeApprox`, `Empty` and `Full` load the two indices one after the other. A third
  thread may see a full queue that was empty all along (`SpscQueue.ObserverMayBeWrong`);
  `SpscQueue.ObserverSees` says exactly when the answers are right, and the two sides themselves
  always get the truth (`SpscQueue.OwnQueriesAreExact`).
* `MPSCQueue::SizeApprox` may wrap around to a huge number (`MpscQueue.SizeApproxMayWrap`): with
  the enqueue position loaded first, exactly when the consumer passes it before the second load
  (`MpscQueue.ObserverSees`).
* `execute` without a pool returns Ok exactly when all tasks were pending and no failing task has a
  dependent; otherwise its loop never ends (`InlineExecutor.Executor.Execute`).
* A slice that is not empty is right exactly when it is as long as the extent or all extents before
  the sliced one are 1 (`SliceIsFaithfulIff`), because the view recomputes its strides from the shrunk shape.
* `align_up` turns 0 and sizes above 2^64 - 16 into 0, and with block size 0 all blocks of a chunk
  coincide (`AlignUpIsLeast`, `CarveDistinctIff`). A pool with zero blocks per chunk returns null
  without having reached its limit (`FixedPool.FixedSizeMemoryPool.Allocate`), and so does any pool
  to a call that meets another thread's expansion (`ConcurrentPool.NullWhileGrowing`).
  `ConcurrentPool.NullIff` says exactly when null is returned.
* The tree reduction, and the kernel on any grid, is a sum exactly for power-of-two block sizes
  (`TreeNeedsPowerOfTwo`, `KernelNeedsPowerOfTwo`).
* `add_edge` checks its ends only in debug builds; the model follows release builds, so the graph
  operations and searches are specified for edges between any ids.

## Model

| member | source | states |
|---|---|---|
| MpscQueue.EveryRunIsFifo | include/bridges/impl/ipc_queue_impl.hpp:207-251 | with two slots or more, in every interleaving the popped values are a prefix of the claimed values in claim order, every claimed value not popped is still in its slot or its claimer is still in Push, no slot has two writers, and the slot being read has none |
| MpscQueue.FifoNeedsTwoSlots | include/bridges/impl/ipc_queue_impl.hpp:155-193 | the FIFO guarantee holds of all runs if and only if there are at least two slots |
| MpscQueue.OneSlotLosesItems | include/bridges/impl/ipc_queue_impl.hpp:155-177 | a schedule that loses an item on the one-slot ring that Reserve accepts |
| MpscQueue.ClaimedSlotIsStillFree | include/bridges/impl/ipc_queue_impl.hpp:210-223 | when the compare-exchange on pos is about to succeed, the slot still carries the sequence that the earlier load saw, and no other producer owns that slot |
| MpscQueue.PushOutcomesAreExact | include/bridges/impl/ipc_queue_impl.hpp:212-229 | Push gives up if and only if its position is the next one and exactly capacity claimed positions are unreleased; it tries the compare-exchange if and only if the slot is free or its claimer is still writing; it reloads if and only if enqueue_pos_ has passed a position that is no longer in flight; a compare-exchange fails if and only if enqueue_pos_ moved or the failure is spurious |
| MpscQueue.PopOutcomesAreExact | include/bridges/impl/ipc_queue_impl.hpp:237-245 | Pop gives up if and only if the position to dequeue is unclaimed or its claimer has not published it |
| MpscQueue.PopMayMissACompletedPush | include/bridges/impl/ipc_queue_impl.hpp:231-245 | a run in which Pop returns false although a later item was published by a Push that has returned |
| MpscQueue.HistoriesOnlyGrow | include/bridges/impl/ipc_queue_impl.hpp:219-234 | every access only appends to the claimed and to the popped values |
| MpscQueue.ReserveIsExact | include/bridges/impl/ipc_queue_impl.hpp:155-177 | while nobody is inside Push or Pop, Reserve replaces an empty queue that has to grow by one of the new capacity with all slots free, and changes nothing otherwise; what was pushed and popped is not forgotten |
| MpscCalls.CallsClaimTheirItems | include/bridges/impl/ipc_queue_impl.hpp:207-234 | in every schedule, on any number of slots, a thread inside Push carries the item of its latest call; the items it claims positions for are a subsequence of the items of its calls, in order and at most one per call; and its calls are as many as its claims, the calls that returned false, and the one still before its claim |
| MpscCalls.PopsAreAccounted | include/bridges/impl/ipc_queue_impl.hpp:237-251 | in every schedule the calls of Pop are as many as the values returned, the calls that returned false, and the one still inside |
| MpscQueue.ObserverSees | include/bridges/impl/ipc_queue_impl.hpp:263-266 | what SizeApprox returns to any thread, for either order of its two loads, below 2^63: with the enqueue position first it wraps around if and only if the consumer has passed that position before the second load; it is right at one load if and only if the position loaded at the other has not moved in between |
| MpscQueue.SizeApproxMayWrap | include/bridges/impl/ipc_queue_impl.hpp:263-266 | a run in which SizeApprox returns 2^64 - 1 although the queue is empty at both loads |
| MpscQueue.EmptyIsExact | include/bridges/impl/ipc_queue_impl.hpp:254-260 | Empty asked by any thread returns false if and only if, at its second load, the position loaded first is published and not handed back yet; if the consumer does not move in between, that position is still the oldest |
| Remainder.RemIsRemainder | include/bridges/impl/ipc_queue_impl.hpp:213 | the slot of a position, computed by repeated subtraction in the model, is its remainder by the capacity |
| MpscQueue.SeenFree | include/bridges/impl/ipc_queue_impl.hpp:213-228 | what each of the three comparison results of a sequence load says about the position |
| MpscQueue.StepInv | include/bridges/impl/ipc_queue_impl.hpp:155-251 | every single access by any thread, and a quiescent Reserve, keeps the slot, producer, consumer and history invariants |
| MpscQueue.RunInv | include/bridges/impl/ipc_queue_impl.hpp:180-251 | the invariants hold after every schedule from Init with two slots or more |
| SpscQueue.EveryRunIsFifo | include/bridges/impl/ipc_queue_impl.hpp:104-128 | in every interleaving pushed is popped followed by the items between the two indices, and there are at most capacity - 1 of them |
| SpscQueue.EveryStepRefinesFifo | include/bridges/impl/ipc_queue_impl.hpp:104-128 | every access appends one item to the abstract FIFO, removes its oldest item, or leaves it alone |
| SpscQueue.SidesAreDisjoint | include/bridges/impl/ipc_queue_impl.hpp:112-125 | the producer never writes the slot that the consumer is reading |
| SpscQueue.OutcomesAreExact | include/bridges/impl/ipc_queue_impl.hpp:108-123 | Push returns false if and only if the queue is full, and Pop if and only if it is empty, at the load of the other side's index |
| SpscQueue.CallsPushTheirItems | include/bridges/impl/ipc_queue_impl.hpp:104-115 | in every schedule the producer inside Push carries the item of its latest call; the items pushed are a subsequence of the items of the calls, in order and at most one per call; each call has pushed, returned false, or is still inside |
| SpscQueue.PopsAreAccounted | include/bridges/impl/ipc_queue_impl.hpp:118-128 | in every schedule the calls of Pop are as many as the values returned, the calls that returned false, and the one still inside |
| SpscQueue.UndisturbedPush | include/bridges/impl/ipc_queue_impl.hpp:104-115 | from any reachable state, a Push that nothing interrupts appends its item exactly below capacity - 1 items, and changes nothing otherwise |
| SpscQueue.UndisturbedPop | include/bridges/impl/ipc_queue_impl.hpp:118-128 | from any reachable state, a Pop that nothing interrupts returns the oldest item exactly if there is one, and changes nothing otherwise |
| SpscQueue.SizeIsExact | include/bridges/impl/ipc_queue_impl.hpp:137-148 | both indices read at one instant determine the number of items, although they forget whole laps, and tell whether the queue is full |
| SpscQueue.ObserverSees | include/bridges/impl/ipc_queue_impl.hpp:131-148 | what SizeApprox, Empty and Full return to any thread while both sides go on between their two loads: the number pushed by the second load minus the number popped by the first, up to whole laps and at most capacity - 1; it is right at one load if and only if the index loaded at the other is the same then, and so is a verdict full |
| SpscQueue.OwnQueriesAreExact | include/bridges/impl/ipc_queue_impl.hpp:131-148 | when the producer or the consumer makes the call itself, the three queries are exact at the load of the other side's index |
| SpscQueue.ObserverMayBeWrong | include/bridges/impl/ipc_queue_impl.hpp:131-148 | for every capacity from two on, a run in which Full returns true and SizeApprox returns 1 although the queue is empty at both loads |
| SpscQueue.StepInv | include/bridges/impl/ipc_queue_impl.hpp:104-128 | every access keeps the ring invariants |
| QueueClasses.MpscQueue.Init | include/bridges/impl/ipc_queue_impl.hpp:180-193 | true exactly for two slots or more; the queue is then empty, and without a pool otherwise |
| QueueClasses.MpscQueue.Reserve | include/bridges/impl/ipc_queue_impl.hpp:155-177 | false exactly when a non-empty queue would have to grow; keeps the contents; accepts one slot |
| QueueClasses.MpscQueue.Push | include/bridges/impl/ipc_queue_impl.hpp:207-234 | true exactly when there is room, and then the item is appended; with one slot always true, and then every queued item is the new one |
| QueueClasses.MpscQueue.Pop | include/bridges/impl/ipc_queue_impl.hpp:237-251 | true exactly when there is an item (with one slot: exactly one), and then the oldest one is removed and returned |
| QueueClasses.MpscQueue.PushBatch | include/bridges/impl/ipc_queue_impl.hpp:269-276 | pushes a prefix of the items, in order: all of them, or as many as fill the queue |
| QueueClasses.MpscQueue.PopBatch | include/bridges/impl/ipc_queue_impl.hpp:279-286 | removes the oldest items, in order: as many as asked for, or until nothing can be popped |
| QueueClasses.MpscQueue.Empty | include/bridges/impl/ipc_queue_impl.hpp:254-260 | true exactly when nothing can be popped |
| QueueClasses.MpscQueue.SizeApprox | include/bridges/impl/ipc_queue_impl.hpp:263-266 | the number of queued items, between calls; `MpscQueue.ObserverSees` has the concurrent case |
| QueueClasses.PushItems | include/bridges/impl/ipc_queue_impl.hpp:231-232 | filling the next slot and publishing it appends one item and keeps all sequences right |
| QueueClasses.PopItems | include/bridges/impl/ipc_queue_impl.hpp:247-249 | releasing the oldest slot one lap on drops its item and keeps all sequences right |
| QueueClasses.Verdicts | include/bridges/impl/ipc_queue_impl.hpp:214-245 | between calls the sequence at the enqueue position says exactly whether there is room, and the one at the dequeue position whether there is an item |
| QueueClasses.SpscQueue.Init | include/bridges/impl/ipc_queue_impl.hpp:84-92 | true exactly for a positive capacity, and then the queue is empty |
| QueueClasses.SpscQueue.Push | include/bridges/impl/ipc_queue_impl.hpp:104-115 | true exactly when fewer than capacity - 1 items are queued, and then the item is appended |
| QueueClasses.SpscQueue.Pop | include/bridges/impl/ipc_queue_impl.hpp:118-128 | true exactly when there is an item, and then the oldest one is removed and returned |
| QueueClasses.SpscQueue.Empty | include/bridges/impl/ipc_queue_impl.hpp:131-134 | true exactly when nothing is queued |
| QueueClasses.SpscQueue.Full | include/bridges/impl/ipc_queue_impl.hpp:137-140 | true exactly when capacity - 1 items are queued |
| QueueClasses.SpscQueue.SizeApprox | include/bridges/impl/ipc_queue_impl.hpp:143-148 | the number of queued items, when nobody is inside a call |
| Digraph.MirroredLeads | src/scheduler/task_graph.cpp:55-82 | over mirrored maps, a path from a to b in the edges is a path from b to a in the reverse edges |
| Digraph.LassoIsCycle | src/scheduler/task_graph.cpp:169-211 | where both ends of every edge are tasks, a search from the tasks meets a repeated node on some path if and only if the graph has a cycle |
| Digraph.OrderExcludesLasso | src/scheduler/task_graph.cpp:101-138 | a list in which all edges point back leaves no reachable cycle |
| DepthFirst.Search.Visit | src/scheduler/task_graph.cpp:106-126 | the recursive lambda terminates; it succeeds with the node finished after all its successors and nothing else changed on the stack, or a cycle is reachable from the tasks |
| DepthFirst.Search.VisitAll | src/scheduler/task_graph.cpp:128-134 | the search succeeds if and only if no cycle is reachable from a task, and then lists exactly the reachable nodes, once each, with edges pointing back |
| TaskGraph.TaskGraph.TopologicalSort | src/scheduler/task_graph.cpp:101-138 | an order of exactly the tasks, once each, with every edge pointing forward if the graph is acyclic, and the empty list otherwise; for edges that leave the task table, the same about the nodes reachable from tasks |
| TaskGraph.TaskGraph.IsDag | src/scheduler/task_graph.cpp:169-198 | the same verdict as the sort: true if and only if no cycle is reachable from a task |
| TaskGraph.TaskGraph.IsValid | src/scheduler/task_graph.cpp:200-211 | true if and only if all edges and keys are between tasks and the graph is acyclic |
| TaskGraph.TaskGraph.DependsOn | src/scheduler/task_graph.cpp:55-83 | true if and only if a non-empty edge path leads from b to a; the search terminates although ids may be queued repeatedly |
| TaskGraph.TaskGraph.AddEdge | src/scheduler/task_graph.cpp:41-47 | exactly one multiplicity grows by one, and the two maps stay mirrored |
| TaskGraph.TaskGraph.AddEdges | src/scheduler/task_graph.cpp:49-53 | the multiplicities grow by those of the list, and the two maps stay mirrored |
| TaskGraph.TaskGraph.RemoveTask | src/scheduler/task_graph.cpp:28-39 | exactly the edges at the removed task disappear, all other multiplicities stay, and the two maps stay mirrored |
| TaskGraph.ErasedMirrored | src/scheduler/task_graph.cpp:28-39 | erasing an id from both maps keeps them mirrored and keeps edges between tasks |
| TaskGraph.WithEdgeMirrored | src/scheduler/task_graph.cpp:45-46 | adding an edge to both maps keeps them mirrored and adds exactly that edge |
| TaskGraph.TaskGraph.AddTask | src/scheduler/task_graph.cpp:10-14 | the task is entered under its id and the edges stay |
| TaskGraph.TaskGraph.Clear | src/scheduler/task_graph.cpp:163-167 | everything is emptied |
| TaskGraph.TaskGraph.GetReadyTasks | src/scheduler/task_graph.cpp:140-161 | lists exactly the pending tasks all of whose dependencies are completed tasks of the graph, once each |
| GraphExecutor.BodiesStartOnceAndInOrder | src/scheduler/task_graph.cpp:235-277 | in every interleaving each body starts at most once, after every predecessor's body has returned success |
| GraphExecutor.DoomedNeverStart | src/scheduler/task_graph.cpp:140-161 | no strict descendant of a failed task ever starts |
| GraphExecutor.QuiescentRanAllButDoomed | src/scheduler/task_graph.cpp:235-302 | once nothing is running or ready, a task has run if and only if no failed task leads to it |
| GraphExecutor.OkMeansAllRan | src/scheduler/task_graph.cpp:279-302 | execute returning Ok means that every task ran to an end and only tasks without dependents failed |
| GraphExecutor.CompleteIffFailuresAreFinal | src/scheduler/task_graph.cpp:279-302 | once nothing is running or ready, the loop's condition for Ok holds if and only if no failed task has a dependent |
| ExecutorProgress.OnePassHandsOver | src/scheduler/task_graph.cpp:235-270 | from every reachable uncancelled state between two passes with tasks left to complete, the loop by itself comes back to its condition, with every task that was ready handed to the pool |
| ExecutorProgress.ReadyIsHandedOver | src/scheduler/task_graph.cpp:235-270 | whatever order the table yields the tasks in, no pass that ends leaves out a task that was ready when it began |
| ExecutorProgress.PassEnds | src/scheduler/task_graph.cpp:140-161 | every pass under way can be ended by the loop alone, at its condition or, cancelled, at the result |
| ExecutorProgress.CancelledIff | src/scheduler/task_graph.cpp:283-302 | in every run the flag is up if and only if cancel was called, and only then may execute return the error |
| ExecutorProgress.CancelStopsDispatch | src/scheduler/task_graph.cpp:237-257 | in every run at most one more job is created after a call of cancel |
| ExecutorProgress.CancelEndsLoop | src/scheduler/task_graph.cpp:296-302 | after a call of cancel the loop by itself returns the error, from every state reached, unless it has returned Ok already |
| ExecutorProgress.JobAlone | src/scheduler/task_graph.cpp:257-277 | a queued job that is worked to its end starts and ends the body once, stores the status that matches its result, and moves its task from the running to the completed ones |
| ExecutorProgress.EveryRunCanFinish | src/scheduler/task_graph.cpp:283-302 | for every valid graph, every run without failure and cancel can be continued to execute returning Ok with every task run |
| GraphExecutor.SomethingIsReady | src/scheduler/task_graph.cpp:140-161 | without failures, while tasks remain and none is running, some task is ready that has not started |
| GraphExecutor.ReadyOrBlocked | src/scheduler/task_graph.cpp:140-161 | every pending task of a valid graph is ready, or has a strict ancestor that is ready or failed |
| GraphExecutor.AncestorsSucceeded | src/scheduler/task_graph.cpp:146-157 | every strict ancestor of a started task has returned success and never failure |
| GraphExecutor.StepInv | src/scheduler/task_graph.cpp:235-302 | every access of the loop, of a worker and of cancel keeps the job, counter, status and log invariants |
| GraphExecutor.RunInv | src/scheduler/task_graph.cpp:283-302 | the invariants hold after every run of a graph whose tasks all start out pending |
| InlineExecutor.Executor.Execute | src/scheduler/task_graph.cpp:283-302 | without a pool, from any statuses: rejects exactly the graphs that are not valid; as many rounds as tasks suffice to run exactly the pending tasks that nothing blocks; Ok if and only if all tasks were pending and no failing task has a dependent |
| InlineExecutor.Executor.RunRounds | src/scheduler/task_graph.cpp:296-299 | each round runs something new until nothing can run any more, so completion takes at most as many rounds as tasks |
| InlineExecutor.Executor.ProcessReadyTasks | src/scheduler/task_graph.cpp:235-270 | one round runs exactly the tasks that were ready when it began |
| InlineExecutor.Executor.MarkCompleted | src/scheduler/task_graph.cpp:272-277 | the bookkeeping of one finished task |
| InlineExecutor.StuckRanAllUnblocked | src/scheduler/task_graph.cpp:140-161 | when nothing is ready, a pending task has run if and only if no path, other than through tasks completed beforehand, leads to it from a failing task or from one that was neither pending nor completed |
| InlineExecutor.AllUnblocked | src/scheduler/task_graph.cpp:279-281 | all tasks can run if and only if all are pending and no failing task has a dependent |
| InlineExecutor.RoundProgress | src/scheduler/task_graph.cpp:296-299 | a round makes progress unless exactly the unblocked tasks have run already |
| ThreadPool.DequeuedInOrderAndStartedOnce | src/scheduler/thread_pool.cpp:23-53 | in every run accepted tasks are dequeued in the order of acceptance, none is lost between acceptance and dequeuing, and no body starts twice |
| ThreadPool.FrontIsNeverEmpty | src/scheduler/thread_pool.cpp:27-36 | a worker about to take the front of the queue holds the mutex and finds the queue non-empty |
| ThreadPool.WaitAllWaitsForAll | src/scheduler/thread_pool.cpp:55-60 | wait_all returns only when every task accepted up to its last look has finished running |
| ThreadPool.DrainedWhenAllExited | src/scheduler/thread_pool.cpp:79-85 | once all workers, at least one, have exited, every accepted task has run |
| ThreadPool.CountersAreExact | src/scheduler/thread_pool.cpp:35-38 | active_ counts exactly the workers between a take and its retirement, queued_ the queue |
| ThreadPoolCalls.EnqueuesAreAccounted | include/scheduler/thread_pool.hpp:84-89 | in every run the calls of enqueue are as many as the accepted, the refused and those still inside, and a refusal implies an earlier shutdown; so without one every call that has returned was accepted |
| ThreadPoolCalls.EnqueueCallIs | include/scheduler/thread_pool.hpp:84-89 | a call that nothing interrupts is refused if and only if the pool is stopped, and otherwise appends exactly one task |
| ThreadPoolCalls.FlagsFollowCalls | src/scheduler/thread_pool.cpp:62-80 | in every run the pool is stopped if and only if shutdown was called, and paused if and only if some pause was not followed by a resume |
| ThreadPoolCalls.ShutdownStopsAccepting | src/scheduler/thread_pool.cpp:79-85 | in every run at most one more task is accepted after a shutdown |
| ThreadPoolCalls.PauseStopsTaking | src/scheduler/thread_pool.cpp:27-35 | in every run at most one more task is taken after a pause, until a resume or a shutdown |
| ThreadPoolCalls.WorkerRoundIs | src/scheduler/thread_pool.cpp:23-53 | a worker that nothing interrupts takes, runs and counts the front task if there is one and the pool is not paused or is stopped; exits if the pool is stopped and the queue empty; and otherwise changes nothing |
| ThreadPoolCalls.ResumeLetsWork | src/scheduler/thread_pool.cpp:62-69 | pause keeps the front task from a waiting worker, and resume lets it run the task |
| ThreadPoolCalls.AddedWorkerWorks | src/scheduler/thread_pool.cpp:71-77 | a worker added by resize runs the front task of a pool that is not paused |
| ThreadPoolCalls.WaitAllCallIs | src/scheduler/thread_pool.cpp:55-60 | a call of wait_all that nothing interrupts returns if and only if nothing is queued and nobody is active |
| ThreadPool.StepInv | src/scheduler/thread_pool.cpp:23-85 | every step of any worker or client keeps the mutex, ticket and counter invariants |
| FreeList.ChainIsAcyclic | src/bridges/pool_bridge.cpp:13-23 | a free list that ends in null visits no block twice |
| FreeList.PushKeepsListIff | src/bridges/pool_bridge.cpp:13-17 | pushing a block leaves a null-terminated list if and only if the block was not in it |
| FreeList.CarveDistinctIff | src/bridges/pool_bridge.cpp:72-78 | the blocks of a chunk are different addresses if and only if the block size is positive (or there is at most one) |
| FreeList.AlignUpIsLeast | include/bridges/pool_bridge.hpp:39-41 | the least multiple of 16 not below the size, or 0 exactly for size 0 and when the addition wraps around |
| FreeList.MaskIsTruncation | include/bridges/pool_bridge.hpp:39-41 | clearing the low bits, as the code does, is subtracting the remainder, as the model does |
| LockFreeStack.Stack.Push | src/bridges/pool_bridge.cpp:13-17 | taken as atomic: the list gets the block in front |
| LockFreeStack.Stack.Pop | src/bridges/pool_bridge.cpp:19-23 | taken as atomic: null exactly on the empty list, else the first block is removed |
| FixedPool.FixedSizeMemoryPool.constructor | src/bridges/pool_bridge.cpp:33-43 | a valid pool with one chunk, nothing handed out |
| FixedPool.FixedSizeMemoryPool.Expand | src/bridges/pool_bridge.cpp:50-79 | nothing at the limit, else one more chunk whose blocks all become free; the list stays acyclic and the partition exact |
| FixedPool.FixedSizeMemoryPool.Allocate | src/bridges/pool_bridge.cpp:81-100 | in a call that nothing interrupts: null if and only if no block is free and the limit is reached (or chunks have no blocks); else the first free block, without growing, or a block of the one chunk added |
| FixedPool.FixedSizeMemoryPool.Deallocate | src/bridges/pool_bridge.cpp:102-107 | the block becomes the first free one; null is ignored |
| FixedPool.FixedSizeMemoryPool.TotalAllocated | src/bridges/pool_bridge.cpp:109-113 | the counter is the block size times the number of blocks cut so far |
| FixedPool.BlocksAreDisjoint | src/bridges/pool_bridge.cpp:50-107 | in every state blocks do not overlap, lie inside their chunks and are free or held, never both |
| FixedPool.SeparateBlocks | src/bridges/pool_bridge.cpp:72-78 | blocks cut from non-overlapping chunks do not overlap and are as many as were cut |
| ConcurrentPool.EveryRunPartitions | src/bridges/pool_bridge.cpp:50-107 | in every interleaving of any number of threads each block cut is free, held or still to be pushed, and only one of these; the free list is acyclic, blocks do not overlap, at most one thread expands, and the counter is exact when none does |
| ConcurrentPool.NullIff | src/bridges/pool_bridge.cpp:81-100 | in every interleaving Allocate returns null if and only if, at its second Pop, every block cut is held or still to be pushed; if the call has added a chunk itself, clients hold all of it |
| ConcurrentPool.ReturnsAreNew | src/bridges/pool_bridge.cpp:81-100 | in every interleaving a returned block was cut and not held, and is held from then on |
| ConcurrentPool.RoutesAreExact | src/bridges/pool_bridge.cpp:50-92 | a call goes without expanding if and only if another thread is expanding when it tries the flag, and adds no chunk if and only if the limit is reached at one of its two checks; chunks are added only below the limit |
| ConcurrentPool.NullWhileGrowing | src/bridges/pool_bridge.cpp:81-92 | for every pool with nothing free, a run in which a call returns null below the limit because another thread is expanding |
| PoolCalls.AllocateAlone | src/bridges/pool_bridge.cpp:81-100 | from any reachable state in which nobody expands, a call that nothing interrupts returns the first free block; without one it returns null at the limit, and otherwise adds exactly one chunk and returns one of its blocks, or null if chunks have none |
| PoolCalls.ReturnedBlockIsReused | src/bridges/pool_bridge.cpp:102-107 | from any reachable state, a block given back is what the next call returns, and then the pool is as before |
| PoolCalls.LimitHolds | include/bridges/pool_bridge.hpp:76-79 | once a positive limit is set, no run without another setting, by any threads, adds a chunk beyond it |
| PoolCalls.SettingsDecide | include/bridges/pool_bridge.hpp:76-79 | for any limit and factor, a call with nothing free that nothing interrupts adds a chunk if and only if fewer chunks than a positive limit, or no limit, allow it; its size is the configured one times a factor above 1, unless it is the first |
| ConcurrentPool.ValidPoolStarts | src/bridges/pool_bridge.cpp:33-43 | every pool object between calls, such as a new one, is a state from which these runs may start |
| ConcurrentPool.StepInv | src/bridges/pool_bridge.cpp:50-107 | every step of any thread keeps the partition, the list, the flag and the counter |
| SlabPool.SlabAllocator.IndexFor | src/bridges/pool_bridge.cpp:153-157 | the first class that holds the size, or the last class for larger sizes |
| SlabPool.SlabAllocator.GetSlabSize | src/bridges/pool_bridge.cpp:159 | the least class size that is at least the request, or the last class for larger requests |
| SlabPool.SlabAllocator.Allocate | src/bridges/pool_bridge.cpp:126-146 | null exactly for sizes outside the classes, else a block of the least class that nobody holds: the first free one, with no chunk added, or if there is none, a block of one new chunk of 256 blocks in that class and no other; no other block changes hands |
| SlabPool.SlabAllocator.Deallocate | src/bridges/pool_bridge.cpp:148-151 | called with any size that rounds to the block's class, it puts the block in front of the list of the class it was cut for |
| SlabPool.SlabPoolBridge.Allocate | include/bridges/pool_bridge.hpp:215-226 | null exactly for 0 and for more than 4096 bytes, else a block that was not live, recorded with the least class that holds the request: the first free one of that class, or if there is none, a block of the one chunk added |
| SlabPool.SlabPoolBridge.Deallocate | include/bridges/pool_bridge.hpp:228-244 | for any pointer: a live block leaves the map and returns to its own class, anything else changes nothing |
| SlabPool.IndexOfRounded | src/bridges/pool_bridge.cpp:148-159 | searching for any size that rounds to a class finds that class |
| SlabPool.IndexGivesLeastClass | src/bridges/pool_bridge.cpp:153-159 | the first class found is the least one that fits |
| Tensor.RowMajorBijection | include/core/types.hpp:161-186 | for every rank from one on, row-major offsets are a bijection from the in-range indices to 0 .. num_elements - 1 |
| Tensor.LinearOfUnravel | include/core/types.hpp:180-186 | every offset below the product of the extents is the offset of an in-range index |
| Tensor.UnravelOfLinear | include/core/types.hpp:180-186 | an in-range index is read back from its offset, so offsets are unique |
| Tensor.LinearInRange | include/core/types.hpp:180-186 | the row-major offset of an in-range index is below the product of the extents |
| Tensor.LinearFollowsLoops | include/core/types.hpp:180-186 | row-major offsets are ordered as nested loops over the extents visit the indices |
| Tensor.TransposeReadsSwapped | src/tensor/tensor.cpp:139-151 | a transposed view reads the original at the swapped index |
| Tensor.TransposeCoversAll | src/tensor/tensor.cpp:139-151 | every element of the original is read by it, at the swapped index |
| Tensor.ReshapeKeepsOrder | src/tensor/tensor.cpp:118-122 | between shapes with the same num_elements, each element of the original is read by the reshaped view at exactly one index in its own range, the one with the same linear offset |
| Tensor.ReshapeIsBijection | src/tensor/tensor.cpp:118-122 | over the extents of the reshaped view itself, positions are a bijection onto 0 .. num_elements - 1 of the original, in the order of nested loops |
| Tensor.SliceCoversRange | src/tensor/tensor.cpp:124-137 | the in-range indices of a slice are exactly the parent's from start up to end, shifted, and along dimension 0, or where the slice is right, each reads the parent's element |
| Tensor.ContiguityReports | src/tensor/tensor.cpp:118-151 | views made by reshape and slice always report to be contiguous, transposed ones never do |
| Tensor.SliceIsFaithfulIff | src/tensor/tensor.cpp:124-137 | for any bounds, a slice reads the parent at the shifted index everywhere if and only if it is empty, as long as the extent, or all earlier extents are 1 |
| Tensor.RowMajorIff | src/gpu/gpu_tensor.cpp:82-90 | for positive extents strided offsets agree with row-major offsets at every in-range index if and only if the strides agree wherever the extent is not 1 |
| Tensor.IsContiguous | src/gpu/gpu_tensor.cpp:82-90 | for positive extents true if and only if the strided offset equals the row-major offset at every in-range index; for any extents, if and only if the strides are row-major wherever the extent is not 1 |
| Tensor.ViewIsContiguous | src/tensor/tensor.cpp:260-269 | true if and only if the layout tag says so and all strides are row-major; then all offsets are |
| Tensor.ComputeStrides | src/gpu/gpu_tensor.cpp:62-69 | each stride is the product of the extents after it |
| Tensor.StrideAt | include/core/types.hpp:180-186 | each stride is the product of the extents after it |
| Tensor.NumElements | include/core/types.hpp:161-168 | the product of the extents, and 0 for a shape without dimensions |
| Tensor.Count | include/core/types.hpp:170-178 | the product of a range of extents, negative bounds counted from the end |
| Tensor.Offset | src/tensor/tensor.cpp:284-290 | the sum of index times stride over the shorter of the two lists |
| Tensor.Fill | src/tensor/tensor.cpp:177-189 | every element holds the value |
| Reduction.GridCoversAll | cuda/kernels/reduction.cu:51-73 | for every length, grid and block size the block sums add up to the sequential sum |
| Reduction.OneThreadPerIndex | cuda/kernels/reduction.cu:55-65 | every index is added by exactly one thread of one block |
| Reduction.TreeSumIsSum | cuda/kernels/reduction.cu:39-46 | for a power-of-two block size the tree reduction computes the sum |
| Reduction.TreeNeedsPowerOfTwo | cuda/kernels/reduction.cu:39-46 | it does so for every input if and only if the block size is a power of two |
| Reduction.BlockReduceSum | cuda/kernels/reduction.cu:31-47 | the in-place rounds leave the same result in the first slot for every order of threads within a round |
| Reduction.ThreadSum | cuda/kernels/reduction.cu:55-65 | the grid-stride loop adds exactly the indices of its thread |
| Reduction.KernelNeedsPowerOfTwo | cuda/kernels/reduction.cu:31-73 | on every grid, the kernel's outputs add up to the sum of every input if and only if the block size is a power of two |
| Reduction.SumKernel | cuda/kernels/reduction.cu:51-73 | for every order of blocks and threads each block writes its tree sum; with a power-of-two block size the outputs add up to the sequential sum of the input |
| Reduction.RefSum | src/math/reduction.cpp:16-22 | the sequential sum |
| LayerNorm.OnePassVariance | cuda/kernels/layernorm.cu:104-112 | the mean of the squares minus the square of the mean is the two-pass variance |
| LayerNorm.StridedCoversAll | cuda/kernels/layernorm.cu:93-110 | for every number of threads the strided partial sums add up to the sum of the row |
| LayerNorm.ThreadSums | cuda/kernels/layernorm.cu:93-99 | the strided loop sums exactly the values, and their squares, of its thread |
| LayerNorm.LayerNormKernel | cuda/kernels/layernorm.cu:83-126 | for every order of blocks and threads, each row of the flat output is the row of the input normalised by its mean and two-pass variance, also when the output is the input |
| LayerNorm.KernelRow | cuda/kernels/layernorm.cu:83-126 | a block normalises its row and writes no other, also in place |
| LayerNorm.RefLayerNorm | src/math/normalization.cpp:15-42 | the reference writes the same rows, also in place |
| LayerNorm.RowsDetermineBuffer | src/math/normalization.cpp:15-42 | so kernel and reference agree on the whole buffer |
| LayerNorm.RefRow | src/math/normalization.cpp:17-41 | one turn of the reference's loop normalises its row and writes no other |
| LayerNorm.RowDoneMeans | cuda/kernels/layernorm.cu:114-125 | what kernel and reference write: a row with mean 0 and variance Variance(x) times the square of the inverse root, proportional to the deviations from the mean; then times the weight plus the bias of each column, where there are any |
| LayerNorm.PlainRowIsStandardized | src/math/normalization.cpp:32-40 | with null vectors the row has mean 0 and its variance is scaled by the square of the inverse root |
| LayerNorm.RowIsAffine | src/math/normalization.cpp:36-40 | with vectors each entry is the null-vector entry times the weight of its column plus the bias of its column |
| LayerNorm.RefVariance | src/math/reduction.cpp:40-52 | the mean and the mean squared deviation of the row |

## Left out

- MpscQueue.StepInv: a Reserve that races with Push or Pop has no effect in the model; the code forbids it in a comment only.
- MpscQueue.RunInv: re-initialising a queue in use, wrap-around of positions past 2^63, and memory orders weaker than sequential consistency.
- MpscQueue.ObserverSees: a query that overlaps a Reserve; the same holds for `EmptyIsExact`.
- QueueClasses.MpscQueue.Push: undisturbed calls only, without spurious compare-exchange failures; `MpscQueue` has the interleavings. Uninitialised slots hold an arbitrary given value.
- MpscQueue, SpscQueue, GraphExecutor, ThreadPool: the interleaved models are on state values instead of classes, so object identity and aliasing are not captured there.
- LockFreeStack.Stack.Push: one atomic step; interleavings inside Push and Pop with recycled nodes are not modelled.
- FixedPool.FixedSizeMemoryPool.constructor: block sizes that `align_up` turns into 0 are excluded; `CarveDistinctIff` says why. Products that overflow 64 bits are not modelled.
- FixedPool.FixedSizeMemoryPool.Allocate: calls by one thread at a time; `ConcurrentPool` has the interleavings.
- ConcurrentPool.StepInv: the mutex, because only the holder of the flag takes it; `Expand` called from outside; clients that return blocks they do not hold.
- FixedPool.FixedSizeMemoryPool.Deallocate: only blocks in use may be returned; `PushKeepsListIff` says what a double free does to the list.
- FixedPool: `total_freed_`, which the code calls approximate; `FixedSizePoolBridge` and `TlsCache`, thin wrappers.
- TaskGraph.TaskGraph.AddTask: a task is its id and its status; sharing one task object between two graphs is not captured. In debug builds `add_edge` aborts on unknown ids.
- GraphExecutor.StepInv: bodies end by returning or by a `std::exception`; other exceptions and a pool that refuses `enqueue` are not modelled. `mark_completed` is one step. Job pick-up order is arbitrary.
- GraphExecutor.RunInv: one run from pending statuses, with the graph unchanged; leftovers of a cancelled run are not modelled.
- InlineExecutor.Executor.Execute: the loop is cut off after a given number of rounds, because it need not end; bodies do not call `cancel`.
- ThreadPool: that waiting threads are woken up, and `completed()` after `wait_all`, which rises only after `active_` has dropped.
- Tensor: 64-bit overflow of extents and offsets; shapes with more than eight dimensions overrun a fixed array in the code. Copies, devices and dtypes.
- Tensor.SliceIsFaithfulIff: whether a view with bounds outside the extent stays inside the buffer, which the code checks in debug builds only.
- Reduction.SumKernel: floating-point rounding, and 32-bit arithmetic on block and thread indices; `max_kernel`.
- LayerNorm.KernelRow: input and output buffers that overlap in part; rows without columns, where the code divides by zero and writes nothing; the inverse square root is a parameter; RMSNorm.
- Shared memory segments, CUDA calls, streams, allocator statistics, status and logging types, legacy thread pool, softmax, elementwise maps: no hard property, or foreign code.

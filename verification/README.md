# Verified model of the DSWP pass, its runtime and the parallel algorithms it ships with

The repository has two halves, and so has this project.

**The pass and its runtime.** A Decoupled Software Pipelining pass builds a dependence graph of a
loop (`buildPDG.cpp`, `pipeline.cpp`), numbers its strongly connected components
(`buildSCC.cpp`), list-schedules them onto pipeline stages (`threadPartition.cpp`), and gives every
dependence between stages a channel (`CodeTransformation.cpp`). Each channel is a bounded blocking
queue (`runtime/queue.c`). These parts compose here into one result: all dependences begin and end in
the loop, so component numbers are right and a topological order, so stages are monotone, so all
communication goes upwards, so every run of the stages can be completed and all complete runs end
alike, for every schedule and every queue capacity. This is proved for stages over channels, and then
for stages whose channels are the monitors of `queue.c`, with blocked, signalled and spuriously woken
threads: each of their runs is a run over channels and can be completed too. What they end with is what
a plain loop ends with that runs the bodies of all stages one after the other in each iteration.

**The vendored oneTBB headers.** Their concurrent algorithms are modelled as relations between
states, one atomic access (or one critical section) a step, for any number of threads, with
sequentially consistent atomics; their sequential parts are methods that change arrays and fields in
place. Tasks of `parallel_scan` and `parallel_reduce` form a tree, and a step rewrites one place in it.
`parallel_sort` is modelled twice: `ParallelSort.dfy` has its loops in place, with tasks one after
another, and `SortTasks.dfy` has the tasks interleaved, a write or a poll of the flag a step. Beside what
never goes wrong stands what can always happen: each run of the queue lock, a table, a reduction, a scan
or a sort can be continued until what is under way has its answer, and each run of the reader-writer
lock until somebody holds it.

| file | models |
|---|---|
| `Paths.dfy` | reachability in a finite graph |
| `DependenceGraph.dfy` | `addEdge` and the three edge tables |
| `StronglyConnected.dfy` | the two depth-first passes and the component graph |
| `ThreadPartition.dfy` | the list scheduler |
| `Synchronization.dfy` | channels, produce and consume sites |
| `Pipeline.dfy` | the stages at run time, over channels of any capacity |
| `BlockingPipeline.dfy` | the stages at run time, over the monitors of `queue.c` |
| `SequentialLoop.dfy` | the same stages as the body of one loop |
| `DataDependence.dfy` | the register and memory dependences that go into the graph |
| `LoopPass.dfy` | the passes one after the other |
| `ControlDependence.dfy` | the peeled loop and the walk up the post-dominator tree |
| `BoundedQueue.dfy` | the ring buffer and its monitor |
| `Folds.dfy` | folds by an associative operation with identity |
| `ParallelReduce.dfy`, `ReducePlans.dfy` | lazily split reduction, and which ways of splitting occur |
| `ParallelScan.dfy`, `ScanPlans.dfy` | two-pass prefix computation, and which thefts occur |
| `PriorityQueue.dfy` | the batched priority queue |
| `HashPaths.dfy`, `ConcurrentHashMap.dfy`, `HashMapProgress.dfy`, `HashRehash.dfy` | the lazily rehashed hash map: index arithmetic, concurrent operations, that each is answered, serial rehash |
| `QueuingMutex.dfy` | the queue lock |
| `RwMutex.dfy` | the reader-writer lock in one word |
| `ThreadLocalTable.dfy` | the table of `enumerable_thread_specific` |
| `RangePool.dfy` | the range pool of the dynamic partitioners |
| `ParallelSort.dfy` | quicksort by range splitting |
| `SortTasks.dfy` | its tasks, and those of its pre-test, interleaved |

LLVM instructions and blocks are numbers. Results of LLVM analyses (dependences, latencies, the
post-dominator tree and its nearest common nodes), the scheduler's choices, user operations and
demand for work are parameters, so that each result holds for all of them.

## Where the code does less than one would expect

* `findSCC` follows dependences backwards without asking whether it leaves the loop. On an arbitrary
  edge table, equal numbers mean mutual reachability exactly if every dependence source is an
  instruction of the loop: `StronglyConnected.SccFinder.FindScc` proves both directions, and
  `StronglyConnected.ForeignSourceExample` gives a table of one edge for which it fails. The tables
  that `buildPDG` fills are never like that. Def and Clobber answers lie in the block that was asked
  about, all others are tested with `L->contains`, so every dependence begins and ends in the loop
  (`DataDependence.AddDataEdges`) and the numbers are always right (`LoopPass.NumberLoop`).
* While a component is being collected, an edge to a node that is visited but not numbered yet reads
  component 0. The component graph therefore contains all real edges, and also some from component 0
  that are none. Exactly which: the edge from 0 to c is recorded if and only if a dependence crosses
  from component 0 to c or component c has a dependence inside itself, that is, a cycle
  (`StronglyConnected.SccFinder.FindScc`, `StronglyConnected.ZeroPairsOfComponents`).
  `StronglyConnected.SpuriousPairExample` is a case: 1 leads to 2 and 2 to the cycle of 3 and 4, and the
  component of 1 gets an edge to that of the cycle. Such edges go up like all others, so that they
  cost the scheduler freedom but no correctness.
* `concurrent_hash_map::rehash(n)` scans the last segment only. It completes the table unless the map
  is empty, some bucket still needs rehashing and `n` makes the table grow: `reserve` then marks the
  new buckets as rehashed, which hides the older ones from the scan. `HashRehash.HashMap.Rehash`
  proves that these are all the exceptions, `HashRehash.IncompleteAfterRehash` gives one.
* In `internal_erase`, a contended upgrade updates the mask even when it finds no race, so that a later
  check compares with a newer mask than the one the bucket was found by. The write lock held since then
  makes this harmless, which is part of the invariant (`ConcurrentHashMap.EveryRunRefinesAMap`).

## Model

| member | source | states |
|---|---|---|
| DependenceGraph.Pdg.AddEdge | pipeline.cpp:182-194 | an edge is added once, and the three tables keep describing the same edges in the same order |
| DependenceGraph.TablesFollowArcs | pipeline.cpp:182-194 | walking pdg forwards and rev backwards follows exactly the same arcs |
| StronglyConnected.SccFinder.DfsForward | buildSCC.cpp:42-55 | a forward visit keeps the finishing order well founded: what is reachable from a node finished last was finished before it or reaches it |
| StronglyConnected.LastFinishedReachesStart | buildSCC.cpp:42-55 | whatever reaches the last finished node of a well-ordered list is reached by it |
| StronglyConnected.ReverseVisitIsComponent | buildSCC.cpp:64-91 | what a reverse visit adds is exactly the strongly connected component of its start |
| StronglyConnected.SccFinder.DfsReverse | buildSCC.cpp:64-91 | a reverse visit numbers everything it newly reaches and records the crossing edges as it goes |
| StronglyConnected.SccFinder.FindScc | buildSCC.cpp:10-40 | for every finite graph: each instruction is in exactly one list, every number is used, so that there are as many as components, and everything numbered leads to the loop; numbers are a topological order, every crossing dependence is recorded, recorded pairs go up and are real or start at 0, the pair (0, c) is recorded if and only if a dependence crosses from component 0 to c or closes a cycle within c, and equal numbers mean mutual reachability if and only if every dependence source is in the loop |
| StronglyConnected.ZeroPairsOfComponents | buildSCC.cpp:71-91 | when the numbering is right, (0, c) is recorded exactly if a dependence goes from component 0 to c or between two instructions of c |
| StronglyConnected.SpuriousPairExample | buildSCC.cpp:76-87 | on the chain from 1 to 2 to the cycle of 3 and 4, FindScc records a pair from component 0 to the cycle although no dependence joins the two |
| StronglyConnected.ForeignSourceBreaksNumbering | buildSCC.cpp:64-91 | a dependence from outside the loop always makes two instructions share a number without reaching each other |
| StronglyConnected.ForeignSourceExample | buildSCC.cpp:64-91 | on the edge table with the single edge 2 to 1 and the loop of instruction 1, FindScc gives both the same number although 1 does not reach 2 |
| DataDependence.AddDataEdges | buildPDG.cpp:52-154 | the data edges added are exactly the register and memory dependences of the loop, and all of them begin and end in it |
| DataDependence.SourcesInLoop | buildPDG.cpp:78-152 | whatever the analysis answers, a dependence of an instruction of the loop has its source in the loop |
| DataDependence.DefIsHazard | buildPDG.cpp:78-107 | a Def answer makes exactly the edge from the earlier instruction to the one that asked whose type is the hazard between the two: read after write, write after read, write after write |
| DataDependence.OtherAnswers | buildPDG.cpp:109-152 | a Clobber answer, and each non-local one that names an instruction of the loop, makes an anti dependence of the instruction that asked, and nothing else does |
| ThreadPartition.EmptyQueueMeansDone | threadPartition.cpp:42-76 | with edges going up, the queue runs empty only when every component is assigned |
| ThreadPartition.CostJoins | threadPartition.cpp:14-25 | the total latency of two lists one after the other is the sum of theirs |
| ThreadPartition.CostOfThose | threadPartition.cpp:20-22 | what is added up for component or stage k is the total latency of the list of just those instructions that have number k |
| ThreadPartition.ThoseCount | threadPartition.cpp:20-22 | that list has each instruction of number k as often as the loop has it, and no other |
| ThreadPartition.StageCosts | threadPartition.cpp:44-46 | the latency of a stage, added up over its components, is that of the instructions in it |
| ThreadPartition.OwningStaysGreedy | threadPartition.cpp:42-76 | taking the top of the queue keeps the order fair: a component never gets a later stage than one of lower latency if everything it depends on is in earlier stages than that one |
| ThreadPartition.OwningTop | threadPartition.cpp:44-46 | taking the top of the queue keeps it holding each ready component exactly once and assignments monotone |
| ThreadPartition.LoadsAddUp | threadPartition.cpp:44-46 | stage latencies sum to the total latency |
| ThreadPartition.PartsFormPrefix | threadPartition.cpp:78-88 | if a part is empty, so are all later parts |
| ThreadPartition.Scheduler.Partition | threadPartition.cpp:8-94 | for every graph with edges going up: the error call is unreachable, each component is in exactly one part, stages are monotone along edges, nonempty parts form a prefix; component latencies are the costs of their instructions; summed over its instructions, each stage but the last costs at most the average plus the most costly component, the last at most the average plus the number of stages less one, and each stage with a nonempty one behind it at least the average; ready components are taken by falling latency |
| Synchronization.Synchronizer.InsertSynchronization | CodeTransformation.cpp:568-599 | every upward dependence whose source is no branch is served at every stage that has its target, each by a channel of its own with one produce after the source and one consume before the target, and no instruction is lost or moved |
| Synchronization.SitesKeepWiring | CodeTransformation.cpp:594-596 | adding a channel keeps every channel at exactly one produce and one consume site |
| Pipeline.SomeStageCanStep | CodeTransformation.cpp:577-596 | no reachable state before completion is deadlocked, for any capacity of at least 1 |
| Pipeline.EveryRunCompletes | CodeTransformation.cpp:577-596 | over channels that pass a value in one step, every run can be extended to a complete one |
| Pipeline.ConsumesInOrder | runtime/queue.c:33-47 | the k-th consume on a channel returns the k-th value produced on it |
| Pipeline.RunsAgree | runtime/queue.c:19-47 | any two runs, under any schedules and capacities, produce the same k-th value on every channel |
| Pipeline.CompleteRunsAreEqual | runtime/queue.c:19-47 | all complete runs end in the same state |
| BlockingPipeline.StageKeepsCoupled | runtime/queue.c:19-47 | a stage's critical section at a queue either moves the stage on as over a channel or only blocks it, and keeps each queue equal to what has been sent and not received |
| BlockingPipeline.RunIsPipelineRun | runtime/queue.c:19-47 | whatever threads block, are signalled or wake for no reason, the stages go through a run over channels of the queue's capacity |
| BlockingPipeline.EveryBlockingRunCompletes | runtime/queue.c:19-47 | stages over real queues never get stuck: every run can be continued until all stages are done, no lost wakeup in the way |
| BlockingPipeline.BlockingRunsAgree | runtime/queue.c:19-47 | complete runs over real queues all end in the state that every complete run over channels of any capacity ends in |
| SequentialLoop.PipelineIsLoop | CodeTransformation.cpp:577-596 | whatever the schedule and capacity, a complete run sends on each channel, and leaves in each stage, what the plain loop computes that runs the stage bodies one after the other in each iteration |
| SequentialLoop.QueuesComputeLoop | runtime/queue.c:19-47 | so does every complete run over the real queues |
| LoopPass.NumberLoop | pipeline.cpp:158-160 | on the graph that the pass builds itself, two instructions of the loop get the same number exactly if each depends on the other |
| LoopPass.AssignStages | pipeline.cpp:158-168 | numbering and scheduling together put no dependence from a later stage to an earlier one, balance the costs of the stages, and find one component exactly if all instructions depend on each other |
| LoopPass.RunOnLoop | pipeline.cpp:145-179 | a loop is left alone if and only if all its instructions depend on each other, and is otherwise split so that each stage holds, in the loop's order and as often as the loop does, exactly its own instructions and the branches copied to it; dependences go up; exactly those whose source is no branch have a channel to each later stage that holds their target, each one of its own, and there are no other channels; stages are balanced by cost |
| LoopPass.StageBodyHolds | CodeTransformation.cpp:204-212 | the body of a stage has what the stage owns or has a copy of, as often and in the order in which the loop has it, and nothing else |
| LoopPass.OneNumber | pipeline.cpp:160-166 | findSCC ends with one number exactly if the loop has instructions and all of them depend on each other |
| LoopPass.CrossingConnected | CodeTransformation.cpp:577-591 | so a dependence that crosses stages goes up and has a channel to the owner of its target |
| LoopPass.SplitLoopRuns | pipeline.cpp:145-179 | the stages the pass makes never deadlock, and all their complete runs are equal |
| ControlDependence.LoopSearch.DfsVisit | buildPDG.cpp:9-17 | a visit finishes everything it newly reaches, and the recursion it keeps for its block is the stack it was called on; recursions nest, so they form a forest; a block finishes right after everything below it; of each finished block, exactly those successors were unfinished that are its ancestors or itself |
| ControlDependence.LoopSearch.Run | buildPDG.cpp:195-200 | every block is listed once, and the recursions kept are a depth-first forest of the loop: nested, with the blocks below each one finishing in one group that it closes |
| ControlDependence.LeavesTopExactlyUpwards | buildPDG.cpp:305-312 | an edge leaves the top half if and only if its target is an ancestor of its source in the depth-first forest or the source itself |
| ControlDependence.EveryWalkLifts | buildPDG.cpp:264-342 | every walk in the loop is a walk of the two-half graph that changes halves at most once |
| ControlDependence.WalksProject | buildPDG.cpp:264-342 | a walk of the two-half graph is a walk in the loop and never returns to the top half |
| ControlDependence.TopHalfAcyclic | buildPDG.cpp:305-312 | the top half has no cycle |
| ControlDependence.NumberBlocks | buildPDG.cpp:209-237 | blocks are numbered in the reverse of the finishing order |
| ControlDependence.Peel | buildPDG.cpp:264-342 | the switches that are built are exactly the edges of the two-half graph |
| ControlDependence.MarkDependents | buildPDG.cpp:363-386 | the walk marks exactly the non-exit tree ancestors of the successor that are not ancestors of the branching block |
| ControlDependence.AddControlEdges | buildPDG.cpp:357-387 | the control edges added are exactly those from a block's terminator to the instructions of the marked blocks |
| ControlDependence.ControlDependences | buildPDG.cpp:195-387 | search, peeling and walks together add exactly the edges that the walks up the given tree find; if the tree is the post-dominator tree of the two-half graph, these are exactly its control dependences as usually defined |
| ControlDependence.WalkIsControlDependence | buildPDG.cpp:363-386 | in a post-dominator tree, what the walk from an edge marks is what post-dominates its target and not its source, with post-dominance defined by walks to the exit |
| BoundedQueue.RingQueue.constructor | runtime/queue.c:4-11 | a new queue is empty |
| BoundedQueue.RingQueue.TryPush | runtime/queue.c:19-31 | a push appends to the stored sequence, or has to wait exactly if it is full |
| BoundedQueue.RingQueue.TryPop | runtime/queue.c:33-47 | a pop takes the oldest element, or has to wait exactly if there is none |
| BoundedQueue.SectionsAreOperations | runtime/queue.c:19-47 | the critical sections of the monitor do to the contents what TryPush and TryPop do to the ring buffer, and wait in the same cases |
| BoundedQueue.OccurKeepsInv | runtime/queue.c:19-47 | each event keeps what was pushed equal to what was popped followed by the contents, the length in bounds, and enough signalled threads for what is available |
| BoundedQueue.EveryRunKeepsInv | runtime/queue.c:19-47 | so does every run with any number of producers and consumers, spurious wakeups included |
| BoundedQueue.QuietMeansJustified | runtime/queue.c:22-24 | no wakeup is lost: when nothing is about to run, consumers wait only on an empty queue and producers only on a full one |
| ParallelReduce.StepKeepsPromise | include/oneapi/tbb/parallel_reduce.h:65-219 | each split, chunk, body choice, release and join keeps the value the tree will come to |
| ParallelReduce.EveryStateIsSound | include/oneapi/tbb/parallel_reduce.h:65-219 | in every reachable state the tree still comes to the fold of all elements |
| ParallelReduce.ReductionEqualsFold | include/oneapi/tbb/parallel_reduce.h:65-219 | for every associative operation with identity, every choice of splits and every interleaving, the result is the left-to-right fold |
| ParallelReduce.SomethingCanMove | include/oneapi/tbb/partitioner.h:161-182 | a reduction that is not finished can always take a step |
| ParallelReduce.EveryRunCompletes | include/oneapi/tbb/parallel_reduce.h:65-219 | whatever has happened, a run can be continued until the caller's body holds the fold |
| ParallelReduce.RunsAreShort | include/oneapi/tbb/parallel_reduce.h:65-219 | no run takes more than 16 steps an element, so it does not matter how steps are chosen |
| ReducePlans.EveryPlanHappens | include/oneapi/tbb/parallel_reduce.h:65-219 | every way of splitting the range further and further, with each right half begun early or not, is that of some complete run, which has one body for each half begun early besides the caller's |
| ParallelScan.StepKeeps1 | include/oneapi/tbb/parallel_scan.h:292-310 | each step of the first pass keeps sums, final prefixes and the parts still owed right, whichever right children count as stolen |
| ParallelScan.SlotMeansSerial | include/oneapi/tbb/parallel_scan.h:456 | a right child that finds its own body in the sum slot really follows a finished left half |
| ParallelScan.StepKeeps2 | include/oneapi/tbb/parallel_scan.h:245-262 | each step of the second pass gives every remaining range its exact prefix |
| ParallelScan.EveryStateIsSound | include/oneapi/tbb/parallel_scan.h:423-496 | in every state of every run, each index is either owed or has had its final call, never both |
| ParallelScan.ScanIsRight | include/oneapi/tbb/parallel_scan.h:423-496 | every index is in exactly one call with the final tag, each such call gets exactly the fold of everything to its left, and the caller's body ends with the total |
| ParallelScan.NoRunIsStuck | include/oneapi/tbb/parallel_scan.h:423-496 | no run gets stuck before the end |
| ParallelScan.EveryRunCompletes | include/oneapi/tbb/parallel_scan.h:423-496 | whatever has happened, a run can be continued to the end of both passes |
| ParallelScan.NextLowersRank | include/oneapi/tbb/parallel_scan.h:423-496 | every step of either pass lowers a measure, so there are no endless runs |
| ScanPlans.EveryPlanHappens | include/oneapi/tbb/parallel_scan.h:423-496 | every choice of splits and thefts is that of the first pass of some complete run, with a body a theft and the final calls of what nothing stolen precedes; a second pass follows exactly if there was a theft |
| PriorityQueue.ConcurrentPriorityQueue.Heapify | include/oneapi/tbb/concurrent_priority_queue.h:344-359 | merging the tail gives a heap of the same elements |
| PriorityQueue.ConcurrentPriorityQueue.Reheap | include/oneapi/tbb/concurrent_priority_queue.h:363-383 | removing the root leaves a heap of the other elements, refilled from the tail if there is one |
| PriorityQueue.Answering | include/oneapi/tbb/concurrent_priority_queue.h:313-338 | answering a pop extends the order of operations by a legal step, or by a push and the pop of its element |
| PriorityQueue.ConcurrentPriorityQueue.HandleOperations | include/oneapi/tbb/concurrent_priority_queue.h:253-341 | some order of the whole batch on an ideal max-priority queue gives the same results, and the batch ends with mark at the size and a valid heap |
| PriorityQueue.BatchConserves | include/oneapi/tbb/concurrent_priority_queue.h:253-341 | elements afterwards plus elements popped are elements before plus elements pushed, and every operation is answered |
| PriorityQueue.PopsServeTheGreatest | include/oneapi/tbb/concurrent_priority_queue.h:253-341 | a pop of a batch fails only if the batch takes all that was in the queue; what it gets is not below anything that was in the queue and stays there |
| HashPaths.SegmentsTile | include/oneapi/tbb/concurrent_hash_map.h:130-142 | every index is in exactly one segment |
| HashPaths.LowIsRest | include/oneapi/tbb/concurrent_hash_map.h:728-737 | masking a hash with the mask of level j takes its rest by 2^j |
| HashPaths.ParentOnPath | include/oneapi/tbb/concurrent_hash_map.h:728-737 | the parent of a bucket on a hash path is on the path with nothing in between |
| HashPaths.NextIsNext | include/oneapi/tbb/concurrent_hash_map.h:270-284 | the mask found by the collision check leads to the next bucket on the path |
| ConcurrentHashMap.MissingHereIsMissing | include/oneapi/tbb/concurrent_hash_map.h:1323-1325 | a key, or the node to be excluded, that is not in the locked, deepest settled bucket of its path is in no bucket |
| ConcurrentHashMap.NextRequiredMeansDeepest | include/oneapi/tbb/concurrent_hash_map.h:270-284 | if the collision check finds its bucket unrehashed, no deeper bucket of the path is rehashed |
| ConcurrentHashMap.ReadsFlagKeeps | include/oneapi/tbb/concurrent_hash_map.h:260-284 | a miss for which check_mask_race returns false means that the key, or the node to be excluded, is absent at that moment |
| ConcurrentHashMap.FetchesKeeps | include/oneapi/tbb/concurrent_hash_map.h:728-763 | a bucket that has fetched its nodes keeps every node in the deepest settled bucket of its path |
| ConcurrentHashMap.MovesKeeps | include/oneapi/tbb/concurrent_hash_map.h:741-757 | moving one node to a child changes nothing about which keys the map has |
| ConcurrentHashMap.InsertsKeeps | include/oneapi/tbb/concurrent_hash_map.h:1314-1319 | an insertion happens only while the key is absent, and adds just that node |
| ConcurrentHashMap.ErasesKeeps | include/oneapi/tbb/concurrent_hash_map.h:1424-1456 | an erasure removes just the node it found |
| ConcurrentHashMap.GrowsKeeps | include/oneapi/tbb/concurrent_hash_map.h:181-215 | enabling segments at any moment keeps the invariant and the map |
| ConcurrentHashMap.StepKeeps | include/oneapi/tbb/concurrent_hash_map.h:706-763 | every step keeps the invariant: settled buckets have settled ancestors and every node is where its path says |
| ConcurrentHashMap.EveryRunRefinesAMap | include/oneapi/tbb/concurrent_hash_map.h:1274-1464 | in every run of lookups and insertions (with and without an accessor, starting again when the item is locked for long), erasures, exclusions by accessor and growth, each answer is a plain map's answer at that moment, and the table stands for that map |
| ConcurrentHashMap.AccessesAreSound | include/oneapi/tbb/concurrent_hash_map.h:709-720 | the assertions hold: buckets are within the table, a bucket whose lock was acquired is rehashed |
| HashMapProgress.StepKeepsOwned | include/oneapi/tbb/concurrent_hash_map.h:706-763 | in every step each bucket lock belongs to exactly the threads that stand where they hold it |
| HashMapProgress.SomebodyFree | include/oneapi/tbb/concurrent_hash_map.h:728-763 | no deadlock: whenever a thread is blocked on a bucket, some thread in an operation is not, since who holds a lock waits only for buckets further up |
| HashMapProgress.AnswersFit | include/oneapi/tbb/concurrent_hash_map.h:1274-1464 | an answer is one for the operation and key of the thread that gives it, which is done with it then |
| HashMapProgress.EveryOperationCompletes | include/oneapi/tbb/concurrent_hash_map.h:1274-1464 | whatever operations and growth have done until now, every run can be continued until no operation is under way, and each of them answers once |
| HashRehash.HashMap.MarkRehashedLevels | include/oneapi/tbb/concurrent_hash_map.h:249-256 | exactly what hangs unrehashed from the bucket is marked |
| HashRehash.TopIsMarked | include/oneapi/tbb/concurrent_hash_map.h:976-980 | marking from a node's bucket makes the bucket of its full hash available |
| HashRehash.HashMap.Redistribute | include/oneapi/tbb/concurrent_hash_map.h:981-1002 | relinking puts every node in the deepest rehashed bucket of its path and loses none |
| HashRehash.ScanCompletes | include/oneapi/tbb/concurrent_hash_map.h:967-970 | scanning the last segment is enough for the whole table |
| HashRehash.HashMap.Reserve | include/oneapi/tbb/concurrent_hash_map.h:305-313 | the table ends with at least the buckets asked for; it grows exactly if it had fewer, and by no segment more than it takes; what is new is rehashed from the start exactly if the map is empty |
| HashRehash.HashMap.Rehash | include/oneapi/tbb/concurrent_hash_map.h:962-1005 | from any partly rehashed state no node is lost; the table gets at least the buckets asked for and no segment more than that takes; and afterwards no bucket needs rehashing and every node is where the full mask puts it, if and only if it is not the case that the map is empty, grows and has an unrehashed bucket |
| HashRehash.IncompleteAfterRehash | include/oneapi/tbb/concurrent_hash_map.h:305-313 | a table after its first growth and the erasure of everything is such a case |
| QueuingMutex.StepKeepsInv | include/oneapi/tbb/queuing_mutex.h:74-139 | exchange, link, spin, compare-exchange and hand-off keep the queue a chain of links from the owner to the tail |
| QueuingMutex.OneHolderInOrder | include/oneapi/tbb/queuing_mutex.h:74-139 | at most one thread holds the lock, and it is the first of those that entered the queue and have not left |
| QueuingMutex.HistoryGrows | include/oneapi/tbb/queuing_mutex.h:85-92 | the order of entry is never rewritten and is left one by one |
| QueuingMutex.ReleaseWakesNext | include/oneapi/tbb/queuing_mutex.h:120-139 | a release empties the queue or wakes exactly the next waiter |
| QueuingMutex.TryAcquireMeansEmpty | include/oneapi/tbb/queuing_mutex.h:98-117 | try_acquire succeeds exactly when nobody is in the queue |
| QueuingMutex.SomebodyMoves | include/oneapi/tbb/queuing_mutex.h:74-139 | while the queue is not empty, somebody in it can take a step |
| QueuingMutex.AcquireCompletes | include/oneapi/tbb/queuing_mutex.h:74-139 | whatever has happened until now, an acquire under way can be completed: every run can be continued until that thread holds the lock |
| RwMutex.NoCarry | include/oneapi/tbb/rw_mutex.h:71-187 | each update of the word changes just the fields it is meant to change: no carry, no borrow |
| RwMutex.MoveKeeps | include/oneapi/tbb/rw_mutex.h:71-187 | each step keeps the fields in agreement with who holds, backs off, upgrades or waits |
| RwMutex.WriterIsAlone | include/oneapi/tbb/rw_mutex.h:71-97 | a writer never coexists with another holder |
| RwMutex.ReaderFieldCounts | include/oneapi/tbb/rw_mutex.h:111-142 | the reader field is holders plus readers backing off plus a waiting upgrader |
| RwMutex.UpgradeTakesOver | include/oneapi/tbb/rw_mutex.h:150-174 | an upgrade without release ends with everybody else gone |
| RwMutex.SomeOperationMoves | include/oneapi/tbb/rw_mutex.h:55-65 | if nobody holds the lock, some operation under way can step; a stale pending bit never shuts everyone out |
| RwMutex.TryLockAlone | include/oneapi/tbb/rw_mutex.h:71-83 | undisturbed, try_lock and the first attempt of lock get the lock if and only if it has no readers and no writer |
| RwMutex.TrySharedAlone | include/oneapi/tbb/rw_mutex.h:111-126 | undisturbed, try_lock_shared succeeds if and only if no writer holds the lock or waits, other readers or not |
| RwMutex.UpgradeAlone | include/oneapi/tbb/rw_mutex.h:150-168 | undisturbed, the only reader becomes the writer without ever letting go |
| RwMutex.UpgradeGivesWay | include/oneapi/tbb/rw_mutex.h:156-173 | undisturbed, an upgrade lets go of the lock exactly if there are other readers and a writer waits |
| RwMutex.SomebodyGetsIn | include/oneapi/tbb/rw_mutex.h:55-174 | while lock, lock_shared or an upgrade is under way, every run can be continued until somebody holds the lock |
| ThreadLocalTable.HalfFull | include/oneapi/tbb/enumerable_thread_specific.h:231-258 | distinct numbers of at most half the size keep an array at most half full |
| ThreadLocalTable.StepKeepsInv | include/oneapi/tbb/enumerable_thread_specific.h:206-277 | every step keeps keys findable by probing and pointers in place |
| ThreadLocalTable.AlwaysHalfEmpty | include/oneapi/tbb/enumerable_thread_specific.h:231-233 | in every run no array is ever more than half full |
| ThreadLocalTable.ProbesEnd | include/oneapi/tbb/enumerable_thread_specific.h:215-218 | so no probe loop ever passes more than half of an array |
| ThreadLocalTable.RootsGrow | include/oneapi/tbb/enumerable_thread_specific.h:241-257 | each root array is larger than the one before |
| ThreadLocalTable.SameLocalForever | include/oneapi/tbb/enumerable_thread_specific.h:206-277 | a thread gets the same pointer from every lookup, even after its key has moved |
| ThreadLocalTable.ReturnsOwn | include/oneapi/tbb/enumerable_thread_specific.h:206-277 | what a lookup returns is the pointer that was created for that thread |
| ThreadLocalTable.GrownIsEnough | include/oneapi/tbb/enumerable_thread_specific.h:231-237 | the size chosen for a new array is at least twice the count, and no larger than that takes |
| ThreadLocalTable.LookupCompletes | include/oneapi/tbb/enumerable_thread_specific.h:206-277 | whatever has happened until now, every run can be continued, by that thread alone, until it returns from its lookup |
| ThreadLocalTable.ShiftIsGoodStart | include/oneapi/tbb/enumerable_thread_specific.h:109-111 | taking the top bits of the hash, a probe starts within the array, whatever its size |
| RangePool.RangeVector.SplitBack | include/oneapi/tbb/partitioner.h:213-219 | the circular buffer replaces its leftmost piece by the two halves, both one deeper |
| RangePool.FilledKeeps | include/oneapi/tbb/partitioner.h:211-221 | filling the pool keeps the pieces a tiling with depths in order and within the maximum, and goes on until it is full or the back cannot be split |
| RangePool.PartsTile | include/oneapi/tbb/blocked_range.h:86-125 | splitting gives two nonempty adjacent ranges |
| RangePool.Task.WorkBalance | include/oneapi/tbb/partitioner.h:433-454 | for every demand the loop ends; what was run follows on from the left, what was offered from the right, and together they are the range; each pass has answered to the demand found in it |
| RangePool.Task.Balance | include/oneapi/tbb/partitioner.h:441-451 | what is left in the pool, run and offered after one answer to demand; RunForAReason, OfferedOnDemand and the laws about whole runs say what that means |
| RangePool.RunForAReason | include/oneapi/tbb/partitioner.h:439-452 | a piece that is run is the leftmost one of the pool, and the pool was full, or the piece indivisible or as deep as allowed |
| RangePool.OfferedOnDemand | include/oneapi/tbb/partitioner.h:441-446 | exactly on demand, and if there are several pieces, the rightmost one is offered, and nothing is run in that pass |
| RangePool.NoDemandNoOffers | include/oneapi/tbb/partitioner.h:441-446 | without demand a task runs its whole range |
| RangePool.ConstantDemand | include/oneapi/tbb/partitioner.h:441-451 | under constant demand a task runs one piece and offers everything else |
| RangePool.AlwaysSized | include/oneapi/tbb/partitioner.h:211-221 | a piece of depth d is always the 2^d-th part of the range, rounded |
| RangePool.Task.ExecuteSimply | include/oneapi/tbb/partitioner.h:509-515 | the simple partitioner runs one indivisible piece from the left and offers all the rest |
| RangePool.EveryIndexOnce | include/oneapi/tbb/partitioner.h:433-454 | every index is run or offered exactly once, and offered pieces lie to the right of those run |
| ParallelSort.MedianIsBetween | include/oneapi/tbb/parallel_sort.h:60-63 | the chosen element is a median of the three |
| ParallelSort.PseudoMedianIsInside | include/oneapi/tbb/parallel_sort.h:65-72 | of the nine elements looked at, at least four are not above the chosen one and at least four are not below it |
| ParallelSort.SplitRange | include/oneapi/tbb/parallel_sort.h:74-111 | stays in bounds, terminates, permutes the range, takes the pseudo median for its pivot, and leaves nothing above the pivot before it and nothing below it after it |
| ParallelSort.SplitKeepsPending | include/oneapi/tbb/parallel_sort.h:126-132 | after a split, two elements are in the right order unless they are in one range still to be sorted |
| ParallelSort.Pretest | include/oneapi/tbb/parallel_sort.h:148-162 | with bodies one after another, over any pieces in any order, the group is cancelled exactly if some adjacent pair is in the wrong order |
| ParallelSort.DoParallelQuickSort | include/oneapi/tbb/parallel_sort.h:177-181 | with ranges one after another, whatever is split and in whatever order they are taken up, the array ends as a sorted permutation, after finitely many of them |
| SortTasks.InterleavedSortsSort | include/oneapi/tbb/parallel_sort.h:126-181 | with tasks that write to their ranges while others write to theirs: when none is left, the array is a sorted permutation |
| SortTasks.InterleavedPretestDecides | include/oneapi/tbb/parallel_sort.h:148-162 | with bodies that run at the same time, poll the flag at every 64th element and set it: when all have ended, the group is cancelled exactly if some adjacent pair is in the wrong order |
| SortTasks.EverySortCompletes | include/oneapi/tbb/parallel_sort.h:126-181 | whatever tasks have split and written until now, every run can be continued until none is left |
| SortTasks.EveryPretestCompletes | include/oneapi/tbb/parallel_sort.h:148-162 | every run of the pre-test can be continued until all bodies have ended |
| ParallelSort.ParallelQuickSort | include/oneapi/tbb/parallel_sort.h:186-207 | serial and parallel pre-test together cover every adjacent pair, and the result is a sorted permutation |
| ParallelSort.ParallelSort | include/oneapi/tbb/parallel_sort.h:238-247 | for every strict weak order and every size, the result is a sorted permutation |

## Left out

- LLVM itself: IR construction, alias and memory-dependence analysis, construction of the post-dominator tree, pass registration; their results are parameters.
- `preLoopSplit`, `loopSplit`, `cleanup`: the rewriting of basic blocks. `Pipeline` and `LoopPass.SplitLoopRuns` are about stages whose produce and consume sites are passed once an iteration; their bodies, one after the other in each iteration, are the loop that `SequentialLoop` compares with; that this is what the original loop's blocks did is not claimed.
- LoopPass.RunOnLoop: serves branches through the copies that every stage has, as the source does; which branches are copied where is a parameter.
- Printing, dumps and the debugging runtime: output only.
- pthread creation and join, futexes and the operating system's scheduler; condition variables are sets of waiting threads with arbitrary and spurious wakeups.
- Weak memory orders, allocation failure, exceptions, cancellation of reductions and scans, object lifetimes.
- Wrap-around of counters and of the one-byte depths of the range pool.
- Fairness: the results about completion say that every run can be continued to an answer, not that every schedule does so; `parallel_reduce` and `parallel_scan` alone have a measure that every step lowers.
- RangePool.Task.WorkBalance: splits ranges in the middle; proportional splitting computes with floating point and is not modelled.
- ParallelReduce.ReductionEqualsFold: offers may happen at any point of a range, which covers every partitioner; the affinity and static partitioners' own bookkeeping is not modelled.
- ParallelScan.ScanIsRight: takes for granted that splitting a copy of a range again divides it at the same place, as the second pass does.
- SortTasks.InterleavedSortsSort: writes in the middle of a split or of `std::sort` are arbitrary, so that a task of this relation can go on writing for ever; `ParallelSort.SplitRange` and `ParallelSort.DoParallelQuickSort` prove that for the loops.
- ParallelSort.SortPart: stands for `std::sort`; only its contract is used.
- ConcurrentHashMap.EveryRunRefinesAMap: a lock on a single item only decides whether a lookup ends or starts again; what holders of accessors do with the item, iterators, copying and `clear` are not modelled, a value stands for the node's address in `exclude`, and growth may happen at any moment instead of only after an insertion that reaches the load factor.
- HashRehash.HashMap.Rehash: requires that the size field is the number of nodes.
- Copying, swapping and clearing of the thread-local table and of the priority queue.
- The headers whose cores lie elsewhere or are easier than these: the other containers, `parallel_for`, `parallel_invoke`, pipelines, flow graphs, `queuing_rw_mutex`.

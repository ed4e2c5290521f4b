# Models of the CodeSamples algorithms

perfbook's `CodeSamples` are small, complete algorithms whose hard part is the argument
that they work. This project models twenty-one of their source files and proves that argument.

Sequential code keeps its own form: the maze generator and solvers, the partition stitching,
the pattern enumerator, the skiplist, the pool allocator, the retired-list scan and the random
number generator are classes and methods over arrays and fields, proved against
specification functions. Concurrent protocols are state machines over sequentially
consistent interleavings: one transition per access to a variable that another thread may
touch, or per locked region in which nothing waits. A run is a sequence of states and
events, and the main results hold at every index of every run. Fields of a state whose
comment calls them a log, a history or an unwrapped index exist for the proof only.

| file | what it models |
|---|---|
| `Common` | optional values, lists without duplicates and the steps of one thread in a run, shared by the others |
| `MazeGrid`, `TreePaths`, `MazeTree` | grid geometry, paths in trees, and the spanning-tree and search invariants |
| `SequentialMaze` | `maze.c` with the helpers and solver of `maze_seq.c` |
| `PartitionForest`, `PartitionGrowth` | the child threads of `maze_part.c` and the forest they grow |
| `PartitionProgress`, `PartitionTermination` | why those threads never wait in vain, and why they come to an end |
| `PartitionRoute`, `PartitionSolve` | routing through the partitions and stitching the path |
| `LimitSignal`, `LimitAtomic` | the two limit counters that steal per-thread caches back |
| `Srcu`, `Rcpls` | the two grace-period engines |
| `HazardPointers`, `HazptrScan` | hazard-pointer safety, and the retired list of one thread |
| `DequeSpec`, `HashedDeque`, `TandemDeque` | the two concurrent deques against one sequential deque |
| `WfQueue` | the queue with wait-free enqueue |
| `RcuList`, `HashResize` | one bucket under RCU, and the resizable hash table |
| `BucketTraversal` | readers following the pointers of any bucket while the table is updated and resized |
| `SkipList` | the global-lock skiplist |
| `SmpAlloc` | the pool allocator |
| `HtmOverflow`, `ParkMiller` | the partition enumerator and Schrage's trick |

Results the code does not quite meet, each with its exact boundary or a bracket:

- **Resizable hash table.** An updater takes its two bucket locks while the old table is
  current; if `ht_cur` changes between its two list operations, lookups through the
  current table miss an element that earlier lookups have seen (`HashResize.StraddlingAdd`).
  `HashResize.LookupExactness` shows that this is the only exception, with an if and only if.
- **Maze distances.** `maze_create` and `maze_solve` store distances in the 26-bit COOKIE
  field and ABORT when one overflows. `SequentialMaze.Maze.Solve` fails exactly if the same
  search with unbounded distances gives some cell a distance above COOKIE; that takes a simple
  path from the start of more than COOKIE cells, and is certain if the end can be reached and
  lies COOKIE or more grid steps away. Creation depends on its random draws:
  `SequentialMaze.MazeCreate` fails only if some simple path of the grid has more than COOKIE
  cells, and succeeds only if none of the finished maze has. `SequentialMaze.FailingCorridor`
  is a grid on which both must fail; `SequentialMaze.CreateAndSolve` shows that a maze solved
  from the cell it was created from never overflows.
- **Partitioned solver.** With three or more threads the children of `maze_part.c` return if and
  only if the maze can be solved: without a walk from start to end they wait for `done` for ever
  (`PartitionTermination.SolverEnds`, on every schedule that keeps giving each child its turns).
- **Pattern enumerator.** The value 0 by which `spread_success` would ask its caller to stop
  is never returned, so its pruning branches are dead (`HtmOverflow.Spreader.SpreadSuccess`).

## Model

| member | source | states |
|---|---|---|
| ParkMiller.SchrageCongruent | CodeSamples/lib/random.c:97-132 | for every valid seed all intermediates fit signed 32 bits and the unadjusted value is congruent to 16807x, within (-M, M) |
| ParkMiller.InverseUndoesStep | CodeSamples/lib/random.c:97-132 | 1407677000 inverts 16807 modulo 2^31-1, so no valid seed reaches 0 or 2^31-1 |
| ParkMiller.StepIsPermutation | CodeSamples/lib/random.c:97-132 | the step is onto and one-to-one on the valid seeds |
| ParkMiller.DrawsStayValidAndDistinct | CodeSamples/lib/random.c:97-132 | any number of draws keeps a seed valid, and different seeds never merge |
| ParkMiller.Generator.SetRandom | CodeSamples/lib/random.c:64-69 | every unsigned seed becomes a valid one, congruent to it unless it is a multiple of the modulus |
| ParkMiller.Generator.SetRandomThread | CodeSamples/lib/random.c:86-89 | the wrapped 32-bit hash of the thread number seeds validly |
| ParkMiller.Generator.MyRandom | CodeSamples/lib/random.c:97-132 | the new seed is exactly 16807x mod 2^31-1; the call aborts exactly when unseeded |
| HtmOverflow.Spreader.SpreadFailure | CodeSamples/future/HTMovf.c:83-103 | reports, once each, exactly the partitions reachable by moving references to later sets while the first stays over assoc; restores the array; terminates |
| HtmOverflow.Spreader.SpreadSuccess | CodeSamples/future/HTMovf.c:111-150 | reports, once each, exactly the completions of the prefix with parts at most max; restores the array; always returns 1 |
| HtmOverflow.Spreader.DoFailure | CodeSamples/future/HTMovf.c:152-160 | reports exactly the partitions whose largest part exceeds assoc, each once |
| HtmOverflow.Spreader.DoSuccess | CodeSamples/future/HTMovf.c:162-169 | reports exactly the partitions with every part at most assoc, each once |
| HtmOverflow.Spreader.CheckPatterns | CodeSamples/future/HTMovf.c:214-224 | running do_failure and then do_success reports every partition of nrefs into at most nsets parts exactly once, the overflowing ones first, and counts both kinds |
| HtmOverflow.FailStop | CodeSamples/future/HTMovf.c:83-103 | when the loop breaks, no reportable pattern is left |
| HtmOverflow.FailStep | CodeSamples/future/HTMovf.c:83-103 | a recursive call reports exactly the patterns with k references moved so far |
| HtmOverflow.SuccStep | CodeSamples/future/HTMovf.c:111-150 | a recursive call reports exactly the patterns whose next part is the one chosen |
| MazeGrid.WallbitInjective | CodeSamples/SMPdesign/maze/maze.h:122-138 | distinct neighbours are blocked by distinct wall bits |
| MazeTree.VisitKeepsTree | CodeSamples/SMPdesign/maze/maze.c:242-257 | visiting a cell from the segment's end keeps the carved tree |
| MazeTree.ContinueKeepsTree | CodeSamples/SMPdesign/maze/maze.c:317-328 | walling off the cell before the end keeps the tree and moves the frontier to the end |
| MazeTree.GrowStuck | CodeSamples/SMPdesign/maze/maze.c:407-450 | a stuck segment needs no walls: its end has no open edge to an unvisited cell |
| MazeTree.BoundaryKeepsTree | CodeSamples/SMPdesign/maze/maze.c:468-527 | re-opening a wall at the boundary attaches the new cell as a leaf |
| MazeTree.DistanceAtLeastGrid | CodeSamples/SMPdesign/maze/maze.c:242-257 | a cell's distance exceeds its grid distance from the start |
| MazeTree.SpanTreeIsUniquelyConnected | CodeSamples/SMPdesign/maze/maze.c:546-567 | in a finished maze any two cells are joined by exactly one simple path |
| SequentialMaze.Maze.constructor | CodeSamples/SMPdesign/maze/maze.c:75-124 | every cell of a new maze has exactly the border walls of its place, so all edges of the grid are open; nothing is visited or marked |
| SequentialMaze.Maze.TryVisitCell | CodeSamples/SMPdesign/maze/maze_seq.c:69-79 | visits an unvisited connected cell at the given distance, or changes nothing |
| SequentialMaze.Maze.FindAnyNextCell | CodeSamples/SMPdesign/maze/maze.c:266-287 | finds nothing exactly when every connected neighbour is visited |
| SequentialMaze.Maze.BuildCellWalls | CodeSamples/SMPdesign/maze/maze.c:290-328 | closes, from both sides, exactly the edges to neighbours other than prev and next |
| SequentialMaze.Maze.RemoveWall | CodeSamples/SMPdesign/maze/maze.c:453-462 | opens exactly one edge, from both sides |
| SequentialMaze.Maze.ChooseNextCell | CodeSamples/SMPdesign/maze/maze.c:355-404 | whatever the draws, continues through an open edge, ends, or is stuck with every connected neighbour visited |
| SequentialMaze.Maze.ConstructSegment | CodeSamples/SMPdesign/maze/maze.c:407-450 | turns a growing tree into a settled one that no open edge leaves |
| SequentialMaze.Maze.PickUnvisited | CodeSamples/SMPdesign/maze/maze.c:468-527 | finds an unvisited neighbour unless the cell is surrounded |
| SequentialMaze.Maze.FindBoundary | CodeSamples/SMPdesign/maze/maze.c:468-527 | either crosses into an unvisited cell or every cell is visited |
| SequentialMaze.Maze.UnvisitAll | CodeSamples/SMPdesign/maze/maze.c:530-543 | clears visits, marks and distances and no wall |
| SequentialMaze.MazeCreate | CodeSamples/SMPdesign/maze/maze.c:546-567 | terminates; the result is symmetric and any two cells are joined by exactly one simple path; it fails only if the grid has a simple path from start too long for COOKIE, and a created maze has none |
| SequentialMaze.CreateAndSolve | CodeSamples/SMPdesign/maze/maze_seq.c:85-119 | solving a created maze from its own start never overflows, and finds a path of at most COOKIE cells to every other cell |
| SequentialMaze.FailingCorridor | CodeSamples/SMPdesign/maze/maze.c:242-257 | in a corridor of COOKIE + 1 cells both creating and solving from the end overflow |
| MazeTree.RootPath | CodeSamples/SMPdesign/maze/maze.c:242-257 | a cell's distance is the cell count of a simple path to it from the start |
| MazeTree.OverflowNeedsLongPath | CodeSamples/SMPdesign/maze/maze.c:242-257 | a visit whose distance overflows ends a simple path of more than COOKIE cells |
| MazeTree.OverrunNeedsLongPath | CodeSamples/SMPdesign/maze/maze_seq.c:85-119 | the unbounded search exceeds COOKIE only on a maze with such a path |
| MazeTree.SearchStep | CodeSamples/SMPdesign/maze/maze_seq.c:85-119 | the search keeps a tree of predecessors one step closer |
| MazeTree.NotReachable | CodeSamples/SMPdesign/maze/maze_seq.c:85-119 | an exhausted search that missed the end proves it unreachable |
| MazeTree.MarkedPathIsSimple | CodeSamples/SMPdesign/maze/maze.c:592-614 | descending distances marks a simple path whose cell count is the end's distance |
| SequentialMaze.Maze.MarkSolution | CodeSamples/SMPdesign/maze/maze.c:592-614 | marks exactly the cells of a simple path from start to end and returns their number, without ABORT |
| SequentialMaze.Maze.Solve | CodeSamples/SMPdesign/maze/maze_seq.c:85-119 | on a wall-symmetric maze returns 0 exactly if start is end or end is unreachable, else marks a simple path and returns its length, at most COOKIE; overflows exactly if the search with unbounded distances exceeds COOKIE |
| PartitionGrowth.StepKeepsInv | CodeSamples/SMPdesign/maze/maze_part.c:82-158 | every access of every child keeps the forest, the encounter table and the visibility flags consistent |
| PartitionGrowth.RunKeepsOwners | CodeSamples/SMPdesign/maze/maze_part.c:121-158 | over any run a visited cell keeps its one owner, and its distance once set |
| PartitionGrowth.MeasuredCell | CodeSamples/SMPdesign/maze/maze_part.c:121-158 | a cell given its distance has a same-owner connected neighbour one closer |
| PartitionGrowth.StoreEntry | CodeSamples/SMPdesign/maze/maze_part.c:99-118 | the four stores of an encounter leave a true encounter, the first of them already counting as met |
| PartitionGrowth.PropagateFlags | CodeSamples/SMPdesign/maze/maze_part.c:82-96 | propagation passes on only visibility that recorded meetings support |
| PartitionGrowth.DoneMeansRoute | CodeSamples/SMPdesign/maze/maze_part.c:82-118 | done is set only if recorded meetings join the start's thread to the end's by a simple route |
| PartitionGrowth.FinishedRun | CodeSamples/SMPdesign/maze/maze_part.c:491-591 | when all children have returned they leave a forest, a true encounter table, and a route |
| PartitionProgress.VisibilityIsComplete | CodeSamples/SMPdesign/maze/maze_part.c:82-96 | once all children wait, each sees the start, or the end, exactly if recorded meetings join it to that thread |
| PartitionProgress.NothingUnexplored | CodeSamples/SMPdesign/maze/maze_part.c:530-583 | once all children wait, every open neighbour of a visited cell has been visited, by its owner or a thread its owner met, unless done was set |
| PartitionProgress.WaitingIsJustified | CodeSamples/SMPdesign/maze/maze_part.c:491-591 | once all children wait, done is set exactly if the meetings give a route, and if it is not set the maze has no walk from start to end |
| PartitionProgress.StepPassedOn | CodeSamples/SMPdesign/maze/maze_part.c:491-527 | every step keeps each visibility flag that a met thread lacks on its way to that thread |
| PartitionTermination.StepLeavesLess | CodeSamples/SMPdesign/maze/maze_part.c:82-158 | every step of a child lowers a bound on what all children still do, except a test of a final wait that finds nothing, which does not raise it |
| PartitionTermination.WorkIsBounded | CodeSamples/SMPdesign/maze/maze_part.c:491-591 | in every run, on any schedule, at most 301 times the cells plus n(20n + 217) steps of n children are other than such tests |
| PartitionTermination.SolverEnds | CodeSamples/SMPdesign/maze/maze_part.c:524-591 | on every schedule that gives each child its turns, all children return if and only if the maze joins its start to its end; otherwise all end up waiting with done not set |
| PartitionTermination.FinishedIsReachable | CodeSamples/SMPdesign/maze/maze_part.c:82-118 | if all children have returned, a walk through the maze joins its start to its end |
| PartitionForest.TreePathSimple | CodeSamples/SMPdesign/maze/maze_part.c:673-710 | climbing the deeper end first gives a simple path between any two cells of one tree |
| PartitionForest.RootPathLength | CodeSamples/SMPdesign/maze/maze.c:592-614 | the path to a thread's start has as many cells as the distance stored |
| PartitionRoute.SkipLosesNothing | CodeSamples/SMPdesign/maze/maze_part.c:628-635 | passing over a repeated or unmet partition loses no route |
| PartitionRoute.BacktrackLosesNothing | CodeSamples/SMPdesign/maze/maze_part.c:638-644 | backtracking from an exhausted position, or a full path, loses no route |
| PartitionRoute.BumpLeavesLess | CodeSamples/SMPdesign/maze/maze_part.c:628-635 | trying the next partition decreases the termination measure |
| PartitionRoute.DescendLeavesLess | CodeSamples/SMPdesign/maze/maze_part.c:638-639 | so does extending the path |
| PartitionRoute.BacktrackLeavesLess | CodeSamples/SMPdesign/maze/maze_part.c:640-644 | and so does backtracking |
| PartitionRoute.WalkGivesRoute | CodeSamples/SMPdesign/maze/maze_part.c:615-646 | any chain of meetings contains a simple route |
| PartitionSolve.PartitionedMaze.MapAdj | CodeSamples/SMPdesign/maze/maze_part.c:598-612 | each unrecorded entry becomes its mirror swapped, in place; the links become their symmetric closure |
| PartitionSolve.PartitionedMaze.RoutePartitions | CodeSamples/SMPdesign/maze/maze_part.c:615-646 | terminates in bounds, and succeeds exactly if a simple 0-to-1 route exists, leaving one in path |
| PartitionSolve.PartitionedMaze.Retreat | CodeSamples/SMPdesign/maze/maze.c:574-585 | some neighbour always precedes the cell, so no ABORT follows |
| PartitionSolve.PartitionedMaze.MarkSolution | CodeSamples/SMPdesign/maze/maze.c:592-614 | marks exactly the tree path from a thread's start and returns its length |
| PartitionSolve.PartitionedMaze.MarkSubsolution | CodeSamples/SMPdesign/maze/maze_part.c:673-710 | marks exactly the tree path between two cells of one thread and returns its length, without ABORT |
| PartitionSolve.PartitionedMaze.StitchPartitions | CodeSamples/SMPdesign/maze/maze_part.c:713-738 | marks one simple path from the maze's start to its end and returns its cell count |
| PartitionSolve.PartitionedMaze.FinishSolve | CodeSamples/SMPdesign/maze/maze_part.c:744-819 | the result is positive exactly if a route exists and equals the number of SOLUTION cells, which form a simple path |
| PartitionSolve.MazeSolve | CodeSamples/SMPdesign/maze/maze_part.c:744-819 | after any run of the children in which all return, the maze is solved |
| LimitSignal.StepKeepsInv | CodeSamples/count/count_lim_sig.c:55-179 | every fast-path, handler and flush step keeps the handshake invariant |
| LimitSignal.TheftLosesNothing | CodeSamples/count/count_lim_sig.c:64-93 | a counter is taken only from a READY thread, which is not between its check and an update that would be lost |
| LimitSignal.LockFreeIsExact | CodeSamples/count/count_lim_sig.c:111-179 | with the lock free the counts add up to the net of successful calls, the reserve to the maxima, within the limit |
| LimitSignal.Conservation | CodeSamples/count/count_lim_sig.c:111-179 | over any run the total is the sum of calls that returned 1 plus fast-path successes about to return |
| LimitSignal.FinalCheckIsExact | CodeSamples/count/count_lim_sig.c:111-179 | after a flush the second check fails exactly if the exact total leaves no room |
| LimitSignal.CallIsExact | CodeSamples/count/count_lim_sig.c:111-179 | from its call to its return an add_count or sub_count has added exactly delta and returns 1, or has added nothing and returns 0; it returns 0 only from a last step under the lock, after a completed flush, with an exact total that has no room for delta |
| LimitSignal.TotalWithinLimit | CodeSamples/count/count_lim_sig.c:111-179 | at every moment of a run the net of the successful calls is within the limit |
| LimitSignal.NobodyIsStuck | CodeSamples/count/count_lim_sig.c:55-179 | a thread inside a call can always move, unless it waits for the lock, for another thread to be READY, or for its handler |
| LimitSignal.SubtractionsNeverWrap | CodeSamples/count/count_lim_sig.c:47-107 | no unsigned subtraction goes below zero |
| LimitSignal.HandshakeStep | CodeSamples/count/count_lim_sig.c:55-62 | while the flusher waits for a thread, the next turn of the handshake can always be taken |
| LimitSignal.HandshakeCompletes | CodeSamples/count/count_lim_sig.c:55-93 | on every schedule, whatever all threads do in between, twenty turns of the awaited thread and its handler make it READY, and the flusher waits until then |
| LimitSignal.WaitingStep | CodeSamples/count/count_lim_sig.c:55-93 | no step of any thread moves the awaited thread further from READY |
| LimitAtomic.SplitMerge | CodeSamples/count/count_lim_atomic.c:38-59 | both 16-bit fields survive packing, also when the int is negative |
| LimitAtomic.MergeSplit | CodeSamples/count/count_lim_atomic.c:38-59 | every int is the packing of its fields |
| LimitAtomic.MergeInjective | CodeSamples/count/count_lim_atomic.c:99-108 | comparing words compares both fields |
| LimitAtomic.BitsSplitMerge | CodeSamples/count/count_lim_atomic.c:38-59 | the round trip on the bits, with either fill of the right shift |
| LimitAtomic.StepKeepsInv | CodeSamples/count/count_lim_atomic.c:63-212 | every compare-and-swap, exchange and locked region keeps the books |
| LimitAtomic.Conservation | CodeSamples/count/count_lim_atomic.c:99-161 | at every moment counts and reserves add up, within the limit, and each counter is at most its maximum |
| LimitAtomic.FailureIsExact | CodeSamples/count/count_lim_atomic.c:99-161 | after a flush an operation succeeds exactly if the exact total stays within the limit |
| LimitAtomic.CallIsExact | CodeSamples/count/count_lim_atomic.c:99-161 | from its call to its return an add_count or sub_count has added exactly delta and returns 1, or has added nothing and returns 0; it returns 0 only from a last step under the lock, after a completed flush, with an exact total that has no room for delta |
| LimitAtomic.NobodyIsStuck | CodeSamples/count/count_lim_atomic.c:99-161 | a thread inside a call can always move, unless it waits for the lock |
| LimitAtomic.BalanceFits | CodeSamples/count/count_lim_atomic.c:191-212 | the share taken fits its field and what is neither counted nor reserved |
| LimitAtomic.NothingWraps | CodeSamples/count/count_lim_atomic.c:63-161 | no unsigned subtraction goes below zero |
| Srcu.PrefixSumsFall | CodeSamples/defer/srcu.c:55-64 | while no one picks the old rank, its counters' prefix sums only fall |
| Srcu.ZeroSumMeansIdle | CodeSamples/defer/srcu.c:55-64 | a non-atomic sum of zero means no section uses the old rank |
| Srcu.FreeMutexOldRankIdle | CodeSamples/defer/srcu.c:140-229 | with the mutex free, no active or in-flight section uses the non-current rank |
| Srcu.GracePeriod | CodeSamples/defer/srcu.c:140-229 | a section entered before the call has left when it returns, on the normal path and the early exit |
| Srcu.GracePeriodByCalls | CodeSamples/defer/srcu.c:99-229 | in terms of the calls made: a srcu_read_lock that returned before synchronize_srcu was called has been followed by its srcu_read_unlock before synchronize_srcu returns, early or not |
| Srcu.NobodyIsStuck | CodeSamples/defer/srcu.c:140-229 | a synchronize_srcu can always move, unless it waits for the mutex or for RCU sections to close |
| Srcu.ReadersNeverWait | CodeSamples/defer/srcu.c:99-129 | a section can always go on to its next stage |
| Srcu.SeenIsFixed | CodeSamples/defer/srcu.c:140-229 | the sections a call waits for are those inside when it was called |
| Rcpls.FlipsAfter | CodeSamples/defer/rcu_rcpls.c:28-46 | a flip that ends has waited out its counter in every thread, for every call that sampled before it |
| Rcpls.GracePeriod | CodeSamples/defer/rcu_rcpls.c:48-84 | on all four paths, every section open when the call sampled rcu_idx has ended when it drops the lock |
| Rcpls.NestingCounts | CodeSamples/defer/rcu_rcpls.h:47-77 | rcu_nesting is the number of rcu_read_lock calls counted so far minus the rcu_read_unlock calls counted, and a thread is in a section exactly while its unlocks have not caught up with its locks |
| Rcpls.GracePeriodByCalls | CodeSamples/defer/rcu_rcpls.c:48-84 | in terms of the calls made: if a thread has made more locks than unlocks when synchronize_rcu is called, its unlocks catch up with its locks before synchronize_rcu returns |
| Rcpls.NobodyIsStuck | CodeSamples/defer/rcu_rcpls.c:28-84 | synchronize_rcu can always move unless it waits for the lock; a reader inside rcu_read_lock, rcu_read_unlock or a section always can |
| Rcpls.SharedGracePeriod | CodeSamples/defer/rcu_rcpls.c:58-68 | when rcu_idx is three past the call's sample, every section open at the sample has ended already |
| Rcpls.SampleIsKept | CodeSamples/defer/rcu_rcpls.c:53-57 | what a call waits for is what was open as it sampled rcu_idx |
| Rcpls.ReadKeepsGone | CodeSamples/defer/rcu_rcpls.h:47-74 | no reader step, nested or not, reopens a section already seen |
| HazardPointers.ReadSlot | CodeSamples/defer/hazptr.h:71-84 | a successful re-read finds its node live and on no retired list |
| HazardPointers.RecordReturnsCell | CodeSamples/defer/hazptr.h:71-97 | over every run hp_record returns the node that the very cell it was given holds at its last read, unmarked, and its slot then holds that node; it returns NULL only if that cell is NULL then |
| HazardPointers.RecordIsShort | CodeSamples/defer/hazptr.h:71-97 | while the cell keeps its value, which is not HAZPTR_POISON, hp_record returns within three reads |
| HazardPointers.HeldIsNotFreed | CodeSamples/defer/hazptr.h:71-103 | a node hp_record returned is not free while its slot holds it |
| HazardPointers.HoldLasts | CodeSamples/defer/hazptr.h:71-103 | the hold lasts until the slot is cleared or overwritten, so the node is not even freed and reused meanwhile |
| HazardPointers.ClearReleases | CodeSamples/defer/hazptr.h:99-103 | from hp_clear until the next hp_record a slot holds and protects nothing |
| HazardPointers.ScanKeepsInv | CodeSamples/defer/hazptr.c:81-147 | slot-by-slot reading and sweeping frees no protected node, against any reader and updater steps |
| HazardPointers.ScanIsExact | CodeSamples/defer/hazptr.c:81-147 | each node that was on the list when a scan began is freed by its end, unless some slot contained it while the scan ran |
| HazardPointers.NothingIsLost | CodeSamples/defer/hazptr.c:81-158 | in every run a retired node is on the list of the thread that retired it, or in the rest of the list which that thread is sweeping |
| HazardPointers.FreeLaterRemembers | CodeSamples/defer/hazptr.c:149-158 | a node given to hp_free_later is on the caller's list, or in the rest of the list which the caller is sweeping, until it is freed |
| HazardPointers.ScanSteps | CodeSamples/defer/hazptr.c:81-147 | a scan takes one step a slot, one a node of its list, and two more, whatever other threads do |
| HazardPointers.RetiredAreBounded | CodeSamples/defer/hazptr.c:149-158 | between scans a list is below R, and what survives a scan is at most H |
| HazptrScan.HazptrThread.Scan | CodeSamples/defer/hazptr.c:81-147 | keeps exactly the hazardous nodes, reversed, and frees the rest in order |
| HazptrScan.HazptrThread.FreeLater | CodeSamples/defer/hazptr.c:149-158 | at the threshold at least R - H nodes are freed, so the list never stays at R |
| HazptrScan.HazptrThread.ClearSlots | CodeSamples/defer/hazptr.c:44-50 | exactly the thread's own K slots are cleared |
| HazptrScan.ScanPartitions | CodeSamples/defer/hazptr.c:81-147 | a scan neither loses nor duplicates a node |
| HazptrScan.SurvivorsFit | CodeSamples/defer/hazptr.c:81-147 | of distinct nodes at most one per slot survives |
| HashedDeque.BucketMoves | CodeSamples/SMPdesign/lockhdeq.c:149-157 | the masked index moves are moves of the logical position |
| HashedDeque.InBucketRight | CodeSamples/SMPdesign/lockhdeq.c:78-83 | adding at the right end adds at the head of one bucket |
| HashedDeque.AccessBuckets | CodeSamples/SMPdesign/lockhdeq.c:172-220 | each bucket operation is the sequential operation on every bucket's contents |
| HashedDeque.AccessTouches | CodeSamples/SMPdesign/lockhdeq.c:172-220 | the index read under the side's lock leads to the right bucket |
| HashedDeque.StepKeepsInv | CodeSamples/SMPdesign/lockhdeq.c:172-220 | every step keeps buckets, indexes and locks consistent |
| HashedDeque.Linearizable | CodeSamples/SMPdesign/lockhdeq.c:172-220 | every run refines the sequential deque, with each bucket holding exactly its congruent positions |
| HashedDeque.CallTakesEffect | CodeSamples/SMPdesign/lockhdeq.c:172-220 | over every run, between call and return the history gains exactly one operation of the thread: the one that was called, with the result that is returned, which the sequential deque gives at that point |
| HashedDeque.CallIsShort | CodeSamples/SMPdesign/lockhdeq.c:172-220 | a call is over within five steps of its thread |
| HashedDeque.NobodyIsStuck | CodeSamples/SMPdesign/lockhdeq.c:172-220 | a thread inside an operation can always move, unless it waits for its side's lock |
| HashedDeque.LogOnlyGrows | CodeSamples/SMPdesign/lockhdeq.c:172-220 | the history respects the order of non-overlapping calls |
| HashedDeque.NullMeansEmpty | CodeSamples/SMPdesign/lockhdeq.c:172-198 | a pop returns NULL exactly if the whole deque is empty at its bucket access |
| TandemDeque.AccessSequential | CodeSamples/SMPdesign/locktdeq.c:104-155 | an access that decides its operation is the sequential one on both halves together, splice included |
| TandemDeque.StepKeepsInv | CodeSamples/SMPdesign/locktdeq.c:104-155 | every step keeps locks, halves and history consistent |
| TandemDeque.Linearizable | CodeSamples/SMPdesign/locktdeq.c:104-155 | every run refines the sequential deque, whose contents are the left half then the right half |
| TandemDeque.CallTakesEffect | CodeSamples/SMPdesign/locktdeq.c:104-155 | over every run, between call and return the history gains exactly one operation of the thread: the one that was called, with the result that is returned, which the sequential deque gives at that point |
| TandemDeque.CallIsShort | CodeSamples/SMPdesign/locktdeq.c:104-155 | a call is over within nine steps of its thread |
| TandemDeque.NullMeansEmpty | CodeSamples/SMPdesign/locktdeq.c:104-141 | a pop returns NULL only if both halves were empty at its deciding access |
| TandemDeque.LogOnlyGrows | CodeSamples/SMPdesign/locktdeq.c:104-155 | the history respects the order of non-overlapping calls |
| TandemDeque.NoDeadlock | CodeSamples/SMPdesign/locktdeq.c:104-141 | while any thread is inside an operation some thread inside one can move |
| WfQueue.StepKeepsInv | CodeSamples/advsync/wfenqueue.c:33-69 | the list with its pending link stores always spells out the order of the tail exchanges |
| WfQueue.Fifo | CodeSamples/advsync/wfenqueue.c:33-69 | what was popped, then what is queued, is what was pushed, in exchange order |
| WfQueue.PushEnqueuesOnce | CodeSamples/advsync/wfenqueue.c:33-41 | over every run, between the call and the return of q_push the thread has exchanged exactly the given element into the queue, once, and popped nothing |
| WfQueue.PushIsWaitFree | CodeSamples/advsync/wfenqueue.c:33-41 | a push takes exactly four steps, whatever other threads do |
| WfQueue.PopReturnsOldest | CodeSamples/advsync/wfenqueue.c:43-59 | a pop removes and returns the oldest real element |
| WfQueue.PopDequeuesOnce | CodeSamples/advsync/wfenqueue.c:43-69 | over every run, between the call and the return of q_pop the thread has removed exactly the element returned, or none if NULL is, and put nothing into the queue but, at most once, the dummy |
| WfQueue.NobodyIsStuck | CodeSamples/advsync/wfenqueue.c:33-69 | a thread inside an operation can always move, unless it waits for the mutex; the spinning of a pop counts as a move |
| WfQueue.NullMeansEmpty | CodeSamples/advsync/wfenqueue.c:43-59 | a pop decides on NULL exactly if no real element is queued |
| WfQueue.DummyOncePerPop | CodeSamples/advsync/wfenqueue.c:43-69 | the dummy is queued between pops, and pushed back at most once per pop |
| WfQueue.WaitsForPusher | CodeSamples/advsync/wfenqueue.c:50-52 | a pop waits only for a pusher that has exchanged the tail but not stored its link |
| RcuList.TraversalIsFaithful | CodeSamples/datastruct/hash/hash_resize.c:145-159 | a pointer-by-pointer traversal visits everything listed throughout and nothing deleted before it began |
| RcuList.TraversalDescends | CodeSamples/datastruct/hash/hash_resize.c:145-159 | each hop leads to an older element, so a traversal ends |
| HashResize.AddLookup | CodeSamples/datastruct/hash/hash_resize.c:246-262 | adding an absent key changes the lookup of that key only |
| HashResize.DelLookup | CodeSamples/datastruct/hash/hash_resize.c:268-276 | deleting a found node makes its key absent and changes no other lookup |
| HashResize.OneUpdater | CodeSamples/datastruct/hash/hash_resize.c:176-205 | no two updaters work on one key, also across the two tables |
| HashResize.StepKeepsInv | CodeSamples/datastruct/hash/hash_resize.c:176-328 | every update and resize step keeps both tables in agreement with the map |
| HashResize.LookupExactness | CodeSamples/datastruct/hash/hash_resize.c:232-240 | lookup through the current table equals the map if and only if no updater of the key straddles the table switch |
| HashResize.SectionRemembers | CodeSamples/datastruct/hash/hash_resize.c:232-240 | a section uses the table that was current when it began |
| HashResize.UpdateIsPossible | CodeSamples/datastruct/hash/hash_resize.c:246-276 | an updater that holds its locks can always add a new node if its key is absent or delete the node that is present, changing no other key |
| HashResize.LockIsPossible | CodeSamples/datastruct/hash/hash_resize.c:176-205 | the bucket locks of a key can be taken when they are free, in one table or in both |
| HashResize.NobodyIsStuck | CodeSamples/datastruct/hash/hash_resize.c:176-328 | an updater or reader can always move, and so can the resizer unless it waits for a bucket lock or for sections open at the switch |
| HashResize.StraddlingAdd | CodeSamples/datastruct/hash/hash_resize.c:246-328 | a run in which a lookup misses an element that was already found |
| HashResize.CopiedBucketsAgree | CodeSamples/datastruct/hash/hash_resize.c:311-322 | up to ht_resize_cur both tables agree; of the bucket being copied the new one has the elements before the resizer's position, of later buckets nothing |
| HashResize.OldReaderFindsPresent | CodeSamples/datastruct/hash/hash_resize.c:232-240 | a reader whose section began on the old table finds in it every element that was present then and has not been deleted since |
| BucketTraversal.StepOnBucket | CodeSamples/datastruct/hash/hash_resize.c:246-328 | a step of the table leaves a bucket as it is, adds one element at its head, or removes one that is retired |
| BucketTraversal.StepLifts | CodeSamples/datastruct/hash/hash_resize.c:246-328 | the linked list of a bucket can follow every step of the table |
| BucketTraversal.FollowKeepsInv | CodeSamples/datastruct/hash/hash_resize.c:246-328 | and its pointers go on spelling the bucket |
| BucketTraversal.TraversalVisits | CodeSamples/datastruct/hash/hash_resize.c:145-159 | a traversal of any bucket of any table visits every element in it throughout, every one there at the start and not deleted since, and only elements in it at some moment |
| BucketTraversal.TraversalFinds | CodeSamples/datastruct/hash/hash_resize.c:145-159 | a lookup's traversal meets the element that was present when its section began and has not been deleted since, unless it begins on the new table while an updater of the key straddles the switch |
| HashResize.FreeIsSafe | CodeSamples/datastruct/hash/hash_resize.c:323-326 | when the old table is freed no critical section refers to it |
| SkipList.SkipList.constructor | CodeSamples/datastruct/skiplist/skiplist.h:79-92 | an initialised header is a valid empty list |
| SkipList.SkipList.LookupHelp | CodeSamples/datastruct/skiplist/skiplist_glock.c:73-87 | returns the last element below the key |
| SkipList.SkipList.LookupLock | CodeSamples/datastruct/skiplist/skiplist_glock.c:123-163 | finds the key exactly if present, and holds the lock exactly then |
| SkipList.SkipList.Insert | CodeSamples/datastruct/skiplist/skiplist_glock.c:319-374 | fails exactly on a duplicate; else adds the element at its place with its tower, keeping every level |
| SkipList.SkipList.FindUnlinks | CodeSamples/datastruct/skiplist/skiplist_glock.c:251-274 | despite the stale result, a predecessor is kept wherever the element is linked |
| SkipList.SkipList.Delete | CodeSamples/datastruct/skiplist/skiplist_glock.c:251-304 | fails exactly if the key is absent; else unlinks the element at every level, without BUG_ON |
| SkipList.SkipList.FsckOne | CodeSamples/datastruct/skiplist/skiplist.h:258-273 | on a valid list the code's own check passes at every element |
| SkipList.InsertNext | CodeSamples/datastruct/skiplist/skiplist_glock.c:359-366 | a new tower takes over exactly the links that cross its place at the levels it reaches |
| SkipList.SkipList.InsertThenDelete | CodeSamples/datastruct/skiplist/skiplist_glock.c:251-374 | inserting an absent key and deleting it returns the same element and restores order, heights, keys and every link |
| SkipList.InsertAddsKey | CodeSamples/datastruct/skiplist/skiplist_glock.c:319-374 | insertion adds exactly one key to the set |
| SkipList.DeleteRemovesKey | CodeSamples/datastruct/skiplist/skiplist_glock.c:251-304 | deletion removes exactly that key from the set |
| SkipList.RandomLevel | CodeSamples/datastruct/skiplist/skiplist.h:157-169 | the height is the number of trailing one bits, capped at the top level |
| SmpAlloc.Allocator.constructor | CodeSamples/SMPdesign/smpalloc.c:96-112 | after initpools every block is pooled once and none is held, without overflow |
| SmpAlloc.Allocator.Alloc | CodeSamples/SMPdesign/smpalloc.c:50-73 | returns NULL exactly if the own and the global pool are empty, else an unheld block; each block stays in one place |
| SmpAlloc.Allocator.Free | CodeSamples/SMPdesign/smpalloc.c:77-93 | pools a held block, spilling the upper half of a full pool, with each block in one place and NULL above cur |
| SmpAlloc.Allocator.Spill | CodeSamples/SMPdesign/smpalloc.c:82-90 | the spill stays within the global array, in the order of the loop |
| SmpAlloc.Allocator.Refill | CodeSamples/SMPdesign/smpalloc.c:57-65 | the refill takes the last up to three global blocks, last first |
| SmpAlloc.GlobalFits | CodeSamples/SMPdesign/smpalloc.c:77-93 | conservation alone bounds the global pool |
| SmpAlloc.MoveOnce | CodeSamples/SMPdesign/smpalloc.c:50-93 | moving blocks between pools and holders loses and duplicates none |
| SmpAlloc.PoolsBounded | CodeSamples/SMPdesign/smpalloc.c:50-112 | the global index stays below the array's size and all blocks are accounted for |

## Left out

- SequentialMaze.MazeCreate: on a grid with a simple path of more than COOKIE cells the random draws decide whether a distance overflows, so failure is bounded by such paths in the grid and in the finished maze.
- LimitSignal.HandshakeCompletes: counts turns and not time; that the scheduler grants the awaited thread its turns is not modelled.
- HazptrScan.HazptrThread.ClearSlots: the loop of `hazptr_thread_exit` that rescans until the list is empty waits for other threads; each scan it makes is modelled.
- WfQueue.WaitsForPusher: the spinning pop makes no progress until the pusher runs, so no bound on its wait is stated.
- PartitionTermination.SolverEnds: counts turns and not time; that the scheduler grants every child its turns is its assumption.
- Update in place by concurrent threads: the protocols are machines over values, so aliasing between their records is not captured; every shared access is still a transition of its own.
- Weak memory, compiler barriers, pthreads and liburcu internals: accesses are sequentially consistent, locks and grace periods are primitives.
- `maze_solve_route_partitions` and the children for one or two threads, which do not consult the encounter data.
- Segment weights, random draws and thread start placement of the maze: choices are nondeterministic, starts are any distinct cells.
- Binary and graphical maze files, statistics, argument parsing, torture tests and `main` functions.
- Registration of threads and `read_count` in the limit counters: the set of threads is fixed, and the approximate sum has no exact claim.
- The width of counters other than the packed word, the COOKIE field and the random seed: integers are unbounded.
- Finer steps inside `hashtab_lock_mod`: fetching the table and taking its locks is one transition.
- Duplicate keys in the resizable hash table: an updater adds a key only after its own lookup found none, as copying reverses the order of a bucket.
- Skiplist readers without the lock, iterators, sequence counts and `skiplist_balance_node`; a tower is a sequence field rather than an array.
- Interleaving inside one `memblock_alloc` or `memblock_free`: a call touches its own pool and, once, the locked global pool.
- `qsort`, `bsearch` and the pointer comparison of `hazptr.c`: they are membership tests.

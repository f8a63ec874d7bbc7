# Verified model of the parallel graph kernel

The repository loads an edge list into compressed sparse rows with atomic counters, runs three
breadth-first searches and an integer PageRank over the rows, and can relabel the graph by degree first.
Beside that pipeline it has two memory benchmarks, one built on a barrier and one on a ring of pointers.
This project models those algorithms in Dafny and proves what they compute.

## How it is modelled

* A graph is its edge list (`Graphs`). Degrees, row layouts, walks, distances, reachability and
  eccentricity are defined on the list; nothing else is the reference.
* Every `parallel_for` body is a transition system: each worker has a program counter, every read, store
  and atomic operation is one step, and steps of different workers interleave freely. The results are
  stated over all runs (`Trace`, `PushRun`, `PullRun`, `LoadTrace`, ...). For every parallel loop, for the
  transfers (if everything fits) and for the barrier there are lemmas that no schedule gets stuck, that
  none runs for ever, and that every run can be continued to its end. `AtomicAdd` is different: its threads
  may call as often as they like, so a run need not end; there, the number of completed additions grows with
  the number of steps.
* The same code is also written as imperative Dafny on arrays and objects (`GraphLoading`, `BfsMethods`,
  `PushPullMethod`, `PageRankMethod`, `ThreadBuffers`, `Reorder`, `DegreePy`, `PointerChasing`,
  `BwLayout`). These methods run the parallel loops in index order, and their contracts are in terms of the
  reference. `CreateEdges`, `ExpandFrontier`, `CountedExpand` and `ScatterAll` replay their steps in the
  transition system; the counting, pull, halving, transfer and rewriting loops are proved directly.
* `Pipeline` puts the parts together: loading then searching, and relabelling, loading and searching.
* `uint32_t` arithmetic is modelled modulo 2^32 (`Words.Wrap`) where the code relies on it: the slot
  counters of the loader, the sums of PageRank, the degree counters of the reordering. The subtraction of
  `size_t` numbers in the switch test is modelled modulo 2^64 (`Words.SIZE_T`).

| module | what it models |
|---|---|
| `Loader`, `GraphLoading` | `src/loader.cpp` and the `Graph` class |
| `PushRounds`, `PullPasses` | one round of push, one pass of pull, in `src/bfs.cpp` |
| `BfsSearch` | whole searches as sequences of rounds: push, pull, push-pull |
| `BfsAccounting` | the edge counters of `bfs_pushpull` |
| `BfsMethods`, `PushPullMethod` | the three searches on arrays |
| `ThreadBuffers` | `thread_buffer` |
| `AtomicAdd` | the retry loop in `include/util.h` |
| `PageRank`, `PageRankMethod` | `src/pagerank.cpp` |
| `Reorder`, `DegreePy` | `reorder.cpp` and `reorder/degree.py` |
| `Barrier`, `BwLayout` | the barrier and the address layout in `bw/bw.cpp` |
| `PointerChasing` | `pointer_chasing/pointer_chasing.h` |
| `Pipeline` | the way from an edge list to the visited vertices |
| `Sums`, `Words`, `Graphs`, `Permutations` | the vocabulary |

## What the code relies on

These are preconditions in the model because the code relies on them without checking:

* counter and flag arrays obtained with `malloc` start zeroed (offset arrays of the loader, frontier flags
  of pull and push-pull, degree counters of the reordering);
* all edge endpoints and the start vertex are below `NB_NODES`;
* the in-rows have been built, i.e. `symmetric` is set, whenever a pull phase runs;
* `gettid()%THREADS` gives concurrently running workers different buffers: a worker in `PushRounds` has
  its own buffer, since `push` is not atomic;
* steps are sequentially consistent, and `arena.execute` returns after all tasks are over;
* nothing but a broadcast ends a `pthread_cond_wait`: the barrier has no loop around its wait;
* `create_random` gets a buffer of at least one byte;
* `std::sort` returns an arrangement sorted by its keys (ties in any order), Python's sort a stable one,
  `std::random_shuffle` an arbitrary arrangement.

## Where the code differs from what one might expect

* At the head of the first round of `bfs_pushpull`, `edges_in_frontier` is empty, not the out-degree of the
  start vertex. `BfsAccounting.EdgesInFrontierExactly` says exactly when the counter is the degree sum of
  the frontier; `FirstHeadExample` is an input where it is not.
* The strict switch test of `bfs_pushpull` is never true, so its push loop always runs until the frontier
  is empty, and control then falls through into the pull phase, which makes one pass and finds nothing
  (`BfsAccounting.PushPullFallsThrough`, `PushPullMethod.PushPhase`).
* The slot counters of the loader have 32 bits. Every entry is stored to exactly once if and only if no
  degree exceeds 2^32 (`Loader.WrittenOnceExactly`); `Loader.OneEdgeTooMany` is an input where one does.
* `degree.py -m` keeps vertex 0 only if 0 is a key of the dict; otherwise the ids are 1..k and vertex 0,
  if it occurs, gets a new one (`DegreePy.SortByDegree`; `ZeroNotKept` is such an input). `reorder.cpp -m`
  always keeps it.
* `read_seq` and `write_seq` index with `i&access_count`, which is not a remainder; nothing is claimed
  about them.

## Model

| member | source | states |
|---|---|---|
| Words.WrapIsCongruent | include/util.h:47 | what a 32-bit word keeps is the remainder modulo 2^32; whole multiples of 2^32 are lost and nothing else |
| Graphs.DegreeSum | src/loader.cpp:89-90 | degrees add up to the number of edges, which is what the assertion after the running sum needs |
| Graphs.DstsConcat | reorder/degree.py:33-35 | neighbour lists keep the order of the edge list |
| Graphs.SegmentCount | include/config.h:32-35 | a row of a loaded graph lists each successor as often as there are edges, and its length is the degree |
| Graphs.InIsTransposeOfOut | src/loader.cpp:146-160 | in-rows are the transpose of out-rows, multiplicities included |
| Graphs.ExpandIsEdgeList | src/loader.cpp:135-162 | expanding the rows gives back the edge list as a multiset |
| Graphs.LevelIsDistance | src/bfs.cpp:75-108 | level k of the level-by-level search is the set of vertices at walk distance exactly k |
| Graphs.FinalBallIsReachable | src/bfs.cpp:75-108 | when a level is empty, the vertices found so far are exactly the reachable ones |
| Graphs.LastLevelIsEccentricity | src/bfs.cpp:75-77 | the last non-empty level has the greatest distance of any reachable vertex as its index |
| Graphs.BallGrows | src/bfs.cpp:75-108 | k+1 vertices have been found when level k is not empty, which bounds the rounds |
| Loader.CountResult | src/loader.cpp:122-132 | under every schedule of the fetch-and-adds both counter arrays end as the degrees |
| Loader.CountRunsAreBounded | src/loader.cpp:122-132 | every run of the counting loop takes at most two steps per edge |
| Loader.CompleteCount | src/loader.cpp:122-132 | every run of the counting loop can be continued to its end |
| Loader.PrefixSumsAreRowOffsets | src/loader.cpp:79-105 | exclusive running sums of the degrees start at 0, are monotone, end at the number of edges, and differ by the degrees |
| Loader.AddressUnique | src/loader.cpp:151-156 | different entries of different rows never share an address |
| Loader.LoadTraceInv | src/loader.cpp:146-160 | at every reachable state of the scatter loop, counters, slots and stored entries agree with the tasks that have reserved and stored |
| Loader.WrittenOnceExactly | src/loader.cpp:149-151 | after the join every entry has been stored to exactly once if and only if no degree exceeds 2^32 |
| Loader.SideResult | src/loader.cpp:146-160 | if no degree exceeds 2^32, row v holds exactly the multiset of destinations of v |
| Loader.LoadResult | src/loader.cpp:135-162 | both directions, for every interleaving of all four steps of every task |
| Loader.LoadNeverStuck | src/loader.cpp:146-161 | until all tasks are over, some task can take a step |
| Loader.LoadRunsAreBounded | src/loader.cpp:146-161 | every run of the scatter loop takes at most four steps per edge |
| Loader.CompleteLoad | src/loader.cpp:146-161 | every run of the scatter loop can be continued to its end |
| Loader.OneEdgeTooMany | src/loader.cpp:149-151 | with 2^32+1 edges at one vertex some entry is not stored to exactly once, whatever the schedule |
| GraphLoading.CountDegreeSequential | src/loader.cpp:107-116 | the sequential count leaves the same degrees as every schedule of the atomic one |
| GraphLoading.SumOneDirection | src/loader.cpp:82-90 | counts are replaced in place by their running sums, and the asserted total holds |
| GraphLoading.SumDegree | src/loader.cpp:79-105 | both directions; the in-offsets only for a symmetric graph |
| GraphLoading.CreateEdges | src/loader.cpp:135-162 | the arrays become row layouts of the edge list and of its reversal |
| GraphLoading.CreateGraph | src/loader.cpp:30-57 | loading from the edge list to both row layouts |
| ThreadBuffers.ThreadBuffer.Push | src/config.cpp:36-40 | appends one id; the room for it is the caller's obligation |
| ThreadBuffers.ThreadBuffer.Transfer | src/config.cpp:42-49 | appends everything to the destination and empties the buffer |
| ThreadBuffers.TransferTraceInv | src/config.cpp:42-49 | at every reachable state of concurrent transfers the reserved ranges are disjoint and contiguous from 0 on, and hold what has been copied |
| ThreadBuffers.TransfersStayInside | src/config.cpp:44-45 | if everything buffered fits, they lie inside the destination at every reachable state |
| ThreadBuffers.TransfersResult | src/config.cpp:42-49 | after any interleaving of transfers the destination is a permutation of everything buffered |
| ThreadBuffers.TransferNeverStuck | src/config.cpp:42-49 | if everything fits, no transfer gets stuck |
| ThreadBuffers.TransferRunsAreBounded | src/config.cpp:42-49 | every interleaving of transfers is finite: one step per id and one per buffer |
| ThreadBuffers.CompleteTransfers | src/config.cpp:42-49 | if everything fits, every interleaving can be continued until all buffers are transferred |
| PushRounds.TraceInv | src/bfs.cpp:78-103 | at every reachable state of a round each newly visited vertex is claimed by exactly one worker and no edge of a taken row is lost |
| PushRounds.BuffersFit | src/bfs.cpp:67-70 | all buffers together never hold more than NB_NODES ids, although push checks nothing |
| PushRounds.BufferFits | src/bfs.cpp:94 | when a worker is about to push, its buffer has room |
| PushRounds.RoundResult | src/bfs.cpp:75-105 | for every interleaving a round adds exactly the successors of the frontier, and buffers the new ones once each |
| PushRounds.NeverStuck | src/bfs.cpp:78-103 | until the join some worker can take a step |
| PushRounds.RunsAreBounded | src/bfs.cpp:78-103 | every run of a round is finite, with a bound independent of the schedule |
| PullPasses.PullTraceInv | src/bfs.cpp:124-143 | at every reachable state of a pass each vertex is untouched, being scanned, or settled as a successor of the frontier or not |
| PullPasses.PullResult | src/bfs.cpp:121-146 | for every interleaving a pass marks exactly the unvisited successors of the frontier, and cont says whether there were any |
| PullPasses.PullNeverStuck | src/bfs.cpp:124-143 | until the join some worker can take a step |
| PullPasses.PullRunsAreBounded | src/bfs.cpp:124-143 | every run of a pass is finite, with a bound independent of the schedule |
| BfsSearch.PushHeads | src/bfs.cpp:75-108 | at the head of round k the frontier lists exactly the vertices at distance k, each once |
| BfsSearch.VisitedCount | src/bfs.cpp:109-111 | the printed sum is the number of visited vertices |
| BfsSearch.PushSearch | src/bfs.cpp:60-112 | the search ends with exactly the reachable vertices visited, their number, and eccentricity plus one rounds |
| BfsSearch.PushRoundsBounded | src/bfs.cpp:75 | at most one round per vertex |
| BfsSearch.CompletePush | src/bfs.cpp:60-112 | every run can be continued to a complete search |
| BfsSearch.PullHeads | src/bfs.cpp:121-147 | after each pass the swapped flags mark the next level |
| BfsSearch.PullSearch | src/bfs.cpp:113-149 | the pull search visits exactly the reachable vertices in eccentricity plus one passes |
| BfsSearch.PushAndPullAgree | src/bfs.cpp:60-149 | push and pull end with the same visited array and iteration count, under all schedules of both |
| BfsSearch.PullPassesBounded | src/bfs.cpp:121-147 | the do-while loop stops after at most one pass more than there are vertices |
| BfsSearch.CompletePull | src/bfs.cpp:121-147 | every run of the pull loop can be continued until a pass finds nothing |
| BfsSearch.PullFindsNothing | src/bfs.cpp:203-229 | started at an empty level, the pull loop makes one pass and changes nothing |
| BfsSearch.SeedIsLevel | src/bfs.cpp:194-200 | the seeding loop hands over exactly the invariant of the push loop |
| BfsSearch.PullFromLevel | src/bfs.cpp:202-229 | the pull loop may start at any level and still visits exactly the reachable vertices |
| BfsSearch.PushPullSearch | src/bfs.cpp:150-233 | with an arbitrary switch decision at every head the search visits exactly the reachable vertices |
| BfsAccounting.Project | src/bfs.cpp:166-186 | forgetting the counters turns a counted round into a plain one |
| BfsAccounting.CountedResult | src/bfs.cpp:166-186 | for every interleaving, flushes included, a round adds the degree sum of the old frontier to explored and leaves that of the new one in edges_in_frontier |
| BfsAccounting.CountedRunsAreBounded | src/bfs.cpp:166-186 | every run of a counted round is finite, flushes included |
| BfsAccounting.CompleteCounted | src/bfs.cpp:166-186 | every run of a counted round can be continued until everything is flushed |
| BfsAccounting.CountedHeads | src/bfs.cpp:158-189 | at every head explored is the degree sum of all processed vertices |
| BfsAccounting.SwitchNeverTaken | src/bfs.cpp:160-163 | explored plus edges_in_frontier is at most NB_EDGES, the subtraction never wraps, the switch test is never true |
| BfsAccounting.CompleteCountedPush | src/bfs.cpp:159-189 | every run of the counted push loop can be continued until the frontier is empty |
| BfsAccounting.PushPullFallsThrough | src/bfs.cpp:159-229 | whichever way the push loop is left, the frontier is empty, and the pull phase is one pass that changes nothing |
| BfsAccounting.EdgesInFrontierExactly | src/bfs.cpp:161-165 | edges_in_frontier is the degree sum of the frontier if and only if it is not the first head or the start vertex has no edges |
| BfsAccounting.FirstHeadExample | src/bfs.cpp:152-161 | an input for which it is not |
| BfsMethods.CompareAndSwap | src/bfs.cpp:93 | swaps exactly when the expected value is found |
| BfsMethods.Visit | src/bfs.cpp:90-96 | claims and buffers a vertex exactly when it was not visited |
| BfsMethods.ExpandFrontier | src/bfs.cpp:78-103 | the loop over the frontier, run in index order, is a complete run of the round |
| BfsMethods.CollectFrontier | src/bfs.cpp:104-105 | the new frontier is the concatenation of the buffers, which end up empty |
| BfsMethods.PushIteration | src/bfs.cpp:77-105 | one iteration leads from level j to level j+1 |
| BfsMethods.PushLoop | src/bfs.cpp:75-108 | the loop ends with the reachable vertices visited after eccentricity plus one iterations |
| BfsMethods.BfsPush | src/bfs.cpp:60-112 | visited is the reachability predicate, the count its size |
| BfsMethods.HasFrontierParent | src/bfs.cpp:130-140 | the scan hits if and only if the vertex is a successor of the frontier |
| BfsMethods.PullPassInOrder | src/bfs.cpp:124-144 | a pass marks exactly the unvisited successors |
| BfsMethods.PullLoop | src/bfs.cpp:121-147 | from level j on, the loop visits exactly the reachable vertices |
| BfsMethods.BfsPull | src/bfs.cpp:113-149 | visited is the reachability predicate after eccentricity plus one passes |
| PushPullMethod.CountedExpand | src/bfs.cpp:166-186 | the counted loop on arrays: new vertices once each, both counters exact |
| PushPullMethod.CountedIteration | src/bfs.cpp:163-188 | one iteration keeps level and counters in step |
| PushPullMethod.SeedFlags | src/bfs.cpp:196-200 | flags become the frontier |
| PushPullMethod.PushPhase | src/bfs.cpp:153-190 | the push phase ends at a level of the search, and with an empty frontier as long as NB_EDGES fits a size_t |
| PushPullMethod.BfsPushPull | src/bfs.cpp:150-233 | visited is the reachability predicate |
| AtomicAdd.Linearizable | include/util.h:42-50 | at every reachable state the cell is the remainder modulo 2^32 of its initial value plus the logged additions, the log interleaves what the threads completed, and failed swaps number at most threads-1 per successful one |
| AtomicAdd.FailureMeansProgress | include/util.h:45-48 | for a swap about to fail, the state of the run in which the value was read, and an addition another thread has completed since |
| AtomicAdd.StepsAccountedFor | include/util.h:42-50 | k steps are three per completed addition, two per failed attempt, and those of attempts under way |
| AtomicAdd.ManyStepsManyAdditions | include/util.h:42-50 | system-wide progress: k is at most (2T+1) per completed addition, plus 2T |
| AtomicAdd.Add | include/util.h:42-50 | without interference the cell becomes (old value + delta) mod 2^32 and nothing else changes |
| PageRank.GatherAddsHalves | src/pagerank.cpp:52-60 | the gathered sum has one entry per incoming edge: half of the value at its source, rounded down |
| PageRank.RanksLaw | src/pagerank.cpp:48-73 | each iteration replaces a value by half of the gathered sum modulo 2^32, rounded down |
| PageRank.TraceInv | src/pagerank.cpp:50-61 | at every reachable state of the scatter loop each sum is its initial value plus what has been delivered |
| PageRank.ScatterIsGather | src/pagerank.cpp:52-60 | adding along out-rows gives each vertex the sum over its incoming edges |
| PageRank.ScatterResult | src/pagerank.cpp:49-63 | for every interleaving of reads and swaps the sums are those of a gather over incoming edges, modulo 2^32 |
| PageRank.ScatterNeverStuck | src/pagerank.cpp:50-61 | until all vertices are finished, some task can take a step |
| PageRank.ScatterRunsAreBounded | src/pagerank.cpp:50-61 | no schedule keeps the retry loops busy for ever: at most 2n steps per edge and three per vertex |
| PageRank.CompleteScatter | src/pagerank.cpp:50-61 | every run of the scatter loop can be continued to its end |
| PageRank.HalveTraceInv | src/pagerank.cpp:65-72 | for every interleaving the second loop halves and resets each sum once |
| PageRank.CompleteHalving | src/pagerank.cpp:65-72 | every run of the halving loop can be continued to its end |
| PageRank.RunResult | src/pagerank.cpp:46-76 | from any initial values, for every schedule and iteration count, the values are those of the iterated gather |
| PageRank.CompleteIterations | src/pagerank.cpp:46-76 | every run can be continued to any number of iterations |
| PageRank.RanksBounded | src/pagerank.cpp:20-27 | with in-degrees at most D, 4^k * prev[v] <= 4 * D^k after k iterations |
| PageRank.GatherFits | src/pagerank.cpp:55-58 | what a vertex gathers fits 32 bits while 2 * D^(k+1) < 2^32 * 4^k |
| PageRank.SmallDegreesNeverWrap | src/pagerank.cpp:55-58 | for D at most 4 it fits in every iteration |
| PageRank.NoAdditionWraps | src/pagerank.cpp:58 | if the gathered sum fits, no single addition wraps at any reachable state |
| PageRank.IterationNeverWraps | src/pagerank.cpp:48-62 | the two bounds together: no addition of iteration k wraps while 2 * D^(k+1) < 2^32 * 4^k |
| PageRankMethod.ScatterAll | src/pagerank.cpp:49-63 | the scatter loop on arrays leaves (initial sum + gathered sum) mod 2^32 |
| PageRankMethod.HalveAll | src/pagerank.cpp:64-73 | the halving loop on arrays |
| PageRankMethod.PrPush | src/pagerank.cpp:46-76 | all iterations on arrays compute the reference values |
| PageRankMethod.PrHub | src/pagerank.cpp:11-33 | the same from the initial value 4 |
| Reorder.ScheduleDoesNotMatter | reorder.cpp:69-74 | in whatever order the additions happen, each vertex is counted as often as its degree |
| Reorder.CountDegrees | reorder.cpp:66-76 | the counters are the degrees mod 2^32 under every schedule |
| Reorder.CountersExact | reorder.cpp:67-72 | they are the degrees themselves if and only if no degree exceeds 32 bits, so that the order below is one by degree |
| Reorder.MappingIsBijection | reorder.cpp:95-103 | the ids given position by position form a bijection on [0,NB_NODES), for either setting of maintain |
| Reorder.AssignIds | reorder.cpp:95-103 | the loop builds a bijection on [0,NB_NODES) that fixes 0 under maintain and follows the sorted order otherwise |
| Reorder.MappingSortsKeys | reorder.cpp:88-103 | smaller ids go to smaller (or larger) counters, vertex 0 excepted under maintain |
| Reorder.RewriteEdges | reorder.cpp:115-121 | both endpoints of every edge are renamed in place |
| Reorder.SortByDegree | reorder.cpp:66-123 | bijection with 0 fixed under maintain; smaller ids have smaller counters if ascending and greater ones if not; every edge is renamed at its position |
| Reorder.DstsRelabelled | reorder.cpp:115-121 | neighbour lists are renamed entry by entry, so every vertex keeps its out-degree |
| Reorder.ReachableRelabelled | reorder.cpp:115-121 | reachability commutes with the renaming, in both directions |
| Reorder.DistanceRelabelled | reorder.cpp:115-121 | so do distances |
| Reorder.EccentricityRelabelled | reorder.cpp:115-121 | and eccentricities |
| Reorder.SearchRelabelled | src/bfs.cpp:60-112 | two complete searches, before and after renaming, under any schedules, visit corresponding vertices, equally many, in equally many rounds |
| Reorder.GatherRelabelled | src/pagerank.cpp:52-60 | what a vertex gathers is the same under its new id |
| Reorder.RanksRelabelled | src/pagerank.cpp:46-76 | from corresponding values, after any number of iterations, prev'[mapping[v]] = prev[v] |
| Reorder.PageRankRelabelled | src/pagerank.cpp:46-76 | two runs, before and after renaming, with row layouts and schedules of their own, hold corresponding values after each iteration |
| Reorder.PageRankFromFourRelabelled | src/pagerank.cpp:20-33 | so do the two complete computations, which start from 4 |
| DegreePy.KeyedAt | reorder/degree.py:32-35 | edges are grouped by source, or by destination for the in-degree |
| DegreePy.KeysInOrder | reorder/degree.py:33-38 | the keys of the dict are listed in the order of their first occurrence |
| DegreePy.GroupEdges | reorder/degree.py:24-35 | the dict holds exactly the neighbour lists of its keys, in either direction |
| DegreePy.StableSortIsUnique | reorder/degree.py:38-39 | the sorted order is determined by the input, ties included |
| DegreePy.NumberKeys | reorder/degree.py:42-51 | ids of the keys are different, gapless, follow the order, and 0 is kept when it is a key |
| DegreePy.NumberingIsOnto | reorder/degree.py:43-64 | the ids in use are all numbers from the least id up to the count |
| DegreePy.RewriteEdges | reorder/degree.py:53-65 | the output renames the edge list position by position; the remaining vertices get the next ids in the order of their first occurrence, sources before destinations |
| DegreePy.SortByDegree | reorder/degree.py:36-65 | injective ids for all occurring vertices; keys by degree in the chosen direction, ties in the order of first occurrence, then all other vertices in the order of first occurrence; the output renamed position by position |
| DegreePy.IdsMean | reorder/degree.py:43-64 | with k occurring vertices the ids are exactly 0..k-1 without -m or when 0 is a key, exactly 1..k otherwise, and -m keeps 0 if and only if it is a key |
| DegreePy.OutputIsDetermined | reorder/degree.py:36-65 | ids and output are determined by the edge list and the options |
| DegreePy.ZeroNotKept | reorder/degree.py:43-64 | the edge from 1 to 0 with -m: the ids are 1 and 2, and 0 is not kept |
| Barrier.StartInv | bw/bw.cpp:102-108 | the state barrier_init leaves behind satisfies the invariant |
| Barrier.TraceInv | bw/bw.cpp:109-121 | the invariant of the barrier over all runs |
| Barrier.OthersAsleep | bw/bw.cpp:113-118 | at a broadcast everybody else is waiting, so that everybody is released |
| Barrier.NobodyCrossesEarly | bw/bw.cpp:109-121 | no thread completes its g-th crossing before every thread has entered its g-th |
| Barrier.CrossingsStayClose | bw/bw.cpp:109-121 | completed crossings of any two threads differ by at most one |
| Barrier.FreeMutexMeansRoom | bw/bw.cpp:110-118 | the counter is below count whenever the mutex is free |
| Barrier.OneOwner | bw/bw.cpp:110-119 | at most one thread is between lock and unlock |
| Barrier.NeverStuck | bw/bw.cpp:109-121 | no deadlock: until all threads are through, some thread can take a step |
| Barrier.EverybodyGetsThrough | bw/bw.cpp:109-121 | every run can be continued to one in which all threads have completed all crossings |
| Barrier.RunsAreBounded | bw/bw.cpp:109-121 | a run has at most eight steps per thread and crossing |
| BwLayout.NoAccessesIff | bw/bw.cpp:66-68 | access_count is 0 if and only if the buffer is smaller than threads * access_size |
| BwLayout.AccessCountIsGreatest | bw/bw.cpp:66-67 | access_count is the greatest number of accesses that all threads can have: threads * access_size * access_count <= size < threads * access_size * (access_count + 1) |
| BwLayout.InfoMeans | bw/bw.cpp:81-89 | start, end and stride of each thread in both layouts |
| BwLayout.CreateThreadInfo | bw/bw.cpp:61-98 | dies exactly when the buffer is too small, and otherwise fills in every thread's addresses and returns the greatest possible access_count |
| BwLayout.BlocksInside | bw/bw.cpp:176-178 | every block of every thread lies inside the buffer and between its start and end, in both layouts |
| BwLayout.BlocksDisjoint | bw/bw.cpp:232-235 | blocks of different threads or different accesses share no byte, in both layouts |
| BwLayout.RandomAccessInside | bw/bw.cpp:176-178 | whatever the generator returns, the access stays inside the buffer |
| PointerChasing.CreateRandom | pointer_chasing/pointer_chasing.h:26-53 | a ring in the order of the shuffled indices, for every shuffle result; without shuffling each entry points to the next one in the buffer |
| PointerChasing.LinkEntries | pointer_chasing/pointer_chasing.h:46-49 | every entry points to the one after it, the last to the first |
| PointerChasing.ChaseAdvances | pointer_chasing/pointer_chasing.h:55-62 | c loads lead c positions further, counted modulo the length |
| PointerChasing.RingReturns | pointer_chasing/pointer_chasing.h:46-49 | from any entry the chase is back after c loads if and only if c is a multiple of the length: one cycle |
| PointerChasing.RingVisitsAll | pointer_chasing/pointer_chasing.h:46-49 | every entry is met within the first len loads |
| PointerChasing.RingVisitsOnce | pointer_chasing/pointer_chasing.h:46-49 | and only once |
| PointerChasing.ReadChase | pointer_chasing/pointer_chasing.h:55-62 | the chase from the first entry ends count positions further |
| PointerChasing.CasChaseFail | pointer_chasing/pointer_chasing.h:65-73 | the swaps all fail, memory is unchanged, and the chase ends in the same place |
| Pipeline.LoadedRepresents | src/loader.cpp:53-56 | after any complete runs of counting and storing the arrays are row layouts of the edge list, and of its reversal if symmetric |
| Pipeline.LoadThenPush | src/bfs.cpp:60-112 | from the edge list to the visited vertices, for every schedule of counting, storing and pushing |
| Pipeline.LoadThenPull | src/bfs.cpp:113-149 | the pull search on the loaded arrays ends with the same array and count, under schedules of its own |
| Pipeline.CanLoad | src/loader.cpp:53-56 | loading can always be completed |
| Pipeline.LoadAndSearch | src/bfs.cpp:25-41 | on arrays: load an edge list and search it; visited is the reachability predicate |
| Pipeline.ReorderAndSearch | reorder.cpp:66-121 | on arrays: the edges are renamed by a bijection in degree order, and a search from the new id of the start visits exactly what was reachable, under its new id |

## Left out

* Reading and writing of files, option parsing, timing, CPU pinning, cache-event collection and the
  persistent-memory variants: plumbing around the algorithms.
* How TBB splits ranges: a range is an arbitrary split into single steps, a combinable is one number per
  worker, a concurrent vector is what its workers appended, in any order.
* Weak memory: all steps are sequentially consistent, so the relaxed orderings of the fetch-and-adds are
  not modelled.
* Spurious wakeups of the condition variable, for which the barrier has no loop.
* The seeding loop of the pull phase, the rewriting loop of `reorder.cpp` and the loop that fills the index
  arrays write each element from one task only; they are modelled in index order.
* `read_seq` and `write_seq`, whose index is not a remainder, and the quality of the random numbers.
* `pr_pull` and `cas_chase_success` have empty bodies.
* Vertex ids beyond 32 bits: `SortByDegree` of `reorder.cpp` requires NB_NODES to be at most 2^32.
* GraphLoading.CreateGraph: runs the sequential count; `Loader.CountResult` shows that the atomic one, which the code selects, leaves the same counters.
* GraphLoading.CreateEdges: says nothing about the arrays when a degree exceeds 2^32; `Loader.WrittenOnceExactly` shows that entries are then missed.
* ThreadBuffers.ThreadBuffer.Push: requires room, because the code checks no bounds; `PushRounds.BufferFits` shows that every call has it.
* AtomicAdd.Add: describes a call without interference; `AtomicAdd.Linearizable` covers all others.

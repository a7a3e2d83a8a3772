# Verified models of the repository's algorithms and protocols

The repository is a collection of algorithms, data structures and small
concurrent components. This project models the ones whose correctness rests on
a hidden invariant, and proves what they are for.

Concurrent step protocols, as state machines over arbitrary interleavings of
sequentially consistent steps:

- `RingBuffer.dfy`: the single-reader, single-writer ring `circular_queue`.
- `Slist.dfy`: the compare-and-swap list `slist_r` with any number of threads,
  weak swaps that fail spuriously and addresses that are reused after deletion;
  and its in-place `reverse`.
- `TaskChain.dfy`: task chaining by `then` over a thread pool, the pool's order
  and progress, and its shutdown.

Two forms that must agree:

- `AtomicSets.dfy`: the counting and the queue-draining join of three streams.
- `TicTacToe.dfy`: alpha-beta search with a cutoff that leaves only the inner
  loop, against plain minimax, and what the scores mean as forced wins.

Interval and scheduling state:

- `Calendar.dfy`: `MyCalendarTwo`, whose sets drop overlapping inserts.
- `Reservations.dfy`: `Schedule`, a difference array of tables in use.

Graph algorithms:

- `ShortestReach.dfy`: Dijkstra with stale queue entries.
- `CheapestFlights.dfy`: stop-bounded relaxation from the last round's frontier.
- `UnionFind.dfy`: union by size, its forest, depths, counts.
- `Cycle.dfy`: tortoise and hare, and the first node of the cycle.

Indexes, allocators and counting:

- `HashTableProbing.dfy` and `HashTableChained.dfy`: hash tables with erased
  entries, against a map.
- `Chunk.dfy`: a free list stored in the free blocks themselves.
- `Majority.dfy`: heavy hitters with at most k candidates.

Rewriting and parsing:

- `CanTransform.dfy`: reachability under `XL -> LX` and `RX -> XR`.
- `Calculators.dfy`: both calculators, over the text of every expression tree
  of natural numbers with every spacing and leading zeros.

`Arithmetic.dfy`, `Sequences.dfy` and `Options.dfy` hold shared functions, facts
and the option type. A class
of the source is a class here; the history its invariant speaks about (accepted
bookings, past unions, pushed values) is kept in ghost fields or, in the state
machines, in history components that no step reads.

Five promises turn out to hold only under a condition, which is proved to be
exact and comes with a failing input:

- `get_count()` of the union-find counts the nodes named in unions exactly when
  no call `union_(u, u)` was made on a node still alone (`CountIsExact`; failing:
  `SelfUnionCountsTwice`).
- With an idle pool every task has run exactly when no handle was used for a
  second `then` before its task had completed (`IdleMeansAllRan`; failing:
  `TwoThensLoseATask`).
- A `DirectGraph` answers every `findCheapestPrice` request right exactly when it
  has never been called (`AnswersRightIffNew`). What any object answers is
  `PriceIsLeast`: the least, over direct routes of kept and given flights and the
  points on them, of the distance kept for that point plus the fare of the rest.
  Every call leaves its start at distance 0, so that afterwards, whatever K is, a
  request from another city to that one is answered 0 even without flights
  (`UsedFails`, `UsedCallAnswersZero`); it leaves its flights too
  (`SecondCallKeepsOldFlights`). Requests from a city to itself are always
  answered right (`SameCityIsRight`).
- `erase` of the chained table tells whether the key was in the table exactly
  when the key is live or no node erased for it is still waiting to be reused
  (`Erase`; failing: `EraseMatchesErased`).
- The probing table answers a run of operations as a plain map exactly when each
  new key finds, among the first `PROBE_LEN` slots on its path, one at which no
  earlier `insert` has added a key (`Serve`). Up to `PROBE_LEN` additions always
  do; one more need not, even when all keys have been erased again and the table
  is empty, and a path without such a slot never gets one again (failing:
  `EmptyTableRefuses`, for every table size).

Where comments and code of the source disagree, the code is followed: the
probing table's `insert` is said to probe to the end, but gives up after
`PROBE_LEN` slots even when it has passed an erased one; `update_count` is said
to count the nodes named in unions, but counts one twice in the case above; the
`slist_r` comment "no lock or use atomic" covers both kinds of head, and the
atomic one is modelled.

## Model

| member | source | states |
|---|---|---|
| RingBuffer.PoppedIsPrefixOfPushed | library/RingBufferAtomic.h:18-63 | in every interleaving of one pusher and one popper the values popped are a prefix of the arguments of the pushes that were published, at most BUF_SIZE are unread, and a value whose removal is published but not yet moved out is still in its slot |
| RingBuffer.PopReturnsArgument | library/RingBufferAtomic.h:24-59 | the n-th pop hands out the argument of the n-th push published |
| RingBuffer.HistoriesAreOfTheCalls | library/RingBufferAtomic.h:18-63 | the recorded histories are those of the calls: each push's argument at the store of its index, one value for each pop |
| RingBuffer.PushCompletes | library/RingBufferAtomic.h:18-42 | with room, an uninterrupted push or push_wait publishes its argument and changes nothing of what was pushed before |
| RingBuffer.PopCompletes | library/RingBufferAtomic.h:43-63 | with a value there, an uninterrupted pop or pop_wait moves out the oldest one |
| RingBuffer.WriteHitsNoLiveSlot | library/RingBufferAtomic.h:20-24 | the slot about to be written holds no value still needed, in particular not the one being moved out after the read index was published |
| RingBuffer.StepKeepsInv | library/RingBufferAtomic.h:18-63 | every atomic step of push, push_wait, pop and pop_wait keeps the relation between indices, slots and the two histories |
| RingBuffer.RunKeepsInv | library/RingBufferAtomic.h:80-82 | that relation holds at every point of every run from an empty ring of BUF_SIZE + 1 slots |
| RingBuffer.RefusalsAreExact | library/RingBufferAtomic.h:20-46 | at its decisive load a push is refused exactly when BUF_SIZE values are published and unread, a pop exactly when none is; push and pop then return, push_wait and pop_wait stay, and nothing else changes |
| RingBuffer.SizeIsExactForBothEnds | library/RingBufferAtomic.h:70-74 | size() called by either end is the number of unread values at its second or first load; for any other caller it is only at most BUF_SIZE |
| LockFreeList.PushOrderKept | cpp11/slist.h:94-131 | with any number of threads, the batches in the order of their swaps, each reversed, followed by the reversed shared list, are the arguments of the calls of push_front that have returned, in the order of their swaps; there is one batch for each pop_all that has returned |
| LockFreeList.NothingLostOrDoubled | cpp11/slist.h:101-131 | counted with repetitions, these arguments are the values of the batches and of the shared list together |
| LockFreeList.HistoriesAreOfTheCalls | cpp11/slist.h:101-131 | the recorded pushes are the arguments of the calls that have returned, and a node being pushed holds its call's argument |
| LockFreeList.FailureMeansProgress | cpp11/slist.h:101-131 | the list is lock-free: a swap that fails, and not spuriously, does so because a swap of another thread has succeeded since this one last looked at the head |
| LockFreeList.PushCompletes | cpp11/slist.h:101-106 | left alone, a push_front puts its argument in front of the list |
| LockFreeList.TakeCompletes | cpp11/slist.h:124-131 | left alone, a pop_all takes the whole list |
| LockFreeList.RunKeepsInv | cpp11/slist.h:94-131 | in every run the list, the nodes being pushed and the nodes handed out are apart, and no step touches a deleted node, although deleted addresses are reused |
| LockFreeList.StepKeepsInv | cpp11/slist.h:95-106 | each load, swap (also failing or spuriously failing), write or delete of a batch's owner keeps the invariant |
| LockFreeList.PushSucceeds | cpp11/slist.h:101-106 | a successful swap of push_front puts the node in front of exactly the list it was linked to, even if that address was deleted and reused meanwhile |
| LockFreeList.TakeSucceeds | cpp11/slist.h:124-131 | handing out all nodes of the list and emptying the head keeps the invariant, with the list's values as the new batch |
| LockFreeList.BatchUntouched | cpp11/slist.h:124-131 | no step of another thread changes or deletes a node of a batch handed out |
| LockFreeList.BatchStaysReadable | cpp11/slist.h:124-131 | from its successful swap on, the pointer pop_all returned leads to exactly the batch recorded, at any later point of the run until the caller itself changes or deletes one of its nodes |
| LockFreeList.WalkReads | cpp11/slist.h:124-131 | following next from the pointer returned reads the whole list and ends |
| ListReversal.Reverse | cpp11/slist.h:139-146 | relinks the nodes of a list in place into the reversed list and returns its first and last node |
| TaskChain.SubmittedOnceAndInOrder | cppcon/TaskWaiting.cpp:115-131 | in every run no task is submitted or returns twice, and a chained task is submitted only after its predecessor has returned |
| TaskChain.IdleMeansAllRan | cppcon/TaskWaiting.cpp:112-168 | when nothing is queued and no worker is inside a task, all tasks have run if and only if no handle was used for a second then before its task had completed; that is also exactly when no waiting continuation was replaced |
| TaskChain.DroppedIffThenTwice | cppcon/TaskWaiting.cpp:123-130 | in every run a waiting continuation has been replaced exactly when there were two thens on one handle, the second before its task had completed |
| TaskChain.ContinuedIff | cppcon/TaskWaiting.cpp:123-130 | an incomplete task has a continuation exactly when there was a then on its handle |
| TaskChain.DroppedBy | cppcon/TaskWaiting.cpp:123-130 | a waiting continuation is replaced exactly by a then on an incomplete task that already has one |
| TaskChain.TwoThensLoseATask | cppcon/TaskWaiting.cpp:123-130 | a run of one worker in which two thens on one handle leave a task that has not run although the pool is idle |
| TaskChain.AllRunWhenIdle | cppcon/TaskWaiting.cpp:152-157 | when each handle is used for at most one then and the pool is idle, every task has run |
| TaskChain.AllTasksGetRun | cppcon/TaskWaiting.cpp:16-42 | from every state before shutdown, with at least one worker, worker steps alone, at most 4 for each task and 3 for each worker, lead to a state in which all tasks have run, if and only if no handle had been used for a second then too early |
| TaskChain.PoolComesToRest | cppcon/TaskWaiting.cpp:24-42 | in as many steps they bring the pool to rest |
| TaskChain.WorkIsBounded | cppcon/TaskWaiting.cpp:24-42 | before shutdown, whatever clients and workers do in any order, workers make no more than the steps there were to make and four for each new task |
| TaskChain.SomeWorkerMoves | cppcon/TaskWaiting.cpp:24-79 | before shutdown some worker can move as long as the pool is not idle |
| TaskChain.NoneExitsBeforeStop | cppcon/TaskWaiting.cpp:24 | no worker leaves its loop before the stop flag is set |
| TaskChain.FirstInFirstOut | cppcon/TaskWaiting.cpp:49-79 | in every run the tasks submitted are those the workers have started, in this order, followed by those in the queue |
| TaskChain.TasksAreCreated | cppcon/TaskWaiting.cpp:152-168 | the tasks are those the clients created, each from the handle it was created from |
| TaskChain.StepKeepsInv | cppcon/TaskWaiting.cpp:24-43 | every step of clients, workers and shutdown keeps each task queued, running, waiting or done exactly once |
| TaskChain.MarkKeeps | cppcon/TaskWaiting.cpp:115-122 | marking a task complete leaves its continuation as the one task now to be submitted |
| TaskChain.LinkKeeps | cppcon/TaskWaiting.cpp:123-130 | storing a continuation on an incomplete task makes it wait there and nowhere else |
| TaskChain.NoWorkerStarves | cppcon/TaskWaiting.cpp:58-79 | once the stop tasks are queued, a worker inside get_task always finds a task |
| TaskChain.StopsKept | cppcon/TaskWaiting.cpp:58-66 | from then on there are at least as many queued jobs as workers that may still take one |
| TaskChain.ShutdownIsBounded | cppcon/TaskWaiting.cpp:24-42 | after the stop flag is set the workers make only boundedly many more steps, at most four each |
| TaskChain.ShutdownProgresses | cppcon/TaskWaiting.cpp:67-70 | until it has exited each worker can move, so the joins return |
| AtomicSets.FeedBoth | cpp11/atomic_set.cpp:48-149 | for every interleaving of three streams, each increasing per category, both classes have reported the same list after every message: the ids seen on all three streams, ascending |
| StreamJoins.Agree | cpp11/atomic_set.cpp:48-149 | any states meeting the two invariants for the same messages have reported the same list |
| StreamJoins.CountedGrows | cpp11/atomic_set.cpp:57-77 | counting a message keeps the counters equal to the number of streams that have sent an id, and reports it at the third |
| AtomicSets.AtomicSet.AddMessage | cpp11/atomic_set.cpp:79-90 | keeps the counting invariant and records the message |
| AtomicSets.AtomicSet.SendAtomic | cpp11/atomic_set.cpp:57-77 | changes only the given category: the counter, and at three the queues and the report |
| StreamJoins.PopBelow | cpp11/atomic_set.cpp:115-120 | one inner loop takes off the front exactly the messages with ids below the largest front, up to the first that is not |
| StreamJoins.DropKeeps | cpp11/atomic_set.cpp:114-120 | the ids it takes off are already reported or can no longer complete |
| StreamJoins.FrontDecided | cpp11/atomic_set.cpp:114-120 | a front below another front can never be reported, so taking it off is safe |
| StreamJoins.Drain | cpp11/atomic_set.cpp:113-129 | the loop ends with an empty queue and with everything taken off reported or impossible |
| StreamJoins.DrainedKeeps | cpp11/atomic_set.cpp:113-129 | the same for the recursive form of the loop, with the reported ids in ascending order |
| StreamJoins.RestIsJoin | cpp11/atomic_set.cpp:113-129 | when one queue is empty the reported list is exactly the ids seen on all three streams |
| AtomicSets.AtomicSet2.AddMessage | cpp11/atomic_set.cpp:132-143 | keeps the draining invariant and records the message |
| AtomicSets.AtomicSet2.SendAtomic | cpp11/atomic_set.cpp:108-130 | drains the queues of one category and leaves the others alone |
| TicTacToe.TicTacToeBoard.Minimax | cpp11/TicTacToe.cpp:48-77 | for every board, depth and window alpha < beta the pruned result and plain minimax agree once clamped to the window, and the board is restored |
| GameValues.SearchedStep | cpp11/TicTacToe.cpp:64-72 | one more move, searched with the current window, keeps score and plain value equal within the initial window or, once it is closed, both beyond it |
| GameValues.ProgressSkip | cpp11/TicTacToe.cpp:59-75 | moves skipped after a cutoff, or searched with a closed window in later rows, do not matter |
| GameValues.ValueBounds | cpp11/TicTacToe.cpp:50-58 | scores stay within 10 - depth, so the start scores and full windows lie outside them |
| GameValues.ScoreTellsForcedWin | cpp11/TicTacToe.cpp:48-77 | a side's score is at least 10 - depth - n exactly when it can force a win within n moves |
| GameValues.BestMoveIsBestPlay | cpp11/TicTacToe.cpp:78-98 | the move found wins as soon as any move does, and allows a forced loss only if every move does, then as late as any |
| TicTacToe.TicTacToeBoard.FindBestMove | cpp11/TicTacToe.cpp:78-98 | returns the first cell of greatest exact rating, (0, 0) on a full board, and restores the board |
| TicTacToe.TicTacToeBoard.Evaluate | cpp11/TicTacToe.cpp:36-47 | not 0 exactly when some side holds three cells of one row, column or diagonal; 10 only if X does, -10 only if another piece does; the first line in the order rows, columns, diagonals decides |
| GameValues.ScoreMeaning | cpp11/TicTacToe.cpp:14-47 | the score plain minimax rests on is not 0 exactly when some side holds a line, and has its sign |
| GameValues.LinesInOrder | cpp11/TicTacToe.cpp:14-46 | the lines are, in order, each row before the column of its number, then the two diagonals |
| TicTacToe.TicTacToeBoard.GameOver | cpp11/TicTacToe.cpp:30-32 | true exactly when no cell is blank |
| TicTacToe.TicTacToeBoard.RateMove | cpp11/TicTacToe.cpp:87-89 | a search with the full window returns the exact plain value |
| Calendar.BookAll | leetcode/leetcodecpp.cpp:1761-1785 | any sequence of bookings with start < end is answered as by a calendar that keeps the accepted bookings and refuses exactly those that would make an instant triple booked |
| Calendar.MyCalendarTwo.Book | leetcode/leetcodecpp.cpp:1768-1784 | accepts exactly when no instant becomes triple booked; overlap covers exactly the doubly booked instants, and cal with overlap exactly the booked ones; a refusal changes nothing |
| Calendar.RefusedIffTriple | leetcode/leetcodecpp.cpp:1769-1770 | overlap contains a clash with the request exactly when some instant is already booked twice |
| Calendar.LeftoversCover | leetcode/leetcodecpp.cpp:1775-1781 | the leftovers inserted for the clashing members, some of them dropped, together with the common sections still cover every booked instant and nothing else |
| Calendar.AddCommonMeaning | leetcode/leetcodecpp.cpp:1776-1779 | no common section is dropped: overlap grows by exactly the instants shared by the request and cal |
| Calendar.DoubleBooking | leetcode/leetcodecpp.cpp:1774-1782 | what both sets cover after a clashing booking |
| Calendar.StaysConsistent | leetcode/leetcodecpp.cpp:1768-1784 | that keeps the invariant for the bookings with the request added |
| Calendar.IntersectMeaning | leetcode/leetcodecpp.cpp:1739-1759 | on clashing intervals, whichever branch is taken, intersect returns the parts covered once, left to right, and adds the common section |
| Calendar.InsertMeaning | leetcode/leetcodecpp.cpp:1709-1715 | inserting an interval that clashes changes nothing, any other adds exactly its instants |
| Calendar.RangeMeaning | leetcode/leetcodecpp.cpp:1771 | equal_range delimits exactly the members that clash |
| Calendar.MyCalendarTwo.Scan | leetcode/leetcodecpp.cpp:1776-1779 | the loop collects the leftovers and adds the common sections of all members that clash |
| Reservations.Schedule.TakeReservation | cpp11/ReservationSystem.cpp:42-59 | accepts exactly when the stay ends within the day and at none of its ninety minutes more than 10 tables would be taken; the running sums are the tables in use |
| Reservations.Schedule.NeverOverbooked | cpp11/ReservationSystem.cpp:42-59 | in every run, at no minute of the day are more than 10 tables taken |
| Reservations.PossibleByMinutes | cpp11/ReservationSystem.cpp:50-54 | checking six slots is checking ninety minutes |
| Reservations.TablesSeatAll | cpp11/ReservationSystem.cpp:35-37 | the tables needed are the least number that seats the party at four a table |
| Reservations.SlotHoldsTime | cpp11/ReservationSystem.cpp:29-34 | the slot is the quarter of an hour after opening that holds the time, or the first |
| Reservations.Schedule.AlternateReservationWithin2hr | cpp11/ReservationSystem.cpp:61-86 | offers, ascending, exactly the start slots within 8 of the request that take_reservation would accept |
| Reservations.RunStep | cpp11/ReservationSystem.cpp:72-84 | the sliding start marks a full window of free slots exactly when one ends at the slot just scanned |
| Reservations.Booked | cpp11/ReservationSystem.cpp:55-56 | the two updates of the difference array add the tables to exactly the six slots covered |
| ShortestReach.ShortestReach | HackerRank/hackerRankGraph.cpp:140-174 | with positive weights returns for every node but s, in order, the length of a shortest walk from s or -1 if there is none |
| ShortestReach.Distances | HackerRank/hackerRankGraph.cpp:155-170 | before the final rewriting every entry is the shortest distance or INT32_MAX; each vertex is expanded at most once, nearest first |
| ShortestReach.Search | HackerRank/hackerRankGraph.cpp:157-170 | with stale queue entries skipped, the loop ends, every entry is the length of a walk, and every reached vertex is relaxed |
| ShortestReach.RelaxAll | HackerRank/hackerRankGraph.cpp:163-169 | relaxing the edges of u lowers the sum of distances or changes nothing, and leaves u relaxed |
| ShortestReach.BuildAdjacency | HackerRank/hackerRankGraph.cpp:142-150 | parallel and reversed edges are merged into the smallest weight of each pair |
| ShortestReach.NoWalkBeats | HackerRank/hackerRankGraph.cpp:157-170 | when everything reached is relaxed no walk is shorter than its entry |
| ShortestReach.OnlyStartIsZero | HackerRank/hackerRankGraph.cpp:171-172 | positive weights make s the only vertex at distance zero |
| ShortestReach.WithoutTwoZeros | HackerRank/hackerRankGraph.cpp:171-173 | so erasing the zeros removes entry 0 and entry s only and keeps the order of the rest |
| CheapestFlights.CheapestPrice | leetcode/Graph.cpp:32-59 | on a new object, without negative fares, the least fare below INT_MAX/2 over all routes with at most K+1 flights, or -1 if there is none |
| CheapestFlights.FirstCallIsCheapest | leetcode/Graph.cpp:43-58 | from a fresh start and without negative fares, what direct routes carry to dst is that fare |
| CheapestFlights.AnyObjectAnswers | leetcode/Graph.cpp:32-58 | what any object answers, used or not: the least, over direct routes of at most K+1 kept and given flights and over the points on them, of the distance kept for that point plus the fare of the rest |
| FlightRounds.RunSettles | leetcode/Graph.cpp:43-57 | from any distances and for any fares, a run of rounds ends at every city with that least |
| CheapestFlights.FreshCarries | leetcode/Graph.cpp:37-43 | from a fresh start a route carries at most its fare, and nothing below INT_MAX/2 but the fare of a route |
| CheapestFlights.DirectGraph.FindCheapestPrice | leetcode/Graph.cpp:32-59 | on any object: resizes, also to fewer cities, adds the flights to those it has, runs at most K+1 rounds from the distances it has with src at 0, and answers the least described above |
| CheapestFlights.DirectGraph.AnswersRightIffNew | leetcode/Graph.cpp:32-59 | without negative fares, an object answers every request right if and only if it has never been called |
| CheapestFlights.UsedFails | leetcode/Graph.cpp:37-43 | for every K a used object has a request that it answers wrong |
| CheapestFlights.UsedAnswersZero | leetcode/Graph.cpp:37-58 | from any other city to the start of the last call, without flights, a used object answers 0, which is not the cheapest fare |
| CheapestFlights.UsedCallAnswersZero | leetcode/Graph.cpp:32-59 | the same as a call on any used object |
| CheapestFlights.CallLeavesUsed | leetcode/Graph.cpp:43-57 | a call without negative fares leaves its start at 0 and no distance below 0 |
| CheapestFlights.RunBounds | leetcode/Graph.cpp:45-57 | rounds lower distances but, without negative fares, never below 0 |
| CheapestFlights.SameCityIsRight | leetcode/Graph.cpp:43-58 | from a city to itself the answer is 0 and right on any object |
| CheapestFlights.RunExists | leetcode/Graph.cpp:45-57 | from any distances some run of rounds exists, so every legal request has an answer |
| FlightRounds.Round | leetcode/Graph.cpp:46-55 | a round relaxes exactly the flights out of the frontier against the previous distances, and the next frontier is what they touch but dst |
| FlightRounds.RoundKeeps | leetcode/Graph.cpp:45-57 | after i rounds every distance is the least carried by direct routes of at most i flights, although only the last frontier is relaxed |
| FlightRounds.FrontierWithin | leetcode/Graph.cpp:49-53 | while direct routes stay within the cities, so do the frontier and the flights relaxed |
| CheapestFlights.FirstArrival | leetcode/Graph.cpp:52-53 | a route by way of dst has a part that ends there sooner and no dearer, so leaving dst out of the frontier loses nothing |
| FlightRounds.NoLongerRoute | leetcode/Graph.cpp:45 | an empty frontier means there is no longer route, so stopping early is right |
| CheapestFlights.SecondCallKeepsOldFlights | leetcode/Graph.cpp:33-36 | after a call with one flight the same object finds its fare for a graph that has no flights |
| UnionFind.UnionFind.Union | library/UnionFind.h:91-104 | keeps the parent array an acyclic forest weighted by size, records the link, and returns true exactly when the roots differ |
| UnionFind.UnionFind.FindDecidesLinked | library/UnionFind.h:85-90 | find(u) equals find(v) exactly when past unions link u and v |
| Forests.FindIffLinked | library/UnionFind.h:85-104 | the same for any forest whose links agree with its unions |
| UnionFind.UnionFind.DepthIsLogarithmic | library/UnionFind.h:99-102 | two to the depth of a node is at most the size of its class |
| Forests.DepthBound | library/UnionFind.h:99-102 | two to the depth of a node times its stored size is at most the stored size of its root |
| Forests.HangGood | library/UnionFind.h:99-102 | hanging the smaller root below the larger keeps forest, class sizes and links in agreement |
| Forests.HangSums | library/UnionFind.h:101-102 | it keeps the sum of root sizes and lowers the number of roots by one |
| UnionFind.UnionFind.GetSize | library/UnionFind.h:105-108 | the size of the node's class, 0 if it is alone |
| UnionFind.UnionFind.GetComponents | library/UnionFind.h:117-127 | the number of different roots, which is N+1 less the number of successful unions |
| UnionFind.UnionFind.MaxComponentSize | library/UnionFind.h:128-130 | the size of a largest class, although the array also holds sizes of former roots |
| UnionFind.UnionFind.CountIsExact | library/UnionFind.h:109-116 | get_count() is the number of nodes named in unions exactly when no call united a still lone node with itself |
| UnionFind.SelfUnionCountsTwice | library/UnionFind.h:91-94 | a new object on which a node is united with itself counts it twice |
| Forests.NamedCount | library/UnionFind.h:112-116 | the named nodes are those in a class with others and at most one more per such call |
| Cycle.DetectCycle | leetcode/LinkedList.cpp:383-392 | on any finite list structure ends, and returns null exactly when the list ends, otherwise the first node of the cycle |
| Cycle.MeetCycle | leetcode/LinkedList.cpp:361-370 | ends, and returns null exactly when the list ends, otherwise a node where slow and fast met |
| Cycle.MeetingExists | leetcode/LinkedList.cpp:363-368 | tortoise and hare are at the same place after some positive number of steps, which bounds the loop |
| Cycle.RecursAfter | leetcode/LinkedList.cpp:376-382 | every node that recurs does so after the number of steps to the meeting, so the second loop meets at the entry |
| ProbingRuns.Serve | cpp11/HashTableProbing.h:59-107 | the answers to any operations are those of a plain map exactly when each new key finds on its path a slot not used before and at which no key has been added; up to PROBE_LEN additions always do; a path without room never gets any |
| ProbingRuns.ServeNew | cpp11/HashTableProbing.h:49-107 | on a new table the same, with every slot unused |
| ProbingRuns.EmptyTableRefuses | cpp11/HashTableProbing.h:66-88 | for every table size and constant hash, PROBE_LEN keys added and all erased leave an empty table that refuses every key |
| ProbingRuns.FewAdditionsFit | cpp11/HashTableProbing.h:66-78 | up to PROBE_LEN additions a new key finds an unused slot on its path |
| HashTableProbing.Table.constructor | cpp11/HashTableProbing.h:50-57 | a new table is empty and so are all its slots |
| HashTableProbing.Table.Insert | cpp11/HashTableProbing.h:63-87 | overwrites a key in the table; else adds it exactly when one of the first PROBE_LEN slots on its path, at the squares from its hash, is empty, as while fewer than PROBE_LEN slots have been used; it goes to the last erased slot passed or else to the empty one, and only that slot stops being empty |
| HashTableProbing.FewDoNotCover | cpp11/HashTableProbing.h:55-67 | fewer than PROBE_LEN slots do not cover the path of any hash |
| HashTableProbing.PathTurnsNowhere | cpp11/HashTableProbing.h:55-67 | the first PROBE_LEN slots on a path are different, because PROBE_LEN is at most the square root of the table |
| HashTableProbing.OneHashFills | cpp11/HashTableProbing.h:66-87 | PROBE_LEN keys of equal hash leave no room on their path |
| HashTableProbing.NoRoomForEver | cpp11/HashTableProbing.h:100-101 | since no slot becomes empty, a path without room never gets any |
| HashTableProbing.Table.FindSlot | cpp11/HashTableProbing.h:34-46 | the slot of the key, or -1 exactly when the key is not in the table |
| HashTableProbing.Table.Find | cpp11/HashTableProbing.h:90-95 | finds exactly the keys of the table with their values |
| HashTableProbing.Table.Erase | cpp11/HashTableProbing.h:96-103 | removes the key, reports whether it was there and empties no slot |
| HashTableProbing.Table.Size | cpp11/HashTableProbing.h:104-107 | the cardinality of the table |
| HashTableProbing.NotYetSeen | cpp11/HashTableProbing.h:37-44 | a key whose path shows an empty slot, or PROBE_LEN slots, without a match is not in the table |
| HashTableProbing.FillKeeps | cpp11/HashTableProbing.h:69-78 | filling an empty or erased slot reached on the path keeps every key's path free of empty slots |
| HashTableProbing.EraseKeeps | cpp11/HashTableProbing.h:100-101 | a tombstone keeps every other key's path free of empty slots |
| HashTableChained.Table.Find | cpp11/HashTableBase.h:92-113 | the value of a key exactly when it is in the table |
| HashTableChained.Table.Insert | cpp11/HashTableBase.h:202-307 | maps the key to the value, and adds a node, and says so, exactly when the key is not in the table and the chain has no erased node to reuse |
| HashTableChained.Table.Erase | cpp11/HashTableBase.h:127-151 | removes the key; returns true exactly when it was in the table or some node was erased for it and not reused by a later insertion, so the answer is the promised one exactly when the key is live or there is no such node |
| HashTableChained.Table.RemoveElement | cpp11/HashTableBase.h:64-72 | marks a node and adjusts the counters only if it was live |
| HashTableChained.Table.Size | cpp11/HashTableBase.h:152-154 | the cardinality of the table |
| HashTableChained.EraseMatchesErased | cpp11/HashTableBase.h:138-145 | in any table, after a key has been erased a second erase of it also returns true |
| Chains.HeldIffLiveOrErased | cpp11/HashTableBase.h:138-145 | a chain holds a key exactly when the key is in the table or in an erased node |
| Chains.HeldErasedMeaning | cpp11/HashTableBase.h:250-258 | an erased node holds the key exactly when some node was marked erased for it and no later insertion has stored a key there |
| Chains.MarkFirst | cpp11/HashTableBase.h:138-145 | no node with the key precedes the live one, so erase's first match is the live node if the key is in the table |
| Chains.Reuse | cpp11/HashTableBase.h:250-258 | putting a new key into the first erased node leaves no node of that key before it |
| Chains.Append | cpp11/HashTableBase.h:301-305 | so does appending when no node is erased |
| ChunkAllocator.Chunk.Allocate | library/SmallObject.h:27-34 | hands out a block that was free, and fails exactly when all blocks are handed out |
| ChunkAllocator.Chunk.Deallocate | library/SmallObject.h:36-43 | makes the block free again, and no other, the next to be handed out; no byte but its first changes |
| ChunkAllocator.Chunk.ClientWrite | library/SmallObject.h:18-44 | whatever a client writes into a block it holds, the free list stays; that byte changes and no other |
| FreeLists.OneByteWritten | library/SmallObject.h:36-43 | a byte written into a block changes that byte and no other block |
| ChunkAllocator.Chunk.Chain | library/SmallObject.h:23-24 | the first byte of every block names the next block |
| ChunkAllocator.Chunk.constructor | library/SmallObject.h:18-25 | after Init every block is free |
| FreeLists.AllocateKeeps | library/SmallObject.h:27-34 | the head of the list is free, and what its first byte names starts the list of the other free blocks |
| FreeLists.DeallocateKeeps | library/SmallObject.h:36-43 | storing the old head in a released block puts it in front of the list, each free block once |
| FreeLists.FollowSame | library/SmallObject.h:27-43 | bytes outside the first bytes of free blocks do not change what following the list visits |
| FreeLists.FreeCount | library/SmallObject.h:28-32 | free blocks and allocated ones together are all blocks |
| Majority.MajorityElements | leetcode/Random.cpp:326-347 | exactly the values occurring more than n/(k+1) times, ascending |
| Majority.Vote | leetcode/Random.cpp:327-336 | at most k candidates remain, and no value has lost more occurrences than there were cancellations |
| Majority.CancelTotal | leetcode/Random.cpp:331-335 | a cancelling step takes one from each of the candidates |
| Majority.FrequentSurvives | leetcode/Random.cpp:337 | each cancellation uses up k+1 values, so a value above the threshold is still a candidate |
| Majority.Recount | leetcode/Random.cpp:338-342 | the second pass finds the true counts of the candidates |
| CanTransform.CanTransform | leetcode/leetcodecpp.cpp:2210-2235 | true exactly when some sequence of moves XL -> LX and RX -> XR turns start into end |
| CanTransform.SamePiecesInReach | leetcode/leetcodecpp.cpp:2222-2234 | the two-pointer scan decides whether the pieces are the same and each may go to its place |
| CanTransform.SkipX | leetcode/leetcodecpp.cpp:2211-2217 | the first position from pos on that is not X, or -1 |
| CanTransform.ReachableIffInReach | leetcode/leetcodecpp.cpp:2206-2209 | reachable exactly when the pieces are the same in order, each L moves left and each R right |
| CanTransform.OnlyInReach | leetcode/leetcodecpp.cpp:2207-2209 | no sequence of moves leaves that reach |
| CanTransform.AllInReach | leetcode/leetcodecpp.cpp:2207-2209 | everything in reach is reached by a constructed sequence of moves |
| CanTransform.UsefulMove | leetcode/leetcodecpp.cpp:2208-2209 | while a piece is off its target some move brings a piece nearer to its own |
| PrecedenceCalculator.TextEvaluates | leetcode/calculator.cpp:19-79 | for every expression over natural numbers without zero divisors, printed in decimal with any blanks and leading zeros, the text evaluates to the value with left-grouping precedence |
| PrecedenceCalculator.Example | leetcode/calculator.cpp:83-89 | 3+2*2 is 7 |
| Numerals.ReadsDecimal | leetcode/calculator.cpp:55-58 | reading the decimal digits of a number, after any zeros, gives the number back |
| Numerals.ShiftIsPlaceValue | leetcode/calculator.cpp:57 | what is read is the sum of the digits times their powers of ten |
| Arithmetic.QuotientTruncates | leetcode/calculator.cpp:33 | division leaves a remainder smaller than the divisor and of the dividend's sign |
| Arithmetic.OnlyOneTruncates | leetcode/calculator.cpp:33 | and is the only number that does |
| PrecedenceCalculator.Calculate | leetcode/calculator.cpp:19-79 | the program returns the value of every such expression, and wherever its behaviour is defined that evaluation |
| PrecedenceCalculator.ReadProduct | leetcode/calculator.cpp:23-39 | reading a product leaves one pending number; pushing it multiplies or divides out what is open |
| PrecedenceCalculator.ReadSum | leetcode/calculator.cpp:40-62 | reading a sum leaves its products as alternating operands and operators |
| PrecedenceCalculator.TallySum | leetcode/calculator.cpp:65-78 | the final pass adds and subtracts them from left to right |
| PrecedenceCalculator.BlankTextIsZero | leetcode/calculator.cpp:63-64 | a blank text evaluates to 0 |
| GroupCalculator.Calculator.Calculate | leetcode/calculator.cpp:155-158 | for every expression over natural numbers with +, - and nested parentheses, printed in decimal with any blanks and leading zeros, the value |
| GroupCalculator.Calculator.CalculateHelp | leetcode/calculator.cpp:96-154 | called where the text of a sum stands, followed by blanks and a closing parenthesis or the end, returns the sum's value and stops there |
| GroupCalculator.CallReads | leetcode/calculator.cpp:96-154 | the same for the function the loop computes |
| GroupCalculator.TextEvaluates | leetcode/calculator.cpp:96-158 | that text evaluates to the expression's value, up to its end |
| GroupCalculator.Example | leetcode/calculator.cpp:162-168 | 1 + 1 is 2 |
| GroupCalculator.ReadSum | leetcode/calculator.cpp:116-150 | a call reading a sum arrives behind it with the sum's value as its only token, or with the last number pending and what precedes it on the stack |
| GroupCalculator.ReadItem | leetcode/calculator.cpp:126-149 | reading a number or a parenthesised sum combines its value with what stands before it |

## Left out

- Machine integers: values are mathematical integers throughout, so overflow is not modelled; the sentinels INT32_MAX and INT_MAX/2 are kept exactly.
- Memory orders weaker than sequential consistency, and the memory management of shared pointers.
- Liveness of push_wait and pop_wait: the notification is sent without the lock, so the code decides only safety.
- Exceptions thrown by a task in the pool, futures returned by submit, and the pool's log output.
- slist_r::pop_front, peek and the destructor; the lists slist and the drivers in listvslist-gc.cpp.
- AtomicSet2's unused counter, the payloads of messages, and get_atomic_Sets as an accessor.
- UnionFindSimple, UnionFindMap and UnionFind3.
- FixedAllocator and SmallObjAllocator; the block size passed to every Chunk call is one constant of the object here, and Deallocate is told the block it gets as a ghost argument, as the assertions in the source demand.
- The calculators' memory of whether a token is an operator, which the source never reads; texts that are not expressions, where the source pops an empty token list.
- GroupCalculator.Calculator.Calculate: stated for texts of expressions only; the Help function it refines is defined on every text.
- TicTacToe.TicTacToeBoard.Minimax: with a window alpha >= beta, which occurs in rows after a cutoff, only the restored board is promised.
- HashTableChained.Table.Insert: chains are sequences of entries in place of linked nodes, so sharing of nodes is not captured; timestamps, collision statistics, failed allocations, the ownership part of the result, null arguments and a table never initialised are not modelled.
- HashTableProbing.Table.Insert: re-initialising a used table, CalcSize and the iterator are not modelled; the probe length is any integer square root.
- Reservations.Schedule.AlternateReservationWithin2hr: a request for more than eight slots after the end of the day is excluded, because the source then reads behind the array.
- ReservationSystem, checkin and the per-user bookkeeping beyond the stored reservation.
- CheapestFlights.DirectGraph.FindCheapestPrice: a call whose search reaches a city at or above n, by a flight kept from an earlier call, is excluded, because the source then writes behind the array.
- ShortestReach.ShortestReach: vertices outside 1..n and weights that are not positive are excluded, as in the original problem.
- CanTransform.CanTransform: strings over other letters than L, R and X are excluded, as in the original problem.
- Calendar.BookAll: bookings with start >= end are excluded, as the comparator is then no ordering.
- longestCommonSubsequence, updateMatrix, gameOfLife, largestRectangle, QuadTree, checkValidString, NQueens, prisonAfterNDays, OrderTiers, MyHashSet, canCompleteCircuit, ExamRoom and FlipMatrix: further algorithms, whose properties are of kinds already covered or easier.
- Bucket hash table, LRUCache, philosophers and CDynBuffer: the code does not do what it is meant to.
- I/O, logging, timing, tests, template metaprogramming, iterators and the one-loop exercises.

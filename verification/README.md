# Verified models of Sniper's synchronisation, network, scheduling and tool algorithms

Sniper is a multicore simulator. This project models the parts of it that carry
their own non-trivial argument and proves what they are for, one module per
component (`Basics` holds what several of them use). `dafny verify dfyconfig.toml`
covers the whole project.

- **Synchronisation primitives** (`Barrier`, `Semaphore`, `SetLock`, `MTQueue`
  over `CircularQueue`). The lock-and-futex code is a transition system: any number
  of threads, one atomic step per lock operation, shared write or futex call, all
  interleavings. Each module defines the states, the steps and the runs, proves one
  inductive invariant, and derives safety, conservation and deadlock freedom for
  every state of every run; laws about whole calls, from the outside, say what a call
  has done when it returns and that it does return. The ring buffer itself is a class
  over an array.
- **Mesh routing** (`Mesh`). The routing decision of a router on core numbers, the
  forwarding loop across routers, the exact route length, and exactly when
  dimension-order routing has a cyclic channel dependency.
- **Contention model** (`Contention`). A k-server first-come-first-served scheduler
  in an unsorted slot array: it is optimal among order-preserving schedules, never
  serves more than k requests, its peek agrees with its commit except after an
  opening barrier, and its cycle interface refines its time interface.
- **Pool allocator** (`FSBAllocator`). Blocks with an intrusive free list and a bump
  index refine a set of disjoint live units, whatever clients write into them.
- **Profile graphs** (`CallGraph`, `FindCycles`, `CallTime`). Tarjan's algorithm
  restarted at every root finds exactly the strongly connected components; the call
  ratios share out every function and every cycle, and call time integration loses
  and invents nothing.
- **Stack building** (`BuildStack`, `StackReport`). Collapsing counters into components
  conserves them and counts each one once, and which nodes are reported is settled by
  their counters and thresholds alone.
- **JSON** (`Json`, `JsonReader`, `JsonWriter`, `JsonGrammar`, `JsonLanguage`). The
  reader undoes the writer, and accepts exactly the language of a grammar, with the
  values that the grammar's trees stand for.
- **Small structures** (`BitVector`, `LineSplitter`). A bit vector refines a set and
  its iterator enumerates it; splitting an access at cache lines preserves its effect.

Code that updates state step by step is modelled by classes and methods with loops,
and each method is proved against a function or a state predicate; the results are
lemmas about these. Where the code departs from what one would expect of it, the
model follows the code and a lemma says exactly when the expectation holds:

- `getStartTime` and `getCompletionTime` disagree for a request at time zero after a
  barrier, before any later request (`Contention.PeekOverRuns`).
- Half way around a ring of odd size, wrap-around routing takes one step more than
  `computeDistance` says, and the recorded contention includes that step
  (`Mesh.RouteLength`, `Mesh.ContentionRecorded`).
- A queue of capacity zero never transfers anything, and its two sides can put each
  other to sleep for good (`MTQueue.NoRoomNoProgress`, `MTQueue.BothStuckExactly`).
- With wrap-around and a dimension of six or more tiles, links can wait for each other
  in a circle (`Mesh.CyclicExactly`).
- Dictionaries with a key that is not a string are written, and the result cannot be
  read back (`Json.RoundTrip`); the reader refuses white space inside an empty list
  (`Json.EmptyListBlanks`); control characters without a short escape are written
  raw (`Json.ControlsEscaped`), against sections 4 and 7 of RFC 8259.
- `get_names` forgets the outer part of paths with more than two levels
  (`BuildStack.NamesAgree`).
- The ratios of the calls into a function, or from outside into a cycle, add up to one
  only if something flows in; otherwise each call with data counts as one
  (`CallTime.RatiosSum`, `CallTime.CycleRatiosSum`).
- `Cycle.add_function` merges an older cycle only if the function is not in the new
  one, which it always is, having just been added: no cycles are ever merged
  (`FindCycles.Profile.AddFunction`).

## Model

| member | source | states |
|---|---|---|
| `FindCycles.Profile.FindCycles` | tools/gprof2dot.py:312-324 | for every call graph: two distinct functions carry the same cycle exactly when each reaches the other; a function carries none exactly when its component is itself alone; a cycle's members are the whole component; the cycle list holds each carried cycle once |
| `FindCycles.Profile.Tarjan` | tools/gprof2dot.py:378-407 | one recursive call, entered with any search state in progress: the stack grows by whole components only, the low link it leaves is the one the search needs, and everything it visits is either still open or correctly grouped, although earlier roots' components may be explored again |
| `FindCycles.Profile.FollowCall` | tools/gprof2dot.py:391-398 | following one call, whether it recurses, meets the stack or meets a finished component, keeps the low link equal to the smallest order reachable through the calls followed so far |
| `FindCycles.Profile.CloseComponent` | tools/gprof2dot.py:399-406 | popping the stack down to a function whose low link is its own order removes exactly its strongly connected component |
| `FindCycles.Profile.AddFunctions` | tools/gprof2dot.py:275-283 | afterwards the new cycle holds exactly these functions, they all carry it, and no other function's cycle changed |
| `FindCycles.Profile.AddFunction` | tools/gprof2dot.py:275-283 | adds the one function and makes it carry the new cycle; the loop over its older cycle never merges anything |
| `FindCycles.Profile.SearchFrom` | tools/gprof2dot.py:315-319 | a restart with fresh tables leaves every function visited so far, by this or an earlier root, correctly covered by cycles |
| `FindCycles.Profile.ListCycles` | tools/gprof2dot.py:320-324 | the list is duplicate-free and holds exactly the cycles that some function carries |
| `FindCycles.MembersAreComponent` | tools/gprof2dot.py:399-406 | the functions above a root on the stack are exactly the functions mutually reachable with it |
| `FindCycles.CycleMeansMutual` | tools/gprof2dot.py:312-324 | sharing a cycle and reaching each other are the same thing once all functions are covered |
| `FindCycles.LoneFunction` | tools/gprof2dot.py:403-406 | a covered function carries no cycle exactly when its component has one member |
| `CallGraph.SameComponent` | tools/gprof2dot.py:312-330 | mutually reachable functions have the same component |
| `CallGraph.ClosedReach` | tools/gprof2dot.py:378-407 | a set that no call leaves contains everything reachable from it |
| `CallTime.RatiosSum` | tools/gprof2dot.py:82-96 | for non-negative counts, the ratios of the calls into a function without a cycle sum to 1, or, if nothing flows in, to the number of calls with data |
| `CallTime.CycleRatiosSum` | tools/gprof2dot.py:421-448 | for non-negative counts, the ratios of the calls that enter a cycle from outside sum to 1, or, if nothing flows in, to the number of such calls with data |
| `CallTime.InnerRatiosSum` | tools/gprof2dot.py:435-448 | the ratios of the calls between members of a cycle sum, for each member, to their part of all that flows into it; with the two laws above this settles every call of every graph |
| `CallTime.RatiosProportional` | tools/gprof2dot.py:82-96 | two calls into the same function, or from outside into the same cycle, get ratios in the proportion of their counts, all between 0 and 1; with the sums this determines every ratio |
| `CallTime.TotalsConserved` | tools/gprof2dot.py:483-501 | for any ratios: the sum of all totals is the sum of all own times plus what callers are charged |
| `CallTime.RootsCarryEverything` | tools/gprof2dot.py:450-501 | with positive call counts, no cycles and the ratios of `call_ratios`, the totals of the functions nobody else calls sum to the total of all own times |
| `CallTime.ReachesLess` | tools/gprof2dot.py:483-501 | without mutual recursion a callee reaches strictly less than its caller, so the recursion of `_integrate_function` ends |
| `CallTime.Profile.CallRatios` | tools/gprof2dot.py:409-448 | the two passes give every call between different functions, on every graph, the ratio of its count to what flows into the callee, or, if it enters a cycle from outside, to what flows into that cycle (0 without data), set once, and no other call a ratio |
| `CallTime.Profile.AddCalls` | tools/gprof2dot.py:421-430 | the totals of all functions and of all cycles grow by exactly the counts of one caller's calls |
| `CallTime.Profile.SetRatios` | tools/gprof2dot.py:435-448 | pass two for one caller, given right totals: the ratios of its calls are right, and every other ratio stands |
| `CallTime.Profile.IntegrateFunction` | tools/gprof2dot.py:483-493 | the memoised recursion gives the function its balanced total, keeps every total and charge already there, adds only to functions it reaches, and never charges a call twice |
| `CallTime.Profile.IntegrateCall` | tools/gprof2dot.py:495-501 | the call is charged its ratio of the callee's final total, and earlier charges stand |
| `CallTime.Profile.Integrate` | tools/gprof2dot.py:450-481 | when no function carries a cycle: every function and every call is settled, the result is the sum of all own times, and with positive counts it is the sum of the root totals |
| `Barrier.StepInv` | common/misc/barrier.cc:17-38 | every step of every thread keeps the invariant that ties `m_arrived` and `m_leaving` to the sets of arrived and leaving threads, the locks to their holders, and the futex word to the broadcast |
| `Barrier.RoundsSeparated` | common/misc/barrier.cc:17-38 | in every reachable state a thread that has returned n times has seen every thread arrive n times, and no two threads are more than one round apart |
| `Barrier.CallsSeparated` | common/misc/barrier.cc:17-38 | the same in terms of calls counted from outside: nobody has returned from its n-th call before everybody has started an n-th, and returns differ by one at most |
| `Barrier.NoLostWakeup` | common/misc/cond.cc:25-72 | a sleeping waiter of a completed round still has the wake-up of that round's broadcast ahead of it |
| `Barrier.NoDeadlock` | common/misc/barrier.cc:17-38 | in every reachable state some thread can step |
| `Barrier.EveryCallReturns` | common/misc/barrier.cc:17-38 | after i steps of any schedule every thread has returned at least i / (13 * count) - 2 times: no step is wasted and no thread is left behind |
| `Semaphore.StepInv` | common/misc/semaphore.cc:27-75 | every step keeps the invariant, including the number of alert waiters whenever a waiter resets the futex word |
| `Semaphore.Conservation` | common/misc/semaphore.cc:27-75 | the count is the initial count plus posts minus takes whenever the lock is free, and never negative |
| `Semaphore.CallsConserved` | common/misc/semaphore.cc:27-75 | whenever the lock is free, the count is the one at the start plus the calls of `signal` and `broadcast` that have returned minus the calls of `wait` that have |
| `Semaphore.NoLostWakeup` | common/misc/semaphore.cc:27-75 | while a thread sleeps and the lock is free, at least `count` other waiters are awake or about to see the futex word set; inside a critical section at most one fewer |
| `Semaphore.SleeperHasHelper` | common/misc/semaphore.cc:27-47 | with something to take, the lock free and a thread asleep, another waiter can step towards taking it |
| `Semaphore.BroadcastWakesAll` | common/misc/semaphore.cc:63-75 | when a broadcast returns, nobody is asleep |
| `Semaphore.WaitCompletes` | common/misc/semaphore.cc:27-47 | with the lock free and something to take, an awake waiter that is let alone returns within five steps, having taken one |
| `Semaphore.PostCompletes` | common/misc/semaphore.cc:49-75 | with the lock free, a signal or broadcast that is let alone returns within six steps, having added one and woken one sleeper, or all |
| `SetLock.StepInv` | common/misc/setlock.cc:14-66 | every mutex operation keeps the correspondence between a thread's progress through the mutexes and the mutexes it holds |
| `SetLock.Exclusion` | common/misc/setlock.cc:14-51 | a thread inside the exclusive section owns every mutex, so no other thread is inside a section, on its way out of one, or part of the way into one |
| `SetLock.CallEnds` | common/misc/setlock.cc:14-66 | from inside a call to its return: `upgrade` and `acquire_exclusive` return owning every mutex, `acquire_shared` and `downgrade` exactly the caller's own, the releases none |
| `SetLock.CallLength` | common/misc/setlock.cc:14-66 | a call takes exactly one step of its own per mutex operation and one to return, whatever the other threads do in between |
| `SetLock.DowngradeKeepsShare` | common/misc/setlock.cc:60-66 | from the exclusive section through a downgrade, the caller's own mutex is never given up |
| `SetLock.NoDeadlock` | common/misc/setlock.cc:14-66 | while any thread is inside an operation, upgrades included, some thread inside one can step |
| `MTQueue.StepInv` | common/misc/mt_circular_queue.h:42-127 | every step of either side keeps the invariant of the edge-triggered signalling |
| `MTQueue.Fifo` | common/misc/mt_circular_queue.h:67-127 | the popped values are a prefix of the pushed ones in order, the rest is in the queue, and the queue never exceeds its capacity |
| `MTQueue.EndToEnd` | common/misc/mt_circular_queue.h:67-127 | the arguments of all calls of `push_wait` are, in order, the values returned by all finished calls of `pop_wait`, what a pop is about to return, the queue, and what a push is about to enter |
| `MTQueue.SleepIsJustified` | common/misc/mt_circular_queue.h:42-127 | a side that sleeps, or is bound to, faces an empty (a full) queue exactly as long as no wake-up is on its way, and always while the queue's lock is free |
| `MTQueue.NeverBothBlocked` | common/misc/mt_circular_queue.h:87-127 | with a positive capacity the two sides are never both stuck, and one of them can step |
| `MTQueue.CallCompletes` | common/misc/mt_circular_queue.h:87-127 | with the lock free and room (or something to take), a call that is let alone returns with its argument in the queue (or the oldest element), and wakes the other side if that slept over an empty (a full) queue |
| `MTQueue.NoRoomNoProgress` | common/misc/mt_circular_queue.h:87-127 | with capacity zero nothing is ever pushed or popped |
| `MTQueue.BothStuckExactly` | common/misc/mt_circular_queue.h:42-127 | some run gets both sides stuck if and only if the capacity is zero |
| `CircularQueue.CircularQueue.Push` | common/misc/circular_queue.h:80-87 | appends to the queued sequence and does not move the read index |
| `CircularQueue.CircularQueue.Pop` | common/misc/circular_queue.h:108-116 | removes and returns the oldest element and does not move the write index |
| `CircularQueue.CircularQueue.PushCircular` | common/misc/circular_queue.h:89-96 | appends, dropping the oldest element exactly when there was no room |
| `CircularQueue.CircularQueue.Full` | common/misc/circular_queue.h:150-155 | true exactly when the queued sequence has as many elements as the capacity |
| `CircularQueue.CircularQueue.Empty` | common/misc/circular_queue.h:157-162 | true exactly when nothing is queued |
| `CircularQueue.CircularQueue.Size` | common/misc/circular_queue.h:164-169 | the length of the queued sequence |
| `CircularQueue.CircularQueue.At` | common/misc/circular_queue.h:48-50 | the i-th queued element, oldest first |
| `CircularQueue.CircularQueue.Front` | common/misc/circular_queue.h:118-124 | the oldest element |
| `CircularQueue.CircularQueue.Back` | common/misc/circular_queue.h:134-140 | the newest element |
| `Mesh.CoreAtPosition` | common/network/network_model_emesh_hop_by_hop.cc:299-312 | `computeCoreId` undoes `computePosition` and names a tile master |
| `Mesh.RouteIsMove` | common/network/network_model_emesh_hop_by_hop.cc:380-436 | the decision of a router on core numbers is one step on the grid towards the destination, first in x and then in y, to the neighbouring tile's master |
| `Mesh.StepsVersusShortest` | common/network/network_model_emesh_hop_by_hop.cc:285-297 | in one dimension the router's steps are the shortest distance, plus one exactly half way around an odd ring |
| `Mesh.RouteLength` | common/network/network_model_emesh_hop_by_hop.cc:285-436 | the number of links from any tile master to any core is `computeDistance` plus one for each such dimension, hence equal to it without wrap-around or with even sizes |
| `Mesh.RouteConnects` | common/network/network_model_emesh_hop_by_hop.cc:380-436 | the links of a route start at the sender's tile, each where the one before ends, along the row first and then along the column, and end at the destination's tile |
| `Mesh.NoShorterWay` | common/network/network_model_emesh_hop_by_hop.cc:285-297 | no walk over the links of the mesh is shorter than `computeDistance` |
| `Mesh.SomeShortestWay` | common/network/network_model_emesh_hop_by_hop.cc:285-297 | and some walk is as short |
| `Mesh.NetSend` | common/network/network.cc:164-189 | the forwarding loop ends, over exactly the links of the route, at the start time plus one hop latency and one queueing delay per link, and plus the injection delay if the sender owns a router |
| `Mesh.DelayCountsOnce` | common/network/network_model_emesh_hop_by_hop.cc:315-340 | every link's queueing delay counts exactly once: changing it at one link changes the travelling time by just that, if the link is on the route, and without queueing each link takes the hop latency |
| `Mesh.ContentionRecorded` | common/network/network_model_emesh_hop_by_hop.cc:245-246 | the contention recorded on receipt is the queueing plus one hop latency per excess step |
| `Mesh.RanksIncrease` | common/network/network_model_emesh_hop_by_hop.cc:380-436 | without wrap-around, or with at most five tiles in each dimension, there is a numbering of directed links that strictly increases along every route |
| `Mesh.NoCyclicDependency` | common/network/network_model_emesh_hop_by_hop.cc:380-436 | so there no chain of channel dependencies returns to the link it started from |
| `Mesh.RingCycle` | common/network/network_model_emesh_hop_by_hop.cc:405-436 | with wrap-around, every dimension of six or more tiles has a chain of dependencies that does |
| `Mesh.CyclicExactly` | common/network/network_model_emesh_hop_by_hop.cc:380-436 | dimension-order routing has a circle of channel dependencies if and only if there is wrap-around and a dimension of six or more tiles |
| `Contention.GreedyIsSchedule` | common/performance_model/contention_model.cc:158-236 | the slot choice is an order-preserving schedule on k servers: no server serves two requests at once |
| `Contention.GreedyIsOptimal` | common/performance_model/contention_model.cc:158-236 | for in-order requests at positive times, no order-preserving k-server schedule starts any request earlier |
| `Contention.Capacity` | common/performance_model/contention_model.cc:158-236 | at most k requests are in service at any instant |
| `Contention.DelayIsTotalWait` | common/performance_model/contention_model.cc:200-236 | `m_total_delay` is the sum of the waits |
| `Contention.RequestTakesOneUnit` | common/performance_model/contention_model.cc:158-236 | a request in order takes one unit from the earliest moment it can, its own time or when the first unit becomes free; any other is answered at once and takes none |
| `Contention.BarrierWaitsForAll` | common/performance_model/contention_model.cc:122-145 | a barrier starts at its own time or when the last unit becomes free, whichever is later, and takes all units until it ends |
| `Contention.BarrierAfter` | common/performance_model/contention_model.cc:122-236 | over every run: a request in order, or a barrier, before a barrier has ended when that one starts |
| `Contention.BarrierBefore` | common/performance_model/contention_model.cc:122-236 | over every run: no request in order, and no barrier, after a barrier starts before that one has ended |
| `Contention.StatisticsOverRuns` | common/performance_model/contention_model.cc:85-236 | over every run the counters are the numbers of requests, of barriers, of tests answered no, of requests earlier than a previous one, and of requests at the time of the latest |
| `Contention.LastIsLatest` | common/performance_model/contention_model.cc:158-236 | over every run `m_t_last` is the latest time of a request so far |
| `Contention.PeekMatchesCommit` | common/performance_model/contention_model.cc:246-284 | `getCompletionTime(t, d)` is `getStartTime(t) + d` in every state, if and only if there are no slots, or t or the last request is positive, or a unit is free at time zero |
| `Contention.PeekOverRuns` | common/performance_model/contention_model.cc:122-284 | after any run of mixed calls on a fresh model the two agree for every request, if and only if there are no slots, some request came at a positive time, or no barrier ended after time zero |
| `Contention.PeekAfterBarrier` | common/performance_model/contention_model.cc:122-145 | the smallest run on which they disagree: a barrier of length 5 at time zero, then a request at time zero |
| `Contention.AvailabilityQueriesAgree` | common/performance_model/contention_model.cc:55-99 | with an unused tag `hasFreeSlot` holds exactly when `getNumUsed` is below the slot count, and from the last request on exactly when `getStartTime(t)` is t |
| `Contention.NumUsedCounts` | common/performance_model/contention_model.cc:55-65 | `getNumUsed` is the number of units that are not free yet |
| `Contention.TagFindsUnit` | common/performance_model/contention_model.cc:85-99 | the tag of a request or barrier makes `hasFreeSlot` true at any time, until its unit is taken again |
| `Contention.CycleCallRefines` | common/performance_model/contention_model.cc:112-155 | one call through the cycle overloads answers what a model counting in cycles answers, and every slot time stays a multiple of the period |
| `Contention.CycleRunRefines` | common/misc/subsecond_time.h:367-375 | over every run of mixed calls all answers of the cycle interface are exact, although the conversion truncates |
| `Contention.ContentionModel.GetCompletionTime` | common/performance_model/contention_model.cc:158-236 | result, slots, counters and statistics are those of the specified scheduler |
| `Contention.ContentionModel.GetStartTime` | common/performance_model/contention_model.cc:246-284 | the read-only search finds the specified start time |
| `Contention.ContentionModel.GetBarrierCompletionTime` | common/performance_model/contention_model.cc:122-145 | waits for every unit and occupies all of them |
| `Contention.ContentionModel.HasFreeSlot` | common/performance_model/contention_model.cc:85-99 | true exactly when some unit is free at the time or carries the tag |
| `Contention.ContentionModel.GetNumUsed` | common/performance_model/contention_model.cc:55-65 | the number of units busy at the time |
| `Contention.ContentionModel.GetCompletionCycles` | common/performance_model/contention_model.cc:147-155 | the cycle overload as conversion, time interface and conversion back |
| `Contention.ContentionModel.GetBarrierCompletionCycles` | common/performance_model/contention_model.cc:112-120 | the same for the barrier |
| `Contention.ContentionModel.GetStartCycles` | common/performance_model/contention_model.cc:238-244 | the same for the start time |
| `FSBAllocator.AllocateOk` | common/misc/FSBAllocator.hh:73-95 | `MemBlock::allocate` hands out a unit that was not live, keeps the partition of the block into live units, acyclic free list and untouched tail, and touches no live payload |
| `FSBAllocator.DeallocateOk` | common/misc/FSBAllocator.hh:97-104 | `MemBlock::deallocate` keeps the partition and touches no other live payload |
| `FSBAllocator.WriteOk` | common/misc/FSBAllocator.hh:51-105 | a client's write to a live payload disturbs neither the free list nor the tags nor another payload |
| `FSBAllocator.UnitsApart` | common/misc/FSBAllocator.hh:46-49 | units are pairwise disjoint and lie inside their block |
| `FSBAllocator.Partition` | common/misc/FSBAllocator.hh:51-105 | live units, free list and tail count up to the block, and the counter counts the live units |
| `FSBAllocator.OwnTag` | common/misc/FSBAllocator.hh:84-84 | the tag behind a live unit is its block's index |
| `FSBAllocator.PoolUpdate` | common/misc/FSBAllocator.hh:124-160 | the stack keeps listing exactly the blocks with room, once each |
| `FSBAllocator.Pool.Allocate` | common/misc/FSBAllocator.hh:124-147 | the live units grow by exactly the one handed out, all payloads stand, a block is added only when every unit of the others is live, and it aborts exactly when that block would exceed the maximum |
| `FSBAllocator.Pool.Deallocate` | common/misc/FSBAllocator.hh:149-160 | the live units shrink by exactly the one returned, found through its own tag; a null pointer changes nothing |
| `FSBAllocator.Pool.Write` | common/misc/FSBAllocator.hh:51-105 | an arbitrary client write changes only that word of that unit |
| `Json.EscapedIsEach` | tools/localjson.py:325-336 | the chain of replacements is one escape per character, with either forward-slash option |
| `Json.ReadsBack` | tools/localjson.py:92-283 | the reader, in front of the writer's text of any value and whatever may follow a value, returns that value and stops exactly behind it |
| `Json.RoundTrip` | tools/localjson.py:302-348 | reading what was written gives the value back exactly when every dictionary key is a string, and `ReadException` otherwise |
| `Json.WriterInjective` | tools/localjson.py:302-348 | different values are never written alike, even under different options |
| `Json.EmptyListBlanks` | tools/localjson.py:236-250 | brackets with only white space between are read as the empty list exactly when there is none |
| `Json.ControlsEscaped` | tools/localjson.py:325-336 | the written string is free of control characters exactly when the value has only those with a short escape |
| `JsonLanguage.ReaderExactly` | tools/localjson.py:92-283 | the reader returns a value and leaves a rest exactly when the input is a text of the grammar with that value, followed by that rest, which does not continue it; the grammar has white space, both kinds of comments, all escapes, fractions, exponents, lists and dictionaries |
| `JsonLanguage.TreeRead` | tools/localjson.py:92-283 | one direction: every text of the grammar is read as its value |
| `JsonLanguage.TreeFound` | tools/localjson.py:92-283 | the other: whatever is accepted is a text of the grammar |
| `JsonLanguage.FractionRead` | tools/localjson.py:143-162 | digits, a dot and digits, with a sign or none, are read as the number they write, and with an exponent as that number with its point moved |
| `JsonLanguage.FractionMeans` | tools/localjson.py:156-160 | that number, with its point moved behind its last digit, is the integer of its digits |
| `JsonLanguage.ShiftedByTen` | tools/localjson.py:156-160 | moving the point by one more place is multiplying by ten, in both directions |
| `JsonLanguage.PutAssigns` | tools/localjson.py:252-274 | a repeated key takes the later value, every other key keeps its own |
| `JsonLanguage.FailsOn` | tools/localjson.py:164-194 | a string that is not closed is malformed, one with a hexadecimal escape of 128 or more cannot be stored, and a list cut off behind an item has run out of input |
| `JsonLanguage.WordFails` | tools/localjson.py:117-141 | a constant cut short has run out of input, one with a wrong letter is malformed |
| `JsonLanguage.FailsInGap` | tools/localjson.py:92-115 | a text of white space and closed comments alone is malformed, and what goes wrong in a comment before the value is the reader's error |
| `JsonLanguage.FailsAtStart` | tools/localjson.py:92-115 | a character that no value starts with is malformed wherever a value is due |
| `JsonLanguage.FailsInList` | tools/localjson.py:236-250 | behind an item and its gap only a comma or the closing bracket is accepted |
| `JsonLanguage.FailsInDict` | tools/localjson.py:252-274 | a key that is no string, a key without its colon and a key at the end of the input fail, each with its own error |
| `JsonLanguage.FailsInNumber` | tools/localjson.py:143-162 | a number that ends at its exponent letter has run out of input |
| `JsonGrammar.CommentFails` | tools/localjson.py:206-226 | a lone slash, a slash before anything else, a block comment that never closes and one that opens another fail, each with its own error |
| `JsonGrammar.GapSkipped` | tools/localjson.py:206-234 | white space and comments in front of something else are skipped, and nothing more |
| `JsonGrammar.GapFound` | tools/localjson.py:276-283 | whatever is skipped consists of white space, line comments with their end, and block comments without another opening or closing inside |
| `JsonGrammar.NumRead` | tools/localjson.py:143-162 | the text of a number is read as it, up to where it does not go on |
| `JsonGrammar.NumFound` | tools/localjson.py:143-162 | whatever is read as a number is the text of one |
| `JsonGrammar.PiecesRead` | tools/localjson.py:164-204 | every string of plain characters, short escapes and hexadecimal escapes is read as the characters they stand for |
| `JsonGrammar.PiecesFound` | tools/localjson.py:164-204 | whatever is read as a string is one of these |
| `JsonReader.Reader.ReadValue` | tools/localjson.py:92-115 | consumes and returns exactly what the grammar function `Read` says, with the same error where it fails |
| `JsonReader.Reader.ReadArray` | tools/localjson.py:236-250 | the same for lists |
| `JsonReader.Reader.ReadObject` | tools/localjson.py:252-274 | the same for dictionaries, a repeated key replacing the earlier value |
| `JsonReader.Reader.ReadStringLiteral` | tools/localjson.py:164-194 | the same for strings with their escapes, running out of input being malformed |
| `JsonReader.Reader.ReadNumeral` | tools/localjson.py:143-162 | the same for numbers, with the real number a fraction or an exponent stands for, including what the exponent loop takes for its first character |
| `JsonReader.Reader.EatWhitespace` | tools/localjson.py:276-283 | skips all white space and comments, and fails as they fail |
| `JsonReader.Reader.ReadBlockComment` | tools/localjson.py:216-226 | ends behind the first terminator, refuses an embedded opening and an open end |
| `JsonReader.ReadJson` | tools/localjson.py:87-90 | the method computes `ReadText`, about which the round trip is proved |
| `JsonWriter.Writer.WriteValue` | tools/localjson.py:302-348 | appends exactly the text of the value to the buffer |
| `JsonWriter.Writer.WriteDict` | tools/localjson.py:304-314 | the countdown puts commas between the entries and none at the end |
| `JsonWriter.Writer.WriteList` | tools/localjson.py:315-323 | the same for lists |
| `JsonWriter.WriteJson` | tools/localjson.py:296-300 | what it returns reads back as the value, exactly when all dictionary keys are strings |
| `BuildStack.LevelBalances` | tools/buildstack.py:8-42 | at every level, for all thresholds and modes, the components kept and `other` add up to the total |
| `BuildStack.CountedOnce` | tools/buildstack.py:8-42 | the total is the sum of the counters named somewhere below, each counted once however often it is named |
| `BuildStack.ReportConserves` | tools/buildstack.py:44-55 | the reported components add up to all counters of the core, and so does the scale the thresholds are taken of |
| `StackReport.ReportedExactly` | tools/buildstack.py:8-42 | the components reported are exactly the visible nodes of the item tree, in order, each with its full path and the sum of the counters it is the first to name; a leaf is visible if it and all stacks around it exceed their thresholds, a stack if the same holds and nothing directly in it exceeds its own, and without collapsing the leaves are |
| `StackReport.PathReported` | tools/buildstack.py:8-42 | with distinct paths, a path is reported exactly when its node is visible, and then with that sum |
| `StackReport.ReportIsShown` | tools/buildstack.py:44-55 | the report of a core is that list, followed by `other` with everything that is in none of them, unless that is zero |
| `StackReport.AddressesAreNodes` | tools/buildstack.py:8-42 | the list of nodes it is drawn from holds every node of the tree |
| `BuildStack.NothingCollapsed` | tools/buildstack.py:8-42 | without collapsing, every leaf is reported under its full path in order and nothing goes to `other` |
| `BuildStack.NamesAgree` | tools/buildstack.py:58-71 | these names are the leaves of `get_names` exactly when no leaf is deeper than a named stack at the top |
| `StackReport.NamesExactly` | tools/buildstack.py:58-71 | `get_names` lists the nodes in order, stacks by their name if wanted, each leaf behind the name of the stack it is directly in |
| `BuildStack.Merger.GetItems` | tools/buildstack.py:8-42 | deleting counters as they are claimed computes the same tally as giving each counter to the first leaf that names it, and leaves exactly the unnamed counters |
| `BuildStack.Merger.Claim` | tools/buildstack.py:29-34 | the value of a leaf is the sum of its counters not claimed before, repeated keys included |
| `BuildStack.MergeItems` | tools/buildstack.py:44-55 | the report of one core, whose components sum to the input |
| `BitVector.BitVector.Insert` | common/misc/bit_vector.cc:133-146 | adds the bit to the set, and `size` stays its cardinality |
| `BitVector.BitVector.Clear` | common/misc/bit_vector.cc:148-161 | removes the bit from the set, and `size` stays its cardinality |
| `BitVector.BitVector.Reset` | common/misc/bit_vector.cc:8-15 | empties the set and restarts the iterator |
| `BitVector.BitVector.At` | common/misc/bit_vector.cc:122-131 | membership |
| `BitVector.BitVector.Find` | common/misc/bit_vector.cc:39-108 | the least member after the last one found, or -1 and a restart |
| `BitVector.FindInParts` | common/misc/bit_vector.cc:53-103 | the nested search through halves and bytes finds the first bit after the last position, zero parts being skipped safely |
| `BitVector.Enumeration` | common/misc/bit_vector.cc:21-108 | from `resetFind` on, repeated `find` gives the members in ascending order, each once, then -1, and starts over |
| `BitVector.ListMembers` | common/misc/bit_vector.cc:26-37 | resetting and calling `find` until it returns -1 lists the set in ascending order, each member once, and leaves the iterator reset |
| `LineSplitter.Split` | common/core/core.cc:325-394 | for every address, size and positive line size: pieces are non-empty, each inside one line, contiguous, in consecutive lines, cover exactly the bytes asked for, and the buffer offset is the address offset |
| `LineSplitter.OneSplit` | common/core/core.cc:325-394 | these conditions determine the pieces |
| `LineSplitter.StoreWhole` | common/core/core.cc:368-393 | writing the pieces writes the buffer at the address and nothing else |
| `LineSplitter.LoadWhole` | common/core/core.cc:368-393 | reading the pieces fills the buffer with the bytes at the address, in order |

## Left out

- Integer widths: times, counters, indices and addresses are unbounded, so overflow of 64-bit times and wrap-around of addresses are not captured; words of the bit vector are numbers below 2^64 with the bit operations defined on them.
- Floating point: the ratios and totals of `gprof2dot.py` and `buildstack.py` are real numbers.
- Spurious futex returns and timed waits: `FUTEX_WAIT` returns only when woken or when the word has changed.
- Fairness and liveness beyond deadlock freedom: a starved thread is not excluded.
- `SELock`, which is not the lock in use, and several producers or consumers on one `MTCircularQueue`.
- The plain `push` and `pop` of `MTCircularQueue`, which do not wait, and its `full_wait` and `empty_wait` without the lock.
- FSBAllocator.Pool.Allocate: blocks are values in a sequence instead of arrays on the heap, and a pointer is a block number and an offset, so aliasing between blocks is excluded by construction; the block memory itself is never freed in the source either.
- FSBAllocator.Pool.Deallocate: the caller must pass null or a live unit; freeing something else is undefined in the source.
- Broadcast-tree routing, packets of senders that are not tile masters beyond their direct delivery, and the queue models: a queueing delay is an arbitrary number per link.
- Integration through cycles of mutually recursive functions, profile parsers and DOT output of `gprof2dot.py`.
- CallTime.Profile.Integrate: requires that no function carries a cycle; cycle handling is the part just named. The call ratios are modelled on all graphs.
- JSON numbers with a fraction or exponent are real numbers, without rounding or overflow; a power written with a dot is kept as mantissa and power; the writer's `%f` is not modelled.
- JSON errors: which of the exceptions is raised is modelled everywhere, and characterised at each place where reading can stop but not for every text whose error lies deep inside nested values.
- JSON streams: only the string generator is modelled, not the file generator; Unicode strings are not modelled.
- The loop of `merge_items` over the cores, its message about unknown counters, and the top-level filter of `get_names`.
- The debug-only union and intersection operations of `BitVector`.
- The hit level and the miss count that `initiateMemoryAccess` collects, and the timing around its loop.
- Config files, statistics, logging, thread management, memory hierarchy, DRAM and core timing models.

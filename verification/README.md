# Racket runtime: collector, block allocator, foreign calls and launcher

A Dafny model of the parts of the Racket C runtime whose correctness rests on invariants
that span many functions, with proofs of those invariants:

- the sequential marker of the conservative collector and its recovery from mark stack
  overflow, the parallel marker with work stealing and termination detection, and a
  collection that uses both (`ObjectGraph`, `MarkStack`, `Tracing`, `Marker`,
  `ParallelMark`, `ParallelProgress`, `ParallelRoom`, `ParallelCollection`);
- finalization: the walk over ordered finalizers, eager finalizers, normal and late
  disappearing links, growing hash tables (`OrderedRuns`, `HashChains`,
  `DisappearingLinks`, `Finalization`);
- the allocator of heap blocks: segregated free lists, splitting, coalescing, black lists
  (`BlockLayout`, `BlockSteps`, `BlockAllocator`, `BlackList`), and the two-level header
  index it keeps up to date and searches (`HeaderIndex`);
- the table of root exclusions (`RootExclusions`) and division by a reciprocal
  (`Reciprocal`);
- two protocols between places: the named lock and the queue of calls to the original
  place (`FfiLock`, `OrigPlaceCalls`, `OrigPlaceProgress`);
- the Windows launcher's quoting, joining and in-place splitting of command lines
  (`Launcher`, `LauncherGrammar`, `LauncherRoundTrip`, `LauncherBuffers`).

Code that updates global variables step by step is a class whose fields are those variables
and whose methods carry the invariant; concurrent code is a step relation, and its results
are about every schedule. Memory is sequentially consistent, `USE_MUNMAP` is off, and the
collection is the stop-the-world one. An abort ends the program: methods report it, and what they say
about the state holds unless it happens. `Basics` holds types used throughout, and `Locks` a
device that keeps large definitions closed during proofs.

How values are represented:

- An object is a number, its words are data or pointers to objects; addresses of heap
  blocks and sizes of free blocks count heap blocks of 4096 bytes, which all byte counts of
  the allocator are multiples of. Signed overflow of sizes is a comparison with 2^63 bytes.
- Header fields are maps from block numbers; block number 0 is the null pointer.
- Whether the mark stack overflows is computed from the graph, the marks and the stack size,
  in a collection and during finalization.
- Parameters stand for what the code gets from outside: the stop function of a collection,
  the objects marked by the hook `GC_push_last_roots_again`, whether allocation of table
  memory succeeds, and the contents of memory sections. Random or clock-driven choices of the
  parallel marker, such as how much to steal, are left open.

Where the code and its comments differ, the model follows the code:

- `GC_add_to_fl` is said to keep lists sorted by address; it pushes at the front.
- `GC_active_count` is said to stay zero once it has returned to zero; a helper that joins
  late increases it again (`ParallelMark.ActiveAgain`). It finds nothing to do, which
  `ParallelMark.StaysQuiet` states.
- `GC_exclude_static_roots` calls its overlap check incomplete; for ranges that do not end
  before they start it is complete (`RootExclusions.ExclusionTable.Exclude`). The code
  shifts the table before it checks for room. It writes one entry past the end, and then
  aborts, iff the table is full, an excluded range lies after the new one, and the new one
  neither overlaps an excluded range nor ends where one starts; the result `overran` says so,
  and `RootExclusions.OverrunExample` has an input.
- `GC_enough_large_bytes_left` says "greater than" where the code accepts equality.
- The reciprocal is said to make the product with the size exceed 2^32; for powers of two
  the code makes it equal.
- `make_command_line` writes one character past its buffer iff there is no argument
  (`LauncherBuffers.MakeCommandLine`); its only caller always passes the program's name.
- `parse_command_line` tests its limit only after storing an argument, so a call that starts
  at the limit stores every argument. The launcher makes such a call: its array of 101 places
  is overrun iff the embedded line has 99 arguments or more and one more is given
  (`LauncherBuffers.GatherArguments`, with an input in `LauncherBuffers.GatherOverrun`).
- A disappearing link that is registered again keeps its kind, normal or late, and
  unregistering before any registration reads through a null table
  (`Finalization.Finalizer.RegisterLink`, `Finalization.Finalizer.UnregisterLink`).
- Eager finalizers of a level above 2 can be registered, but have no pass of their own. They
  are queued at the end without marking from their objects, so what these refer to can be
  reclaimed first (`Finalization.NoPassForLevelThree`); `Finalization.Finalizer.Finalize` says
  exactly when the mark set stays closed, and it does if no such level is registered.
- Ordered finalization promises to queue a dead object that no other finalizable object
  leads to. The code gives such an object up, by marking it, when marking from it overflows
  the mark stack. Whether it does depends on what is marked by then and so on the order of
  the hash table: `Finalization.OrderMatters` has two objects of which the one visited first
  is given up. `Finalization.PromiseKeptIff` says that the promise is kept iff no object that
  none leads to overflows in its turn; `Finalization.OrderIndependent` that the order does not
  matter if nothing overflows, and `OrderedRuns.EnoughRoom` has a condition on the state
  before the call that ensures it.
- Quoting does not round trip for empty arguments and for arguments that are quoted and end
  in a backslash; `LauncherRoundTrip.RoundTrip` says that these are all.

## Model

| member | source | states |
|---|---|---|
| `Marker.Collector.Collect` | racket/src/racket/gc/alloc.c:481-528 | A full mark phase ends, however often the mark stack overflows. It is abandoned iff the stop function, asked before each call of `GC_mark_some`, answers true for the first time after n calls, all of which were made; if that is before the first call the marks are those that `ClearMarks` leaves. If it is neither abandoned nor aborted, exactly the objects reachable from the roots or from marked uncollectable objects are marked. It does not abort if static data comes first among the roots and its areas fit in three quarters of the stack it starts with. |
| `Marker.Collector.StoppedMark` | racket/src/racket/gc/alloc.c:515-528 | The driver loop terminates by a lexicographic measure (unmarked objects, phase, blocks left, pending words) and finishes with exactly the reachable objects marked. It is abandoned iff the stop function answers true after some n calls of the marker, n being the first such number; it makes exactly those calls, and leaves the marks as they were if n is 0 and the marker's invariant in any case. |
| `Marker.Collector.MarkSome` | racket/src/racket/gc/mark.c:304-425 | Each call keeps the per-state invariant and makes progress in that measure; TRUE is returned only in state ROOTS_PUSHED with an empty stack, and then the mark set is the reachable set already. A call that finds entries to drain marks no more objects than its portion. |
| `Marker.Collector.Rescan` | racket/src/racket/gc/mark.c:394-420 | INVALID and PARTIALLY_INVALID: drain, scan one more block, or restart; the invariant and progress hold. |
| `Marker.Collector.Recover` | racket/src/racket/gc/finalize.c:667-667 | Running the marker to its end after an overflow marks exactly what the roots and the objects marked so far reach; it terminates, and does not abort if static data fits in three quarters of the stack. |
| `Marker.Collector.MarkObject` | racket/src/racket/gc/finalize.c:260-266 | Pushing one object, marked or not, and draining the bounded stack gives exactly the mark set, and the overflow, that `Tracing.From` gives for graph, marks, object and stack size. |
| `Marker.Collector.GiveUp` | racket/src/racket/gc/finalize.c:658-668 | After an overflow the object itself gets marked, and then all that the roots and the marked objects reach, unless the collector aborts for lack of room for static data. |
| `Marker.Collector.DrainStack` | racket/src/racket/gc/finalize.c:657-657 | The loop ends with an empty stack, and is the same drain whatever the portions in which `MarkFrom` does it. |
| `Marker.Collector.ScanBlock` | racket/src/racket/gc/mark.c:404-413 | A block fits in a drained stack, so scanning one more block never overflows: the state is PARTIALLY_INVALID or as before, and everything below scan_ptr is covered, or all marked objects are once no block is left. |
| `Marker.Collector.PushUncollectables` | racket/src/racket/gc/mark.c:346-356 | PUSH_UNCOLLECTABLE: the next uncollectable block is pushed, and after the last one the roots. |
| `Marker.Collector.RootsAfterScan` | racket/src/racket/gc/mark.c:413-419 | Pushing the roots leads to ROOTS_PUSHED with everything covered, or to INVALID with a new mark bit. |
| `Marker.Collector.PushObj` | racket/src/racket/gc/include/private/gc_pmark.h:137-153 | A full stack loses its top entries and flips the state to INVALID; otherwise the object's words become pending. |
| `Marker.Collector.PushContents` | racket/src/racket/gc/include/private/gc_pmark.h:155-164 | An unmarked target is marked and pushed; every overflow comes with a newly set mark bit. |
| `Marker.Collector.MarkFrom` | racket/src/racket/gc/mark.c:618-872 | Draining for a while keeps all needed sources covered, marks only reachable objects and no more than its portion allows, and either sets a mark bit or shrinks the pending work. With only objects on the stack it goes on exactly as the functions of `Tracing` say. |
| `Marker.Collector.Take` | racket/src/racket/gc/mark.c:640-701 | Taking the top range, or splitting a long one, loses no pending word. |
| `Marker.Collector.ScanRange` | racket/src/racket/gc/mark.c:792-872 | A range is scanned from its first word to its last pointer; afterwards none of its words is needed any more. |
| `Marker.Collector.PushMarked` | racket/src/racket/gc/mark.c:1747-1796 | All marked objects of the block are covered afterwards unless the stack overflowed; a block fits in a drained stack. |
| `Marker.Collector.PushNextMarked` | racket/src/racket/gc/mark.c:1818-1829 | The marked objects below the returned address are covered; 0 is returned exactly if no block is left. |
| `Marker.Collector.PushNextMarkedUncollectable` | racket/src/racket/gc/mark.c:1865-1881 | The same for uncollectable blocks, skipping the others. |
| `Marker.Collector.PushRoots` | racket/src/racket/gc/mark_rts.c:564-632 | Root areas become covered, or an overflow has set a new mark bit; it fails only if the stack is full and static data is left, and not if the static data fits in three quarters of the stack and a quarter of it is in use at most. |
| `Marker.Collector.PushRoot` | racket/src/racket/gc/mark_rts.c:564-632 | One root area becomes covered; only a full stack and non-empty static data make it fail. |
| `Marker.Collector.ClearMarks` | racket/src/racket/gc/mark.c:244-250 | Exactly the mark bits of uncollectable blocks survive, and the invariant for the first call holds. |
| `Marker.Collector.AllocMarkStack` | racket/src/racket/gc/mark.c:1181-1234 | The empty stack is replaced by a larger one or stays. |
| `Marker.CoveredIsReached` | racket/src/racket/gc/mark.c:383-392 | With everything covered and an empty stack, the mark set is exactly what is reachable. |
| `Marker.ScanPastBlock` | racket/src/racket/gc/mark.c:1818-1829 | Covering a block's marked objects moves the covered region past the block. |
| `Marker.Narrow` | racket/src/racket/gc/mark.c:832-853 | A word may leave the range being scanned once its target is marked. |
| `Marker.SplitTop` | racket/src/racket/gc/mark.c:687-701 | Splitting the top entry keeps everything covered. |
| `ObjectGraph.ReachSetLeast` | racket/src/racket/gc/mark.c:304-425 | The reachable set is the least set that holds the sources and is closed under pointers: the reference the marker is proved against. |
| `ObjectGraph.ReachSetClosed` | racket/src/racket/gc/mark.c:304-425 | What is reachable is closed under pointers. |
| `ParallelMark.TerminationDetected` | racket/src/racket/gc/mark.c:1115-1148 | In every interleaving of the initiator and any number of helpers, when GC_do_parallel_mark returns no entry is left on the global stack or with any thread, the counters are zero so that it can be called again, only reachable objects have been marked, and unless the state is MS_INVALID all of them have. When that state arises is said by `ParallelRoom.InvalidIff`. |
| `ParallelMark.UsedUpBelowFirst` | racket/src/racket/gc/mark.c:893-954 | At any time the slots below GC_first_nonempty, and below any active thread's copy of it, have a zero descriptor, and active count never exceeds helper count. |
| `ParallelMark.MineGrows` | racket/src/racket/gc/mark.c:1012-1109 | No step lowers the private copy of GC_first_nonempty of a thread that has set it. |
| `ParallelMark.RunInv` | racket/src/racket/gc/mark.c:1012-1109 | The invariant holds after every schedule, and GC_first_nonempty only grows. |
| `ParallelMark.StepInv` | racket/src/racket/gc/mark.c:1012-1109 | Every step of every thread keeps the invariant. |
| `ParallelMark.MoveLosesNothing` | racket/src/racket/gc/mark.c:893-999 | Stealing, local marking and giving entries back lose no pending word, unless MS_INVALID is set. |
| `ParallelMark.StealThread` | racket/src/racket/gc/mark.c:893-922 | A thread that steals holds only real entries. |
| `ParallelMark.GiveBackKeeps` | racket/src/racket/gc/mark.c:926-954 | Returning local entries keeps them pending, or drops them with MS_INVALID; which of the two is said by `ParallelRoom.InvalidIff` and `ParallelRoom.GiveBackCopies`. |
| `ParallelMark.LocalThread` | racket/src/racket/gc/mark.c:659-999 | A thread that marks locally, shares the lower part of a range, or gives ranges back keeps real entries on its own stack. |
| `ParallelMark.MoveCounts` | racket/src/racket/gc/mark.c:1012-1109 | GC_active_count and GC_helper_count equal the numbers of active and helping threads. |
| `ParallelMark.LeavingIsQuiet` | racket/src/racket/gc/mark.c:1071-1088 | A thread leaves only when no work is left anywhere. |
| `ParallelMark.StaysQuiet` | racket/src/racket/gc/mark.c:1153-1175 | From then on nobody finds work, not even a helper that joins late. |
| `ParallelMark.ActiveAgain` | racket/src/racket/gc/mark.c:1012-1109 | A schedule of two threads in which GC_active_count returns to zero and then becomes one again. |
| `ParallelMark.EmptyInit` | racket/src/racket/gc/mark.c:1115-1140 | There is a state with two threads and nothing to mark in which GC_do_parallel_mark starts. |
| `ParallelProgress.EveryoneCanTake` | racket/src/racket/gc/mark.c:893-922 | Work on the global stack can be had: after any schedule, if a slot holds an entry, any thread, be it a helper that has not joined or is inactive, can be brought to take one, and nothing needs to be given back for that. |
| `ParallelProgress.CanEnd` | racket/src/racket/gc/mark.c:1115-1148 | No schedule gets stuck: GC_do_parallel_mark can be brought to return from every state that is reached. |
| `ParallelRoom.InvalidIff` | racket/src/racket/gc/mark.c:926-954 | For every schedule MS_INVALID is set iff one of its steps had no room: a push on a private stack of LOCAL_MARK_STACK_SIZE entries, or giving back more entries than there are slots left. |
| `ParallelRoom.GiveBackCopies` | racket/src/racket/gc/mark.c:926-954 | In every state reached, any lower part of a private stack for which there is room can be given back: it stands on top of the global stack afterwards, in its order, and nothing else changes. |
| `ParallelRoom.MaySplit` | racket/src/racket/gc/mark.c:659-701 | Any first part of the range at the top can be marked from, and while the private stack is not full the range can be cut in two there. |
| `ParallelRoom.NothingDropped` | racket/src/racket/gc/mark.c:926-1148 | If the words of six largest ranges and of all objects unmarked at the start fit on a private stack, and what the schedule gives back fits on the global one, nothing is dropped, and a whole run marks exactly the reachable objects. |
| `ParallelRoom.CanMarkAll` | racket/src/racket/gc/mark.c:926-1148 | Under the same condition every schedule can be continued to an end with exactly the reachable objects marked. |
| `ParallelRoom.DroppedMeansMarked` | racket/src/racket/gc/mark.c:926-1148 | A whole run that loses entries although what is given back fits has marked a new object, so that rescanning makes progress. |
| `ParallelRoom.WholeRunExists` | racket/src/racket/gc/mark.c:1115-1148 | Such a run exists from every start. |
| `ParallelCollection.MarkInParallel` | racket/src/racket/gc/mark.c:358-381 | State ROOTS_PUSHED with GC_parallel set: from the marker's invariant every whole run of the marker threads leads to the reachable set, or to INVALID with the invariant intact and, if what was given back fits, with a new object marked. |
| `ParallelCollection.CollectInParallel` | racket/src/racket/gc/alloc.c:481-528 | A collection that marks in parallel, loses entries and recovers through the sequential rescan, in whatever order and however often, has marked exactly the reachable objects whenever it ends; if it has not ended it has made all the calls it was allowed. |
| `ParallelCollection.CollectToEnd` | racket/src/racket/gc/alloc.c:481-528 | If each time the threads run, in any order, until GC_do_parallel_mark returns and what they give back fits, the collection ends with exactly the reachable objects marked, or aborts for lack of room for static data. |
| `ParallelMark.InitInv` | racket/src/racket/gc/mark.c:1115-1140 | The invariant holds when GC_do_parallel_mark starts. |
| `FfiLock.MutualExclusion` | racket/src/foreign/foreign.c:3314-3381 | For every schedule of any number of threads, also with equal place ids: at most one holder; holders, senders, tokens and receivers together are 0 if the word is -1 and 1 otherwise; a word of -2 or less counts the blocked and just received threads exactly. |
| `FfiLock.HandOverHasWaiter` | racket/src/foreign/foreign.c:3366-3381 | A release whose swap fails finds waiters, and a token on its way has a waiter. |
| `FfiLock.HolderCanRelease` | racket/src/foreign/foreign.c:3366-3381 | After any schedule a thread that holds the lock can release it within two steps of its own: it is free if nobody waits, and a token is sent otherwise. |
| `FfiLock.EveryThreadCanAcquire` | racket/src/foreign/foreign.c:3314-3381 | No lost wake-up and no deadlock: after any schedule every thread can still be brought to hold the lock. |
| `FfiLock.WaiterCanAcquire` | racket/src/foreign/foreign.c:3340-3360 | A blocked thread can always be brought to hold the lock. |
| `FfiLock.RunAlone` | racket/src/foreign/foreign.c:3314-3360 | Running alone, a thread ends up holding the lock or blocked; one with the token ends up holding it. |
| `FfiLock.StepInv` | racket/src/foreign/foreign.c:3314-3381 | Every compare-and-swap, send and receive keeps the invariant, so a recurring value of the word does no harm. |
| `FfiLock.RunInv` | racket/src/foreign/foreign.c:3314-3381 | The invariant holds after every schedule. |
| `OrigPlaceCalls.ExactlyOnce` | racket/src/foreign/foreign.c:3412-3519 | For every interleaving of clients and servers: no dangling pointer is followed; head, tail, next and prev form a proper doubly linked list of exactly the posted, untaken requests, and every listed record belongs to a waiting client; no call runs twice and every returned call has run once. |
| `OrigPlaceProgress.FirstPostedIsTaken` | racket/src/foreign/foreign.c:3957-3969 | In every state reached with a posted request and an idle server, that server can take a request in one step, and what it takes is the one that was posted first. |
| `OrigPlaceProgress.EveryCallCanReturn` | racket/src/foreign/foreign.c:3412-3519 | If there is a server, then after any schedule every client can be brought to return, with its call run exactly once. |
| `OrigPlaceProgress.WaiterCanPause` | racket/src/foreign/foreign.c:3476-3500 | A waiting client can always wake up: it returns iff its call is done, and otherwise pauses while its request is not on the list. |
| `OrigPlaceProgress.NothingLeaks` | racket/src/foreign/foreign.c:3412-3519 | After any schedule each allocated record is owned by a call in progress or cached for its place, and not both; a call from a place with a cached record allocates none, and a place from which a call has returned has one unless another call is using it. |
| `OrigPlaceCalls.ServerHoldsLiveRecord` | racket/src/foreign/foreign.c:3957-3981 | A server holds a request only while its client waits for it and has neither cached nor freed it, and no two servers hold the same. |
| `OrigPlaceCalls.StepInv` | racket/src/foreign/foreign.c:3412-3519 | Every step keeps the invariant. |
| `OrigPlaceCalls.RunInv` | racket/src/foreign/foreign.c:3412-3519 | The invariant holds after every schedule. |
| `OrigPlaceCalls.EnqueueList` | racket/src/foreign/foreign.c:3455-3465 | Enqueueing puts the request in front of the list. |
| `OrigPlaceCalls.WithdrawList` | racket/src/foreign/foreign.c:3489-3500 | Withdrawing takes the request out of the list wherever it is. |
| `OrigPlaceCalls.PopTailList` | racket/src/foreign/foreign.c:3958-3968 | The server takes the last request off the list. |
| `OrigPlaceCalls.CheckInv` | racket/src/foreign/foreign.c:3476-3500 | A client that wakes up returns iff its call is done, and otherwise goes on with its request off the list, also if the request is being handled. |
| `OrigPlaceCalls.ExecuteInv` | racket/src/foreign/foreign.c:3970-3973 | A call that is executed had not run before. |
| `OrigPlaceCalls.FinishInv` | racket/src/foreign/foreign.c:3974-3978 | Reporting a call done ends the server's use of the request. |
| `Finalization.Finalizer.Finalize` | racket/src/racket/gc/finalize.c:588-773 | Unless the collector aborts, which it does not if static data fits in three quarters of the mark stack or if fewer unmarked objects have words than the stack has entries: the walk over the ordered finalizers follows the code step by step on the bounded stack; what is queued and marked at the end is the plan for the objects given up by that walk, and none is given up in the second of those cases. Said without the plan (`FinalizeRule`): before the walk exactly what the marks, the later hooks and the queued eager objects reach is marked; an object of level 1 is queued iff it was unmarked, one of level 2 iff besides no queued object of level 1 and not the hook between them reaches it, an ordered one iff it is unmarked then, not given up, and no dead ordered object leads to it. The mark set is closed, so that nothing a queued object reaches is reclaimed, iff every queued object of a level above 2 has its targets marked. A normal link is cleared iff its target was unmarked before finalization marking, a late one iff its cell survives and its target does not, and links that stay registered have live cells and targets; no registration is lost. |
| `Finalization.OrderedRule` | racket/src/racket/gc/finalize.c:645-714 | A registration without a pass of its own, ordered or of a level above 2, is queued iff its object is dead after the eager levels, was not given up, and no dead ordered object leads to it by one or more pointers. |
| `Finalization.EagerPlan` | racket/src/racket/gc/finalize.c:636-643 | The mark sets level by level amount to the rule for eager finalizers that does not mention them: what is marked before the ordered walk is what the marks, both later hooks and the queued eager objects reach, and who is queued is decided by who reaches whom. |
| `Finalization.PlanRule` | racket/src/racket/gc/finalize.c:636-714 | The same for a whole finalization. |
| `Finalization.HookedNotQueued` | racket/src/racket/gc/finalize.c:636-643 | No ordered finalizer is queued whose object a later hook or a queued eager object reaches, and among the eager ones only level 1 is queued in spite of the hook after it. |
| `Finalization.PromiseKeptIff` | racket/src/racket/gc/finalize.c:645-714 | What is queued is what should be, the dead ordered objects that no dead ordered object leads to and the eager ones, iff no object that none leads to overflows in its turn. |
| `Finalization.GivenUpHarmless` | racket/src/racket/gc/finalize.c:645-714 | Giving objects up changes what is queued iff one of them is an object that no dead ordered object leads to. |
| `OrderedRuns.GivenInTurn` | racket/src/racket/gc/finalize.c:649-668 | An object is given up iff in some turn of the walk it is unmarked and marking from it overflows, given what is marked by then. |
| `Finalization.NoPassForLevelThree` | racket/src/racket/gc/finalize.c:470-478 | A dead object of level 3 is queued while what it points to stays unmarked. |
| `Finalization.OrderIndependent` | racket/src/racket/gc/finalize.c:645-714 | Two walks in any orders that do not overflow queue the same registrations and leave the same mark set. |
| `Finalization.OrderMatters` | racket/src/racket/gc/finalize.c:649-668 | With overflow the order counts: of two dead ordered objects that point to the same comb, for every stack size, the one visited first is given up and the other queued, though both should be. |
| `OrderedRuns.GivenUpIff` | racket/src/racket/gc/finalize.c:649-668 | Nothing is given up iff no object of the walk, marked from in its turn with what is marked by then, overflows the mark stack. |
| `OrderedRuns.EnoughRoom` | racket/src/racket/gc/finalize.c:649-668 | If fewer unmarked objects have words than the stack has entries, no order of the walk overflows. |
| `OrderedRuns.RunMarks` | racket/src/racket/gc/finalize.c:645-678 | Over a whole walk exactly what the dead objects lead to by one or more pointers, and the objects given up, which are dead ones, get marked in addition; every dead object has been marked from. |
| `OrderedRuns.FirstIsGivenUp` | racket/src/racket/gc/finalize.c:649-668 | On the comb the first object of the walk is given up, and it alone. |
| `Tracing.FromReaches` | racket/src/racket/gc/mark.c:618-872 | Marking from an object marks only what it leads to by one or more pointers; without an overflow the object and all that got marked have all their targets marked. |
| `Tracing.NoOverflow` | racket/src/racket/gc/include/private/gc_pmark.h:137-153 | Marking does not overflow a stack that has more entries than there are unmarked objects with words. |
| `Tracing.CombOverflows` | racket/src/racket/gc/mark.c:578-587 | For every stack size there is a graph, a comb, on which marking from one object overflows. |
| `Finalization.Finalizer.FinalizeEagers` | racket/src/racket/gc/finalize.c:499-571 | All unmarked registrations of the level are queued, and exactly their objects and everything they reach are marked in addition, also when the mark stack overflows on the way. |
| `Finalization.Finalizer.QueueEagers` | racket/src/racket/gc/finalize.c:636-643 | The two eager levels in order, with the hook after each, obey `EagerRule`: the mark set is what the marks, both hooks and the queued objects reach, level 1 is queued iff unmarked, level 2 iff moreover neither a queued object of level 1 nor the hook between them reaches it. |
| `Finalization.Finalizer.MarkOrdered` | racket/src/racket/gc/finalize.c:645-678 | The walk is a run in which each object in its turn is skipped if marked, adds what it leads to, or is given up if marking from it overflows the stack at that moment. |
| `Finalization.Finalizer.MarkFromDead` | racket/src/racket/gc/finalize.c:655-668 | Marking from a dead object marks exactly what it leads to, and the object itself iff the bounded stack overflows. |
| `Finalization.Finalizer.MarkFromObject` | racket/src/racket/gc/finalize.c:655-668 | One object is marked from by the marker itself on its bounded stack; after an overflow the marker recovers or aborts. |
| `Finalization.Finalizer.EnqueueUnmarked` | racket/src/racket/gc/finalize.c:679-714 | Exactly the unmarked registrations move from the table to the queue, with their multiplicities. |
| `Finalization.Finalizer.SweepLinks` | racket/src/racket/gc/finalize.c:605-634 | One pass over the link table drops and clears exactly the links it should and keeps the counts. |
| `DisappearingLinks.LinkPasses` | racket/src/racket/gc/finalize.c:605-768 | The three passes together have the stated outcome for links. |
| `Finalization.Finalizer.RegisterLink` | racket/src/racket/gc/finalize.c:162-222 | It aborts iff the cell is misaligned or there is no table and none can be allocated. A new cell is entered, a registered one gets the new target but keeps its kind, and without memory nothing changes; one entry per cell is kept, and the count is right. The table doubles first iff it has more entries than chains and memory allows. |
| `Finalization.Finalizer.UnregisterLink` | racket/src/racket/gc/finalize.c:224-256 | Exactly the entry of the cell is removed; an aligned cell before the first registration makes the code read through a null table. |
| `DisappearingLinks.PutLink` | racket/src/racket/gc/finalize.c:184-221 | The search and the three outcomes of a registration, on the table. |
| `DisappearingLinks.RemoveLink` | racket/src/racket/gc/finalize.c:230-256 | The search and the removal, on the table. |
| `DisappearingLinks.GrownLinks` | racket/src/racket/gc/finalize.c:100-134 | Growing changes neither the set of entries nor their number and keeps one entry per cell. |
| `Finalization.Finalizer.Register` | racket/src/racket/gc/finalize.c:313-459 | The registration of an object, at any level, is replaced, removed from the table or else from the ready queue, or made if memory allows; each registration stays in exactly one place and none that ran comes back. The table doubles first iff it has more entries than chains and memory allows; it aborts iff there is no table and none can be allocated. |
| `Finalization.Finalizer.InvokeNext` | racket/src/racket/gc/finalize.c:850-901 | The first ready registration is taken off the queue and run; it had not run before. |
| `Finalization.Finalizer.InvokeFinalizers` | racket/src/racket/gc/finalize.c:850-901 | All ready registrations run, in order, each for the first time. |
| `Finalization.Finalizer.FinishCollection` | racket/src/racket/gc/finalize.c:588-773 | A collection on a changed heap has the outcome of `Finalize` for queue, marks and links and keeps every registration in table or queue and the lifecycle invariant. |
| `Finalization.Finalizer.Dequeue` | racket/src/racket/gc/finalize.c:390-421 | The object's first entry is taken off the ready queue, and the others stay in exactly one place. |
| `HashChains.GrowTable` | racket/src/racket/gc/finalize.c:100-134 | The grown table has the same entries with the same multiplicities, each in the chain it hashes to. |
| `BlockAllocator.Allocator.Alloc` | racket/src/racket/gc/allchblk.c:579-632 | The invariant, which includes that the header index describes the blocks, is kept; blocks in use are untouched, the block granted lies in a formerly free one and is not black listed; free, dropped and granted blocks balance. For every limit on the lists to split from: it fails only if there is no usable place in any free block of exactly the size, nor in any larger one on the lists up to the limit; with empty black lists it succeeds iff there is such a block. An exact match, and then a lower list, is preferred, unless there is no hope in it. |
| `BlockAllocator.Allocator.AllocNth` | racket/src/racket/gc/allchblk.c:640-815 | The same for one list: the place is found in its first block that neither is hopeless nor has an obviously better next one; on failure every block of the list is hopeless, despite that rule. |
| `BlockAllocator.Allocator.Visit` | racket/src/racket/gc/allchblk.c:655-784 | One block of the list is allocated from at the right place, dropped if hopeless, or passed over because it is hopeless or the next one is obviously better. |
| `BlockAllocator.Allocator.Considered` | racket/src/racket/gc/allchblk.c:656-676 | A block is passed over iff it is too small, may not be split, or is outdone: the next one fits with less left over and its start is not black listed. |
| `BlockAllocator.Allocator.Choose` | racket/src/racket/gc/allchblk.c:677-770 | The place chosen is the first one not black listed, whatever the size; only if there is none, and the request is very large, the start of the block is taken nevertheless. Otherwise the block is skipped, or dropped iff a single block is asked for, leaks are not being looked for, and this is the fourth such time in a row of four. |
| `BlockAllocator.Allocator.FindStart` | racket/src/racket/gc/allchblk.c:687-694 | The search stops at the first usable start, or past the last one, and the remaining size is never negative. |
| `BlockAllocator.Allocator.DropBlock` | racket/src/racket/gc/allchblk.c:739-768 | A dropped block becomes blocks in use of one heap block each; the free counts go down by its size. |
| `BlockAllocator.Allocator.Take` | racket/src/racket/gc/allchblk.c:695-712 | Allocation at a start inside a free block, through the split that puts a block on the wrong list for a moment, restores the whole invariant. |
| `BlockAllocator.Allocator.GetFirstPart` | racket/src/racket/gc/allchblk.c:490-514 | The first part is in use and the rest is free on the list for its size. |
| `BlockAllocator.Allocator.SplitBlock` | racket/src/racket/gc/allchblk.c:529-563 | The second part takes the block's place on its list, the first goes to the list for its size, and the counts are those of the lists. |
| `BlockAllocator.Allocator.RemoveFromFl` | racket/src/racket/gc/allchblk.c:289-325 | The list without the block, properly linked both ways, and its count. |
| `BlockAllocator.Allocator.AddToFl` | racket/src/racket/gc/allchblk.c:361-388 | The block in front of the list for its size, properly linked. |
| `BlockAllocator.Allocator.FreeBlock` | racket/src/racket/gc/allchblk.c:828-889 | The block becomes part of a free block, other blocks in use are untouched, and the invariant holds: partition, lists by size, counts, no adjacent free blocks while the heap size is positive as a signed word. Freeing a free block aborts. |
| `BlockAllocator.Allocator.MergeNext` | racket/src/racket/gc/allchblk.c:860-867 | Afterwards no free block follows, unless sizes overflow. |
| `BlockAllocator.Allocator.MergePrev` | racket/src/racket/gc/allchblk.c:868-882 | Afterwards no two free blocks are adjacent. |
| `BlockAllocator.Allocator.AddToHeap` | racket/src/racket/gc/alloc.c:823-858 | The usable blocks of the new section, and no others, join the heap and the free blocks; used plus free blocks equal the heap size. It aborts iff there are as many sections as the table holds or the section's size is negative as a signed word. |
| `BlockAllocator.Allocator.EnoughLargeLeft` | racket/src/racket/gc/allchblk.c:61-72 | The largest list index from which the free lists suffice, or 0. |
| `BlockAllocator.Allocator.FindBlock` | racket/src/racket/gc/misc.c:332-352 | In every reachable state of the allocator, following the forwarding counts from any address of a block in use, or from the start of a free one, ends at the header of that block, and whatever is found owns the address. |
| `BlockAllocator.Allocator.FreeBlockEndingAt` | racket/src/racket/gc/allchblk.c:330-355 | While a block is freed, the index finds the free block that ends where it starts, or none if there is none. |
| `BlockAllocator.ExactDone` | racket/src/racket/gc/allchblk.c:616-627 | After the search for an exact match there is no hope in any block of that size, and starting the search with splitting at the next list misses nothing, because small lists hold one size each. |
| `BlockAllocator.NextListDone` | racket/src/racket/gc/allchblk.c:628-631 | After each list that is searched with splitting there is no hope in any block up to that list. |
| `BlockLayout.ListForOrder` | racket/src/racket/gc/allchblk.c:86-93 | Larger blocks are on higher lists and small sizes have lists of their own. |
| `BlockLayout.Cut` | racket/src/racket/gc/allchblk.c:490-563 | Cutting a block in two keeps the partition of the heap. |
| `BlockLayout.Join` | racket/src/racket/gc/allchblk.c:860-882 | Joining adjacent blocks keeps the partition of the heap. |
| `BlockLayout.TwoFit` | racket/src/racket/gc/allchblk.c:860-882 | Two blocks are never larger than the heap, so sums overflow only in a heap that does. |
| `BlockSteps.Merge` | racket/src/racket/gc/allchblk.c:860-882 | A merge keeps lists, counts and the balance of used and free blocks. |
| `BlockSteps.Split` | racket/src/racket/gc/allchblk.c:529-563 | A split keeps them too, with one block on the wrong list. |
| `BlockSteps.UsePart` | racket/src/racket/gc/allchblk.c:490-514 | Putting the first part of a block to use moves its size from free to used. |
| `HeaderIndex.Index.PrevBlock` | racket/src/racket/gc/headers.c:369-398 | The highest block start at or below h, across bottom indices, or 0. |
| `HeaderIndex.Index.NextUsedBlock` | racket/src/racket/gc/headers.c:333-364 | The lowest start of a block in use at or above h, across bottom indices, or 0. |
| `HeaderIndex.Index.AllBlocks` | racket/src/racket/gc/headers.c:305-329 | Each block in use is visited exactly once. |
| `HeaderIndex.Index.FindStart` | racket/src/racket/gc/allchblk.c:335-339 | Following forwarding counts reaches the header of the block in use that owns the address. |
| `HeaderIndex.Index.FreeBlockEndingAt` | racket/src/racket/gc/allchblk.c:330-355 | The free block that ends at h, or 0 if there is none. |
| `HeaderIndex.Index.GetIndex` | racket/src/racket/gc/headers.c:202-248 | An index for the address exists afterwards, listed in key order, and no entry has changed. |
| `HeaderIndex.Index.SetHdr` | racket/src/racket/gc/include/private/gc_hdrs.h:194-195 | Exactly one entry changes; the common empty index never gets one. |
| `HeaderIndex.Index.InstallHeader` | racket/src/racket/gc/headers.c:253-264 | The entry of the block becomes a header. |
| `HeaderIndex.Index.InstallCounts` | racket/src/racket/gc/headers.c:267-281 | Entry k of the block leads back by the lesser of k and MAX_JUMP; nothing else changes. |
| `HeaderIndex.Index.RemoveHeader` | racket/src/racket/gc/headers.c:284-291 | The entry is cleared. |
| `HeaderIndex.Index.RemoveCounts` | racket/src/racket/gc/headers.c:294-301 | The other entries of the block are cleared. |
| `HeaderIndex.CellsUse` | racket/src/racket/gc/headers.c:267-281 | Installing counts for a block put to use keeps the index a refinement of the block map. |
| `HeaderIndex.CellsFree` | racket/src/racket/gc/headers.c:294-301 | Removing counts of a block that is freed keeps it so. |
| `HeaderIndex.CellsCut` | racket/src/racket/gc/allchblk.c:498-511 | Installing the header of the rest of a split block keeps it so. |
| `HeaderIndex.CellsJoin` | racket/src/racket/gc/allchblk.c:864-880 | Removing the header of a merged block keeps it so. |
| `HeaderIndex.CellsGrow` | racket/src/racket/gc/alloc.c:846-856 | Installing the header of a new section keeps it so. |
| `HeaderIndex.CellsChop` | racket/src/racket/gc/allchblk.c:753-767 | Installing one header for each heap block of a dropped block keeps it so. |
| `HeaderIndex.CellsStillFree` | racket/src/racket/gc/headers.c:294-301 | Clearing counts inside a block that is free already keeps it so. |
| `BlackList.IsBlackListed` | racket/src/racket/gc/blacklst.c:221-250 | The scan that skips zero words gives what the bit by bit search gives. |
| `BlackList.NextStartMeaning` | racket/src/racket/gc/blacklst.c:212-220 | The result is 0 iff the range is usable, and otherwise all starts before the result are black listed for that length. |
| `RootExclusions.ExclusionTable.NextExclusion` | racket/src/racket/gc/mark_rts.c:400-417 | The first range that ends after the address. |
| `RootExclusions.ExclusionTable.Exclude` | racket/src/racket/gc/mark_rts.c:419-450 | It aborts iff the range overlaps an excluded one or a new entry does not fit; otherwise the table stays sorted and disjoint and exactly the addresses of the range are excluded in addition. It writes past the end of the table iff the table is full, an excluded range lies after the new one, and the two neither overlap nor touch. |
| `RootExclusions.OverrunExample` | racket/src/racket/gc/mark_rts.c:441-446 | For a table of any size, an input with such a write, and two on the same full table without. |
| `RootExclusions.ExclusionTable.PushWithExclusions` | racket/src/racket/gc/mark_rts.c:453-467 | The ranges pushed are disjoint and make up exactly what lies between bottom and top and is not excluded. |
| `Reciprocal.Inverse64` | racket/src/racket/gc/allchblk.c:249-251 | The smallest number whose product with the size reaches 2^32. |
| `Reciprocal.Inverse32` | racket/src/racket/gc/allchblk.c:252-256 | The same, by the loop on products that wrap around. |
| `Reciprocal.SameInverse` | racket/src/racket/gc/allchblk.c:240-259 | Both formulas give the same number. |
| `Reciprocal.Divides` | racket/src/racket/gc/allchblk.c:240-259 | For every offset in a heap block, multiplying by it and dropping 32 bits is division by the size. |
| `LauncherRoundTrip.RoundTrip` | racket/src/racket/dynsrc/start.c:115-235 | Splitting the command line made from a list of arguments gives the list back iff no argument is empty and none both needs quotes and ends in a backslash. |
| `LauncherRoundTrip.ReadProtected` | racket/src/racket/dynsrc/start.c:178-196 | A quoted or plain argument is read as itself, whatever follows it. |
| `LauncherRoundTrip.ReadBroken` | racket/src/racket/dynsrc/start.c:129-151 | A quoted argument that ends in backslashes is read as something else. |
| `LauncherRoundTrip.ReadBody` | racket/src/racket/dynsrc/start.c:135-149 | The body written for an argument is read as the argument, up to a last backslash. |
| `LauncherBuffers.Protect` | racket/src/racket/dynsrc/start.c:115-163 | The output fits the buffer computed and is the quoted argument. |
| `LauncherBuffers.BodyFits` | racket/src/racket/dynsrc/start.c:120-137 | The size computed covers doubled backslashes and the three extra characters for each quote. |
| `LauncherBuffers.MakeCommandLine` | racket/src/racket/dynsrc/start.c:216-235 | The result is the joined line; a character is written past the buffer computed iff there is no argument. |
| `LauncherBuffers.LineFits` | racket/src/racket/dynsrc/start.c:216-235 | The joined line and its null character fit in the computed size iff there is an argument. |
| `LauncherBuffers.ParseCommandLine` | racket/src/racket/dynsrc/start.c:165-214 | In place, without ever destroying unread input: the buffer afterwards holds the arguments of the line as C strings at the places returned, less the skipped ones. They stop at the limit only if the count starts below it; a command array of one place more than the limit is overrun iff the count starts at the limit or above and the arguments stored leave it. |
| `LauncherBuffers.GatherArguments` | racket/src/racket/dynsrc/start.c:284-354 | Under WinMain the program writes past its argument array iff the embedded line has 99 arguments or more and an argument is given; otherwise the arguments are those of both lines up to the limit. |
| `LauncherBuffers.CopyArguments` | racket/src/racket/dynsrc/start.c:284-354 | Under wmain it does so iff the program's name, the embedded and the given arguments are more than 100. |
| `LauncherBuffers.GatherOverrun` | racket/src/racket/dynsrc/start.c:284-354 | Two lines for which the first happens. |
| `LauncherBuffers.ReadStep` | racket/src/racket/dynsrc/start.c:175-197 | One round writes at or before where it reads and advances the reading accordingly. |
| `LauncherGrammar.ReadPieces` | racket/src/racket/dynsrc/start.c:175-197 | The reader follows a grammar of pieces: 2n backslashes and a quote stand for n backslashes and switch quoting, 2n+1 and a quote for n backslashes and a quote, and any other character, backslashes too, for itself. |
| `LauncherGrammar.EveryLine` | racket/src/racket/dynsrc/start.c:175-197 | Every text starts with such an argument, so the grammar says what the reader does on all input. |
| `LauncherGrammar.FirstArgument` | racket/src/racket/dynsrc/start.c:165-214 | The arguments of a line are the meaning of its first one, which is dropped if it is empty, and those of the rest. |

## Left out

- Incremental and dirty-bit marking and exception handling around `GC_mark_some`.
- Marker.Collector.MarkFrom: bitmap, procedure and per-object descriptors are not modelled; objects are marked from all their words.
- Tracing.FromReaches: the same holds for marking from one object.
- Marker.Collector.AllocMarkStack: the old stack, which the code recycles as heap, is not modelled; the model only changes the size.
- Marker.Collector.PushNextMarked: blocks that are free have no marked objects and are not part of the block list.
- Marker.Collector.PushNextMarkedUncollectable: free blocks are not part of the block list either.
- Marker.Collector.PushRoots: the mark bits that the code sets on headers of free lists are not modelled.
- Condition variables and signals of the parallel marker, of the named lock and of the original-place queue are guards on steps: a wait is a step that is enabled later. That something happens eventually is stated as the existence of a continuing schedule, not for every fair schedule.
- `name_to_ffi_lock`: registration of a lock under a name is a call into the place table.
- The foreign call itself is an event, and the time between waking up and withdrawing, in which other work runs, is a step.
- Finalization with mark procedures other than the normal one, the Java finalization block and `GC_custom_finalize`.
- Finalization.Finalizer.RegisterLink: the object that holds a cell is found when the link is registered, not at each collection; `GC_oom_fn` finds no memory.
- Finalization.Finalizer.Finalize: whether the mark stack can be enlarged after an overflow is left open, so a walk that overflows may have several outcomes for the size.
- Finalization.Finalizer.InvokeFinalizers: the finalizers called register nothing, and a nested run is not modelled; a run in which they do is a sequence of `InvokeNext` and `Register`.
- The heuristics of `GC_allochblk` that decide how many lists may be split from, and the warnings about repeated large allocations; the limit is a parameter.
- Failure to allocate headers or bottom indices.
- BlockAllocator.Allocator.Alloc: asks that the size is not 0 and that rounding it up to heap blocks does not wrap around, which the code does not check.
- BlockAllocator.Allocator.AddToHeap: asks that a new section is away from the heap and within the address space, as the operating system provides it; updates of the plausible heap bounds are not modelled.
- HeaderIndex.Index.InstallHeader: the header structures themselves and their free list are not modelled.
- HeaderIndex.Index.RemoveHeader: the header structure given back to its free list is not modelled.
- HeaderIndex.Index.GetIndex: the pointers between bottom indices are the neighbours in a sorted list of keys.
- Promotion of black lists after a collection and their statistics.
- RootExclusions.ExclusionTable.Exclude: asks that the range does not end before it starts; of a write past the table it says only that it happens.
- RootExclusions.ExclusionTable.PushWithExclusions: asks for at least one excluded range, as the code's own comment does.
- Reciprocal.Inverse64: sizes up to half a heap block; larger objects get a fixed value instead.
- The unrolled free-list builders of `new_hblk.c`.
- Characters above 127 are never white space in the launcher, as in the C locale; reading the executable and starting the process are not modelled.

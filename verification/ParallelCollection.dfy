/** A collection that marks in parallel once the roots are pushed, and recovers from an
    overflow on the way as the sequential marker does. */
module ParallelCollection {
  import opened Locks
  import opened Basics
  import opened ObjectGraph
  import opened MarkStack
  import opened Marker
  import P = ParallelMark
  import R = ParallelRoom

  /** The variables as GC_do_parallel_mark sets them. */
  function Start(h: Heap, kept: set<nat>, marks: set<nat>, stack: seq<Entry>, size: nat, helpers: nat): P.State
    requires |stack| <= size
  {
    var outside := P.Thread(P.Outside, 0, 0, 0, [], None, false);
    P.State(h, kept, marks, seq(size, i requires 0 <= i => if i < |stack| then Some(stack[i]) else None),
      |stack|, 0, 0, 1, true, false,
      [outside.(pc := P.Joined)] + seq(helpers, i => outside), P.Marking)
  }

  lemma StartInit(h: Heap, kept: set<nat>, marks: set<nat>, stack: seq<Entry>, size: nat, helpers: nat)
    requires h.Valid() && ValidStack(h, marks + kept, stack, size) && OnlyReachable(h, marks, kept)
    requires AllCovered(h, marks, stack, Need(h, ROOTS_PUSHED, 0))
    ensures P.Init(Start(h, kept, marks, stack, size, helpers), stack)
  {
    assert marks + kept == marks;
  }

  /** The mark set, and whether entries were lost, after a whole run of the marker threads. */
  function Phase(h: Heap, kept: set<nat>, marks: set<nat>, stack: seq<Entry>, size: nat, helpers: nat,
      schedule: seq<P.Action>): Option<(set<nat>, bool)>
    requires |stack| <= size
  {
    var s := Start(h, kept, marks, stack, size, helpers);
    if P.CanRun(s, schedule) && P.Run(s, schedule).stage == P.Done then
      Some((P.Run(s, schedule).marks, P.Run(s, schedule).invalid))
    else None
  }

  lemma PhaseMarks(h: Heap, kept: set<nat>, marks: set<nat>, stack: seq<Entry>, size: nat, helpers: nat,
      schedule: seq<P.Action>)
    requires h.Valid() && ValidStack(h, marks + kept, stack, size) && OnlyReachable(h, marks, kept)
    requires AllCovered(h, marks, stack, Need(h, ROOTS_PUSHED, 0))
    requires Phase(h, kept, marks, stack, size, helpers, schedule).Some?
    ensures var (marks', invalid) := Phase(h, kept, marks, stack, size, helpers, schedule).value;
      && marks <= marks' <= ReachSet(h.graph, h.RootTargets() + kept)
      && (invalid || marks' == ReachSet(h.graph, h.RootTargets() + kept))
  {
    StartInit(h, kept, marks, stack, size, helpers);
    P.TerminationDetected(Start(h, kept, marks, stack, size, helpers), stack, schedule);
  }

  lemma PhaseProgress(h: Heap, kept: set<nat>, marks: set<nat>, stack: seq<Entry>, size: nat, helpers: nat,
      schedule: seq<P.Action>)
    requires h.Valid() && ValidStack(h, marks + kept, stack, size) && OnlyReachable(h, marks, kept)
    requires AllCovered(h, marks, stack, Need(h, ROOTS_PUSHED, 0))
    requires Phase(h, kept, marks, stack, size, helpers, schedule).Some?
    ensures R.WholeRun(Start(h, kept, marks, stack, size, helpers), stack, schedule) ==>
      var (marks', invalid) := Phase(h, kept, marks, stack, size, helpers, schedule).value; invalid ==> marks < marks'
  {
    var s := Start(h, kept, marks, stack, size, helpers);
    StartInit(h, kept, marks, stack, size, helpers);
    if R.WholeRun(s, stack, schedule) {
      R.DroppedMeansMarked(s, stack, schedule);
    }
  }

  /** State ROOTS_PUSHED of GC_mark_some with GC_parallel set: the marker threads run as the
      schedule says.  If that is not a whole run of theirs, nothing is known yet. */
  method MarkInParallel(c: Collector, kept: set<nat>, helpers: nat, schedule: seq<P.Action>) returns (r: Outcome)
    requires c.Inv() && c.state == ROOTS_PUSHED && c.kept == kept
    modifies c
    ensures c.Inv() && c.kept == kept && c.stackSize >= old(c.stackSize) && old(c.marks) <= c.marks
    ensures r == More || r == Finished
    ensures r == More ==> c.state != NONE
    ensures r == Finished ==> c.marks == ReachSet(c.heap.graph, c.heap.RootTargets() + kept)
    ensures c.calls == old(c.calls) + 1
    ensures var s := Start(c.heap, kept, old(c.marks), old(c.stack), old(c.stackSize), helpers);
      R.WholeRun(s, old(c.stack), schedule) ==>
        r == Finished || (c.state == INVALID && old(c.marks) < c.marks <= AllObjects(c.heap.graph))
  {
    c.calls := c.calls + 1;
    var result := Phase(c.heap, kept, c.marks, c.stack, c.stackSize, helpers, schedule);
    if result.None? {
      return More;
    }
    PhaseMarks(c.heap, kept, c.marks, c.stack, c.stackSize, helpers, schedule);
    PhaseProgress(c.heap, kept, c.marks, c.stack, c.stackSize, helpers, schedule);
    r := AfterMarking(c, kept, result.value.0, result.value.1);
  }

  /** What follows GC_do_parallel_mark: the stack is empty, and grows if entries were lost. */
  method AfterMarking(c: Collector, kept: set<nat>, marks: set<nat>, invalid: bool) returns (r: Outcome)
    requires c.Inv() && c.state == ROOTS_PUSHED && c.kept == kept && c.marks <= marks
    requires marks <= ReachSet(c.heap.graph, c.heap.RootTargets() + kept)
    requires invalid || marks == ReachSet(c.heap.graph, c.heap.RootTargets() + kept)
    modifies c
    ensures c.Inv() && c.kept == kept && c.stackSize >= old(c.stackSize) && c.marks == marks && c.calls == old(c.calls)
    ensures if invalid then r == More && c.state == INVALID else r == Finished
  {
    c.marks, c.stack, c.tooSmall := marks, [], c.tooSmall || invalid;
    if c.tooSmall {
      c.AllocMarkStack(2 * c.stackSize);
    }
    if invalid {
      c.state := INVALID;
      return More;
    }
    c.state := NONE;
    assert AllCovered(c.heap, c.marks, c.stack, Need(c.heap, NONE, 0)) by { ReachedIsCovered(c.heap, c.marks, kept); }
    return Finished;
  }

  lemma ReachedIsCovered(h: Heap, marks: set<nat>, kept: set<nat>)
    requires h.Valid() && marks == ReachSet(h.graph, h.RootTargets() + kept) && kept <= AllObjects(h.graph)
    ensures AllCovered(h, marks, [], Need(h, NONE, 0))
  {
    assert Open(0);
    var all := h.RootTargets() + kept;
    SourcesReachable(h.graph, all);
    ReachSetClosed(h.graph, all);
    forall s | Live(marks, s) ensures Covered(h, marks, [], s) {
      forall i: nat | i < |h.Words(s)| && h.Words(s)[i].Ptr? ensures h.Words(s)[i].obj in marks {
        var t := h.Words(s)[i].obj;
        if s.Object? {
          assert Edge(h.graph, s.o, t);
        } else {
          assert h.RootPointsTo(t) && t < |h.graph.objs|;
        }
      }
    }
  }

  /** The mark phase with GC_parallel set.  However the threads are scheduled and however
      often entries are lost, when it ends exactly the objects reachable from the roots or
      from marked uncollectable objects are marked.  `calls` bounds the calls of GC_mark_some;
      More means that the phase has not ended yet. */
  method CollectInParallel(c: Collector, helpers: nat, schedules: nat -> seq<P.Action>, calls: nat)
    returns (r: Outcome)
    requires c.heap.Valid() && c.marks <= AllObjects(c.heap.graph) && INITIAL_MARK_STACK_SIZE <= c.stackSize
    modifies c
    ensures r == Finished ==>
      c.marks == ReachSet(c.heap.graph, c.heap.RootTargets() + set o | o in old(c.marks) && c.heap.Kept(o))
    ensures r == Aborted ==> c.NoRoom() && !c.heap.StaticDataFits(old(c.stackSize))
    ensures r != Abandoned && (r == More ==> c.calls == old(c.calls) + calls)
  {
    c.state, c.stack := INVALID, [];
    c.ClearMarks();
    var kept := c.marks;
    for i := 0 to calls
      invariant c.Inv() && c.kept == kept && c.state != NONE && c.stackSize >= old(c.stackSize)
      invariant c.calls == old(c.calls) + i
    {
      if c.state == ROOTS_PUSHED {
        r := MarkInParallel(c, kept, helpers, schedules(i));
      } else {
        r := c.MarkSome();
      }
      if r != More {
        return;
      }
    }
    return More;
  }

  /** If every time the threads run until GC_do_parallel_mark returns, in whatever order, and
      there is room for what they give back, the phase ends. */
  method CollectToEnd(c: Collector, helpers: nat, schedules: (nat, P.State) -> seq<P.Action>) returns (r: Outcome)
    requires c.heap.Valid() && c.marks <= AllObjects(c.heap.graph) && INITIAL_MARK_STACK_SIZE <= c.stackSize
    requires forall i, s, stack :: P.Init(s, stack) ==> R.WholeRun(s, stack, schedules(i, s))
    modifies c
    ensures r == Finished || (r == Aborted && c.NoRoom() && !c.heap.StaticDataFits(old(c.stackSize)))
    ensures r == Finished ==>
      c.marks == ReachSet(c.heap.graph, c.heap.RootTargets() + set o | o in old(c.marks) && c.heap.Kept(o))
  {
    c.state, c.stack := INVALID, [];
    c.ClearMarks();
    var kept := c.marks;
    var i := 0;
    while true
      invariant c.Inv() && c.kept == kept && c.state != NONE && c.stackSize >= old(c.stackSize)
      decreases c.Unmarked(), c.Phase(), c.BlocksLeft(), Work(c.stack)
    {
      if c.state == ROOTS_PUSHED {
        var s := Start(c.heap, kept, c.marks, c.stack, c.stackSize, helpers);
        StartInit(c.heap, kept, c.marks, c.stack, c.stackSize, helpers);
        r := MarkInParallel(c, kept, helpers, schedules(i, s));
      } else {
        r := c.MarkSome();
      }
      if r != More {
        return;
      }
      i := i + 1;
    }
  }
}

/** What the parallel marker can always do: every thread can get at work that is waiting, and
    marking can always be brought to its end. */
module ParallelProgress {
  import opened Locks
  import opened Basics
  import opened ObjectGraph
  import opened MarkStack
  import M = Marker
  import opened ParallelMark

  // Steps of one thread.

  /** Nobody else has moved, and nothing has been put on the global stack. */
  ghost predicate Alone(s: State, e: State, t: nat) {
    && |e.threads| == |s.threads| && (forall u :: 0 <= u < |s.threads| && u != t ==> e.threads[u] == s.threads[u])
    && e.heap == s.heap && e.kept == s.kept && s.marks <= e.marks && e.len == s.len && |e.slots| == |s.slots|
    && s.first <= e.first && e.wanted == s.wanted && e.stage == s.stage
  }

  predicate GivesBack(a: Action) { a.Go? && a.m.GiveBack? }

  ghost predicate LeadsTo(s: State, schedule: seq<Action>, e: State, t: nat) {
    && CanRun(s, schedule) && Run(s, schedule) == e && Alone(s, e, t)
    && forall a :: a in schedule ==> !GivesBack(a)
  }

  /** Thread t can get there on its own. */
  ghost predicate CanReach(s: State, e: State, t: nat) {
    exists schedule :: LeadsTo(s, schedule, e, t)
  }

  lemma {:induction false} RunConcat(s: State, a: seq<Action>, b: seq<Action>)
    requires CanRun(s, a) && CanRun(Run(s, a), b)
    ensures CanRun(s, a + b) && Run(s, a + b) == Run(Run(s, a), b)
    decreases |a|
  {
    if a == [] {
      assert a + b == b;
    } else {
      assert (a + b)[1..] == a[1..] + b;
      RunConcat(Step(s, a[0]), a[1..], b);
    }
  }

  lemma ReachSelf(s: State, t: nat)
    ensures CanReach(s, s, t)
  {
    assert LeadsTo(s, [], s, t);
  }

  lemma ReachOn(s: State, e: State, f: State, t: nat)
    requires CanReach(s, e, t) && CanReach(e, f, t)
    ensures CanReach(s, f, t)
  {
    var a :| LeadsTo(s, a, e, t);
    var b :| LeadsTo(e, b, f, t);
    RunConcat(s, a, b);
    assert LeadsTo(s, a + b, f, t);
  }

  /** The invariant, closed. */
  ghost predicate Fine(s: State) { forall k: nat :: Open(k) ==> Inv(s) }

  lemma FineThread(s: State, t: nat)
    requires Fine(s) && t < |s.threads|
    ensures ThreadOk(s.heap, s.marks, s.slots, s.len, s.threads[t]) && s.first <= s.len <= |s.slots|
    ensures EmptyBelow(s.slots, s.first)
  {
    assert Open(0);
  }

  lemma Do(s: State, t: nat, m: Move) returns (e: State)
    requires Fine(s) && t < |s.threads| && CanMove(s, s.threads[t], m) && !m.GiveBack?
    ensures e == MoveStep(s, t, m) && Fine(e) && CanReach(s, e, t) && Alone(s, e, t)
    ensures e.threads[t] == NextThread(s, s.threads[t], m)
  {
    assert Open(0);
    StepInv(s, Go(t, m));
    e := Step(s, Go(t, m));
    DoesAlone(s, t, m);
    OneStep(s, t, m);
  }

  lemma OneStep(s: State, t: nat, m: Move)
    requires t < |s.threads| && CanMove(s, s.threads[t], m) && !m.GiveBack? && Alone(s, MoveStep(s, t, m), t)
    ensures CanReach(s, MoveStep(s, t, m), t)
  {
    var a := Go(t, m);
    assert CanRun(Step(s, a), []) && [a][1..] == [];
    assert !GivesBack(a) && forall b :: b in [a] ==> b == a;
    assert LeadsTo(s, [a], Step(s, a), t);
  }

  lemma DoesAlone(s: State, t: nat, m: Move)
    requires t < |s.threads| && CanMove(s, s.threads[t], m) && !m.GiveBack? && Evolves(s, MoveStep(s, t, m))
    ensures Alone(s, MoveStep(s, t, m), t)
  {
  }

  // Marking from the private stack.

  function WorkOf(th: Thread): nat {
    Work(th.local) + match th.cur case None => 0 case Some(e) => if e.lo <= e.hi then e.hi - e.lo else 0
  }

  /** The thread is about to mark an object that somebody else has marked in the meantime. */
  predicate Stale(s: State, th: Thread) {
    th.claim && th.cur.Some? && !Unmarked(s, th)
  }

  function Within(th: Thread): nat { if th.cur.None? then 2 else if th.claim then 0 else 1 }

  /** One step of marking, which is progress. */
  lemma MarkOne(s: State, t: nat) returns (e: State)
    requires Fine(s) && t < |s.threads| && s.threads[t].pc.Local?
    requires s.threads[t].cur.Some? || s.threads[t].local != []
    ensures Fine(e) && CanReach(s, e, t) && Alone(s, e, t) && SameSlots(s, e)
    ensures e.threads[t].pc.Local? && e.threads[t].mine == s.threads[t].mine && Progress(s, e, t)
  {
    var th := s.threads[t];
    FineThread(s, t);
    if th.cur.None? {
      var hi := TakeProgress(s, t);
      e := Do(s, t, Take(hi));
    } else if th.claim {
      SetProgress(s, t);
      e := Do(s, t, SetMark);
    } else {
      TestProgress(s, t);
      e := Do(s, t, TestMark);
    }
  }

  ghost predicate Progress(s: State, e: State, t: nat) {
    && t < |s.threads| == |e.threads|
    && var all := AllObjects(s.heap.graph); all - e.marks < all - s.marks || (e.marks == s.marks && Less(s, e, t))
  }

  lemma TakeProgress(s: State, t: nat) returns (hi: nat)
    requires Fine(s) && t < |s.threads| && s.threads[t].pc.Local? && s.threads[t].cur.None? && s.threads[t].local != []
    ensures CanMove(s, s.threads[t], Take(hi)) && Progress(s, MoveStep(s, t, Take(hi)), t)
    ensures SameSlots(s, MoveStep(s, t, Take(hi)))
  {
    var th := s.threads[t];
    FineThread(s, t);
    var top := th.local[|th.local| - 1];
    assert M.ValidEntry(s.heap, s.marks, top);
    hi := top.hi;
    assert Less(s, MoveStep(s, t, Take(hi)), t);
  }

  lemma TestProgress(s: State, t: nat)
    requires Fine(s) && t < |s.threads| && CanMove(s, s.threads[t], TestMark)
    ensures Progress(s, MoveStep(s, t, TestMark), t)
  {
    FineThread(s, t);
    assert M.ValidEntry(s.heap, s.marks, s.threads[t].cur.value);
  }

  ghost predicate SameSlots(s: State, e: State) { e.slots == s.slots && e.active == s.active }

  /** Less is left to do, with the same marks. */
  ghost predicate Less(s: State, e: State, t: nat)
    requires t < |s.threads| == |e.threads|
  {
    var th, th' := s.threads[t], e.threads[t];
    || (Stale(s, th) && !Stale(e, th'))
    || (Stale(s, th) == Stale(e, th') &&
      (WorkOf(th') < WorkOf(th) || (WorkOf(th') == WorkOf(th) && Within(th') < Within(th))))
  }

  lemma SetProgress(s: State, t: nat)
    requires Fine(s) && t < |s.threads| && CanMove(s, s.threads[t], SetMark)
    ensures Progress(s, MoveStep(s, t, SetMark), t)
  {
    var th, e := s.threads[t], MoveStep(s, t, SetMark);
    FineThread(s, t);
    if Unmarked(s, th) {
      var o := CurrentWord(s, th).obj;
      SetReached(s, t);
      assert o in AllObjects(s.heap.graph) - s.marks && o !in AllObjects(s.heap.graph) - e.marks;
    } else {
      assert e.marks == s.marks && Stale(s, th) && !Stale(e, e.threads[t]);
    }
  }

  lemma SetReached(s: State, t: nat)
    requires Fine(s) && t < |s.threads| && s.threads[t].cur.Some? && CurrentWord(s, s.threads[t]).Ptr?
    ensures CurrentWord(s, s.threads[t]).obj in AllObjects(s.heap.graph)
  {
    assert Open(0);
    var th := s.threads[t];
    assert ThreadOk(s.heap, s.marks, s.slots, s.len, th);
    M.TargetReachable(s.heap, s.marks, s.kept, th.cur.value.src, th.cur.value.lo);
  }

  /** A thread can empty its private stack. */
  lemma {:induction false} Drain(s: State, t: nat) returns (e: State)
    requires Fine(s) && t < |s.threads| && s.threads[t].pc.Local?
    ensures Fine(e) && CanReach(s, e, t) && Alone(s, e, t) && SameSlots(s, e)
    ensures e.threads[t].pc.Sync? && e.threads[t].mine == s.threads[t].mine
    decreases AllObjects(s.heap.graph) - s.marks, if Stale(s, s.threads[t]) then 1 else 0,
      WorkOf(s.threads[t]), Within(s.threads[t])
  {
    var th := s.threads[t];
    if th.cur.None? && th.local == [] {
      e := Do(s, t, LocalDone);
    } else {
      var s1 := MarkOne(s, t);
      e := Drain(s1, t);
      ReachOn(s, s1, e, t);
    }
  }

  // Getting at work.

  /** The thread holds an entry that was on the global stack in state s. */
  ghost predicate Took(s: State, e: State, t: nat) {
    t < |e.threads| && exists x :: InSlots(s, x) && x in e.threads[t].local
  }

  /** Finish what the thread has stolen. */
  lemma Unload(s: State, t: nat) returns (e: State)
    requires Fine(s) && t < |s.threads| && s.threads[t].pc.Steal?
    ensures Fine(e) && CanReach(s, e, t) && Alone(s, e, t) && SameSlots(s, e)
    ensures e.threads[t].pc.Sync? && e.threads[t].mine == s.threads[t].at
  {
    var s1 := Do(s, t, EndSteal);
    e := Drain(s1, t);
    ReachOn(s, s1, e, t);
  }

  /** Take the entry the thread has read, from the slot if it is still there. */
  lemma Seize(s: State, t: nat) returns (e: State)
    requires Fine(s) && t < |s.threads| && s.threads[t].pc.Grab?
    ensures Fine(e) && CanReach(s, e, t) && Alone(s, e, t) && (e.slots == s.slots || Took(s, e, t))
    ensures e.threads[t].pc.Steal? && e.threads[t].at == s.threads[t].at + 1 && s.threads[t].pc.e in e.threads[t].local
  {
    FineThread(s, t);
    var th := s.threads[t];
    e := Do(s, t, ClearSlot);
    if SlotAt(s.slots, th.at).Some? {
      assert InSlots(s, th.pc.e) && th.pc.e in e.threads[t].local;
    } else {
      assert e.slots == s.slots;
    }
  }

  /** A thread that looks for work gets to the top of the global stack, with its own view of what is used up
      published. */
  lemma ToLook(s: State, t: nat) returns (e: State)
    requires Fine(s) && t < |s.threads| && (s.threads[t].pc.Sync? || s.threads[t].pc.Publish?)
    ensures Fine(e) && CanReach(s, e, t) && Alone(s, e, t) && SameSlots(s, e)
    ensures e.threads[t].pc.Look? && e.threads[t].mine >= s.threads[t].mine
    ensures s.threads[t].pc.Sync? ==> e.first == e.threads[t].mine
  {
    if s.threads[t].pc.Publish? {
      e := Do(s, t, SwapFirst);
    } else {
      e := Do(s, t, ReadFirst);
      if e.threads[t].pc.Publish? {
        var s1 := e;
        e := Do(s1, t, SwapFirst);
        ReachOn(s, s1, e, t);
      }
    }
  }

  /** If there is more than it has seen, it starts to steal; otherwise it becomes inactive. */
  lemma ToSteal(s: State, t: nat) returns (e: State)
    requires Fine(s) && t < |s.threads| && (s.threads[t].pc.Look? || s.threads[t].pc.Recheck?)
    ensures Fine(e) && CanReach(s, e, t) && Alone(s, e, t) && e.slots == s.slots && e.first == s.first
    ensures e.threads[t].mine == s.threads[t].mine
    ensures var th := e.threads[t];
      if s.len == s.threads[t].mine then th.pc.Inactive?
      else th.pc.Steal? && th.local == [] && th.at == th.mine < th.high == s.len
  {
    FineThread(s, t);
    if s.threads[t].pc.Recheck? {
      e := Do(s, t, LookAgain);
    } else {
      e := Do(s, t, ReadTop);
      if e.threads[t].pc.Recheck? {
        var s1 := e;
        e := Do(s1, t, LookAgain);
        ReachOn(s, s1, e, t);
      }
    }
  }

  /** Walking up, it takes the first entry there is. */
  lemma {:induction false} WalkUp(s: State, t: nat, k: nat) returns (e: State)
    requires Fine(s) && t < |s.threads| && s.threads[t].pc.Steal? && s.threads[t].local == []
    requires s.threads[t].at <= k < s.threads[t].high && k < s.len && SlotAt(s.slots, k).Some?
    ensures Fine(e) && CanReach(s, e, t) && Took(s, e, t)
    decreases k - s.threads[t].at
  {
    FineThread(s, t);
    var s1 := Do(s, t, ReadSlot);
    if s1.threads[t].pc.Grab? {
      e := Seize(s1, t);
      var x := s1.threads[t].pc.e;
      assert InSlots(s, x);
    } else {
      e := WalkUp(s1, t, k);
    }
    ReachOn(s, s1, e, t);
  }

  lemma TakeFrom(s: State, t: nat, k: nat) returns (e: State)
    requires Fine(s) && t < |s.threads| && k < s.len && SlotAt(s.slots, k).Some?
    requires var pc := s.threads[t].pc; pc.Sync? || pc.Publish? || pc.Look? || pc.Recheck?
    ensures Fine(e) && CanReach(s, e, t) && Took(s, e, t)
  {
    var s1 := s;
    ReachSelf(s, t);
    if s.threads[t].pc.Sync? || s.threads[t].pc.Publish? {
      s1 := ToLook(s, t);
    }
    FineThread(s1, t);
    var s2 := ToSteal(s1, t);
    ReachOn(s, s1, s2, t);
    e := WalkUp(s2, t, k);
    ReachOn(s, s2, e, t);
    var x :| InSlots(s2, x) && x in e.threads[t].local;
    assert InSlots(s, x);
  }

  lemma TakeAfter(s: State, s1: State, t: nat, k: nat) returns (e: State)
    requires Fine(s1) && t < |s1.threads| && k < s.len == s1.len && SlotAt(s.slots, k).Some? && s1.slots == s.slots
    requires var pc := s1.threads[t].pc; pc.Sync? || pc.Publish? || pc.Look? || pc.Recheck?
    requires CanReach(s, s1, t)
    ensures Fine(e) && CanReach(s, e, t) && Took(s, e, t)
  {
    e := TakeFrom(s1, t, k);
    ReachOn(s, s1, e, t);
    var x :| InSlots(s1, x) && x in e.threads[t].local;
    assert InSlots(s, x);
  }

  /** A thread with something to finish first. */
  lemma TakeWhenDone(s: State, t: nat, k: nat) returns (e: State)
    requires Fine(s) && t < |s.threads| && k < s.len && SlotAt(s.slots, k).Some? && s.threads[t].Working()
    ensures Fine(e) && CanReach(s, e, t) && Took(s, e, t)
  {
    if s.threads[t].pc.Local? {
      var s1 := Drain(s, t);
      e := TakeAfter(s, s1, t, k);
    } else if s.threads[t].pc.Steal? {
      var s1 := Unload(s, t);
      e := TakeAfter(s, s1, t, k);
    } else {
      e := Seize(s, t);
      if e.slots == s.slots {
        var s1 := Unload(e, t);
        ReachOn(s, e, s1, t);
        e := TakeAfter(s, s1, t, k);
      }
    }
  }

  lemma TakeOne(s: State, t: nat, k: nat) returns (e: State)
    requires Fine(s) && t < |s.threads| && k < s.len && SlotAt(s.slots, k).Some?
    requires !s.threads[t].pc.Left? && (s.threads[t].pc.Outside? ==> s.wanted)
    ensures Fine(e) && CanReach(s, e, t) && Took(s, e, t)
  {
    FineThread(s, t);
    match s.threads[t].pc
    case Outside =>
      var s1 := Do(s, t, Join);
      var s2 := Do(s1, t, Activate);
      ReachOn(s, s1, s2, t);
      e := TakeAfter(s, s2, t, k);
    case Joined =>
      var s1 := Do(s, t, Activate);
      e := TakeAfter(s, s1, t, k);
    case Inactive =>
      var s1 := Do(s, t, Resume);
      e := TakeAfter(s, s1, t, k);
    case Steal => e := TakeWhenDone(s, t, k);
    case Grab(_) => e := TakeWhenDone(s, t, k);
    case Local => e := TakeWhenDone(s, t, k);
    case _ => e := TakeFrom(s, t, k);
  }

  /** While an entry is waiting nobody has left, and helpers can still join. */
  lemma {:induction false} DoorOpen(s: State, schedule: seq<Action>)
    requires CanRun(s, schedule) && (s.stage == Marking ==> s.wanted)
    ensures Run(s, schedule).stage == Marking ==> Run(s, schedule).wanted
    ensures |Run(s, schedule).threads| == |s.threads|
    decreases |schedule|
  {
    if schedule != [] {
      DoorOpen(Step(s, schedule[0]), schedule[1..]);
    }
  }

  lemma NobodyLeft(s: State, k: nat)
    requires Fine(s) && k < s.len && SlotAt(s.slots, k).Some?
    ensures s.stage == Marking && forall t :: 0 <= t < |s.threads| ==> !s.threads[t].pc.Left?
  {
    assert Open(0);
    assert SomeoneLeft(s) ==> Quiet(s) && EmptyBelow(s.slots, s.first);
  }

  /** Work that is waiting on the global stack can be had by every thread: after any schedule,
      the initiator and every helper, also one that has not joined yet or has become inactive,
      can go on alone until it has taken an entry from there. */
  lemma EveryoneCanTake(s: State, stack: seq<Entry>, schedule: seq<Action>, t: nat, k: nat) returns (more: seq<Action>)
    requires Init(s, stack) && CanRun(s, schedule) && t < |s.threads|
    requires k < Run(s, schedule).len && SlotAt(Run(s, schedule).slots, k).Some?
    ensures CanRun(s, schedule + more) && Took(Run(s, schedule), Run(s, schedule + more), t)
    ensures forall a :: a in more ==> !GivesBack(a)
  {
    InitInv(s, stack);
    RunInv(s, schedule);
    var e := Run(s, schedule);
    DoorOpen(s, schedule);
    NobodyLeft(e, k);
    var f := TakeOne(e, t, k);
    more :| LeadsTo(e, more, f, t);
    RunConcat(s, schedule, more);
  }

  // Getting to the end.

  /** Going up the global stack, a thread gets to where there is nothing left for it. */
  lemma {:induction false} Settle(s: State, t: nat) returns (e: State)
    requires Fine(s) && t < |s.threads| && s.threads[t].pc.Sync?
    ensures Fine(e) && CanReach(s, e, t) && Alone(s, e, t)
    ensures e.threads[t].pc.Inactive? && e.first == e.len
    decreases s.len - s.threads[t].mine
  {
    FineThread(s, t);
    var s1 := ToLook(s, t);
    var s2 := ToSteal(s1, t);
    ReachOn(s, s1, s2, t);
    e := s2;
    if s2.threads[t].pc.Steal? {
      var s3 := StealOne(s2, t);
      ReachOn(s, s2, s3, t);
      e := Settle(s3, t);
      ReachOn(s, s3, e, t);
    }
  }

  lemma StealOne(s: State, t: nat) returns (e: State)
    requires Fine(s) && t < |s.threads| && s.threads[t].pc.Steal? && s.threads[t].local == []
    requires s.threads[t].at < s.threads[t].high
    ensures Fine(e) && CanReach(s, e, t) && Alone(s, e, t)
    ensures e.threads[t].pc.Sync? && e.threads[t].mine == s.threads[t].at + 1 <= s.len
  {
    FineThread(s, t);
    var s1 := Do(s, t, ReadSlot);
    if s1.threads[t].pc.Grab? {
      var s2 := Seize(s1, t);
      ReachOn(s, s1, s2, t);
      s1 := s2;
    }
    e := Unload(s1, t);
    ReachOn(s, s1, e, t);
  }

  ghost predicate Resting(s: State, th: Thread) {
    th.pc.Outside? || th.pc.Left? || (th.pc.Inactive? && s.first == s.len)
  }

  /** A thread that is active or about to be gets to where it looks for work. */
  lemma Wake(s: State, t: nat) returns (e: State)
    requires Fine(s) && t < |s.threads| && !Resting(s, s.threads[t])
    ensures Fine(e) && CanReach(s, e, t) && Alone(s, e, t)
    ensures e.threads[t].pc.Sync? || Resting(e, e.threads[t])
  {
    FineThread(s, t);
    match s.threads[t].pc
    case Joined => e := Do(s, t, Activate);
    case Inactive => e := Do(s, t, Resume);
    case Sync => ReachSelf(s, t); e := s;
    case Local => e := Drain(s, t);
    case Steal => e := Unload(s, t);
    case Grab(_) =>
      var s1 := Seize(s, t);
      e := Unload(s1, t);
      ReachOn(s, s1, e, t);
    case Publish(_) =>
      var s1 := Do(s, t, SwapFirst);
      e := LookOn(s1, t);
      ReachOn(s, s1, e, t);
    case _ => e := LookOn(s, t);
  }

  lemma LookOn(s: State, t: nat) returns (e: State)
    requires Fine(s) && t < |s.threads| && (s.threads[t].pc.Look? || s.threads[t].pc.Recheck?)
    ensures Fine(e) && CanReach(s, e, t) && Alone(s, e, t)
    ensures e.threads[t].pc.Sync? || Resting(e, e.threads[t])
  {
    var s1 := ToSteal(s, t);
    FineThread(s1, t);
    e := s1;
    if s1.threads[t].pc.Steal? {
      e := Unload(s1, t);
      ReachOn(s, s1, e, t);
    } else if s1.first != s1.len {
      e := Do(s1, t, Resume);
      ReachOn(s, s1, e, t);
    }
  }

  lemma Rest(s: State, t: nat) returns (e: State)
    requires Fine(s) && t < |s.threads|
    ensures Fine(e) && CanReach(s, e, t) && Alone(s, e, t) && Resting(e, e.threads[t])
  {
    e := s;
    ReachSelf(s, t);
    if !Resting(s, s.threads[t]) {
      e := Wake(s, t);
      if !Resting(e, e.threads[t]) {
        var s1 := e;
        e := Settle(s1, t);
        ReachOn(s, s1, e, t);
      }
    }
  }

  /** The threads can get there together, without giving entries back. */
  ghost predicate CanGet(s: State, e: State) {
    exists schedule :: CanRun(s, schedule) && Run(s, schedule) == e && forall a :: a in schedule ==> !GivesBack(a)
  }

  lemma GetOn(s: State, e: State, f: State)
    requires CanGet(s, e) && CanGet(e, f)
    ensures CanGet(s, f)
  {
    var a :| CanRun(s, a) && Run(s, a) == e && forall x :: x in a ==> !GivesBack(x);
    var b :| CanRun(e, b) && Run(e, b) == f && forall x :: x in b ==> !GivesBack(x);
    RunConcat(s, a, b);
    assert forall x :: x in a + b ==> !GivesBack(x);
  }

  lemma GetAlone(s: State, e: State, t: nat)
    requires CanReach(s, e, t)
    ensures CanGet(s, e)
  {
    var a :| LeadsTo(s, a, e, t);
  }

  lemma GetStep(s: State, a: Action)
    requires Enabled(s, a) && !GivesBack(a)
    ensures CanGet(s, Step(s, a))
  {
    assert CanRun(Step(s, a), []) && [a][1..] == [] && forall b :: b in [a] ==> b == a;
    assert Run(s, [a]) == Step(s, a);
  }

  lemma GetSelf(s: State)
    ensures CanGet(s, s)
  {
    assert Run(s, []) == s;
  }

  /** One thread after the other comes to rest. */
  lemma {:induction false} RestAll(s: State, n: nat) returns (e: State)
    requires Fine(s) && n <= |s.threads|
    ensures Fine(e) && CanGet(s, e) && |e.threads| == |s.threads| && e.stage == s.stage
    ensures forall t :: 0 <= t < n ==> Resting(e, e.threads[t])
    decreases n
  {
    if n == 0 {
      GetSelf(s);
      return s;
    }
    var s1 := RestAll(s, n - 1);
    e := Rest(s1, n - 1);
    FineThread(e, n - 1);
    GetAlone(s1, e, n - 1);
    GetOn(s, s1, e);
    forall t | 0 <= t < n - 1 ensures Resting(e, e.threads[t]) {
      assert e.threads[t] == s1.threads[t] && Resting(s1, s1.threads[t]);
    }
  }

  /** Nobody is active then, and one after the other leaves. */
  lemma {:induction false} LeaveAll(s: State, n: nat) returns (e: State)
    requires Fine(s) && n <= |s.threads| && s.active == 0
    requires forall t :: 0 <= t < |s.threads| ==> Resting(s, s.threads[t])
    ensures Fine(e) && CanGet(s, e) && |e.threads| == |s.threads| && e.stage == s.stage && e.active == 0
    ensures forall t :: 0 <= t < |s.threads| ==> Resting(e, e.threads[t])
    ensures forall t :: 0 <= t < n ==> !e.threads[t].pc.Inactive?
    decreases n
  {
    if n == 0 {
      GetSelf(s);
      return s;
    }
    e := LeaveAll(s, n - 1);
    var t := n - 1;
    if e.threads[t].pc.Inactive? {
      var s1 := e;
      e := Do(s1, t, Resume);
      GetAlone(s1, e, t);
      GetOn(s, s1, e);
    }
  }

  lemma NobodyActive(s: State)
    requires Fine(s) && forall t :: 0 <= t < |s.threads| ==> Resting(s, s.threads[t])
    ensures s.active == 0
  {
    assert Open(0);
    assert ActiveThreads(s.threads) == {};
  }

  lemma NobodyHelps(s: State)
    requires Fine(s) && forall t :: 0 <= t < |s.threads| ==> Resting(s, s.threads[t]) && !s.threads[t].pc.Inactive?
    ensures s.helpers == 0
  {
    assert Open(0);
    assert HelpingThreads(s.threads) == {};
  }

  /** The initiator does not go back to where it has not joined. */
  lemma {:induction false} InitiatorStays(s: State, schedule: seq<Action>)
    requires CanRun(s, schedule) && |s.threads| > 0 && !s.threads[0].pc.Outside?
    ensures |Run(s, schedule).threads| == |s.threads| && !Run(s, schedule).threads[0].pc.Outside?
    decreases |schedule|
  {
    if schedule != [] {
      InitiatorStays(Step(s, schedule[0]), schedule[1..]);
    }
  }

  lemma GetDone(s: State) returns (e: State)
    requires Fine(s) && |s.threads| > 0 && !s.threads[0].pc.Outside?
    ensures CanGet(s, e) && e.stage == Done
  {
    var s1 := RestAll(s, |s.threads|);
    NobodyActive(s1);
    e := LeaveAll(s1, |s1.threads|);
    GetOn(s, s1, e);
    NobodyHelps(e);
    var a :| CanRun(s, a) && Run(s, a) == e && forall x :: x in a ==> !GivesBack(x);
    InitiatorStays(s, a);
    if e.stage == Marking {
      var s2 := e;
      e := Step(s2, CloseDoor);
      GetStep(s2, CloseDoor);
      GetOn(s, s2, e);
    }
    if e.stage == Closing {
      var s2 := e;
      e := Step(s2, Finish);
      GetStep(s2, Finish);
      GetOn(s, s2, e);
    }
  }

  /** Marking is never stuck: after any schedule GC_do_parallel_mark can be brought to return,
      without giving back any more entries. */
  lemma CanEnd(s: State, stack: seq<Entry>, schedule: seq<Action>) returns (more: seq<Action>)
    requires Init(s, stack) && CanRun(s, schedule)
    ensures CanRun(s, schedule + more) && Run(s, schedule + more).stage == Done
    ensures forall a :: a in more ==> !GivesBack(a)
  {
    InitInv(s, stack);
    RunInv(s, schedule);
    InitiatorStays(s, schedule);
    var e := Run(s, schedule);
    var f := GetDone(e);
    more :| CanRun(e, more) && Run(e, more) == f && forall a :: a in more ==> !GivesBack(a);
    RunConcat(s, schedule, more);
  }
}

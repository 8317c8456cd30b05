/** The parallel marker: work stealing from the global mark stack and distributed
    detection of the end of marking.

    The initiator and any number of helpers take entries off the global stack by
    overwriting them, mark from private stacks, copy private entries back under the mark
    lock, and stop once nobody is active and the global stack is used up.  Each step
    makes one access to shared memory, or is one critical section of the mark lock.
    At most six entries are stolen at once, as in the code; how many below that, and how
    much is shared or split, is left open, so the results hold for every choice. */
module ParallelMark {
  import opened Locks
  import opened ObjectGraph
  import opened Basics
  import opened MarkStack
  import opened Marker
  import BlockLayout

  const LOCAL_MARK_STACK_SIZE := HBLKSIZE
  const ENTRIES_TO_GET := 5

  datatype Pc =
    | Outside             // a helper that has not joined
    | Joined              // counted as a helper, about to become active
    | Sync                // about to read GC_first_nonempty
    | Publish(seen: nat)  // about to swap the value it read for its own
    | Look                // about to read the top of the global stack
    | Recheck             // found nothing; about to look again with the lock
    | Steal               // walks up the global stack
    | Grab(e: Entry)      // read this entry; about to overwrite it
    | Local               // marks from its private stack
    | Inactive            // found nothing with the lock; waits
    | Left                // has returned from GC_mark_local

  /** mine and high are my_first_nonempty and one above my_top, at is the slot looked at
      in GC_steal_mark_stack; cur is the range GC_mark_from is scanning, and claim says
      that the target of its first word was read as unmarked. */
  datatype Thread = Thread(pc: Pc, mine: nat, high: nat, at: nat, local: seq<Entry>, cur: Option<Entry>, claim: bool) {
    predicate Active() {
      pc.Sync? || pc.Publish? || pc.Look? || pc.Recheck? || pc.Steal? || pc.Grab? || pc.Local?
    }
    predicate Helping() { Active() || pc.Joined? || pc.Inactive? }
    predicate Working() { pc.Steal? || pc.Grab? || pc.Local? }
  }

  datatype Stage = Marking | Closing | Done

  /** len is one above GC_mark_stack_top, first is GC_first_nonempty, slots[k] == None is
      a zero descriptor. */
  datatype State = State(
    heap: Heap, kept: set<nat>, marks: set<nat>,
    slots: seq<Option<Entry>>, len: nat, first: nat,
    active: int, helpers: int, wanted: bool, invalid: bool,
    threads: seq<Thread>, stage: Stage)

  /** Steps of a thread. */
  datatype Move =
    | Join | Activate | ReadFirst | SwapFirst | ReadTop | LookAgain | Resume
    | ReadSlot | ClearSlot | EndSteal
    | Share(mid: nat) | Take(mid: nat) | TestMark | SetMark | GiveBack(k: nat) | LocalDone

  /** A step of a thread in GC_mark_local, or the end of GC_do_parallel_mark. */
  datatype Action = Go(t: nat, m: Move) | CloseDoor | Finish

  predicate CanMove(s: State, th: Thread, m: Move) {
    match m
    case Join => th.pc.Outside? && s.wanted
    case Activate => th.pc.Joined?
    case ReadFirst => th.pc.Sync?
    case SwapFirst => th.pc.Publish?
    case ReadTop => th.pc.Look?
    case LookAgain => th.pc.Recheck?
    case Resume => th.pc.Inactive? && !(s.active > 0 && s.first >= s.len)
    case ReadSlot => th.pc.Steal? && th.at < th.high && |th.local| <= ENTRIES_TO_GET
    case ClearSlot => th.pc.Grab?
    case EndSteal => th.pc.Steal?
    case Share(mid) =>
      && th.pc.Local? && th.cur.None? && th.local != [] && |th.local| < LOCAL_MARK_STACK_SIZE
      && th.local[|th.local| - 1].lo < mid < th.local[|th.local| - 1].hi
    case Take(mid) =>
      && th.pc.Local? && th.cur.None? && th.local != []
      && th.local[|th.local| - 1].lo < mid <= th.local[|th.local| - 1].hi
    case TestMark => th.pc.Local? && th.cur.Some? && !th.claim
    case SetMark => th.pc.Local? && th.cur.Some? && th.claim
    case GiveBack(k) => th.pc.Local? && th.cur.None? && 0 < k <= |th.local|
    case LocalDone => th.pc.Local? && th.cur.None? && th.local == []
  }

  predicate Enabled(s: State, a: Action) {
    match a
    case Go(t, m) => t < |s.threads| && CanMove(s, s.threads[t], m)
    case CloseDoor => s.stage == Marking && |s.threads| > 0 && s.threads[0].pc.Left?
    case Finish => s.stage == Closing && s.helpers == 0
  }

  /** The scanned range without its first word. */
  function Advanced(e: Entry): Option<Entry> {
    if e.lo + 1 < e.hi then Some(e.(lo := e.lo + 1)) else None
  }

  /** The word the thread is looking at. */
  function CurrentWord(s: State, th: Thread): Word
    requires th.cur.Some?
  {
    var e := th.cur.value;
    if e.lo < |s.heap.Words(e.src)| then s.heap.Words(e.src)[e.lo] else Data
  }

  function SlotAt(slots: seq<Option<Entry>>, k: nat): Option<Entry> {
    if k < |slots| then slots[k] else None
  }

  function Cleared(slots: seq<Option<Entry>>, k: nat): seq<Option<Entry>> {
    if k < |slots| then slots[k := None] else slots
  }

  /** Cut the range at the top of the private stack in two, so that the lower part can be
      given away. */
  function Shares(th: Thread, mid: nat): Thread
    requires th.local != []
  {
    var rest, e := th.local[..|th.local| - 1], th.local[|th.local| - 1];
    th.(local := rest + [e.(hi := mid)] + [e.(lo := mid)])
  }

  /** Take the range at the top of the private stack, or its first part. */
  function Taken(th: Thread, mid: nat): Thread
    requires th.local != []
  {
    var rest, e := th.local[..|th.local| - 1], th.local[|th.local| - 1];
    if mid == e.hi then th.(local := rest, cur := Some(e))
    else th.(local := rest + [e.(lo := mid)], cur := Some(e.(hi := mid)))
  }

  predicate Unmarked(s: State, th: Thread)
    requires th.cur.Some?
  {
    var w := CurrentWord(s, th);
    w.Ptr? && w.obj !in s.marks
  }

  /** Pushing the word's target finds the private stack full. */
  predicate Overflows(h: Heap, th: Thread, w: Word) {
    w.Ptr? && h.Words(Object(w.obj)) != [] && |th.local| >= LOCAL_MARK_STACK_SIZE
  }

  /** PUSH_OBJ on a private stack. */
  function Pushed(h: Heap, th: Thread, w: Word): Thread {
    if w.Data? || h.Words(Object(w.obj)) == [] then th
    else
      var room := if Overflows(h, th, w) then th.local[..LOCAL_MARK_STACK_SIZE - GC_MARK_STACK_DISCARDS] else th.local;
      th.(local := room + [Entry(Object(w.obj), 0, |h.Words(Object(w.obj))|)])
  }

  function Filled(entries: seq<Entry>): seq<Option<Entry>> {
    seq(|entries|, i requires 0 <= i < |entries| => Some(entries[i]))
  }

  /** What a step does to the thread's own variables. */
  function NextThread(s: State, th: Thread, m: Move): Thread
    requires CanMove(s, th, m)
  {
    match m
    case Join => th.(pc := Joined)
    case Activate => th.(pc := Sync, mine := s.first)
    case ReadFirst => if s.first < th.mine then th.(pc := Publish(s.first)) else th.(pc := Look, mine := s.first)
    case SwapFirst => th.(pc := Look)
    case ReadTop => if s.len == th.mine then th.(pc := Recheck) else th.(pc := Steal, high := s.len, at := th.mine)
    case LookAgain => if s.len == th.mine then th.(pc := Inactive) else th.(pc := Steal, high := s.len, at := th.mine)
    case Resume => if s.active == 0 && s.first >= s.len then th.(pc := Left) else th.(pc := Sync)
    case ReadSlot => (match SlotAt(s.slots, th.at) case None => th.(at := th.at + 1) case Some(e) => th.(pc := Grab(e)))
    case ClearSlot => th.(pc := Steal, at := th.at + 1, local := th.local + [th.pc.e])
    case EndSteal => th.(pc := Local, mine := th.at)
    case Share(mid) => Shares(th, mid)
    case Take(mid) => Taken(th, mid)
    case TestMark => if Unmarked(s, th) then th.(claim := true) else th.(cur := Advanced(th.cur.value))
    case SetMark => Pushed(s.heap, th.(claim := false, cur := Advanced(th.cur.value)), CurrentWord(s, th))
    case GiveBack(k) => th.(local := th.local[k..])
    case LocalDone => th.(pc := Sync)
  }

  /** What it does to the variables that are shared. */
  function Shared(s: State, th: Thread, m: Move): State
    requires CanMove(s, th, m)
  {
    match m
    case Join => s.(helpers := s.helpers + 1)
    case Activate => s.(active := s.active + 1)
    case SwapFirst => if s.first == th.pc.seen then s.(first := th.mine) else s
    case LookAgain => if s.len == th.mine then s.(active := s.active - 1) else s
    case Resume => if s.active == 0 && s.first >= s.len then s.(helpers := s.helpers - 1)
      else s.(active := s.active + 1)
    case ClearSlot => s.(slots := Cleared(s.slots, th.at))
    case SetMark =>
      (match CurrentWord(s, th)
       case Data => s
       case Ptr(o) => s.(marks := s.marks + {o}, invalid := s.invalid || Overflows(s.heap, th, CurrentWord(s, th))))
    case GiveBack(k) =>
      if s.len + k > |s.slots| then s.(invalid := true)
      else s.(slots := s.slots[..s.len] + Filled(th.local[..k]) + s.slots[s.len + k..], len := s.len + k)
    case _ => s
  }

  function MoveStep(s: State, t: nat, m: Move): State
    requires t < |s.threads| && CanMove(s, s.threads[t], m)
  {
    Shared(s, s.threads[t], m).(threads := s.threads[t := NextThread(s, s.threads[t], m)])
  }

  function Step(s: State, a: Action): State
    requires Enabled(s, a)
  {
    match a
    case Go(t, m) => MoveStep(s, t, m)
    case CloseDoor => s.(wanted := false, stage := Closing)
    case Finish => s.(stage := Done)
  }

  predicate CanRun(s: State, schedule: seq<Action>)
    decreases |schedule|
  {
    schedule == [] || (Enabled(s, schedule[0]) && CanRun(Step(s, schedule[0]), schedule[1..]))
  }

  function Run(s: State, schedule: seq<Action>): State
    requires CanRun(s, schedule)
    decreases |schedule|
  {
    if schedule == [] then s else Run(Step(s, schedule[0]), schedule[1..])
  }

  // What each thread may rely on.

  /** The slots below k are used up. */
  predicate EmptyBelow(slots: seq<Option<Entry>>, k: nat) {
    forall i :: 0 <= i < k && i < |slots| ==> slots[i] == None
  }

  ghost predicate EntriesValid(h: Heap, marks: set<nat>, es: seq<Entry>) {
    forall e :: e in es ==> ValidEntry(h, marks, e)
  }

  ghost predicate ThreadOk(h: Heap, marks: set<nat>, slots: seq<Option<Entry>>, len: nat, th: Thread) {
    && EntriesValid(h, marks, th.local)
    && (th.cur.Some? ==> ValidEntry(h, marks, th.cur.value))
    && (!th.Working() ==> th.local == [])
    && (!th.pc.Local? ==> th.cur == None && !th.claim)
    && (th.claim ==> th.cur.Some?)
    && (th.Active() || th.pc.Inactive? ==> th.mine <= len && EmptyBelow(slots, th.mine))
    && (th.pc.Publish? ==> th.pc.seen < th.mine)
    && (th.pc.Steal? || th.pc.Grab? ==> th.mine <= th.at <= th.high <= len && EmptyBelow(slots, th.at))
    && (th.pc.Grab? ==>
      th.at < th.high && SlotAt(slots, th.at) in {None, Some(th.pc.e)} && ValidEntry(h, marks, th.pc.e))
  }

  /** The global stack only grows, and entries on it only get used up. */
  ghost predicate Evolves(s: State, s': State) {
    && s'.heap == s.heap && s'.kept == s.kept && s.marks <= s'.marks
    && s.len <= s'.len <= |s'.slots| == |s.slots| && s.first <= s'.first
    && forall k :: 0 <= k < s.len ==> s'.slots[k] == s.slots[k] || s'.slots[k] == None
  }

  ghost predicate GlobalOk(s: State) {
    && s.heap.Valid() && OnlyReachable(s.heap, s.marks, s.kept)
    && s.first <= s.len <= |s.slots| && EmptyBelow(s.slots, s.first)
    && (forall k :: 0 <= k < s.len && s.slots[k].Some? ==> ValidEntry(s.heap, s.marks, s.slots[k].value))
  }

  ghost predicate ThreadsOk(s: State) {
    forall t :: 0 <= t < |s.threads| ==> ThreadOk(s.heap, s.marks, s.slots, s.len, s.threads[t])
  }

  lemma OtherThreadOk(s: State, s': State, th: Thread)
    requires Evolves(s, s') && ThreadOk(s.heap, s.marks, s.slots, s.len, th)
    requires s.len <= |s.slots|
    ensures ThreadOk(s'.heap, s'.marks, s'.slots, s'.len, th)
  {
  }

  lemma MarkGlobal(s: State, t: nat)
    requires GlobalOk(s) && ThreadsOk(s) && t < |s.threads| && CanMove(s, s.threads[t], SetMark)
    ensures Evolves(s, MoveStep(s, t, SetMark)) && GlobalOk(MoveStep(s, t, SetMark))
  {
    var th := s.threads[t];
    assert ThreadOk(s.heap, s.marks, s.slots, s.len, th);
    if CurrentWord(s, th).Ptr? {
      TargetReachable(s.heap, s.marks, s.kept, th.cur.value.src, th.cur.value.lo);
    }
  }

  lemma GiveBackGlobal(s: State, t: nat, k: nat)
    requires GlobalOk(s) && ThreadsOk(s) && t < |s.threads| && CanMove(s, s.threads[t], GiveBack(k))
    ensures Evolves(s, MoveStep(s, t, GiveBack(k))) && GlobalOk(MoveStep(s, t, GiveBack(k)))
  {
    assert ThreadOk(s.heap, s.marks, s.slots, s.len, s.threads[t]);
  }

  lemma MoveGlobal(s: State, t: nat, m: Move)
    requires GlobalOk(s) && ThreadsOk(s) && t < |s.threads| && CanMove(s, s.threads[t], m)
    ensures Evolves(s, MoveStep(s, t, m)) && GlobalOk(MoveStep(s, t, m))
  {
    match m
    case SetMark => MarkGlobal(s, t);
    case GiveBack(k) => GiveBackGlobal(s, t, k);
    case ClearSlot => ClearGlobal(s, t);
    case SwapFirst => SwapGlobal(s, t);
    case _ =>
      QuietGlobal(s, t, m);
      SameGlobalOk(s, MoveStep(s, t, m));
  }

  ghost predicate SameGlobal(s: State, s': State) {
    && s'.heap == s.heap && s'.kept == s.kept && s'.marks == s.marks
    && s'.slots == s.slots && s'.len == s.len && s'.first == s.first
  }

  lemma QuietGlobal(s: State, t: nat, m: Move)
    requires t < |s.threads| && CanMove(s, s.threads[t], m)
    requires !(m.SetMark? || m.GiveBack? || m.ClearSlot? || m.SwapFirst?)
    ensures SameGlobal(s, MoveStep(s, t, m))
  {
  }

  lemma SameGlobalOk(s: State, s': State)
    requires GlobalOk(s) && SameGlobal(s, s')
    ensures Evolves(s, s') && GlobalOk(s')
  {
  }

  lemma ClearGlobal(s: State, t: nat)
    requires GlobalOk(s) && ThreadsOk(s) && t < |s.threads| && CanMove(s, s.threads[t], ClearSlot)
    ensures Evolves(s, MoveStep(s, t, ClearSlot)) && GlobalOk(MoveStep(s, t, ClearSlot))
  {
    assert ThreadOk(s.heap, s.marks, s.slots, s.len, s.threads[t]);
  }

  lemma SwapGlobal(s: State, t: nat)
    requires GlobalOk(s) && ThreadsOk(s) && t < |s.threads| && CanMove(s, s.threads[t], SwapFirst)
    ensures Evolves(s, MoveStep(s, t, SwapFirst)) && GlobalOk(MoveStep(s, t, SwapFirst))
  {
    assert ThreadOk(s.heap, s.marks, s.slots, s.len, s.threads[t]);
  }

  ghost predicate MovedOk(s: State, t: nat, m: Move)
    requires t < |s.threads| && CanMove(s, s.threads[t], m)
  {
    var s' := MoveStep(s, t, m);
    ThreadOk(s'.heap, s'.marks, s'.slots, s'.len, s'.threads[t])
  }

  lemma SyncThread(s: State, t: nat, m: Move)
    requires GlobalOk(s) && ThreadsOk(s) && t < |s.threads| && CanMove(s, s.threads[t], m)
    requires
      || m.Join? || m.Activate? || m.ReadFirst? || m.SwapFirst?
      || m.ReadTop? || m.LookAgain? || m.Resume? || m.LocalDone?
    ensures MovedOk(s, t, m)
  {
    assert ThreadOk(s.heap, s.marks, s.slots, s.len, s.threads[t]);
  }

  lemma StealThread(s: State, t: nat, m: Move)
    requires GlobalOk(s) && ThreadsOk(s) && t < |s.threads| && CanMove(s, s.threads[t], m)
    requires m.ReadSlot? || m.ClearSlot? || m.EndSteal?
    ensures MovedOk(s, t, m)
  {
    assert ThreadOk(s.heap, s.marks, s.slots, s.len, s.threads[t]);
  }

  lemma LocalThread(s: State, t: nat, m: Move)
    requires GlobalOk(s) && ThreadsOk(s) && t < |s.threads| && CanMove(s, s.threads[t], m)
    requires m.Share? || m.Take? || m.TestMark? || m.GiveBack?
    ensures MovedOk(s, t, m)
  {
    var th := s.threads[t];
    assert ThreadOk(s.heap, s.marks, s.slots, s.len, th);
    match m
    case Share(mid) => CutThread(s.heap, s.marks, s.slots, s.len, th, mid, Shares(th, mid));
    case Take(mid) => CutThread(s.heap, s.marks, s.slots, s.len, th, mid, Taken(th, mid));
    case TestMark =>
    case GiveBack(k) =>
  }

  lemma CutThread(h: Heap, marks: set<nat>, slots: seq<Option<Entry>>, len: nat, th: Thread, mid: nat, th': Thread)
    requires ThreadOk(h, marks, slots, len, th) && th.pc.Local? && th.cur.None? && th.local != []
    requires var e := th.local[|th.local| - 1]; e.lo < mid <= e.hi && th' in [Shares(th, mid), Taken(th, mid)]
    requires th' == Shares(th, mid) ==> mid < th.local[|th.local| - 1].hi
    ensures ThreadOk(h, marks, slots, len, th')
  {
    assert ValidEntry(h, marks, th.local[|th.local| - 1]);
  }

  lemma MarkThread(s: State, t: nat)
    requires GlobalOk(s) && ThreadsOk(s) && t < |s.threads| && CanMove(s, s.threads[t], SetMark)
    ensures MovedOk(s, t, SetMark)
  {
    var th := s.threads[t];
    assert ThreadOk(s.heap, s.marks, s.slots, s.len, th);
    var w := CurrentWord(s, th);
    if w.Ptr? {
      var local := Pushed(s.heap, th, w).local;
      forall e | e in local ensures ValidEntry(s.heap, s.marks + {w.obj}, e) {
        assert e in th.local || e == Entry(Object(w.obj), 0, |s.heap.Words(Object(w.obj))|);
      }
    }
  }

  lemma MoveThreads(s: State, t: nat, m: Move)
    requires GlobalOk(s) && ThreadsOk(s) && t < |s.threads| && CanMove(s, s.threads[t], m)
    ensures Evolves(s, MoveStep(s, t, m)) && GlobalOk(MoveStep(s, t, m)) && ThreadsOk(MoveStep(s, t, m))
  {
    var s' := MoveStep(s, t, m);
    MoveGlobal(s, t, m);
    match m {
      case Share(_) => LocalThread(s, t, m);
      case Take(_) => LocalThread(s, t, m);
      case GiveBack(_) => LocalThread(s, t, m);
      case TestMark => LocalThread(s, t, m);
      case SetMark => MarkThread(s, t);
      case ReadSlot => StealThread(s, t, m);
      case ClearSlot => StealThread(s, t, m);
      case EndSteal => StealThread(s, t, m);
      case _ => SyncThread(s, t, m);
    }
    forall u | 0 <= u < |s'.threads| && u != t ensures ThreadOk(s'.heap, s'.marks, s'.slots, s'.len, s'.threads[u]) {
      OtherThreadOk(s, s', s.threads[u]);
    }
  }

  // Nothing gets lost.

  predicate InSlots(s: State, e: Entry) {
    exists k :: 0 <= k < s.len && k < |s.slots| && s.slots[k] == Some(e)
  }

  predicate InThread(th: Thread, e: Entry) { e in th.local || th.cur == Some(e) }

  /** The range is still on the global stack or in somebody's hands. */
  ghost predicate Held(s: State, e: Entry) {
    InSlots(s, e) || exists t :: 0 <= t < |s.threads| && InThread(s.threads[t], e)
  }

  ghost predicate FieldOk(s: State, src: Source, i: nat) {
    || i >= |s.heap.Words(src)|
    || (s.heap.Words(src)[i].Ptr? ==> s.heap.Words(src)[i].obj in s.marks)
    || (exists e :: Held(s, e) && e.Covers(src, i))
  }

  ghost predicate NothingLost(s: State) {
    s.invalid || forall src, i :: Live(s.marks, src) ==> FieldOk(s, src, i)
  }

  /** Every range held before is held now, or each of its words has been dealt with or
      is in a range held now. */
  ghost predicate Accounted(s: State, s': State) {
    forall e, src, i :: Held(s, e) && e.Covers(src, i) ==> FieldOk(s', src, i)
  }

  lemma AccountedMeansNothingLost(s: State, s': State)
    requires NothingLost(s) && (s.invalid ==> s'.invalid)
    requires s'.heap == s.heap && s.marks <= s'.marks
    requires !s'.invalid ==> Accounted(s, s')
    requires !s'.invalid ==> forall o, i :: o in s'.marks - s.marks ==> FieldOk(s', Object(o), i)
    ensures NothingLost(s')
  {
    if !s'.invalid {
      forall src, i | Live(s'.marks, src) ensures FieldOk(s', src, i) {
        if Live(s.marks, src) {
          assert FieldOk(s, src, i);
        } else {
          assert src.o in s'.marks - s.marks;
        }
      }
    }
  }

  /** A move that leaves the other threads alone loses nothing if what was in the slots
      and with this thread is accounted for. */
  lemma OthersKeep(s: State, t: nat, m: Move, e: Entry)
    requires t < |s.threads| && CanMove(s, s.threads[t], m)
    requires Held(s, e)
    ensures InSlots(s, e) || InThread(s.threads[t], e) || Held(MoveStep(s, t, m), e)
  {
    if !InSlots(s, e) && !InThread(s.threads[t], e) {
      var u :| 0 <= u < |s.threads| && InThread(s.threads[u], e);
      assert InThread(MoveStep(s, t, m).threads[u], e);
    }
  }

  /** Moves that touch neither slots nor ranges. */
  lemma IdleKeeps(s: State, t: nat, m: Move)
    requires t < |s.threads| && CanMove(s, s.threads[t], m)
    requires var s' := MoveStep(s, t, m); var th, th' := s.threads[t], s'.threads[t];
      th'.local == th.local && th'.cur == th.cur && s'.slots == s.slots && s'.len == s.len && s'.marks == s.marks
    ensures Accounted(s, MoveStep(s, t, m))
  {
    var s' := MoveStep(s, t, m);
    forall e, src, i: nat | Held(s, e) && e.Covers(src, i) ensures FieldOk(s', src, i) {
      OthersKeep(s, t, m, e);
      assert InSlots(s, e) ==> InSlots(s', e);
      assert InThread(s.threads[t], e) ==> InThread(s'.threads[t], e);
    }
  }

  lemma ClearKeeps(s: State, t: nat)
    requires GlobalOk(s) && ThreadsOk(s) && t < |s.threads| && CanMove(s, s.threads[t], ClearSlot)
    ensures Accounted(s, MoveStep(s, t, ClearSlot))
  {
    var s' := MoveStep(s, t, ClearSlot);
    var th := s.threads[t];
    assert ThreadOk(s.heap, s.marks, s.slots, s.len, th);
    forall e, src, i: nat | Held(s, e) && e.Covers(src, i) ensures FieldOk(s', src, i) {
      OthersKeep(s, t, ClearSlot, e);
      if InThread(th, e) {
        assert InThread(s'.threads[t], e);
      } else if InSlots(s, e) {
        var k :| 0 <= k < s.len && k < |s.slots| && s.slots[k] == Some(e);
        if k == th.at {
          assert InThread(s'.threads[t], e);
        } else {
          assert s'.slots[k] == Some(e);
        }
      }
    }
  }

  /** Sharing and taking only cut ranges. */
  lemma CutKeeps(s: State, t: nat, m: Move)
    requires t < |s.threads| && CanMove(s, s.threads[t], m) && (m.Share? || m.Take?)
    ensures Accounted(s, MoveStep(s, t, m))
  {
    var s' := MoveStep(s, t, m);
    var th, th' := s.threads[t], s'.threads[t];
    var top := th.local[|th.local| - 1];
    assert th.local == th.local[..|th.local| - 1] + [top];
    forall e, src, i: nat | Held(s, e) && e.Covers(src, i) ensures FieldOk(s', src, i) {
      OthersKeep(s, t, m, e);
      if InThread(th, e) {
        if e == top {
          CutCovers(th, th', m.mid, src, i);
          var x :| InThread(th', x) && x.Covers(src, i);
          assert Held(s', x);
        } else {
          assert InThread(th', e);
        }
      } else {
        assert InSlots(s, e) ==> InSlots(s', e);
      }
    }
  }

  lemma CutCovers(th: Thread, th': Thread, mid: nat, src: Source, i: nat)
    requires th.local != [] && th.local[|th.local| - 1].Covers(src, i)
    requires th' == Shares(th, mid) || th' == Taken(th, mid)
    ensures exists x :: InThread(th', x) && x.Covers(src, i)
  {
    var e := th.local[|th.local| - 1];
    if th' == Taken(th, mid) && mid == e.hi {
      assert InThread(th', e);
    } else {
      assert InThread(th', e.(lo := mid)) && InThread(th', e.(hi := mid));
      assert e.(lo := mid).Covers(src, i) || e.(hi := mid).Covers(src, i);
    }
  }

  lemma TestKeeps(s: State, t: nat)
    requires t < |s.threads| && CanMove(s, s.threads[t], TestMark)
    ensures Accounted(s, MoveStep(s, t, TestMark))
  {
    var s' := MoveStep(s, t, TestMark);
    var th, th' := s.threads[t], s'.threads[t];
    if Unmarked(s, th) {
      IdleKeeps(s, t, TestMark);
      return;
    }
    forall e, src, i: nat | Held(s, e) && e.Covers(src, i) ensures FieldOk(s', src, i) {
      OthersKeep(s, t, TestMark, e);
      if th.cur == Some(e) {
        assert i > e.lo ==> InThread(th', e.(lo := e.lo + 1)) && e.(lo := e.lo + 1).Covers(src, i);
      } else {
        assert InThread(th, e) ==> InThread(th', e);
        assert InSlots(s, e) ==> InSlots(s', e);
      }
    }
  }

  lemma MarkKeeps(s: State, t: nat)
    requires t < |s.threads| && CanMove(s, s.threads[t], SetMark) && !MoveStep(s, t, SetMark).invalid
    ensures var s' := MoveStep(s, t, SetMark);
      Accounted(s, s') && forall o, i :: o in s'.marks - s.marks ==> FieldOk(s', Object(o), i)
  {
    var s' := MoveStep(s, t, SetMark);
    var th, th' := s.threads[t], s'.threads[t];
    var w := CurrentWord(s, th);
    assert th.local <= th'.local;
    forall e, src, i: nat | Held(s, e) && e.Covers(src, i) ensures FieldOk(s', src, i) {
      OthersKeep(s, t, SetMark, e);
      if th.cur == Some(e) {
        assert i > e.lo ==> InThread(th', e.(lo := e.lo + 1)) && e.(lo := e.lo + 1).Covers(src, i);
      } else {
        assert InThread(th, e) ==> InThread(th', e);
        assert InSlots(s, e) ==> InSlots(s', e);
      }
    }
    forall o, i: nat | o in s'.marks - s.marks ensures FieldOk(s', Object(o), i) {
      var whole := Entry(Object(o), 0, |s.heap.Words(Object(o))|);
      assert whole.hi > 0 ==> InThread(th', whole) && whole == th'.local[|th'.local| - 1];
      assert i < whole.hi ==> Held(s', whole) && whole.Covers(Object(o), i);
    }
  }

  lemma GiveBackKeeps(s: State, t: nat, k: nat)
    requires GlobalOk(s) && t < |s.threads| && CanMove(s, s.threads[t], GiveBack(k))
    requires !MoveStep(s, t, GiveBack(k)).invalid
    ensures Accounted(s, MoveStep(s, t, GiveBack(k)))
  {
    var s' := MoveStep(s, t, GiveBack(k));
    var th, th' := s.threads[t], s'.threads[t];
    assert th.local == th.local[..k] + th.local[k..];
    forall e, src, i: nat | Held(s, e) && e.Covers(src, i) ensures FieldOk(s', src, i) {
      OthersKeep(s, t, GiveBack(k), e);
      if e in th.local[..k] {
        var j :| 0 <= j < k && th.local[j] == e;
        assert s'.slots[s.len + j] == Some(e);
      } else if InSlots(s, e) {
        var j :| 0 <= j < s.len && j < |s.slots| && s.slots[j] == Some(e);
        assert s'.slots[j] == Some(e);
      } else {
        assert InThread(th, e) ==> InThread(th', e);
      }
    }
  }

  lemma MoveLosesNothing(s: State, t: nat, m: Move)
    requires GlobalOk(s) && ThreadsOk(s) && NothingLost(s) && t < |s.threads| && CanMove(s, s.threads[t], m)
    ensures NothingLost(MoveStep(s, t, m))
  {
    var s' := MoveStep(s, t, m);
    if !s'.invalid {
      match m {
        case ClearSlot => ClearKeeps(s, t);
        case Share(mid) => CutKeeps(s, t, m);
        case Take(mid) => CutKeeps(s, t, m);
        case TestMark => TestKeeps(s, t);
        case SetMark => MarkKeeps(s, t);
        case GiveBack(k) => GiveBackKeeps(s, t, k);
        case _ => IdleKeeps(s, t, m);
      }
    }
    AccountedMeansNothingLost(s, s');
  }

  // Detecting the end.

  ghost function ActiveThreads(ts: seq<Thread>): set<nat> {
    set t: nat | 0 <= t < |ts| && ts[t].Active()
  }

  ghost function HelpingThreads(ts: seq<Thread>): set<nat> {
    set t: nat | 0 <= t < |ts| && ts[t].Helping()
  }

  ghost predicate CountsAgree(s: State) {
    s.active == |ActiveThreads(s.threads)| && s.helpers == |HelpingThreads(s.threads)|
  }

  function One(b: bool): int { if b then 1 else 0 }

  lemma RecountActive(ts: seq<Thread>, t: nat, th: Thread)
    requires t < |ts|
    ensures |ActiveThreads(ts[t := th])| == |ActiveThreads(ts)| - One(ts[t].Active()) + One(th.Active())
  {
    var a, b := ActiveThreads(ts), ActiveThreads(ts[t := th]);
    assert t in a <==> ts[t].Active();
    if th.Active() {
      assert b == a + {t};
    } else {
      assert b == a - {t};
    }
  }

  lemma RecountHelping(ts: seq<Thread>, t: nat, th: Thread)
    requires t < |ts|
    ensures |HelpingThreads(ts[t := th])| == |HelpingThreads(ts)| - One(ts[t].Helping()) + One(th.Helping())
  {
    var a, b := HelpingThreads(ts), HelpingThreads(ts[t := th]);
    assert t in a <==> ts[t].Helping();
    if th.Helping() {
      assert b == a + {t};
    } else {
      assert b == a - {t};
    }
  }

  lemma MoveCounts(s: State, t: nat, m: Move)
    requires CountsAgree(s) && t < |s.threads| && CanMove(s, s.threads[t], m)
    ensures CountsAgree(MoveStep(s, t, m))
  {
    RecountActive(s.threads, t, NextThread(s, s.threads[t], m));
    RecountHelping(s.threads, t, NextThread(s, s.threads[t], m));
  }

  /** All work is done: the global stack is used up, nobody holds anything, and nobody
      who is still active will find anything. */
  ghost predicate Quiet(s: State) {
    s.first == s.len && forall t :: 0 <= t < |s.threads| ==> QuietThread(s, s.threads[t])
  }

  ghost predicate QuietThread(s: State, th: Thread) {
    !th.Working() && (th.Active() ==> th.mine == s.len)
  }

  ghost predicate SomeoneLeft(s: State) {
    exists t :: 0 <= t < |s.threads| && s.threads[t].pc.Left?
  }

  /** The first thread to leave knows that all work is done. */
  lemma LeavingIsQuiet(s: State, t: nat)
    requires ThreadsOk(s) && GlobalOk(s) && CountsAgree(s) && t < |s.threads| && CanMove(s, s.threads[t], Resume)
    requires s.active == 0 && s.first >= s.len
    ensures Quiet(MoveStep(s, t, Resume))
  {
    var s' := MoveStep(s, t, Resume);
    forall u | 0 <= u < |s.threads| ensures QuietThread(s', s'.threads[u]) {
      assert u !in ActiveThreads(s.threads);
    }
  }

  /** From then on it stays so. */
  lemma StaysQuiet(s: State, t: nat, m: Move)
    requires ThreadsOk(s) && GlobalOk(s) && CountsAgree(s) && Quiet(s) && t < |s.threads| && CanMove(s, s.threads[t], m)
    ensures Quiet(MoveStep(s, t, m))
  {
    var s' := MoveStep(s, t, m);
    assert ThreadOk(s.heap, s.marks, s.slots, s.len, s.threads[t]) && QuietThread(s, s.threads[t]);
    assert s'.first == s.first && s'.len == s.len && QuietThread(s', s'.threads[t]);
    forall u | 0 <= u < |s.threads| && u != t ensures QuietThread(s', s'.threads[u]) {
      assert QuietThread(s, s.threads[u]);
    }
  }

  lemma MoveQuiet(s: State, t: nat, m: Move)
    requires ThreadsOk(s) && GlobalOk(s) && CountsAgree(s) && t < |s.threads| && CanMove(s, s.threads[t], m)
    requires SomeoneLeft(s) ==> Quiet(s)
    ensures SomeoneLeft(MoveStep(s, t, m)) ==> Quiet(MoveStep(s, t, m))
  {
    if SomeoneLeft(s) {
      StaysQuiet(s, t, m);
    } else if NextThread(s, s.threads[t], m).pc.Left? {
      LeavingIsQuiet(s, t);
    }
  }

  ghost predicate StageOk(s: State) {
    && (s.stage != Marking ==> |s.threads| > 0 && s.threads[0].pc.Left? && !s.wanted)
    && (s.stage == Done ==> s.helpers == 0)
  }

  lemma MoveStage(s: State, t: nat, m: Move)
    requires StageOk(s) && CountsAgree(s) && t < |s.threads| && CanMove(s, s.threads[t], m)
    ensures StageOk(MoveStep(s, t, m))
  {
    assert s.threads[t].Helping() ==> t in HelpingThreads(s.threads);
  }

  ghost predicate Inv(s: State) {
    && GlobalOk(s) && ThreadsOk(s) && NothingLost(s) && CountsAgree(s) && StageOk(s)
    && (SomeoneLeft(s) ==> Quiet(s))
  }

  lemma StepInv(s: State, a: Action)
    requires Inv(s) && Enabled(s, a)
    ensures Inv(Step(s, a)) && Evolves(s, Step(s, a))
  {
    match a
    case Go(t, m) =>
      MoveThreads(s, t, m);
      MoveLosesNothing(s, t, m);
      MoveCounts(s, t, m);
      MoveQuiet(s, t, m);
      MoveStage(s, t, m);
    case _ =>
      SameWork(s, Step(s, a));
  }

  /** The initiator's last steps change nothing a helper looks at but the invitation. */
  lemma SameWork(s: State, s': State)
    requires Inv(s) && s' == s.(wanted := s'.wanted, stage := s'.stage)
    ensures GlobalOk(s') && ThreadsOk(s') && NothingLost(s') && CountsAgree(s') && (SomeoneLeft(s') ==> Quiet(s'))
    ensures Evolves(s, s')
  {
    forall e | Held(s, e) ensures Held(s', e) {
      assert InSlots(s, e) ==> InSlots(s', e);
    }
    forall src, i: nat | FieldOk(s, src, i) ensures FieldOk(s', src, i) {}
    if SomeoneLeft(s') {
      forall t | 0 <= t < |s.threads| ensures QuietThread(s', s'.threads[t]) {
        assert QuietThread(s, s.threads[t]);
      }
    }
  }

  /** A thread's own copy of GC_first_nonempty never goes down once it has been set. */
  lemma MineGrows(s: State, a: Action, t: nat)
    requires Inv(s) && Enabled(s, a) && t < |s.threads|
    ensures |Step(s, a).threads| == |s.threads|
    ensures !s.threads[t].pc.Outside? && !s.threads[t].pc.Joined? ==> s.threads[t].mine <= Step(s, a).threads[t].mine
  {
    assert ThreadOk(s.heap, s.marks, s.slots, s.len, s.threads[t]);
  }

  lemma {:induction false} RunInv(s: State, schedule: seq<Action>)
    requires Inv(s) && CanRun(s, schedule)
    ensures Inv(Run(s, schedule))
    ensures var e := Run(s, schedule);
      e.heap == s.heap && e.kept == s.kept && s.first <= e.first && s.marks <= e.marks
    decreases |schedule|
  {
    if schedule != [] {
      StepInv(s, schedule[0]);
      RunInv(Step(s, schedule[0]), schedule[1..]);
    }
  }

  // The results, for every schedule of the initiator and any number of helpers.

  /** GC_do_parallel_mark has set its variables and is about to enter GC_mark_local. */
  ghost predicate Init(s: State, stack: seq<Entry>) {
    && s.heap.Valid() && OnlyReachable(s.heap, s.marks, s.kept)
    && ValidStack(s.heap, s.marks, stack, |s.slots|)
    && AllCovered(s.heap, s.marks, stack, Need(s.heap, ROOTS_PUSHED, 0))
    && s.len == |stack| && (forall k :: 0 <= k < |stack| ==> s.slots[k] == Some(stack[k]))
    && s.first == 0 && s.active == 0 && s.helpers == 1 && s.wanted && !s.invalid && s.stage == Marking
    && |s.threads| > 0 && s.threads[0].pc.Joined?
    && (forall t :: 0 < t < |s.threads| ==> s.threads[t].pc.Outside?)
    && (forall t :: 0 <= t < |s.threads| ==>
      s.threads[t].local == [] && s.threads[t].cur == None && !s.threads[t].claim)
  }

  lemma InitInv(s: State, stack: seq<Entry>)
    requires Init(s, stack)
    ensures Inv(s)
  {
    assert Open(0);
    assert ActiveThreads(s.threads) == {};
    assert HelpingThreads(s.threads) == {0};
    forall src, i: nat | Live(s.marks, src) ensures FieldOk(s, src, i) {
      assert src in Need(s.heap, ROOTS_PUSHED, 0);
      assert Covered(s.heap, s.marks, stack, src);
      if i < |s.heap.Words(src)| && Pending(stack, src, i) {
        var e :| e in stack && e.Covers(src, i);
        assert InSlots(s, e);
      }
    }
  }

  /** At any time: slots below GC_first_nonempty, and below any active thread's own copy of
      it, are used up, and no more threads are active than are helping. */
  lemma UsedUpBelowFirst(s: State, stack: seq<Entry>, schedule: seq<Action>)
    requires Init(s, stack) && CanRun(s, schedule)
    ensures var e := Run(s, schedule);
      && e.first <= e.len <= |e.slots| && EmptyBelow(e.slots, e.first)
      && (forall t :: 0 <= t < |e.threads| && e.threads[t].Active() ==>
        e.threads[t].mine <= e.len && EmptyBelow(e.slots, e.threads[t].mine))
      && 0 <= e.active <= e.helpers
  {
    InitInv(s, stack);
    RunInv(s, schedule);
    var e := Run(s, schedule);
    forall t | 0 <= t < |e.threads| && e.threads[t].Active()
      ensures e.threads[t].mine <= e.len && EmptyBelow(e.slots, e.threads[t].mine)
    {
      assert ThreadOk(e.heap, e.marks, e.slots, e.len, e.threads[t]);
    }
    BlockLayout.Smaller(ActiveThreads(e.threads), HelpingThreads(e.threads));
  }

  /** When GC_do_parallel_mark returns, nothing is left on the global stack or with any
      thread, and the counts allow it to be called again.  Only objects reachable from the
      roots or the kept objects have been marked, and all of them have unless entries were
      dropped on the way (MS_INVALID). */
  lemma TerminationDetected(s: State, stack: seq<Entry>, schedule: seq<Action>)
    requires Init(s, stack) && CanRun(s, schedule) && Run(s, schedule).stage == Done
    ensures var e := Run(s, schedule);
      && e.first == e.len <= |e.slots| && EmptyBelow(e.slots, e.len)
      && (forall t :: 0 <= t < |e.threads| ==>
        e.threads[t].local == [] && e.threads[t].cur == None && !e.threads[t].Helping())
      && !e.wanted && e.active == 0 && e.helpers == 0
      && s.marks <= e.marks <= ReachSet(s.heap.graph, s.heap.RootTargets() + s.kept)
      && (e.invalid || e.marks == ReachSet(s.heap.graph, s.heap.RootTargets() + s.kept))
  {
    InitInv(s, stack);
    RunInv(s, schedule);
    var e := Run(s, schedule);
    assert SomeoneLeft(e);
    forall t: nat | t < |e.threads|
      ensures e.threads[t].local == [] && e.threads[t].cur == None && !e.threads[t].Helping()
    {
      assert QuietThread(e, e.threads[t]) && ThreadOk(e.heap, e.marks, e.slots, e.len, e.threads[t]);
      assert t !in HelpingThreads(e.threads);
    }
    assert forall x :: !Held(e, x);
    if !e.invalid {
      forall src | Live(e.marks, src) ensures Covered(e.heap, e.marks, [], src) {
        forall i: nat | i < |e.heap.Words(src)|
          && e.heap.Words(src)[i].Ptr? ensures e.heap.Words(src)[i].obj in e.marks {
          assert FieldOk(e, src, i);
        }
      }
      CoveredIsReached(e.heap, e.marks, e.kept);
    }
  }

  /** Contrary to the comment at its declaration, GC_active_count can go up again after it
      has returned to zero: with nothing to mark, the initiator finds nothing and becomes
      inactive, and then a helper joins. */
  lemma ActiveAgain(s: State) returns (early: seq<Action>, late: seq<Action>)
    requires Init(s, []) && |s.threads| > 1
    ensures CanRun(s, early) && Run(s, early).active == 0
    ensures CanRun(Run(s, early), late) && Run(Run(s, early), late).active == 1
    ensures early != [] && early[0] == Go(0, Activate)
  {
    var s1 := Step(s, Go(0, Activate));
    var s2 := Step(s1, Go(0, ReadFirst));
    var s3 := Step(s2, Go(0, ReadTop));
    early := RunFirst(s3, Go(0, LookAgain), []);
    early := RunFirst(s2, Go(0, ReadTop), early);
    early := RunFirst(s1, Go(0, ReadFirst), early);
    early := RunFirst(s, Go(0, Activate), early);
    late := JoinLate(Step(s3, Go(0, LookAgain)));
  }

  lemma JoinLate(s: State) returns (late: seq<Action>)
    requires s.active == 0 && s.wanted && |s.threads| > 1 && s.threads[1].pc.Outside?
    ensures CanRun(s, late) && Run(s, late).active == 1
  {
    late := RunFirst(Step(s, Go(1, Join)), Go(1, Activate), []);
    late := RunFirst(s, Go(1, Join), late);
  }

  lemma RunFirst(s: State, a: Action, rest: seq<Action>) returns (schedule: seq<Action>)
    requires Enabled(s, a) && CanRun(Step(s, a), rest)
    ensures schedule != [] && schedule[0] == a
    ensures CanRun(s, schedule) && Run(s, schedule) == Run(Step(s, a), rest)
  {
    schedule := [a] + rest;
    assert schedule[1..] == rest;
  }

  /** There is such a state. */
  lemma EmptyInit() returns (s: State)
    ensures Init(s, []) && |s.threads| == 2
  {
    var h := Heap(Graph([]), [], []);
    var joined := Thread(Joined, 0, 0, 0, [], None, false);
    var slots := seq(INITIAL_MARK_STACK_SIZE, i => None);
    s := State(h, {}, {}, slots, 0, 0, 0, 1, true, false, [joined, joined.(pc := Outside)], Marking);
    assert AllCovered(h, {}, [], Need(h, ROOTS_PUSHED, 0)) by {
      forall src | src in Need(h, ROOTS_PUSHED, 0) && Live({}, src) ensures Covered(h, {}, [], src) {}
    }
  }
}

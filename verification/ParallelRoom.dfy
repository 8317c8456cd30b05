/** When the parallel marker drops entries, and conditions under which it does not. */
module ParallelRoom {
  import opened Locks
  import opened Basics
  import opened ObjectGraph
  import opened MarkStack
  import opened ParallelMark
  import opened ParallelProgress
  import M = Marker

  // The steps that drop entries.

  /** The step pushes an object that has words on a private stack that is full, or gives back
      more entries than the global stack has room for. */
  predicate DropsEntries(s: State, a: Action)
    requires Enabled(s, a)
  {
    a.Go? && var th := s.threads[a.t];
    match a.m
    case SetMark =>
      |th.local| == LOCAL_MARK_STACK_SIZE && CurrentWord(s, th).Ptr?
        && s.heap.Words(Object(CurrentWord(s, th).obj)) != []
    case GiveBack(k) => s.len + k > |s.slots|
    case _ => false
  }

  /** Private stacks have a limited size, and only a few entries are stolen at a time. */
  predicate Small(th: Thread) {
    && |th.local| <= LOCAL_MARK_STACK_SIZE && (!th.Working() ==> th.local == [])
    && (th.pc.Steal? ==> |th.local| <= ENTRIES_TO_GET + 1) && (th.pc.Grab? ==> |th.local| <= ENTRIES_TO_GET)
  }

  ghost predicate AllSmall(s: State) { forall t :: 0 <= t < |s.threads| ==> Small(s.threads[t]) }

  lemma NextSmall(s: State, th: Thread, m: Move)
    requires CanMove(s, th, m) && Small(th)
    ensures Small(NextThread(s, th, m))
  {
  }

  lemma StepSmall(s: State, a: Action)
    requires AllSmall(s) && Enabled(s, a)
    ensures AllSmall(Step(s, a))
  {
    if a.Go? {
      NextSmall(s, s.threads[a.t], a.m);
    }
  }

  lemma StepDrops(s: State, a: Action)
    requires AllSmall(s) && Enabled(s, a)
    ensures Step(s, a).invalid <==> s.invalid || DropsEntries(s, a)
  {
  }

  lemma InitSmall(s: State, stack: seq<Entry>)
    requires Init(s, stack)
    ensures AllSmall(s)
  {
  }

  lemma {:induction false} RunDrops(s: State, schedule: seq<Action>)
    requires AllSmall(s) && CanRun(s, schedule)
    ensures Run(s, schedule).invalid <==> s.invalid || exists i :: DropsAt(s, schedule, i)
    decreases |schedule|
  {
    if schedule != [] {
      var s1, rest := Step(s, schedule[0]), schedule[1..];
      StepSmall(s, schedule[0]);
      StepDrops(s, schedule[0]);
      RunDrops(s1, rest);
      forall i | 0 <= i < |rest| ensures DropsAt(s1, rest, i) <==> DropsAt(s, schedule, i + 1) {
        assert schedule[..i + 1][1..] == rest[..i] && schedule[..i + 1] != [];
      }
      assert DropsAt(s, schedule, 0) <==> DropsEntries(s, schedule[0]);
      if i :| DropsAt(s, schedule, i) {
        assert i > 0 ==> DropsAt(s1, rest, i - 1);
      }
      if i :| DropsAt(s1, rest, i) {
        assert DropsAt(s, schedule, i + 1);
      }
    }
  }

  /** Step i of the schedule drops entries. */
  predicate DropsAt(s: State, schedule: seq<Action>, i: int) {
    && 0 <= i < |schedule| && CanRun(s, schedule[..i]) && Enabled(Run(s, schedule[..i]), schedule[i])
    && DropsEntries(Run(s, schedule[..i]), schedule[i])
  }

  /** MS_INVALID is set exactly if some step had no room: entries are never dropped otherwise. */
  lemma InvalidIff(s: State, stack: seq<Entry>, schedule: seq<Action>)
    requires Init(s, stack) && CanRun(s, schedule)
    ensures Run(s, schedule).invalid <==> exists i :: DropsAt(s, schedule, i)
  {
    InitSmall(s, stack);
    RunDrops(s, schedule);
  }

  /** The k entries stand above what was on the global stack, in their order, and nothing else
      has changed. */
  ghost predicate GivenBackBy(s: State, e: State, t: nat, k: nat) {
    && t < |s.threads| && k <= |s.threads[t].local| && s.len + k <= |s.slots| == |e.slots|
    && e == s.(slots := e.slots, len := s.len + k,
      threads := s.threads[t := s.threads[t].(local := s.threads[t].local[k..])])
    && (forall j :: 0 <= j < k ==> e.slots[s.len + j] == Some(s.threads[t].local[j]))
    && (forall j :: 0 <= j < |s.slots| && !(s.len <= j < s.len + k) ==> e.slots[j] == s.slots[j])
  }

  lemma GiveBackStep(s: State, t: nat, k: nat)
    requires t < |s.threads| && CanMove(s, s.threads[t], GiveBack(k)) && s.len + k <= |s.slots|
    ensures GivenBackBy(s, MoveStep(s, t, GiveBack(k)), t, k)
  {
  }

  /** Between two ranges a thread may give back the lower part of its private stack, or all of
      it, and if there is room for them the entries get to the global stack as they are. */
  lemma GiveBackCopies(s: State, stack: seq<Entry>, schedule: seq<Action>, t: nat, k: nat)
    requires Init(s, stack) && CanRun(s, schedule) && t < |Run(s, schedule).threads|
    requires var th := Run(s, schedule).threads[t]; th.pc.Local? && th.cur.None? && 0 < k <= |th.local|
    requires Run(s, schedule).len + k <= |Run(s, schedule).slots|
    ensures var e, a := Run(s, schedule), Go(t, GiveBack(k)); Enabled(e, a) && GivenBackBy(e, Step(e, a), t, k)
  {
    GiveBackStep(Run(s, schedule), t, k);
  }

  /** Between two ranges a thread may mark from any first part of the range at the top of its
      private stack, or cut the range in two so that the lower part can be given back. */
  lemma MaySplit(s: State, t: nat, mid: nat)
    requires t < |s.threads|
    requires var th := s.threads[t]; th.pc.Local? && th.cur.None? && th.local != []
    requires var th := s.threads[t]; var top := th.local[|th.local| - 1]; top.lo < mid <= top.hi
    ensures var th := s.threads[t]; var rest, top := th.local[..|th.local| - 1], th.local[|th.local| - 1];
      && Enabled(s, Go(t, Take(mid)))
      && var th' := Step(s, Go(t, Take(mid))).threads[t];
        th'.cur == Some(top.(hi := mid)) && th'.local == rest + if mid < top.hi then [top.(lo := mid)] else []
    ensures var th := s.threads[t]; var rest, top := th.local[..|th.local| - 1], th.local[|th.local| - 1];
      mid < top.hi && |th.local| < LOCAL_MARK_STACK_SIZE ==>
        && Enabled(s, Go(t, Share(mid)))
        && Step(s, Go(t, Share(mid))).threads[t].local == rest + [top.(hi := mid), top.(lo := mid)]
  {
  }

  // Room for everything.

  /** Words of unmarked objects among the first n. */
  function WordsOf(g: Graph, m: set<nat>, n: nat): nat
    requires n <= |g.objs|
  {
    if n == 0 then 0 else WordsOf(g, m, n - 1) + if n - 1 in m then 0 else |g.objs[n - 1]|
  }

  function UnmarkedWords(g: Graph, m: set<nat>): nat { WordsOf(g, m, |g.objs|) }

  lemma {:induction false} WordsMarked(g: Graph, m: set<nat>, o: nat, n: nat)
    requires n <= |g.objs|
    ensures WordsOf(g, m + {o}, n) == WordsOf(g, m, n) - if o < n && o !in m then |g.objs[o]| else 0
  {
    if n > 0 {
      WordsMarked(g, m, o, n - 1);
    }
  }

  /** Words of the object the thread is about to push although somebody else has marked it. */
  function ClaimedWords(s: State, th: Thread): nat {
    if th.claim && th.cur.Some? && CurrentWord(s, th).Ptr? && CurrentWord(s, th).obj in s.marks
    then |s.heap.Words(Object(CurrentWord(s, th).obj))| else 0
  }

  /** Words the thread can still have on its private stack before it looks for more work. */
  function InHand(s: State, th: Thread): nat {
    WorkOf(th) + ClaimedWords(s, th) + UnmarkedWords(s.heap.graph, s.marks)
  }

  lemma WorkAppend(es: seq<Entry>, e: Entry)
    requires e.lo <= e.hi
    ensures Work(es + [e]) == Work(es) + e.hi - e.lo
  {
    assert (es + [e])[..|es|] == es;
  }

  lemma {:induction false} WorkCounts(es: seq<Entry>)
    requires forall e :: e in es ==> e.lo < e.hi
    ensures |es| <= Work(es)
  {
    if es != [] {
      WorkCounts(es[..|es| - 1]);
    }
  }

  lemma {:induction false} WorkAtMost(es: seq<Entry>, most: nat)
    requires forall e :: e in es ==> e.lo < e.hi <= e.lo + most
    ensures Work(es) <= |es| * most
  {
    if es != [] {
      WorkAtMost(es[..|es| - 1], most);
    }
  }

  lemma {:induction false} WorkSuffix(es: seq<Entry>, k: nat)
    requires k <= |es|
    ensures Work(es[k..]) <= Work(es)
  {
    if k < |es| {
      WorkSuffix(es[..|es| - 1], k);
      assert es[k..][..|es| - k - 1] == es[..|es| - 1][k..];
    } else {
      assert es[k..] == [];
    }
  }

  /** No source has more than `most` words, and six of that size together with all unmarked
      objects fit on a private stack. */
  ghost predicate Fits(h: Heap, m: set<nat>, most: nat) {
    && (forall src :: |h.Words(src)| <= most)
    && (ENTRIES_TO_GET + 1) * most + UnmarkedWords(h.graph, m) <= LOCAL_MARK_STACK_SIZE
  }

  ghost predicate ThreadFits(s: State, th: Thread) {
    Small(th) && (th.pc.Local? ==> InHand(s, th) <= LOCAL_MARK_STACK_SIZE)
  }

  ghost predicate AllFit(s: State, most: nat) {
    Fits(s.heap, s.marks, most) && forall t :: 0 <= t < |s.threads| ==> ThreadFits(s, s.threads[t])
  }

  /** Marking an object takes its words from the unmarked ones. */
  lemma MarkingFits(s: State, th: Thread, s': State, o: nat)
    requires s'.heap == s.heap && s'.marks == s.marks + {o} && (th.claim ==> th.cur.Some?)
    ensures UnmarkedWords(s.heap.graph, s'.marks) <= UnmarkedWords(s.heap.graph, s.marks)
    ensures InHand(s', th) <= InHand(s, th)
  {
    WordsMarked(s.heap.graph, s.marks, o, |s.heap.graph.objs|);
  }

  /** The steps of a thread that marks from its private stack. */
  lemma LocalFits(s: State, t: nat, m: Move)
    requires Fine(s) && t < |s.threads| && CanMove(s, s.threads[t], m) && s.threads[t].pc.Local?
    requires ThreadFits(s, s.threads[t]) && !m.SetMark?
    ensures ThreadFits(MoveStep(s, t, m), NextThread(s, s.threads[t], m))
  {
    var th := s.threads[t];
    NextSmall(s, th, m);
    FineThread(s, t);
    match m
    case Share(mid) => CutWork(s, th, mid, Shares(th, mid));
    case Take(mid) => CutWork(s, th, mid, Taken(th, mid));
    case GiveBack(k) => WorkSuffix(th.local, k);
    case TestMark => assert M.ValidEntry(s.heap, s.marks, th.cur.value);
    case LocalDone =>
  }

  lemma CutWork(s: State, th: Thread, mid: nat, th': Thread)
    requires th.cur.None? && th.local != []
    requires var e := th.local[|th.local| - 1]; e.lo < mid <= e.hi
    requires th' == Shares(th, mid) || th' == Taken(th, mid)
    ensures WorkOf(th') == WorkOf(th)
  {
    var rest, e := th.local[..|th.local| - 1], th.local[|th.local| - 1];
    WorkAppend(rest, e.(hi := mid));
    WorkAppend(rest, e.(lo := mid));
    WorkAppend(rest + [e.(hi := mid)], e.(lo := mid));
    assert th.local == rest + [e];
  }

  /** Pushing an object that is about to be marked. */
  lemma PushFits(s: State, t: nat)
    requires Fine(s) && t < |s.threads| && CanMove(s, s.threads[t], SetMark) && ThreadFits(s, s.threads[t])
    ensures ThreadFits(MoveStep(s, t, SetMark), NextThread(s, s.threads[t], SetMark))
    ensures !DropsEntries(s, Go(t, SetMark))
  {
    var th := s.threads[t];
    NextSmall(s, th, SetMark);
    FineThread(s, t);
    WorkCountsOf(s, th);
    var w := CurrentWord(s, th);
    if w.Ptr? {
      WordsMarked(s.heap.graph, s.marks, w.obj, |s.heap.graph.objs|);
      WorkAppend(th.local, Entry(Object(w.obj), 0, |s.heap.Words(Object(w.obj))|));
    }
  }

  lemma WorkCountsOf(s: State, th: Thread)
    requires ThreadOk(s.heap, s.marks, s.slots, s.len, th)
    ensures |th.local| <= Work(th.local) && (th.cur.Some? ==> |th.local| < WorkOf(th))
  {
    assert forall e :: e in th.local ==> M.ValidEntry(s.heap, s.marks, e);
    WorkCounts(th.local);
    if th.cur.Some? {
      assert M.ValidEntry(s.heap, s.marks, th.cur.value);
    }
  }

  /** What has been stolen at once fits, together with all that can be pushed from there. */
  lemma StolenFits(s: State, t: nat, most: nat)
    requires Fine(s) && t < |s.threads| && CanMove(s, s.threads[t], EndSteal) && Small(s.threads[t])
    requires Fits(s.heap, s.marks, most)
    ensures ThreadFits(MoveStep(s, t, EndSteal), NextThread(s, s.threads[t], EndSteal))
  {
    var th := s.threads[t];
    FineThread(s, t);
    forall e | e in th.local ensures e.lo < e.hi <= e.lo + most {
      assert M.ValidEntry(s.heap, s.marks, e) && |s.heap.Words(e.src)| <= most;
    }
    WorkAtMost(th.local, most);
    AtMostTimes(|th.local|, ENTRIES_TO_GET + 1, most);
  }

  lemma AtMostTimes(a: nat, b: nat, c: nat)
    requires a <= b
    ensures a * c <= b * c
  {
  }

  lemma MoverFits(s: State, t: nat, m: Move, most: nat)
    requires Fine(s) && t < |s.threads| && CanMove(s, s.threads[t], m) && AllFit(s, most)
    ensures ThreadFits(MoveStep(s, t, m), NextThread(s, s.threads[t], m))
  {
    assert ThreadFits(s, s.threads[t]);
    NextSmall(s, s.threads[t], m);
    if m.SetMark? {
      PushFits(s, t);
    } else if m.EndSteal? {
      StolenFits(s, t, most);
    } else if s.threads[t].pc.Local? {
      LocalFits(s, t, m);
    }
  }

  lemma OtherFits(s: State, t: nat, m: Move, th: Thread, most: nat)
    requires Fine(s) && t < |s.threads| && CanMove(s, s.threads[t], m) && ThreadFits(s, th)
    requires Fits(s.heap, s.marks, most) && (th.claim ==> th.cur.Some?)
    ensures ThreadFits(MoveStep(s, t, m), th)
    ensures Fits(MoveStep(s, t, m).heap, MoveStep(s, t, m).marks, most)
  {
    var s' := MoveStep(s, t, m);
    if m.SetMark? && CurrentWord(s, s.threads[t]).Ptr? {
      MarkingFits(s, th, s', CurrentWord(s, s.threads[t]).obj);
    } else {
      SameMarks(s, t, m);
    }
  }

  lemma SameMarks(s: State, t: nat, m: Move)
    requires t < |s.threads| && CanMove(s, s.threads[t], m) && !(m.SetMark? && CurrentWord(s, s.threads[t]).Ptr?)
    ensures MoveStep(s, t, m).marks == s.marks && MoveStep(s, t, m).heap == s.heap
  {
  }

  lemma StepFits(s: State, a: Action, most: nat)
    requires Fine(s) && Enabled(s, a) && AllFit(s, most) && (GivesBack(a) ==> s.len + a.m.k <= |s.slots|)
    ensures AllFit(Step(s, a), most) && !DropsEntries(s, a)
  {
    if a.Go? {
      var s' := Step(s, a);
      forall u | 0 <= u < |s.threads| ensures ThreadFits(s', s'.threads[u]) {
        FineThread(s, u);
        OtherFits(s, a.t, a.m, s.threads[u], most);
        MoverFits(s, a.t, a.m, most);
      }
      FineThread(s, a.t);
      OtherFits(s, a.t, a.m, s.threads[a.t], most);
      if a.m.SetMark? {
        PushFits(s, a.t);
      }
    }
  }

  /** How many entries a schedule gives back. */
  function GivenBack(schedule: seq<Action>): nat {
    if schedule == [] then 0 else (if GivesBack(schedule[0]) then schedule[0].m.k else 0) + GivenBack(schedule[1..])
  }

  lemma {:induction false} RunFits(s: State, schedule: seq<Action>, most: nat)
    requires Fine(s) && CanRun(s, schedule) && AllFit(s, most) && s.len + GivenBack(schedule) <= |s.slots| && !s.invalid
    ensures !Run(s, schedule).invalid
    decreases |schedule|
  {
    if schedule != [] {
      var a := schedule[0];
      StepFits(s, a, most);
      StepDrops(s, a);
      FineStep(s, a);
      StepLength(s, a);
      RunFits(Step(s, a), schedule[1..], most);
    }
  }

  lemma StepLength(s: State, a: Action)
    requires Enabled(s, a) && s.len <= |s.slots|
    ensures |Step(s, a).slots| == |s.slots| && Step(s, a).len <= s.len + if GivesBack(a) then a.m.k else 0
  {
  }

  lemma FineStep(s: State, a: Action)
    requires Fine(s) && Enabled(s, a)
    ensures Fine(Step(s, a)) && s.len <= |s.slots|
  {
    assert Open(0);
    StepInv(s, a);
  }

  /** If six ranges of the largest size, together with all objects unmarked at the start, fit on
      a private stack, and what is given back fits on the global stack, then no schedule
      drops an entry; so if it is a whole run, exactly the reachable objects are marked. */
  lemma NothingDropped(s: State, stack: seq<Entry>, schedule: seq<Action>, most: nat)
    requires Init(s, stack) && CanRun(s, schedule)
    requires Fits(s.heap, s.marks, most) && |stack| + GivenBack(schedule) <= |s.slots|
    ensures var e := Run(s, schedule);
      !e.invalid && (e.stage == Done ==> e.marks == ReachSet(s.heap.graph, s.heap.RootTargets() + s.kept))
  {
    InitInv(s, stack);
    InitSmall(s, stack);
    RunFits(s, schedule, most);
    RunInv(s, schedule);
    if Run(s, schedule).stage == Done {
      TerminationDetected(s, stack, schedule);
    }
  }

  lemma {:induction false} NoneGivenBack(a: seq<Action>, b: seq<Action>)
    requires forall x :: x in b ==> !GivesBack(x)
    ensures GivenBack(a + b) == GivenBack(a)
    decreases |a| + |b|
  {
    if a != [] {
      assert (a + b)[1..] == a[1..] + b;
      NoneGivenBack(a[1..], b);
    } else if b != [] {
      assert a + b == b && b[0] in b;
      NoneGivenBack([], b[1..]);
      assert [] + b[1..] == b[1..];
    }
  }

  /** Under the same condition every schedule can be continued to the end, with exactly the
      reachable objects marked. */
  lemma CanMarkAll(s: State, stack: seq<Entry>, schedule: seq<Action>, most: nat) returns (more: seq<Action>)
    requires Init(s, stack) && CanRun(s, schedule)
    requires Fits(s.heap, s.marks, most) && |stack| + GivenBack(schedule) <= |s.slots|
    ensures CanRun(s, schedule + more)
    ensures var e := Run(s, schedule + more);
      e.stage == Done && !e.invalid && e.marks == ReachSet(s.heap.graph, s.heap.RootTargets() + s.kept)
  {
    more := CanEnd(s, stack, schedule);
    NoneGivenBack(schedule, more);
    NothingDropped(s, stack, schedule + more, most);
  }

  // Whole runs that drop entries only after they have marked something.

  /** The objects that threads are about to mark were unmarked at the start. */
  ghost predicate ClaimsNew(s: State, m: set<nat>) {
    forall t :: 0 <= t < |s.threads| ==> ClaimNew(s, s.threads[t], m)
  }

  ghost predicate ClaimNew(s: State, th: Thread, m: set<nat>) {
    th.claim ==> th.cur.Some? && CurrentWord(s, th).Ptr? && CurrentWord(s, th).obj !in m
  }

  lemma StepNew(s: State, a: Action, m: set<nat>)
    requires Enabled(s, a) && m <= s.marks && ClaimsNew(s, m)
    ensures ClaimsNew(Step(s, a), m) && s.marks <= Step(s, a).marks
    ensures a.Go? && a.m.SetMark? ==> Step(s, a).marks != m
  {
    if a.Go? {
      MoveNew(s, a.t, a.m, m);
    }
  }

  lemma MoveNew(s: State, t: nat, v: Move, m: set<nat>)
    requires t < |s.threads| && CanMove(s, s.threads[t], v) && m <= s.marks && ClaimsNew(s, m)
    ensures ClaimNew(MoveStep(s, t, v), NextThread(s, s.threads[t], v), m) && s.marks <= MoveStep(s, t, v).marks
    ensures MoveStep(s, t, v).heap == s.heap
    ensures v.SetMark? ==> MoveStep(s, t, v).marks != m
  {
    assert ClaimNew(s, s.threads[t], m);
  }

  lemma {:induction false} RunNew(s: State, schedule: seq<Action>, m: set<nat>)
    requires CanRun(s, schedule) && m <= s.marks && ClaimsNew(s, m) && AllSmall(s)
    requires s.len + GivenBack(schedule) <= |s.slots| && (s.invalid ==> s.marks != m)
    ensures m <= Run(s, schedule).marks && (Run(s, schedule).invalid ==> Run(s, schedule).marks != m)
    decreases |schedule|
  {
    if schedule != [] {
      var a := schedule[0];
      StepNew(s, a, m);
      StepDrops(s, a);
      StepSmall(s, a);
      StepLength(s, a);
      RunNew(Step(s, a), schedule[1..], m);
    }
  }

  /** From GC_do_parallel_mark being entered to its return, with room for all that is given back. */
  ghost predicate WholeRun(s: State, stack: seq<Entry>, schedule: seq<Action>) {
    CanRun(s, schedule) && Run(s, schedule).stage == Done && |stack| + GivenBack(schedule) <= |s.slots|
  }

  /** If such a run drops entries it has marked new objects. */
  lemma DroppedMeansMarked(s: State, stack: seq<Entry>, schedule: seq<Action>)
    requires Init(s, stack) && WholeRun(s, stack, schedule)
    ensures Run(s, schedule).invalid ==> s.marks < Run(s, schedule).marks
  {
    InitSmall(s, stack);
    RunNew(s, schedule, s.marks);
  }

  /** There is such a run. */
  lemma WholeRunExists(s: State, stack: seq<Entry>) returns (schedule: seq<Action>)
    requires Init(s, stack)
    ensures WholeRun(s, stack, schedule)
  {
    assert Run(s, []) == s;
    schedule := CanEnd(s, stack, []);
    NoneGivenBack([], schedule);
    assert [] + schedule == schedule;
  }
}

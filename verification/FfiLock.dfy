/** The named lock of the foreign-function layer, shared by operating-system threads
    of several places.

    One word, changed only by compare-and-swap, says "free" (-1), "held by place p with
    nobody waiting" (p >= 0) or "held or being handed over, n waiting" (-n - 1).  A
    release that finds waiters hands the lock over by sending a token through an
    asynchronous channel.  Each step below makes one shared-memory access; a schedule
    is any sequence of thread numbers. */
module FfiLock {

  const FREE := -1

  datatype Pc =
    | Idle               // does not want the lock
    | Trying             // about to swap FREE for its own place id
    | Failed             // that swap failed; about to read the word
    | Joining(owner: int)  // about to swap the word it read for one more waiter
    | Waiting            // blocked on the channel
    | Received           // got the token; about to read the word
    | Leaving(owner: int)  // about to swap the word it read for one less waiter
    | Holding            // owns the lock
    | Sending            // its release found waiters; about to send the token

  datatype Thread = Thread(place: nat, pc: Pc)

  datatype State = State(word: int, tokens: nat, threads: seq<Thread>)

  predicate Init(s: State) {
    s.word == FREE && s.tokens == 0 && forall t :: 0 <= t < |s.threads| ==> s.threads[t].pc == Idle
  }

  /** Only a receive from an empty channel blocks. */
  predicate Enabled(s: State, t: nat) {
    t < |s.threads| && (s.threads[t].pc == Waiting ==> s.tokens > 0)
  }

  function Goto(s: State, t: nat, pc: Pc): State
    requires t < |s.threads|
  {
    s.(threads := s.threads[t := s.threads[t].(pc := pc)])
  }

  /** Compare-and-swap on the word, with the next program point for either outcome. */
  function Cas(s: State, t: nat, expected: int, new_: int, success: Pc, failure: Pc): State
    requires t < |s.threads|
  {
    if s.word == expected then Goto(s, t, success).(word := new_) else Goto(s, t, failure)
  }

  /** One step of thread t in wait_ffi_lock or release_ffi_lock. */
  function Step(s: State, t: nat): State
    requires Enabled(s, t)
  {
    var place := s.threads[t].place;
    match s.threads[t].pc
    case Idle => Goto(s, t, Trying)
    case Trying => Cas(s, t, FREE, place, Holding, Failed)
    case Failed => Goto(s, t, if s.word == FREE then Trying else Joining(s.word))
    case Joining(owner) => Cas(s, t, owner, if owner < FREE then owner - 1 else -2, Waiting, Trying)
    case Waiting => Goto(s, t, Received).(tokens := s.tokens - 1)
    case Received => Goto(s, t, Leaving(s.word))
    case Leaving(owner) => Cas(s, t, owner, if owner == -2 then place else owner + 1, Holding, Received)
    case Holding => Cas(s, t, place, FREE, Idle, Sending)
    case Sending => Goto(s, t, Idle).(tokens := s.tokens + 1)
  }

  predicate CanRun(s: State, schedule: seq<nat>)
    decreases |schedule|
  {
    schedule == [] || (Enabled(s, schedule[0]) && CanRun(Step(s, schedule[0]), schedule[1..]))
  }

  function Run(s: State, schedule: seq<nat>): State
    requires CanRun(s, schedule)
    decreases |schedule|
  {
    if schedule == [] then s else Run(Step(s, schedule[0]), schedule[1..])
  }

  // Counting threads by what part they play.

  datatype Role = Outside | Waiter | Receiver | Holder | Sender

  function RoleOf(pc: Pc): Role {
    match pc
    case Waiting => Waiter
    case Received => Receiver
    case Leaving(_) => Receiver
    case Holding => Holder
    case Sending => Sender
    case _ => Outside
  }

  function Count(ts: seq<Thread>, r: Role): nat {
    if ts == [] then 0
    else Count(ts[..|ts| - 1], r) + if RoleOf(ts[|ts| - 1].pc) == r then 1 else 0
  }

  lemma {:induction false} CountUpdate(ts: seq<Thread>, t: nat, x: Thread, r: Role)
    requires t < |ts|
    ensures Count(ts[t := x], r) ==
            Count(ts, r) - (if RoleOf(ts[t].pc) == r then 1 else 0) + (if RoleOf(x.pc) == r then 1 else 0)
  {
    var n := |ts| - 1;
    if t == n {
      assert ts[t := x][..n] == ts[..n];
    } else {
      assert ts[t := x][..n] == ts[..n][t := x];
      CountUpdate(ts[..n], t, x, r);
    }
  }

  lemma {:induction false} CountPositive(ts: seq<Thread>, t: nat, r: Role)
    requires t < |ts| && RoleOf(ts[t].pc) == r
    ensures Count(ts, r) >= 1
  {
    if t < |ts| - 1 {
      CountPositive(ts[..|ts| - 1], t, r);
    }
  }

  lemma {:induction false} CountTwo(ts: seq<Thread>, t: nat, u: nat, r: Role)
    requires t < u < |ts| && RoleOf(ts[t].pc) == r && RoleOf(ts[u].pc) == r
    ensures Count(ts, r) >= 2
  {
    if u == |ts| - 1 {
      CountPositive(ts[..|ts| - 1], t, r);
    } else {
      CountTwo(ts[..|ts| - 1], t, u, r);
    }
  }

  lemma {:induction false} CountWitness(ts: seq<Thread>, r: Role) returns (t: nat)
    requires Count(ts, r) >= 1
    ensures t < |ts| && RoleOf(ts[t].pc) == r
  {
    if RoleOf(ts[|ts| - 1].pc) == r {
      t := |ts| - 1;
    } else {
      t := CountWitness(ts[..|ts| - 1], r);
    }
  }

  lemma {:induction false} CountNone(ts: seq<Thread>, r: Role)
    requires forall t :: 0 <= t < |ts| ==> RoleOf(ts[t].pc) != r
    ensures Count(ts, r) == 0
  {
    if ts != [] {
      CountNone(ts[..|ts| - 1], r);
    }
  }

  /** Threads that have the lock, or are responsible for handing it over, plus tokens
      on their way. */
  function InCharge(s: State): nat {
    Count(s.threads, Holder) + Count(s.threads, Sender) + s.tokens + Count(s.threads, Receiver)
  }

  /** Who is in charge, and what the word says about holders and waiters. */
  ghost predicate CountsAgree(s: State) {
    && InCharge(s) == (if s.word == FREE then 0 else 1)
    && Count(s.threads, Waiter) + Count(s.threads, Receiver) == (if s.word <= -2 then -s.word - 1 else 0)
    && (s.word >= 0 ==> Count(s.threads, Holder) == 1)
  }

  /** Thread t's own view is right: the word names the place that holds the lock, and
      nobody joins a free lock. */
  ghost predicate ViewAgrees(s: State, t: Thread) {
    && (t.pc == Holding && s.word >= 0 ==> t.place == s.word)
    && (t.pc.Joining? ==> t.pc.owner != FREE)
  }

  ghost predicate Inv(s: State) {
    CountsAgree(s) && forall t :: 0 <= t < |s.threads| ==> ViewAgrees(s, s.threads[t])
  }

  lemma InitInv(s: State)
    requires Init(s)
    ensures Inv(s)
  {
    forall r: Role | r != Outside ensures Count(s.threads, r) == 0 {
      CountNone(s.threads, r);
    }
  }

  lemma StepCounts(s: State, t: nat)
    requires Inv(s) && Enabled(s, t)
    ensures CountsAgree(Step(s, t))
  {
    match RoleOf(s.threads[t].pc)
    case Outside => OutsideCounts(s, t);
    case Receiver => InsideCounts(s, t);
    case _ => HandOverCounts(s, t);
  }

  /** Steps of a thread that neither waits nor is in charge. */
  lemma OutsideCounts(s: State, t: nat)
    requires Inv(s) && Enabled(s, t) && RoleOf(s.threads[t].pc) == Outside
    ensures CountsAgree(Step(s, t))
  {
    var s' := Step(s, t);
    CountsMove(s, t, s'.threads[t].pc);
    assert ViewAgrees(s, s.threads[t]);
    assert s'.threads == Goto(s, t, s'.threads[t].pc).threads;
  }

  /** Steps of a thread that has received the token. */
  lemma InsideCounts(s: State, t: nat)
    requires Inv(s) && Enabled(s, t) && RoleOf(s.threads[t].pc) == Receiver
    ensures CountsAgree(Step(s, t))
  {
    var s' := Step(s, t);
    CountPositive(s.threads, t, Receiver);
    CountsMove(s, t, s'.threads[t].pc);
    assert s'.threads == Goto(s, t, s'.threads[t].pc).threads;
  }

  /** Receiving, releasing and sending. */
  lemma HandOverCounts(s: State, t: nat)
    requires Inv(s) && Enabled(s, t) && RoleOf(s.threads[t].pc) in {Waiter, Holder, Sender}
    ensures CountsAgree(Step(s, t))
  {
    var s' := Step(s, t);
    CountPositive(s.threads, t, RoleOf(s.threads[t].pc));
    CountsMove(s, t, s'.threads[t].pc);
    assert ViewAgrees(s, s.threads[t]);
    assert s'.threads == Goto(s, t, s'.threads[t].pc).threads;
  }

  /** A thread that moves takes one from the count of its old role and adds one to the
      count of its new role. */
  lemma CountsMove(s: State, t: nat, pc: Pc)
    requires t < |s.threads|
    ensures var ts := Goto(s, t, pc).threads; var was, now := RoleOf(s.threads[t].pc), RoleOf(pc);
      forall r :: r in {Waiter, Receiver, Holder, Sender} ==>
        Count(ts, r) == Count(s.threads, r) - (if was == r then 1 else 0) + (if now == r then 1 else 0)
  {
    forall r: Role {
      CountUpdate(s.threads, t, s.threads[t].(pc := pc), r);
    }
  }

  lemma StepViews(s: State, t: nat, u: nat)
    requires Inv(s) && Enabled(s, t) && u < |s.threads|
    requires CountsAgree(Step(s, t))
    ensures ViewAgrees(Step(s, t), Step(s, t).threads[u])
  {
    var s' := Step(s, t);
    assert ViewAgrees(s, s.threads[u]);
    CountPositive(s.threads, t, RoleOf(s.threads[t].pc));
    if u != t && s.threads[u].pc == Holding {
      CountPositive(s'.threads, u, Holder);
      if s'.threads[t].pc == Holding {
        if t < u { CountTwo(s'.threads, t, u, Holder); } else { CountTwo(s'.threads, u, t, Holder); }
      }
    }
  }

  lemma StepInv(s: State, t: nat)
    requires Inv(s) && Enabled(s, t)
    ensures Inv(Step(s, t))
  {
    StepCounts(s, t);
    forall u: nat | u < |s.threads| ensures ViewAgrees(Step(s, t), Step(s, t).threads[u]) {
      StepViews(s, t, u);
    }
  }

  lemma {:induction false} RunInv(s: State, schedule: seq<nat>)
    requires Inv(s) && CanRun(s, schedule)
    ensures Inv(Run(s, schedule))
    decreases |schedule|
  {
    if schedule != [] {
      StepInv(s, schedule[0]);
      RunInv(Step(s, schedule[0]), schedule[1..]);
    }
  }

  // The results, for every schedule of any number of threads.

  /** At most one thread holds the lock, and while it is held or handed over there is
      exactly one holder, sender, token or receiver; the word counts the waiters. */
  lemma MutualExclusion(s: State, schedule: seq<nat>)
    requires Init(s) && CanRun(s, schedule)
    ensures var e := Run(s, schedule);
      && (forall t, u :: 0 <= t < |e.threads| && 0 <= u < |e.threads| && e.threads[t].pc == e.threads[u].pc == Holding
                         ==> t == u)
      && InCharge(e) == (if e.word == FREE then 0 else 1)
      && Count(e.threads, Waiter) + Count(e.threads, Receiver) == (if e.word <= -2 then -e.word - 1 else 0)
  {
    InitInv(s);
    RunInv(s, schedule);
    var e := Run(s, schedule);
    forall t, u | 0 <= t < |e.threads| && 0 <= u < |e.threads| && e.threads[t].pc == Holding
      && e.threads[u].pc == Holding
      ensures t == u
    {
      if t < u { CountTwo(e.threads, t, u, Holder); }
      if u < t { CountTwo(e.threads, u, t, Holder); }
    }
  }

  /** The assertion in release_ffi_lock: a holder whose swap fails finds waiters.  And a
      token on its way always has somebody waiting for it. */
  lemma HandOverHasWaiter(s: State, schedule: seq<nat>, t: nat)
    requires Init(s) && CanRun(s, schedule) && t < |s.threads|
    ensures |Run(s, schedule).threads| == |s.threads|
    ensures var e := Run(s, schedule);
      e.threads[t].pc == Holding && e.word != e.threads[t].place ==> e.word <= -2 && Count(e.threads, Waiter) >= 1
    ensures var e := Run(s, schedule);
      e.threads[t].pc == Sending || e.tokens > 0 ==> e.word <= -2 && Count(e.threads, Waiter) >= 1
  {
    InitInv(s);
    RunInv(s, schedule);
    RunKeepsThreads(s, schedule);
    var e := Run(s, schedule);
    CountPositive(e.threads, t, RoleOf(e.threads[t].pc));
  }

  lemma {:induction false} RunKeepsThreads(s: State, schedule: seq<nat>)
    requires CanRun(s, schedule)
    ensures |Run(s, schedule).threads| == |s.threads|
    decreases |schedule|
  {
    if schedule != [] {
      RunKeepsThreads(Step(s, schedule[0]), schedule[1..]);
    }
  }

  lemma {:induction false} RunConcat(s: State, a: seq<nat>, b: seq<nat>)
    requires CanRun(s, a) && CanRun(Run(s, a), b)
    ensures CanRun(s, a + b) && Run(s, a + b) == Run(Run(s, a), b)
    decreases |a|
  {
    if a == [] {
      assert a + b == b;
    } else {
      assert (a + b)[1..] == a[1..] + b;
      RunConcat(Step(s, a[0]), a[1..], b);
    }
  }

  /** Bound on the steps a thread that is not blocked takes on its own until it holds
      the lock or blocks. */
  function Distance(s: State, t: nat): nat
    requires t < |s.threads|
  {
    match s.threads[t].pc
    case Holding => 0
    case Waiting => 0
    case Leaving(owner) => if owner == s.word then 1 else 3
    case Received => 2
    case Joining(owner) => if owner == s.word then 1 else 4
    case Trying => if s.word == FREE then 1 else 3
    case Failed => 2
    case Idle => 5
    case Sending => 6
  }

  /** Running alone, a thread ends up holding the lock or blocked; one that has the
      token ends up holding it.  The others stay where they are. */
  lemma RunAlone(s: State, t: nat) returns (schedule: seq<nat>)
    requires Inv(s) && t < |s.threads| && s.threads[t].pc != Waiting
    ensures CanRun(s, schedule) && Inv(Run(s, schedule))
    ensures var e := Run(s, schedule);
      && |e.threads| == |s.threads|
      && (forall u :: 0 <= u < |s.threads| && u != t ==> e.threads[u] == s.threads[u])
      && (e.threads[t].pc == Holding || (e.threads[t].pc == Waiting && RoleOf(s.threads[t].pc) in {Outside, Sender}))
    decreases Distance(s, t)
  {
    if s.threads[t].pc == Holding {
      assert Run(s, []) == s;
      return [];
    }
    StepInv(s, t);
    var next := Step(s, t);
    if next.threads[t].pc == Waiting {
      assert CanRun(next, []) && Run(next, []) == next;
      schedule := [t];
    } else {
      CountPositive(s.threads, t, RoleOf(s.threads[t].pc));
      var rest := RunAlone(next, t);
      schedule := [t] + rest;
      assert schedule[1..] == rest;
    }
  }

  /** Which thread, if any, has to move before the token is on its way. */
  function Stage(s: State): nat {
    if s.tokens > 0 then 0
    else if Count(s.threads, Sender) > 0 then 1
    else if Count(s.threads, Holder) > 0 then 2
    else 3
  }

  /** A blocked thread can always be brought to hold the lock. */
  lemma WaiterCanAcquire(s: State, t: nat) returns (schedule: seq<nat>)
    requires Inv(s) && t < |s.threads| && s.threads[t].pc == Waiting
    ensures CanRun(s, schedule)
    ensures |Run(s, schedule).threads| == |s.threads| && Run(s, schedule).threads[t].pc == Holding
    decreases Stage(s)
  {
    CountPositive(s.threads, t, Waiter);
    var first: seq<nat>;
    if s.tokens > 0 {
      StepInv(s, t);
      var rest := RunAlone(Step(s, t), t);
      schedule := [t] + rest;
      assert schedule[1..] == rest;
      return;
    } else if Count(s.threads, Sender) > 0 || Count(s.threads, Holder) > 0 {
      var u := CountWitness(s.threads, if Count(s.threads, Sender) > 0 then Sender else Holder);
      StepInv(s, u);
      CountPositive(Step(s, u).threads, u, RoleOf(Step(s, u).threads[u].pc));
      first := [u];
      assert CanRun(Step(s, u), []) && Run(s, first) == Step(s, u);
    } else {
      var u := CountWitness(s.threads, Receiver);
      first := RunAlone(s, u);
      CountPositive(Run(s, first).threads, u, Holder);
    }
    var rest := WaiterCanAcquire(Run(s, first), t);
    RunConcat(s, first, rest);
    schedule := first + rest;
  }

  /** No lost wake-up and no deadlock: after any schedule, every thread can still be brought
      to hold the lock. */
  lemma EveryThreadCanAcquire(s: State, schedule: seq<nat>, t: nat) returns (more: seq<nat>)
    requires Init(s) && CanRun(s, schedule) && t < |s.threads|
    ensures CanRun(s, schedule + more)
    ensures |Run(s, schedule + more).threads| == |s.threads| && Run(s, schedule + more).threads[t].pc == Holding
  {
    InitInv(s);
    RunInv(s, schedule);
    RunKeepsThreads(s, schedule);
    var e := Run(s, schedule);
    if e.threads[t].pc == Waiting {
      more := WaiterCanAcquire(e, t);
    } else {
      more := RunAlone(e, t);
      var e' := Run(e, more);
      if e'.threads[t].pc == Waiting {
        var rest := WaiterCanAcquire(e', t);
        RunConcat(e, more, rest);
        more := more + rest;
      }
    }
    RunConcat(s, schedule, more);
  }

  /** Thread t, which held the lock, has released it: the lock is free, or the token is on its
      way to one of the threads that wait. */
  ghost predicate Released(s: State, e: State, t: nat) {
    && t < |s.threads| && e.threads == s.threads[t := s.threads[t].(pc := Idle)]
    && if s.word >= 0 then e.word == FREE && e.tokens == 0
       else e.word == s.word <= -2 && e.tokens == 1 && Count(e.threads, Waiter) >= 1
  }

  lemma ReleaseFree(s: State, t: nat)
    requires Inv(s) && t < |s.threads| && s.threads[t].pc == Holding && s.word >= 0
    ensures Released(s, Step(s, t), t)
  {
    CountPositive(s.threads, t, Holder);
    assert ViewAgrees(s, s.threads[t]);
  }

  lemma ReleaseHandsOver(s: State, t: nat)
    requires Inv(s) && t < |s.threads| && s.threads[t].pc == Holding && s.word < 0
    ensures Step(s, t) == Goto(s, t, Sending) && Released(s, Step(Step(s, t), t), t)
  {
    CountPositive(s.threads, t, Holder);
    CountsMove(s, t, Idle);
  }

  lemma RunOne(s: State, t: nat)
    requires Enabled(s, t)
    ensures CanRun(s, [t]) && Run(s, [t]) == Step(s, t)
  {
    assert CanRun(Step(s, t), []) && [t][1..] == [];
  }

  /** After any schedule a thread that holds the lock can release it on its own. */
  lemma HolderCanRelease(s: State, schedule: seq<nat>, t: nat) returns (more: seq<nat>)
    requires Init(s) && CanRun(s, schedule) && t < |Run(s, schedule).threads|
    requires Run(s, schedule).threads[t].pc == Holding
    ensures CanRun(s, schedule + more) && Released(Run(s, schedule), Run(s, schedule + more), t)
    ensures |more| <= 2 && forall u :: u in more ==> u == t
  {
    InitInv(s);
    RunInv(s, schedule);
    var was := Run(s, schedule);
    more := [t];
    RunOne(was, t);
    if was.word >= 0 {
      ReleaseFree(was, t);
    } else {
      ReleaseHandsOver(was, t);
      RunOne(Step(was, t), t);
      RunConcat(was, [t], [t]);
      more := [t] + [t];
    }
    RunConcat(s, schedule, more);
  }
}

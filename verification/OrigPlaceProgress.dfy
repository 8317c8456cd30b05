/** Calls to the original place get done: the oldest request is served first, every call can be
    brought to its end, waiting clients can pause, and no record is lost. */
module OrigPlaceProgress {
  import opened Locks
  import opened OrigPlaceCalls

  // What a step leaves alone.

  /** Only the list, and no allocation, has changed. */
  ghost predicate OnlyList(s: State, s': State) {
    && s' == s.(records := s'.records, head := s'.head, tail := s'.tail, crashed := s'.crashed)
    && s'.records.Keys == s.records.Keys
  }

  lemma PutOnly(s: State, p: Ptr, r: Record)
    ensures OnlyList(s, Put(s, p, r))
  {
  }

  lemma EnqueueOnly(s: State, n: nat)
    ensures OnlyList(s, Enqueue(s, n))
  {
    var s1 := Put(s, At(n), Get(s, At(n)).(next := s.head, prev := Null));
    PutOnly(s, At(n), Get(s, At(n)).(next := s.head, prev := Null));
    PutOnly(s1, s1.head, Get(s1, s1.head).(prev := At(n)));
  }

  lemma WithdrawOnly(s: State, n: nat)
    ensures OnlyList(s, Withdraw(s, n))
  {
    var r := Get(s, At(n));
    var s1 := if r.prev.At? then SetNext(s, r.prev, r.next) else s.(head := r.next);
    PutOnly(s, r.prev, Get(s, r.prev).(next := r.next));
    PutOnly(s1, r.next, Get(s1, r.next).(prev := r.prev));
  }

  lemma PopTailOnly(s: State, n: nat)
    ensures OnlyList(s, PopTail(s, n))
  {
    var r := Get(s, At(n));
    var s1 := s.(tail := r.prev);
    var s2 := if r.prev.At? then SetNext(s1, r.prev, Null) else s1.(head := Null);
    PutOnly(s1, r.prev, Get(s1, r.prev).(next := Null));
    PutOnly(s2, At(n), Get(s2, At(n)).(needsQueue := false));
  }

  predicate ActsFor(a: Action, c: nat) {
    match a
    case Start(d, _) => c == d
    case Fill(d) => c == d
    case Post(d) => c == d
    case Check(d) => c == d
    case _ => false
  }

  predicate Allocates(s: State, a: Action)
    requires Enabled(s, a)
  {
    a.Start? || (a.Check? && !Get(s, At(s.clients[a.c].pc.todo)).signal)
  }

  /** A step leaves the other clients alone, and unless a call begins or returns also which
      records are allocated, cached and in use. */
  ghost predicate StepLeaves(s: State, a: Action, s': State)
    requires Enabled(s, a)
  {
    && |s'.clients| == |s.clients| && |s'.servers| == |s.servers|
    && (forall d: nat :: d < |s.clients| && !ActsFor(a, d) ==> s'.clients[d] == s.clients[d])
    && (!Allocates(s, a) ==>
      && s'.records.Keys == s.records.Keys && s'.cached == s.cached
      && forall c: nat, n :: Owns(s, c, n) ==> Owns(s', c, n))
  }

  lemma StepFrame(s: State, a: Action)
    requires Enabled(s, a)
    ensures StepLeaves(s, a, Step(s, a))
  {
    match a
    case Post(c) => EnqueueOnly(s, s.clients[c].pc.todo);
    case Check(c) => CheckFrame(s, c);
    case Pop(v) => if s.tail != Null { PopTailOnly(s, s.tail.n); }
    case _ =>
  }

  lemma CheckFrame(s: State, c: nat)
    requires Enabled(s, Check(c))
    ensures StepLeaves(s, Check(c), Step(s, Check(c)))
  {
    WithdrawOnly(s, s.clients[c].pc.todo);
  }

  // The order of service.

  /** When client c entered the first critical section last, counting the steps past; -1 if it
      never did. */
  function LastPost(past: seq<Action>, c: nat): (i: int)
    ensures i < |past|
  {
    if past == [] then -1
    else if past[|past| - 1] == Post(c) then |past| - 1
    else LastPost(past[..|past| - 1], c)
  }

  function Owner(s: State, n: nat): nat { Get(s, At(n)).call }

  /** The client waits, and its request is posted and not taken yet. */
  ghost predicate Posted(s: State, c: nat) {
    c < |s.clients| && s.clients[c].pc.Waiting? && Get(s, At(s.clients[c].pc.todo)).needsQueue
  }

  /** Request m was posted after request n; closed. */
  ghost predicate Later(s: State, past: seq<Action>, m: nat, n: nat) {
    forall k: nat :: Open(k) ==> LastPost(past, Owner(s, m)) > LastPost(past, Owner(s, n))
  }

  /** Requests posted later are nearer to the head of the list. */
  ghost predicate InPostOrder(s: State, q: seq<nat>, past: seq<Action>) {
    forall i, j :: 0 <= i < j < |q| ==> Later(s, past, q[i], q[j])
  }

  /** A request that stays on the list stays with its client, which does not post anything. */
  lemma StaysPosted(s: State, q: seq<nat>, a: Action, q': seq<nat>, m: nat)
    requires Inv(s, q) && Enabled(s, a) && Inv(Step(s, a), q') && m in q && m in q'
    ensures Owner(Step(s, a), m) == Owner(s, m) && a != Post(Owner(s, m))
  {
    var s' := Step(s, a);
    assert QueuedOk(s, m) && QueuedOk(s', m);
    var d, d' := Owner(s, m), Owner(s', m);
    assert Owns(s, d, m) && Owns(s', d', m);
    StepFrame(s, a);
    if ActsFor(a, d') {
      ActingWaits(s, a, d', m);
    }
    assert Owns(s, d', m);
  }

  /** A client that waits after its own step has just posted. */
  lemma ActingWaits(s: State, a: Action, c: nat, m: nat)
    requires Enabled(s, a) && ActsFor(a, c) && Owns(Step(s, a), c, m) && Step(s, a).clients[c].pc.Waiting?
    ensures Owns(s, c, m) && a == Post(c) && s.clients[c].pc.Locking?
  {
    if a.Check? {
      WithdrawOnly(s, s.clients[c].pc.todo);
    } else if a.Post? {
      EnqueueOnly(s, s.clients[c].pc.todo);
    }
  }

  /** Request m was posted at the same time; closed. */
  ghost predicate SameTime(s: State, past: seq<Action>, s': State, past': seq<Action>, m: nat) {
    forall k: nat :: Open(k) ==> LastPost(past', Owner(s', m)) == LastPost(past, Owner(s, m))
  }

  lemma StillLater(s: State, past: seq<Action>, s': State, past': seq<Action>, m: nat, n: nat)
    requires Later(s, past, m, n) && SameTime(s, past, s', past', m) && SameTime(s, past, s', past', n)
    ensures Later(s', past', m, n)
  {
    assert Open(0);
  }

  lemma OrderPushed(s: State, past: seq<Action>, s': State, past': seq<Action>, q: seq<nat>, n: nat)
    requires InPostOrder(s, q, past) && forall m :: m in q ==> SameTime(s, past, s', past', m)
    requires forall m :: m in q ==> Later(s', past', n, m)
    ensures InPostOrder(s', [n] + q, past')
  {
    var q' := [n] + q;
    forall i, j | 0 <= i < j < |q'| ensures Later(s', past', q'[i], q'[j]) {
      if i > 0 {
        StillLater(s, past, s', past', q[i - 1], q[j - 1]);
      }
    }
  }

  lemma OrderRemoved(s: State, past: seq<Action>, s': State, past': seq<Action>, q: seq<nat>, k: nat)
    requires k < |q| && InPostOrder(s, q, past)
    requires forall m :: m in q[..k] + q[k + 1..] ==> SameTime(s, past, s', past', m)
    ensures InPostOrder(s', q[..k] + q[k + 1..], past')
  {
    var q' := q[..k] + q[k + 1..];
    forall i, j | 0 <= i < j < |q'| ensures Later(s', past', q'[i], q'[j]) {
      var x, y := if i < k then i else i + 1, if j < k then j else j + 1;
      assert q'[i] == q[x] && q'[j] == q[y];
      StillLater(s, past, s', past', q[x], q[y]);
    }
  }

  lemma StepOrder(s: State, q: seq<nat>, a: Action, q': seq<nat>, past: seq<Action>)
    requires Inv(s, q) && Enabled(s, a) && Inv(Step(s, a), q') && ListMoves(s, a, q, q') && InPostOrder(s, q, past)
    ensures InPostOrder(Step(s, a), q', past + [a])
  {
    var s' := Step(s, a);
    var past' := past + [a];
    forall m | m in q && m in q' ensures SameTime(s, past, s', past', m) {
      StaysPosted(s, q, a, q', m);
      assert past'[..|past|] == past;
    }
    if a.Post? && |q'| > |q| {
      var n := s.clients[a.c].pc.todo;
      PostOwner(s, q, a.c, q');
      forall m | m in q ensures Later(s', past', n, m) {
        StaysPosted(s, q, a, q', m);
        assert past'[..|past|] == past;
      }
      OrderPushed(s, past, s', past', q, n);
    } else if q' != q {
      var k := Removed(s, a, q, q');
      OrderRemoved(s, past, s', past', q, k);
    } else {
      forall i, j | 0 <= i < j < |q| ensures Later(s', past', q[i], q[j]) {
        StillLater(s, past, s', past', q[i], q[j]);
      }
    }
  }

  lemma PostOwner(s: State, q: seq<nat>, c: nat, q': seq<nat>)
    requires Inv(s, q) && Enabled(s, Post(c)) && Inv(Step(s, Post(c)), q') && ListMoves(s, Post(c), q, q') && |q'| > |q|
    ensures Owner(Step(s, Post(c)), s.clients[c].pc.todo) == c
  {
    var s', n := Step(s, Post(c)), s.clients[c].pc.todo;
    EnqueueOnly(s, n);
    assert n in q' && QueuedOk(s', n);
    assert Owns(s', Owner(s', n), n) && Owns(s', c, n);
  }

  lemma Removed(s: State, a: Action, q: seq<nat>, q': seq<nat>) returns (k: nat)
    requires Enabled(s, a) && ListMoves(s, a, q, q') && q' != q && !(a.Post? && |q'| > |q|)
    ensures k < |q| && q' == q[..k] + q[k + 1..]
  {
    match a
    case Pop(v) => k := |q| - 1;
    case Check(c) => k :| k < |q| && q' == q[..k] + q[k + 1..];
    case Post(c) => assert false;
  }

  lemma {:induction false} RunOrder(s: State, q: seq<nat>, schedule: seq<Action>, past: seq<Action>)
    returns (q': seq<nat>)
    requires Inv(s, q) && CanRun(s, schedule) && InPostOrder(s, q, past)
    ensures Inv(Run(s, schedule), q') && InPostOrder(Run(s, schedule), q', past + schedule)
    decreases |schedule|
  {
    q' := q;
    if schedule == [] {
      assert past + schedule == past;
    } else {
      var a := schedule[0];
      q' := StepInv(s, q, a);
      StepOrder(s, q, a, q', past);
      q' := RunOrder(Step(s, a), q', schedule[1..], past + [a]);
      assert past + [a] + schedule[1..] == past + schedule;
    }
  }

  /** Whenever a request is posted, any idle server can take one in one step, and what it takes
      is the request that was posted first. */
  lemma FirstPostedIsTaken(s: State, schedule: seq<Action>, v: nat, c: nat) returns (first: nat)
    requires Init(s) && CanRun(s, schedule)
    requires var e := Run(s, schedule); v < |e.servers| && e.servers[v].Idle? && Posted(e, c)
    ensures var e := Run(s, schedule);
      && Enabled(e, Pop(v)) && Posted(e, first)
      && Step(e, Pop(v)).servers[v] == Running(e.clients[first].pc.todo)
      && !Posted(Step(e, Pop(v)), first)
      && (forall d: nat :: Posted(e, d) && d != first ==> LastPost(schedule, first) < LastPost(schedule, d))
  {
    assert Inv(s, []);
    var q := RunOrder(s, [], schedule, []);
    assert [] + schedule == schedule;
    var e := Run(s, schedule);
    forall d: nat | Posted(e, d) ensures e.clients[d].pc.todo in q && Owner(e, e.clients[d].pc.todo) == d {
      assert ClientOk(e, q, d);
    }
    var n := q[|q| - 1];
    assert QueuedOk(e, n);
    first := Owner(e, n);
    PoppedLinks(e, q, v);
    forall d: nat | Posted(e, d) && d != first ensures LastPost(schedule, first) < LastPost(schedule, d) {
      var i :| 0 <= i < |q| && q[i] == e.clients[d].pc.todo;
      assert i < |q| - 1;
      assert Later(e, schedule, q[i], n) && Open(0);
    }
  }

  // Every call returns in some continuation.

  ghost predicate StepsTo(s: State, a: Action, e: State) {
    forall k: nat :: Open(k) ==> Enabled(s, a) && Step(s, a) == e
  }

  ghost predicate RunsTo(s: State, schedule: seq<Action>, e: State) {
    forall k: nat :: Open(k) ==> CanRun(s, schedule) && Run(s, schedule) == e
  }

  lemma FirstStep(s: State, a: seq<Action>, e: State) returns (s1: State)
    requires RunsTo(s, a, e) && a != []
    ensures StepsTo(s, a[0], s1) && RunsTo(s1, a[1..], e)
  {
    assert Open(0);
    s1 := Step(s, a[0]);
  }

  lemma StepBefore(s: State, first: Action, s1: State, rest: seq<Action>, e: State, all: seq<Action>)
    requires StepsTo(s, first, s1) && RunsTo(s1, rest, e) && all == [first] + rest
    ensures RunsTo(s, all, e)
  {
    assert Open(0) && all[1..] == rest;
  }

  lemma {:induction false} RunsOn(s: State, a: seq<Action>, e: State, b: seq<Action>, f: State)
    requires RunsTo(s, a, e) && RunsTo(e, b, f)
    ensures RunsTo(s, a + b, f)
    decreases |a|
  {
    if a == [] {
      assert a + b == b;
      assert s == e by { assert Open(0); }
    } else {
      var s1 := FirstStep(s, a, e);
      RunsOn(s1, a[1..], e, b, f);
      StepBefore(s, a[0], s1, a[1..] + b, f, a + b);
    }
  }

  lemma RunConcat(s: State, a: seq<Action>, b: seq<Action>)
    requires CanRun(s, a) && CanRun(Run(s, a), b)
    ensures CanRun(s, a + b) && Run(s, a + b) == Run(Run(s, a), b)
  {
    RunsOn(s, a, Run(s, a), b, Run(Run(s, a), b));
    assert Open(0);
  }

  lemma RunOne(s: State, a: Action)
    requires Enabled(s, a)
    ensures CanRun(s, [a]) && Run(s, [a]) == Step(s, a)
  {
    assert CanRun(Step(s, a), []) && [a][1..] == [];
  }

  lemma {:induction false} RunSizes(s: State, schedule: seq<Action>)
    requires CanRun(s, schedule)
    ensures |Run(s, schedule).clients| == |s.clients| && |Run(s, schedule).servers| == |s.servers|
    decreases |schedule|
  {
    if schedule != [] {
      StepFrame(s, schedule[0]);
      RunSizes(Step(s, schedule[0]), schedule[1..]);
    }
  }

  /** There is always another record to allocate. */
  lemma {:induction false} Bound(used: set<nat>) returns (b: nat)
    ensures forall n :: n in used ==> n < b
  {
    b := 0;
    if used != {} {
      var x :| x in used;
      b := Bound(used - {x});
      assert used == (used - {x}) + {x};
      b := if b > x then b else x + 1;
    }
  }

  /** The call of client c is done. */
  predicate Done(s: State, c: nat) {
    c < |s.clients| && s.clients[c].pc.Waiting? && !Get(s, At(s.clients[c].pc.todo)).signal
  }

  /** A busy server finishes its call. */
  lemma FinishCall(s: State, q: seq<nat>, v: nat) returns (schedule: seq<Action>)
    requires Inv(s, q) && v < |s.servers| && !s.servers[v].Idle?
    ensures CanRun(s, schedule)
    ensures var e := Run(s, schedule);
      Inv(e, q) && e.clients == s.clients && e.servers == s.servers[v := Idle] && !Get(e, At(s.servers[v].todo)).signal
  {
    var s1 := s;
    schedule := [];
    assert Run(s, []) == s;
    if s.servers[v].Running? {
      ExecuteInv(s, q, v);
      RunOne(s, Execute(v));
      schedule, s1 := [Execute(v)], Step(s, Execute(v));
    }
    FinishInv(s1, q, v);
    RunOne(s1, Finish(v));
    RunConcat(s, schedule, [Finish(v)]);
    schedule := schedule + [Finish(v)];
    assert ServerOk(s, v) && ServerOk(s1, v);
  }

  /** A server that serves long enough gets to any given request. */
  lemma {:induction false} GetDone(s: State, q: seq<nat>, v: nat, c: nat) returns (schedule: seq<Action>, q': seq<nat>)
    requires Inv(s, q) && v < |s.servers| && c < |s.clients| && s.clients[c].pc.Waiting?
    ensures CanRun(s, schedule) && Inv(Run(s, schedule), q') && Run(s, schedule).clients == s.clients
    ensures Done(Run(s, schedule), c)
    decreases |q|, if s.servers[v].Idle? then 0 else 1
  {
    var n := s.clients[c].pc.todo;
    assert ClientOk(s, q, c);
    if !s.records[n].signal {
      assert Run(s, []) == s;
      return [], q;
    }
    if !s.records[n].needsQueue {
      var w :| Serving(s, w, n);
      schedule := FinishCall(s, q, w);
      return schedule, q;
    }
    var s1, q1;
    if s.servers[v].Idle? {
      assert n in q;
      q1 := PopInv(s, q, v);
      PoppedLinks(s, q, v);
      RunOne(s, Pop(v));
      schedule, s1 := [Pop(v)], Step(s, Pop(v));
    } else {
      schedule := FinishCall(s, q, v);
      s1, q1 := Run(s, schedule), q;
    }
    var rest;
    rest, q' := GetDone(s1, q1, v, c);
    RunConcat(s, schedule, rest);
    schedule := schedule + rest;
  }

  /** Client c gets to where it waits. */
  lemma GetWaiting(s: State, q: seq<nat>, c: nat) returns (schedule: seq<Action>, q': seq<nat>)
    requires Inv(s, q) && c < |s.clients| && !s.clients[c].pc.Returned?
    ensures CanRun(s, schedule) && Inv(Run(s, schedule), q')
    ensures var e := Run(s, schedule);
      |e.clients| == |s.clients| && |e.servers| == |s.servers| && e.clients[c].pc.Waiting?
    decreases match s.clients[c].pc case NotStarted => 3 case Filling(_) => 2 case Locking(_) => 1 case _ => 0
  {
    if s.clients[c].pc.Waiting? {
      assert Run(s, []) == s;
      return [], q;
    }
    var b := Bound(s.records.Keys);
    var a := match s.clients[c].pc case NotStarted => Start(c, b) case Filling(_) => Fill(c) case _ => Post(c);
    StepFrame(s, a);
    RunOne(s, a);
    q' := StepInv(s, q, a);
    schedule, q' := GetWaiting(Step(s, a), q', c);
    RunConcat(s, [a], schedule);
    schedule := [a] + schedule;
  }

  /** No call is stuck: if there is a server, then after any schedule every call can be brought
      to return, and it has run exactly once when it does. */
  lemma EveryCallCanReturn(s: State, schedule: seq<Action>, c: nat) returns (more: seq<Action>)
    requires Init(s) && CanRun(s, schedule) && s.servers != [] && c < |s.clients|
    ensures CanRun(s, schedule + more)
    ensures var e := Run(s, schedule + more);
      |e.clients| == |s.clients| && e.clients[c].pc.Returned? && Times(e, c) == 1
  {
    assert Inv(s, []);
    var q := RunInv(s, [], schedule);
    RunSizes(s, schedule);
    var e := Run(s, schedule);
    more := [];
    assert Run(e, []) == e;
    if !e.clients[c].pc.Returned? {
      more, q := BringBack(e, q, c);
    }
    assert ClientOk(Run(e, more), q, c);
    RunConcat(s, schedule, more);
  }

  lemma BringBack(s: State, q: seq<nat>, c: nat) returns (schedule: seq<Action>, q': seq<nat>)
    requires Inv(s, q) && c < |s.clients| && !s.clients[c].pc.Returned? && s.servers != []
    ensures CanRun(s, schedule) && Inv(Run(s, schedule), q')
    ensures |Run(s, schedule).clients| == |s.clients| && Run(s, schedule).clients[c].pc.Returned?
  {
    schedule, q' := GetWaiting(s, q, c);
    var s1 := Run(s, schedule);
    var more;
    more, q' := GetDone(s1, q', 0, c);
    RunConcat(s, schedule, more);
    schedule := schedule + more;
    var s2 := Run(s, schedule);
    RunOne(s2, Check(c));
    q' := CheckInv(s2, q', c);
    RunConcat(s, schedule, [Check(c)]);
    schedule := schedule + [Check(c)];
  }

  /** A waiting client can always wake up.  If its call is not done it pauses, and in the
      meantime its request is not on the list. */
  lemma WaiterCanPause(s: State, schedule: seq<Action>, c: nat) returns (q: seq<nat>)
    requires Init(s) && CanRun(s, schedule)
    requires c < |Run(s, schedule).clients| && Run(s, schedule).clients[c].pc.Waiting?
    ensures var e := Run(s, schedule); var n := e.clients[c].pc.todo;
      && Enabled(e, Check(c)) && IsList(Step(e, Check(c)), q)
      && Step(e, Check(c)).clients[c].pc == (if Done(e, c) then Returned else Filling(n))
      && (!Done(e, c) ==> n !in q)
  {
    assert Inv(s, []);
    q := RunInv(s, [], schedule);
    q := CheckInv(Run(s, schedule), q, c);
  }

  // No record is lost.

  ghost predicate NoLeak(s: State) {
    forall n :: n in s.records ==> (exists c :: Owns(s, c, n)) || (exists p :: p in s.cached && s.cached[p] == n)
  }

  lemma StepNoLeak(s: State, q: seq<nat>, a: Action)
    requires Inv(s, q) && Enabled(s, a) && NoLeak(s)
    ensures NoLeak(Step(s, a))
  {
    var s' := Step(s, a);
    forall n | n in s'.records
      ensures (exists c :: Owns(s', c, n)) || (exists p :: p in s'.cached && s'.cached[p] == n)
    {
      if Allocates(s, a) {
        AllocationKept(s, q, a, n);
      } else {
        StepFrame(s, a);
        if c :| Owns(s, c, n) {
          assert Owns(s', c, n);
        }
      }
    }
  }

  lemma AllocationKept(s: State, q: seq<nat>, a: Action, n: nat)
    requires Inv(s, q) && Enabled(s, a) && NoLeak(s) && n in Step(s, a).records
    requires Allocates(s, a)
    ensures var s' := Step(s, a); (exists c :: Owns(s', c, n)) || (exists p :: p in s'.cached && s'.cached[p] == n)
  {
    var s' := Step(s, a);
    var c := a.c;
    var place := s.clients[c].place;
    assert ClientOk(s, q, c);
    assert forall d: nat :: d != c && Owns(s, d, n) ==> Owns(s', d, n);
    if a.Start? {
      assert Owns(s', c, s'.clients[c].pc.todo);
      assert forall p :: p in s.cached && p != place ==> p in s'.cached && s'.cached[p] == s.cached[p];
    } else {
      assert forall p :: p in s.cached ==> p in s'.cached && s'.cached[p] == s.cached[p];
      if n == s.clients[c].pc.todo {
        assert place in s'.cached && s'.cached[place] == n;
      }
    }
  }

  lemma {:induction false} RunNoLeak(s: State, q: seq<nat>, schedule: seq<Action>)
    requires Inv(s, q) && CanRun(s, schedule) && NoLeak(s)
    ensures NoLeak(Run(s, schedule))
    decreases |schedule|
  {
    if schedule != [] {
      StepNoLeak(s, q, schedule[0]);
      var q' := StepInv(s, q, schedule[0]);
      RunNoLeak(Step(s, schedule[0]), q', schedule[1..]);
    }
  }

  /** Client d has a call from that place in progress. */
  predicate Uses(s: State, d: nat, place: nat) {
    d < |s.clients| && s.clients[d].Active() && s.clients[d].place == place
  }

  /** A place from which a call has returned keeps a record, unless a call has it. */
  ghost predicate Ready(s: State) {
    forall c: nat :: c < |s.clients| && s.clients[c].pc.Returned? ==>
      s.clients[c].place in s.cached || exists d: nat :: Uses(s, d, s.clients[c].place)
  }

  lemma Actor(s: State, a: Action, c: nat)
    requires Enabled(s, a) && ActsFor(a, c)
    ensures var s' := Step(s, a); |s'.clients| == |s.clients| && s'.clients[c].place == s.clients[c].place
    ensures a.Start? ==>
      Uses(Step(s, a), c, s.clients[c].place) && Step(s, a).cached == s.cached - {s.clients[c].place}
    ensures !Allocates(s, a) ==> Uses(s, c, s.clients[c].place) && Uses(Step(s, a), c, s.clients[c].place)
    ensures a.Check? && Allocates(s, a) ==>
      Step(s, a).cached.Keys == s.cached.Keys + {s.clients[c].place}
  {
    if a.Check? {
      WithdrawOnly(s, s.clients[c].pc.todo);
    } else if a.Post? {
      EnqueueOnly(s, s.clients[c].pc.todo);
    }
  }

  lemma StepReady(s: State, a: Action)
    requires Enabled(s, a) && Ready(s)
    ensures Ready(Step(s, a))
  {
    var s' := Step(s, a);
    StepFrame(s, a);
    forall c: nat | c < |s'.clients| && s'.clients[c].pc.Returned?
      ensures s'.clients[c].place in s'.cached || exists d: nat :: Uses(s', d, s'.clients[c].place)
    {
      if ActsFor(a, c) {
        Actor(s, a, c);
      } else {
        StillReady(s, a, s', c);
      }
    }
  }

  lemma StillReady(s: State, a: Action, s': State, c: nat)
    requires Enabled(s, a) && s' == Step(s, a) && StepLeaves(s, a, s')
    requires Ready(s) && c < |s.clients| && s.clients[c].pc.Returned? && !ActsFor(a, c)
    ensures s.clients[c].place in s'.cached || exists d: nat :: Uses(s', d, s.clients[c].place)
  {
    var place := s.clients[c].place;
    if e: nat :| e < |s.clients| && ActsFor(a, e) {
      Actor(s, a, e);
    }
    if place !in s.cached {
      var d: nat :| Uses(s, d, place);
      assert place in s'.cached || Uses(s', d, place);
    }
  }

  lemma {:induction false} RunReady(s: State, schedule: seq<Action>)
    requires CanRun(s, schedule) && Ready(s)
    ensures Ready(Run(s, schedule))
    decreases |schedule|
  {
    if schedule != [] {
      StepReady(s, schedule[0]);
      RunReady(Step(s, schedule[0]), schedule[1..]);
    }
  }

  /** At any time each record that is allocated is in use by a call in progress or cached for
      its place, and not both.  A call from a place with a cached record allocates nothing, and
      a place from which a call has returned has one unless another call is using it. */
  lemma NothingLeaks(s: State, schedule: seq<Action>)
    requires Init(s) && CanRun(s, schedule)
    ensures var e := Run(s, schedule);
      && NoLeak(e) && (forall c: nat, n :: Owns(e, c, n) ==> n in e.records && Uncached(e, n))
      && (forall c: nat, b :: Enabled(e, Start(c, b)) && e.clients[c].place in e.cached ==>
        Step(e, Start(c, b)).records.Keys == e.records.Keys)
      && Ready(e)
  {
    assert Inv(s, []);
    RunNoLeak(s, [], schedule);
    RunReady(s, schedule);
    var q := RunInv(s, [], schedule);
    InUse(Run(s, schedule), q);
  }
}

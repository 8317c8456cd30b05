/** Foreign calls that must run in the original place.

    A client place posts a request record on a doubly linked list under a mutex and waits
    for a signal; a wake-up for any other reason makes it withdraw the request while it
    pauses, and post it again.  The original place pops requests at the tail, runs them
    outside the mutex, and then marks them done.  A finished record is cached for the
    client's next call or freed.  A critical section is one step; so is each access
    outside the mutex.  Any number of calls (nested ones included) and of servers may
    interleave; following a pointer to a record that is not allocated is a crash. */
module OrigPlaceCalls {

  datatype Ptr = Null | At(n: nat)

  /** FFI_Orig_Place_Call; `signal` says whether signal_handle is non-null, and `call`
      stands for the function and argument fields. */
  datatype Record = Record(needsQueue: bool, signal: bool, call: nat, next: Ptr, prev: Ptr)

  /** Program points of ffi_call_in_orig_place. */
  datatype ClientPc =
    | NotStarted
    | Filling(todo: nat)   // about to write the argument fields
    | Locking(todo: nat)   // about to enter the first critical section
    | Waiting(todo: nat)   // waits for a signal, then enters the second one
    | Returned

  datatype Client = Client(place: nat, pc: ClientPc) {
    predicate Active() { pc.Filling? || pc.Locking? || pc.Waiting? }
    function Todo(): nat requires Active() { pc.todo }
  }

  /** Program points of the loop in check_foreign_work. */
  datatype Server = Idle | Running(todo: nat) | Executed(todo: nat)

  datatype State = State(
    records: map<nat, Record>, head: Ptr, tail: Ptr,
    cached: map<nat, nat>,
    clients: seq<Client>, servers: seq<Server>,
    runs: seq<nat>, crashed: bool)

  datatype Action =
    | Start(c: nat, block: nat) | Fill(c: nat) | Post(c: nat) | Check(c: nat)
    | Pop(v: nat) | Execute(v: nat) | Finish(v: nat)

  predicate Init(s: State) {
    && s.records == map[] && s.head == s.tail == Null && s.cached == map[] && s.runs == [] && !s.crashed
    && (forall c :: 0 <= c < |s.clients| ==> s.clients[c].pc == NotStarted)
    && (forall v :: 0 <= v < |s.servers| ==> s.servers[v] == Idle)
  }

  predicate Enabled(s: State, a: Action) {
    match a
    case Start(c, block) => c < |s.clients| && s.clients[c].pc.NotStarted? && block !in s.records
    case Fill(c) => c < |s.clients| && s.clients[c].pc.Filling?
    case Post(c) => c < |s.clients| && s.clients[c].pc.Locking?
    case Check(c) => c < |s.clients| && s.clients[c].pc.Waiting?
    case Pop(v) => v < |s.servers| && s.servers[v].Idle?
    case Execute(v) => v < |s.servers| && s.servers[v].Running?
    case Finish(v) => v < |s.servers| && s.servers[v].Executed?
  }

  // Memory accesses.

  function Put(s: State, p: Ptr, r: Record): State {
    if p.At? && p.n in s.records then s.(records := s.records[p.n := r]) else s.(crashed := true)
  }

  function Get(s: State, p: Ptr): Record {
    if p.At? && p.n in s.records then s.records[p.n] else Record(false, false, 0, Null, Null)
  }

  function SetNext(s: State, p: Ptr, q: Ptr): State { Put(s, p, Get(s, p).(next := q)) }

  function SetPrev(s: State, p: Ptr, q: Ptr): State { Put(s, p, Get(s, p).(prev := q)) }

  function ClientGoto(s: State, c: nat, pc: ClientPc): State
    requires c < |s.clients|
  {
    s.(clients := s.clients[c := s.clients[c].(pc := pc)])
  }

  function ServerGoto(s: State, v: nat, pc: Server): State
    requires v < |s.servers|
  {
    s.(servers := s.servers[v := pc])
  }

  // The three list operations, pointer by pointer.

  /** Put the record in front of the list. */
  function Enqueue(s: State, n: nat): State {
    var s1 := Put(s, At(n), Get(s, At(n)).(next := s.head, prev := Null));
    var s2 := if s1.head.At? then SetPrev(s1, s1.head, At(n)) else s1.(tail := At(n));
    s2.(head := At(n))
  }

  /** Take the record out, wherever it is. */
  function Withdraw(s: State, n: nat): State {
    var r := Get(s, At(n));
    var s1 := if r.prev.At? then SetNext(s, r.prev, r.next) else s.(head := r.next);
    if r.next.At? then SetPrev(s1, r.next, r.prev) else s1.(tail := r.prev)
  }

  /** Take the record at the tail out and claim it. */
  function PopTail(s: State, n: nat): State {
    var r := Get(s, At(n));
    var s1 := s.(tail := r.prev);
    var s2 := if r.prev.At? then SetNext(s1, r.prev, Null) else s1.(head := Null);
    Put(s2, At(n), Get(s2, At(n)).(needsQueue := false))
  }

  function Step(s: State, a: Action): State
    requires Enabled(s, a)
  {
    match a
    case Start(c, block) =>
      var place := s.clients[c].place;
      var n := if place in s.cached then s.cached[place] else block;
      ClientGoto(s.(cached := s.cached - {place},
                    records := s.records[n := (if n in s.records then s.records[n] else Record(true, true, 0, Null,
                        Null)).(needsQueue := true, signal := true)]),
                 c, Filling(n))
    case Fill(c) =>
      var n := s.clients[c].pc.todo;
      ClientGoto(Put(s, At(n), Get(s, At(n)).(call := c)), c, Locking(n))
    case Post(c) =>
      var n := s.clients[c].pc.todo;
      ClientGoto(if Get(s, At(n)).needsQueue then Enqueue(s, n) else s, c, Waiting(n))
    case Check(c) =>
      var n := s.clients[c].pc.todo;
      var r := Get(s, At(n));
      if !r.signal then
        var place := s.clients[c].place;
        ClientGoto(if place in s.cached then s.(records := s.records - {n})
          else s.(cached := s.cached[place := n]), c, Returned)
      else
        ClientGoto(if r.needsQueue then Withdraw(s, n) else s, c, Filling(n))
    case Pop(v) =>
      if s.tail == Null then s else ServerGoto(PopTail(s, s.tail.n), v, Running(s.tail.n))
    case Execute(v) =>
      var n := s.servers[v].todo;
      var s1 := if n in s.records then s else s.(crashed := true);
      ServerGoto(s1.(runs := s1.runs + [Get(s, At(n)).call]), v, Executed(n))
    case Finish(v) =>
      var n := s.servers[v].todo;
      ServerGoto(Put(s, At(n), Get(s, At(n)).(signal := false)), v, Idle)
  }

  predicate CanRun(s: State, schedule: seq<Action>)
    decreases |schedule|
  {
    schedule == [] || (Enabled(s, schedule[0]) && CanRun(Step(s, schedule[0]), schedule[1..]))
  }

  function Run(s: State, schedule: seq<Action>): State
    requires CanRun(s, schedule)
    decreases |schedule|
  {
    if schedule == [] then s else Run(Step(s, schedule[0]), schedule[1..])
  }

  // The list.

  function PtrAt(q: seq<nat>, i: int): Ptr {
    if 0 <= i < |q| then At(q[i]) else Null
  }

  ghost predicate Linked(records: map<nat, Record>, q: seq<nat>, i: int)
    requires 0 <= i < |q|
  {
    q[i] in records && records[q[i]].next == PtrAt(q, i + 1) && records[q[i]].prev == PtrAt(q, i - 1)
  }

  /** The records of q, in this order, make up a proper doubly linked list. */
  ghost predicate IsList(s: State, q: seq<nat>) {
    && (forall i, j :: 0 <= i < j < |q| ==> q[i] != q[j])
    && (forall i :: 0 <= i < |q| ==> Linked(s.records, q, i))
    && s.head == PtrAt(q, 0) && s.tail == PtrAt(q, |q| - 1)
  }

  /** Only the fields that a list operation may change have changed. */
  ghost predicate SameCalls(s: State, s': State) {
    && s' == s.(records := s'.records, head := s'.head, tail := s'.tail)
    && s'.records.Keys == s.records.Keys
    && forall n :: n in s.records ==> SameFields(s.records[n], s'.records[n])
  }

  lemma EnqueueList(s: State, n: nat, q: seq<nat>)
    requires IsList(s, q) && n in s.records && n !in q
    ensures IsList(Enqueue(s, n), [n] + q) && SameCalls(s, Enqueue(s, n))
  {
    var s' := Enqueue(s, n);
    if q != [] {
      assert Linked(s.records, q, 0);
    }
    forall i | 0 <= i < |[n] + q| ensures Linked(s'.records, [n] + q, i) {
      if i > 0 {
        assert Linked(s.records, q, i - 1);
      }
    }
  }

  lemma WithdrawSame(s: State, k: nat, q: seq<nat>)
    requires IsList(s, q) && k < |q|
    ensures SameCalls(s, Withdraw(s, q[k]))
  {
    assert Linked(s.records, q, k);
    if k > 0 { assert Linked(s.records, q, k - 1); }
    if k + 1 < |q| { assert Linked(s.records, q, k + 1); }
  }

  lemma WithdrawLinks(s: State, k: nat, q: seq<nat>, i: nat)
    requires IsList(s, q) && k < |q| && i < |q| - 1
    ensures Linked(Withdraw(s, q[k]).records, q[..k] + q[k + 1..], i)
  {
    assert Linked(s.records, q, k);
    assert Linked(s.records, q, if i < k then i else i + 1);
    WithdrawSame(s, k, q);
  }

  lemma RemovedDistinct(q: seq<nat>, q': seq<nat>, k: nat)
    requires k < |q| && q' == q[..k] + q[k + 1..] && forall i, j :: 0 <= i < j < |q| ==> q[i] != q[j]
    ensures forall i, j :: 0 <= i < j < |q'| ==> q'[i] != q'[j]
  {
    forall i, j | 0 <= i < j < |q'| ensures q'[i] != q'[j] {
      var a, b := if i < k then i else i + 1, if j < k then j else j + 1;
      assert q'[i] == q[a] && q'[j] == q[b] && a < b;
    }
  }

  lemma WithdrawList(s: State, k: nat, q: seq<nat>)
    requires IsList(s, q) && k < |q|
    ensures IsList(Withdraw(s, q[k]), q[..k] + q[k + 1..])
  {
    assert Linked(s.records, q, k);
    if k > 0 { assert Linked(s.records, q, k - 1); }
    if k + 1 < |q| { assert Linked(s.records, q, k + 1); }
    var q' := q[..k] + q[k + 1..];
    RemovedDistinct(q, q', k);
    var s' := Withdraw(s, q[k]);
    assert s'.head == PtrAt(q', 0);
    assert s'.tail == PtrAt(q', |q'| - 1);
    forall i | 0 <= i < |q'| ensures Linked(s'.records, q', i) {
      WithdrawLinks(s, k, q, i);
    }
  }

  lemma PopTailList(s: State, q: seq<nat>)
    requires IsList(s, q) && q != []
    ensures var n := q[|q| - 1];
      && IsList(PopTail(s, n), q[..|q| - 1])
      && PopTail(s, n).records.Keys == s.records.Keys && n in s.records
      && SameCalls(s, PopTail(s, n).(records := PopTail(s, n).records[n := PopTail(s,
          n).records[n].(needsQueue := s.records[n].needsQueue)]))
      && !PopTail(s, n).records[n].needsQueue
  {
    var n := q[|q| - 1];
    var s' := PopTail(s, n);
    var q' := q[..|q| - 1];
    assert Linked(s.records, q, |q| - 1);
    if q' != [] { assert Linked(s.records, q, |q| - 2); }
    forall i | 0 <= i < |q'| ensures Linked(s'.records, q', i) {
      assert Linked(s.records, q, i);
    }
  }

  // The invariant.

  function Times(s: State, c: nat): nat { multiset(s.runs)[c] }

  predicate Serving(s: State, v: nat, n: nat) {
    v < |s.servers| && !s.servers[v].Idle? && s.servers[v].todo == n
  }

  predicate Owns(s: State, c: nat, n: nat) {
    c < |s.clients| && s.clients[c].Active() && s.clients[c].Todo() == n
  }

  ghost predicate Uncached(s: State, n: nat) {
    forall p :: p in s.cached ==> s.cached[p] != n
  }

  /** A request is on the list exactly if it is posted and untaken; a taken request is
      with a server until it is done; a done one has run once. */
  ghost predicate ClientOk(s: State, q: seq<nat>, c: nat)
    requires c < |s.clients|
  {
    var pc := s.clients[c].pc;
    match pc
    case NotStarted => Times(s, c) == 0
    case Returned => Times(s, c) == 1
    case _ =>
      && pc.todo in s.records && Uncached(s, pc.todo)
      && var r := s.records[pc.todo];
      if r.needsQueue then
        r.signal && (pc.todo in q <==> pc.Waiting?) && Times(s, c) == 0 && (r.call == c || pc.Filling?)
      else
        pc.todo !in q && r.call == c && (if r.signal then exists v :: Serving(s, v, pc.todo) else Times(s, c) == 1)
  }

  /** A server works on a taken, unfinished request of a client that is still waiting. */
  ghost predicate ServerOk(s: State, v: nat)
    requires v < |s.servers|
  {
    var srv := s.servers[v];
    srv.Idle? ||
    (srv.todo in s.records &&
     var r := s.records[srv.todo];
     !r.needsQueue && r.signal && Owns(s, r.call, srv.todo) && Times(s, r.call) == (if srv.Running? then 0 else 1))
  }

  ghost predicate QueuedOk(s: State, n: nat) {
    && n in s.records && s.records[n].needsQueue
    && Owns(s, s.records[n].call, n) && s.clients[s.records[n].call].pc.Waiting?
  }

  ghost predicate Distinct(s: State) {
    && (forall c, d, n :: Owns(s, c, n) && Owns(s, d, n) ==> c == d)
    && (forall v, w, n :: Serving(s, v, n) && Serving(s, w, n) ==> v == w)
    && (forall p :: p in s.cached ==> s.cached[p] in s.records)
    && (forall p, r :: p in s.cached && r in s.cached && s.cached[p] == s.cached[r] ==> p == r)
  }

  ghost predicate Inv(s: State, q: seq<nat>) {
    && !s.crashed
    && IsList(s, q)
    && Distinct(s)
    && (forall c :: 0 <= c < |s.clients| ==> ClientOk(s, q, c))
    && (forall v :: 0 <= v < |s.servers| ==> ServerOk(s, v))
    && (forall n :: n in q ==> QueuedOk(s, n))
  }

  /** What a step does to the list: posting puts the request in front, a server takes the last
      one, a client that wakes up takes its own one out wherever it is. */
  ghost predicate ListMoves(s: State, a: Action, q: seq<nat>, q': seq<nat>)
    requires Enabled(s, a)
  {
    match a
    case Post(c) => q' == if Get(s, At(s.clients[c].pc.todo)).needsQueue then [s.clients[c].pc.todo] + q else q
    case Pop(v) => q' == if q == [] then [] else q[..|q| - 1]
    case Check(c) => q' == q || exists k: nat :: k < |q| && q[k] == s.clients[c].pc.todo && q' == q[..k] + q[k + 1..]
    case _ => q' == q
  }

  /** Equal but for the links. */
  predicate SameFields(a: Record, b: Record) {
    a.needsQueue == b.needsQueue && a.signal == b.signal && a.call == b.call
  }

  /** A step touches one client c, one record n and the servers at work on n; the
      others, their records and their places on the list stay as they are. */
  ghost predicate Frame(s: State, s': State, q: seq<nat>, q': seq<nat>, c: nat, n: nat) {
    && c < |s.clients| == |s'.clients| && |s'.servers| == |s.servers|
    && (s.clients[c].Active() ==> s.clients[c].Todo() == n)
    && (s'.clients[c].Active() ==> s'.clients[c].Todo() == n)
    && (forall d :: 0 <= d < |s.clients| && d != c ==>
      s'.clients[d] == s.clients[d] && Times(s', d) == Times(s, d) && !Owns(s, d, n))
    && (forall m :: m in s.records && m != n ==> m in s'.records && SameFields(s.records[m], s'.records[m]))
    && (forall m :: m != n ==> (m in q <==> m in q'))
    && (forall v: nat, m :: m != n && Serving(s, v, m) ==> s'.servers[v] == s.servers[v])
    && (forall v: nat, m :: m != n && Serving(s', v, m) ==> s'.servers[v] == s.servers[v])
    && (forall p :: p in s'.cached && s'.cached[p] != n ==> p in s.cached && s.cached[p] == s'.cached[p])
  }

  /** What the step itself has to establish for c and n. */
  ghost predicate Local(s': State, q': seq<nat>, c: nat, n: nat)
    requires c < |s'.clients|
  {
    && !s'.crashed && IsList(s', q')
    && ClientOk(s', q', c)
    && (forall v :: Serving(s', v, n) ==> ServerOk(s', v))
    && (forall v, w :: Serving(s', v, n) && Serving(s', w, n) ==> v == w)
    && (n in q' ==> QueuedOk(s', n))
    && (forall p :: p in s'.cached && s'.cached[p] == n ==> n in s'.records)
    && (forall p, r :: p in s'.cached && r in s'.cached && s'.cached[p] == s'.cached[r] == n ==> p == r)
  }

  lemma OtherClient(s: State, s': State, q: seq<nat>, q': seq<nat>, c: nat, n: nat, d: nat)
    requires Inv(s, q) && Frame(s, s', q, q', c, n) && d < |s.clients| && d != c
    ensures ClientOk(s', q', d)
  {
    assert ClientOk(s, q, d);
    if s.clients[d].Active() {
      var m := s.clients[d].Todo();
      assert Owns(s, d, m);
      if s.records[m].signal && !s.records[m].needsQueue {
        var v :| Serving(s, v, m);
        assert Serving(s', v, m);
      }
    }
  }

  lemma OtherServer(s: State, s': State, q: seq<nat>, q': seq<nat>, c: nat, n: nat, v: nat)
    requires Inv(s, q) && Frame(s, s', q, q', c, n) && v < |s.servers| && !Serving(s', v, n)
    ensures ServerOk(s', v)
  {
    if !s'.servers[v].Idle? {
      assert Serving(s', v, s'.servers[v].todo);
      assert ServerOk(s, v);
    }
  }

  lemma FrameInv(s: State, s': State, q: seq<nat>, q': seq<nat>, c: nat, n: nat)
    requires Inv(s, q) && Frame(s, s', q, q', c, n) && Local(s', q', c, n)
    ensures Inv(s', q')
  {
    forall d: nat | d < |s.clients| && d != c ensures ClientOk(s', q', d) {
      OtherClient(s, s', q, q', c, n, d);
    }
    forall v: nat | v < |s.servers| && !Serving(s', v, n) ensures ServerOk(s', v) {
      OtherServer(s, s', q, q', c, n, v);
    }
    forall m | m in q' && m != n ensures QueuedOk(s', m) {
      assert m in q && QueuedOk(s, m);
    }
    FrameDistinct(s, s', q, q', c, n);
  }

  lemma FrameDistinct(s: State, s': State, q: seq<nat>, q': seq<nat>, c: nat, n: nat)
    requires Inv(s, q) && Frame(s, s', q, q', c, n) && Local(s', q', c, n)
    ensures Distinct(s')
  {
    forall d: nat, e: nat, m | Owns(s', d, m) && Owns(s', e, m) ensures d == e {
      assert d != c ==> Owns(s, d, m);
      assert e != c ==> Owns(s, e, m);
    }
    forall v: nat, w: nat, m | Serving(s', v, m) && Serving(s', w, m) ensures v == w {
      if m != n {
        assert Serving(s, v, m) && Serving(s, w, m);
      }
    }
  }

  /** Records in use are allocated and not in the cache; a request that is on the list
      or with a server is in use. */
  lemma InUse(s: State, q: seq<nat>)
    requires Inv(s, q)
    ensures forall d, m :: Owns(s, d, m) ==> m in s.records && Uncached(s, m)
    ensures forall v, m :: Serving(s, v, m) ==> m in s.records && Owns(s, s.records[m].call, m)
    ensures forall m :: m in q ==> m in s.records && Owns(s, s.records[m].call, m)
  {
    forall d: nat, m | Owns(s, d, m) ensures m in s.records && Uncached(s, m) { assert ClientOk(s, q, d); }
    forall v: nat, m | Serving(s, v, m) ensures m in s.records && Owns(s, s.records[m].call, m) {
      assert ServerOk(s, v);
    }
    forall m | m in q ensures m in s.records && Owns(s, s.records[m].call, m) { assert QueuedOk(s, m); }
  }

  lemma SameLinks(s: State, s': State, q: seq<nat>, n: nat)
    requires IsList(s, q) && s'.head == s.head && s'.tail == s.tail
    requires forall m :: m in q ==> m in s.records && m in s'.records
    requires forall m :: m in q ==> s'.records[m].next == s.records[m].next && s'.records[m].prev == s.records[m].prev
    ensures IsList(s', q)
  {
    forall i | 0 <= i < |q| ensures Linked(s'.records, q, i) { assert Linked(s.records, q, i); }
  }

  lemma StartInv(s: State, q: seq<nat>, c: nat, block: nat)
    requires Inv(s, q) && Enabled(s, Start(c, block))
    ensures Inv(Step(s, Start(c, block)), q)
  {
    var s' := Step(s, Start(c, block));
    var n := s'.clients[c].pc.todo;
    InUse(s, q);
    assert ClientOk(s, q, c);
    assert forall d :: !Owns(s, d, n);
    SameLinks(s, s', q, n);
    assert forall v :: Serving(s', v, n) ==> Serving(s, v, n);
    FrameInv(s, s', q, q, c, n);
  }

  lemma FillInv(s: State, q: seq<nat>, c: nat)
    requires Inv(s, q) && Enabled(s, Fill(c))
    ensures Inv(Step(s, Fill(c)), q)
  {
    var s' := Step(s, Fill(c));
    var n := s.clients[c].pc.todo;
    InUse(s, q);
    assert ClientOk(s, q, c) && Owns(s, c, n);
    SameLinks(s, s', q, n);
    KeepServers(s, s', c, n);
    FrameInv(s, s', q, q, c, n);
  }

  /** Servers at work on n do not notice a step of its owner that leaves its flags alone. */
  lemma KeepServers(s: State, s': State, c: nat, n: nat)
    requires s'.servers == s.servers && s'.runs == s.runs && n in s.records && n in s'.records
    requires Distinct(s) && forall v :: 0 <= v < |s.servers| ==> ServerOk(s, v)
    requires Owns(s, c, n) && Owns(s', c, n) && SameFields(s.records[n].(call := c), s'.records[n])
    ensures forall v :: Serving(s', v, n) ==> ServerOk(s', v)
    ensures forall v :: Serving(s, v, n) <==> Serving(s', v, n)
  {
    forall v: nat | Serving(s', v, n) ensures ServerOk(s', v) {
      assert Serving(s, v, n) && ServerOk(s, v);
    }
  }

  /** The list after a critical section, and who is on it; other fields are as before. */
  ghost predicate Relinked(s: State, s': State, q: seq<nat>, q': seq<nat>, n: nat) {
    && !s'.crashed && IsList(s', q')
    && s'.runs == s.runs && s'.cached == s.cached && |s'.clients| == |s.clients| && |s'.servers| == |s.servers|
    && s'.records.Keys == s.records.Keys
    && (forall m :: m in s.records && m != n ==> SameFields(s.records[m], s'.records[m]))
    && (forall m :: m != n ==> (m in q <==> m in q'))
  }

  lemma PostLinks(s: State, q: seq<nat>, c: nat) returns (q': seq<nat>)
    requires Inv(s, q) && Enabled(s, Post(c))
    ensures var s' := Step(s, Post(c)); var n := s.clients[c].pc.todo;
      Relinked(s, s', q, q', n) && s'.servers == s.servers
        && s'.clients == s.clients[c := s.clients[c].(pc := Waiting(n))]
      && n in s.records && SameFields(s.records[n], s'.records[n])
      && q' == if s.records[n].needsQueue then [n] + q else q
  {
    var s' := Step(s, Post(c));
    var n := s.clients[c].pc.todo;
    assert ClientOk(s, q, c);
    InUse(s, q);
    if s.records[n].needsQueue {
      q' := [n] + q;
      EnqueueList(s, n, q);
      assert Enqueue(s, n).records == s'.records;
      InListInRecords(Enqueue(s, n), q');
      SameLinks(Enqueue(s, n), s', q', n);
    } else {
      q' := q;
      SameLinks(s, s', q, n);
    }
  }

  lemma InListInRecords(s: State, q: seq<nat>)
    requires IsList(s, q)
    ensures forall m :: m in q ==> m in s.records
  {
    forall m | m in q ensures m in s.records {
      var i :| 0 <= i < |q| && q[i] == m;
      assert Linked(s.records, q, i);
    }
  }

  /** A critical section of the owner that leaves the record's flags alone. */
  lemma OwnerStepInv(s: State, s': State, q: seq<nat>, q': seq<nat>, c: nat, n: nat, pc: ClientPc)
    requires Inv(s, q) && Owns(s, c, n) && n in s.records
    requires Relinked(s, s', q, q', n) && SameFields(s.records[n], s'.records[n])
    requires s'.clients == s.clients[c := s.clients[c].(pc := pc)] && s'.servers == s.servers && s'.runs == s.runs
    requires s'.cached == s.cached
    requires (pc == Filling(n) || pc == Waiting(n)) && s.records[n].call == c
    requires if s.records[n].needsQueue then (n in q' <==> pc.Waiting?) else n !in q'
    ensures Inv(s', q')
  {
    assert ClientOk(s, q, c);
    KeepServers(s, s', c, n);
    FrameInv(s, s', q, q', c, n);
  }

  lemma PostInv(s: State, q: seq<nat>, c: nat) returns (q': seq<nat>)
    requires Inv(s, q) && Enabled(s, Post(c))
    ensures Inv(Step(s, Post(c)), q') && ListMoves(s, Post(c), q, q')
  {
    var n := s.clients[c].pc.todo;
    assert Owns(s, c, n);
    q' := PostLinks(s, q, c);
    assert ClientOk(s, q, c);
    OwnerStepInv(s, Step(s, Post(c)), q, q', c, n, Waiting(n));
  }

  lemma ReturnInv(s: State, q: seq<nat>, c: nat)
    requires Inv(s, q) && Enabled(s, Check(c)) && !Get(s, At(s.clients[c].pc.todo)).signal
    ensures Inv(Step(s, Check(c)), q)
  {
    var s' := Step(s, Check(c));
    var n := s.clients[c].pc.todo;
    InUse(s, q);
    assert ClientOk(s, q, c) && Owns(s, c, n);
    forall v: nat ensures !Serving(s, v, n) { assert v < |s.servers| ==> ServerOk(s, v); }
    assert forall v :: Serving(s', v, n) ==> Serving(s, v, n);
    SameLinks(s, s', q, n);
    FrameInv(s, s', q, q, c, n);
  }

  lemma WithoutOne(q: seq<nat>, k: nat, q': seq<nat>)
    requires k < |q| && q' == q[..k] + q[k + 1..] && forall i, j :: 0 <= i < j < |q| ==> q[i] != q[j]
    ensures q[k] !in q' && forall m :: m != q[k] && m in q ==> m in q'
  {
    forall m | m != q[k] && m in q ensures m in q' {
      var i :| 0 <= i < |q| && q[i] == m;
      assert m == q'[if i < k then i else i - 1];
    }
  }

  lemma WithdrawnLinks(s: State, q: seq<nat>, c: nat) returns (q': seq<nat>)
    requires Inv(s, q) && Enabled(s, Check(c))
    requires var r := Get(s, At(s.clients[c].pc.todo)); r.signal && r.needsQueue
    ensures var s' := Step(s, Check(c)); var n := s.clients[c].pc.todo;
      Relinked(s, s', q, q', n) && s'.servers == s.servers
        && s'.clients == s.clients[c := s.clients[c].(pc := Filling(n))]
      && n in s.records && SameFields(s.records[n], s'.records[n]) && n !in q'
    ensures ListMoves(s, Check(c), q, q')
  {
    var s' := Step(s, Check(c));
    var n := s.clients[c].pc.todo;
    assert ClientOk(s, q, c);
    var k: nat :| k < |q| && q[k] == n;
    q' := q[..k] + q[k + 1..];
    WithoutOne(q, k, q');
    WithdrawSame(s, k, q);
    WithdrawList(s, k, q);
    assert Withdraw(s, n).records == s'.records;
    InListInRecords(Withdraw(s, n), q');
    SameLinks(Withdraw(s, n), s', q', n);
  }

  lemma WithdrawInv(s: State, q: seq<nat>, c: nat) returns (q': seq<nat>)
    requires Inv(s, q) && Enabled(s, Check(c))
    requires var r := Get(s, At(s.clients[c].pc.todo)); r.signal && r.needsQueue
    ensures Inv(Step(s, Check(c)), q') && ListMoves(s, Check(c), q, q')
  {
    var n := s.clients[c].pc.todo;
    assert ClientOk(s, q, c) && Owns(s, c, n);
    q' := WithdrawnLinks(s, q, c);
    OwnerStepInv(s, Step(s, Check(c)), q, q', c, n, Filling(n));
  }

  lemma CheckKeeps(s: State, q: seq<nat>, c: nat) returns (q': seq<nat>)
    requires Inv(s, q) && Enabled(s, Check(c))
    ensures Inv(Step(s, Check(c)), q') && ListMoves(s, Check(c), q, q')
  {
    var s' := Step(s, Check(c));
    var n := s.clients[c].pc.todo;
    assert ClientOk(s, q, c) && Owns(s, c, n);
    if !s.records[n].signal {
      ReturnInv(s, q, c);
      q' := q;
    } else if s.records[n].needsQueue {
      q' := WithdrawInv(s, q, c);
    } else {
      InUse(s, q);
      q' := q;
      SameLinks(s, s', q, n);
      OwnerStepInv(s, s', q, q', c, n, Filling(n));
    }
  }

  lemma CheckPc(s: State, q: seq<nat>, c: nat)
    requires Inv(s, q) && Enabled(s, Check(c))
    ensures var n := s.clients[c].pc.todo;
      && n in s.records && c < |Step(s, Check(c)).clients|
      && Step(s, Check(c)).clients[c].pc == if s.records[n].signal then Filling(n) else Returned
  {
    assert ClientOk(s, q, c);
    if s.records[s.clients[c].pc.todo].signal && s.records[s.clients[c].pc.todo].needsQueue {
      var q' := WithdrawnLinks(s, q, c);
    }
  }

  lemma NotListed(s: State, q: seq<nat>, c: nat, n: nat)
    requires Inv(s, q) && c < |s.clients| && s.clients[c].pc == Filling(n)
    ensures n !in q
  {
    assert ClientOk(s, q, c);
  }

  /** A client that wakes up returns if its call is done; otherwise it goes on without its request
      on the list. */
  lemma CheckInv(s: State, q: seq<nat>, c: nat) returns (q': seq<nat>)
    requires Inv(s, q) && Enabled(s, Check(c))
    ensures Inv(Step(s, Check(c)), q') && ListMoves(s, Check(c), q, q')
    ensures var n := s.clients[c].pc.todo;
      && n in s.records && c < |Step(s, Check(c)).clients|
      && Step(s, Check(c)).clients[c].pc == if s.records[n].signal then Filling(n) else Returned
    ensures Step(s, Check(c)).clients[c].pc.Filling? ==> s.clients[c].pc.todo !in q'
  {
    CheckPc(s, q, c);
    q' := CheckKeeps(s, q, c);
    if Step(s, Check(c)).clients[c].pc.Filling? {
      NotListed(Step(s, Check(c)), q', c, s.clients[c].pc.todo);
    }
  }

  lemma PoppedLinks(s: State, q: seq<nat>, v: nat)
    requires Inv(s, q) && Enabled(s, Pop(v)) && q != []
    ensures var s' := Step(s, Pop(v)); var n := q[|q| - 1]; var q' := q[..|q| - 1];
      Relinked(s, s', q, q', n) && s'.servers == s.servers[v := Running(n)] && s'.clients == s.clients
      && n in s.records && SameFields(s.records[n].(needsQueue := false), s'.records[n]) && n !in q'
  {
    var s' := Step(s, Pop(v));
    var n := q[|q| - 1];
    var q' := q[..|q| - 1];
    assert q == q' + [n] && n !in q';
    PopTailList(s, q);
    assert PopTail(s, n).records == s'.records;
    InListInRecords(PopTail(s, n), q');
    SameLinks(PopTail(s, n), s', q', n);
  }

  /** An idle server claims the request it has taken off the list. */
  lemma ClaimInv(s: State, s': State, q: seq<nat>, q': seq<nat>, v: nat, n: nat)
    requires Inv(s, q) && v < |s.servers| && s.servers[v].Idle? && n in q && n in s.records && n !in q'
    requires Relinked(s, s', q, q', n) && SameFields(s.records[n].(needsQueue := false), s'.records[n])
    requires s'.servers == s.servers[v := Running(n)] && s'.clients == s.clients && s'.runs == s.runs
    requires s'.cached == s.cached
    ensures Inv(s', q')
  {
    assert QueuedOk(s, n);
    var c := s.records[n].call;
    assert ClientOk(s, q, c) && Owns(s, c, n);
    forall w: nat ensures !Serving(s, w, n) { assert w < |s.servers| ==> ServerOk(s, w); }
    assert Serving(s', v, n);
    assert forall w :: Serving(s', w, n) ==> w == v || Serving(s, w, n);
    FrameInv(s, s', q, q', c, n);
  }

  lemma PopInv(s: State, q: seq<nat>, v: nat) returns (q': seq<nat>)
    requires Inv(s, q) && Enabled(s, Pop(v))
    ensures Inv(Step(s, Pop(v)), q') && ListMoves(s, Pop(v), q, q')
  {
    if s.tail == Null {
      return q;
    }
    q' := q[..|q| - 1];
    PoppedLinks(s, q, v);
    ClaimInv(s, Step(s, Pop(v)), q, q', v, q[|q| - 1]);
  }

  lemma ExecuteInv(s: State, q: seq<nat>, v: nat)
    requires Inv(s, q) && Enabled(s, Execute(v))
    ensures Inv(Step(s, Execute(v)), q)
  {
    var s' := Step(s, Execute(v));
    var n := s.servers[v].todo;
    InUse(s, q);
    assert Serving(s, v, n) && ServerOk(s, v);
    var c := s.records[n].call;
    assert ClientOk(s, q, c);
    SameLinks(s, s', q, n);
    assert Serving(s', v, n);
    assert forall w :: Serving(s', w, n) ==> Serving(s, w, n);
    FrameInv(s, s', q, q, c, n);
  }

  lemma FinishInv(s: State, q: seq<nat>, v: nat)
    requires Inv(s, q) && Enabled(s, Finish(v))
    ensures Inv(Step(s, Finish(v)), q)
  {
    var s' := Step(s, Finish(v));
    var n := s.servers[v].todo;
    InUse(s, q);
    assert Serving(s, v, n) && ServerOk(s, v);
    var c := s.records[n].call;
    assert ClientOk(s, q, c);
    SameLinks(s, s', q, n);
    assert forall w :: Serving(s', w, n) ==> Serving(s, w, n) && w != v;
    FrameInv(s, s', q, q, c, n);
  }

  lemma StepInv(s: State, q: seq<nat>, a: Action) returns (q': seq<nat>)
    requires Inv(s, q) && Enabled(s, a)
    ensures Inv(Step(s, a), q') && ListMoves(s, a, q, q')
  {
    q' := q;
    match a
    case Start(c, block) => StartInv(s, q, c, block);
    case Fill(c) => FillInv(s, q, c);
    case Post(c) => q' := PostInv(s, q, c);
    case Check(c) => q' := CheckInv(s, q, c);
    case Pop(v) => q' := PopInv(s, q, v);
    case Execute(v) => ExecuteInv(s, q, v);
    case Finish(v) => FinishInv(s, q, v);
  }

  lemma {:induction false} RunInv(s: State, q: seq<nat>, schedule: seq<Action>) returns (q': seq<nat>)
    requires Inv(s, q) && CanRun(s, schedule)
    ensures Inv(Run(s, schedule), q')
    decreases |schedule|
  {
    q' := q;
    if schedule != [] {
      q' := StepInv(s, q, schedule[0]);
      q' := RunInv(Step(s, schedule[0]), q', schedule[1..]);
    }
  }

  // The results, for every schedule of any number of clients and servers.

  /** No dangling pointer is ever followed; head, tail, next and prev always form a
      proper doubly linked list of exactly the posted, untaken requests; no call runs
      twice, and every call that has returned has run. */
  lemma ExactlyOnce(s: State, schedule: seq<Action>) returns (q: seq<nat>)
    requires Init(s) && CanRun(s, schedule)
    ensures var e := Run(s, schedule);
      && !e.crashed && IsList(e, q) && (forall n :: n in q ==> QueuedOk(e, n))
      && (forall c: nat, n :: Owns(e, c, n) ==>
        n in e.records && (n in q <==> e.clients[c].pc.Waiting? && e.records[n].needsQueue))
      && (forall c: nat :: c < |e.clients| ==> Times(e, c) <= 1)
      && (forall c: nat :: c < |e.clients| && e.clients[c].pc.Returned? ==> Times(e, c) == 1)
  {
    assert Inv(s, []);
    q := RunInv(s, [], schedule);
    var e := Run(s, schedule);
    forall c: nat | c < |e.clients| ensures Times(e, c) <= 1 {
      assert ClientOk(e, q, c);
      if e.clients[c].Active() && Times(e, c) != 0 && e.records[e.clients[c].Todo()].signal {
        var v :| Serving(e, v, e.clients[c].Todo());
        assert ServerOk(e, v);
      }
    }
    forall c: nat, n | Owns(e, c, n) ensures n in e.records && (n in q <==>
      e.clients[c].pc.Waiting? && e.records[n].needsQueue) {
      assert ClientOk(e, q, c);
    }
    forall c: nat | c < |e.clients| && e.clients[c].pc.Returned? ensures Times(e, c) == 1 {
      assert ClientOk(e, q, c);
    }
  }

  /** A server only ever holds the record of a call that is still in progress and whose
      client, which alone may recycle or free it, has not yet been told it is done. */
  lemma ServerHoldsLiveRecord(s: State, schedule: seq<Action>, v: nat)
    requires Init(s) && CanRun(s, schedule)
    ensures var e := Run(s, schedule);
      v < |e.servers| && !e.servers[v].Idle? ==>
        var n := e.servers[v].todo;
        && n in e.records && e.records[n].signal && Owns(e, e.records[n].call, n)
        && Uncached(e, n) && (forall w: nat :: Serving(e, w, n) ==> w == v)
  {
    assert Inv(s, []);
    var q := RunInv(s, [], schedule);
    var e := Run(s, schedule);
    if v < |e.servers| && !e.servers[v].Idle? {
      assert ServerOk(e, v) && Serving(e, v, e.servers[v].todo);
      InUse(e, q);
    }
  }
}

/** Finalizers and disappearing links.

    After marking, GC_finalize clears links to dead objects, queues eager finalizers level
    by level, marks what ordered finalizers can reach, queues the ordered ones that are
    still dead, and drops or clears the remaining links.  The tables are walked chain by
    chain.  The outcome depends on the order of the walk only through the objects that are
    given up because marking from them overflows the mark stack. */
module Finalization {
  import opened Locks
  import opened ObjectGraph
  import opened HashChains
  import opened DisappearingLinks
  import opened Basics
  import opened MarkStack
  import opened Marker
  import opened Tracing
  import opened OrderedRuns

  /** A registration: level 0 is ordered finalization, levels 1 and 2 are eager.  Any level
      can be registered, but GC_finalize has no pass for the others: they are queued at its
      end if their objects are still dead. */
  datatype Fo = Fo(id: nat, base: nat, fn: nat, level: nat) {
    predicate Eager() { level == 1 || level == 2 }
  }

  ghost function SetOf(objs: seq<nat>): set<nat> { set o | o in objs }

  // The outcome of a finalization, without any order.

  /** Registered objects of a level that are not marked. */
  ghost function Dead(fos: set<Fo>, level: nat, m: set<nat>): set<nat> {
    set e | e in fos && e.level == level && e.base !in m :: e.base
  }

  /** The mark sets along GC_finalize: when links are cleared, after the eager objects of
      level 1 and 2 with all they reach, and after marking from the ordered ones, some of
      which are given up.  The hooks are the objects GC_push_last_roots_again marks from. */
  datatype Plan = Plan(links: set<nat>, level1: set<nat>, level2: set<nat>, ordered: set<nat>)

  ghost function PlanOf(g: Graph, fos: set<Fo>, links: set<nat>, hooks: Hooks, given: set<nat>): Plan {
    var level1 := links + ReachSet(g, Dead(fos, 1, links)) + ReachSet(g, SetOf(hooks.second));
    var level2 := level1 + ReachSet(g, Dead(fos, 2, level1)) + ReachSet(g, SetOf(hooks.third));
    var dead := Dead(fos, 0, level2);
    Plan(links, level1, level2, level2 + ReachPlus(g, dead) + given)
  }

  datatype Hooks = Hooks(first: seq<nat>, second: seq<nat>, third: seq<nat>)

  ghost predicate HooksOk(g: Graph, hooks: Hooks) {
    && (forall o :: o in hooks.first ==> o < |g.objs|)
    && (forall o :: o in hooks.second ==> o < |g.objs|)
    && (forall o :: o in hooks.third ==> o < |g.objs|)
  }

  /** Which registrations a finalization queues. */
  ghost predicate Queued(p: Plan, e: Fo) {
    e.base !in match e.level case 1 => p.links case 2 => p.level1 case _ => p.ordered
  }

  /** The objects of queued registrations of a level. */
  ghost function LevelBases(queued: seq<Fo>, level: nat): set<nat> {
    set e | e in queued && e.level == level :: e.base
  }

  /** What the eager levels have to do, said without the mark sets in between.  Before the walk
      over the ordered objects, exactly what the marks, the later hooks and the queued eager
      objects reach is marked.  An object of level 1 is queued exactly if it was unmarked; one
      of level 2 exactly if besides no queued object of level 1 and not the second hook
      reaches it. */
  ghost predicate EagerRule(g: Graph, fos: set<Fo>, links: set<nat>, hooks: Hooks, queued: seq<Fo>, m: set<nat>) {
    && m == ReachSet(g,
      links + SetOf(hooks.second) + SetOf(hooks.third) + LevelBases(queued, 1) + LevelBases(queued, 2))
    && (forall e :: e in fos && e.level == 1 ==> (e in queued <==> e.base !in links))
    && (forall e :: e in fos && e.level == 2 ==>
      (e in queued <==>
        && e.base !in links && e.base !in ReachSet(g, LevelBases(queued, 1))
        && e.base !in ReachSet(g, SetOf(hooks.second))))
  }

  /** No dead ordered object leads to o. */
  ghost predicate LedToByNone(g: Graph, fos: set<Fo>, m: set<nat>, o: nat) {
    forall d :: d in fos && d.level == 0 && d.base !in m ==> o !in ReachPlus(g, {d.base})
  }

  /** What a whole finalization has to do, given the objects that were given up, where m is
      marked before the walk over the ordered objects and m' at the end. */
  ghost predicate FinalizeRule(g: Graph, fos: set<Fo>, links: set<nat>, hooks: Hooks, given: set<nat>, queued: seq<Fo>,
      m: set<nat>, m': set<nat>) {
    && (forall e :: e in queued ==> e in fos)
    && EagerRule(g, fos, links, hooks, queued, m)
    && (forall e :: e in fos && !e.Eager() ==>
      (e in queued <==> e.base !in m && e.base !in given && LedToByNone(g, fos, m, e.base)))
    && m' == m + ReachPlus(g, Dead(fos, 0, m)) + given + Bases(queued)
  }

  /** The queued objects of a level without a pass have had their targets marked. */
  ghost predicate LateTraced(g: Graph, queued: seq<Fo>, m: set<nat>) {
    forall e :: e in queued && e.level > 2 ==> Traced(g, m, e.base)
  }

  /** Levels, or all registrations. */
  datatype Which = AnyLevel | Level(n: nat) {
    predicate Selects(e: Fo) { AnyLevel? || e.level == n }
    predicate Eager() { Level? && n != 0 }
  }

  function Base(e: Fo): nat { e.base }

  /** One registration per object. */
  ghost predicate DistinctBases(chain: seq<Fo>) {
    forall a, b :: 0 <= a < b < |chain| ==> chain[a].base != chain[b].base
  }

  ghost predicate FoTableOk(g: Graph, table: seq<seq<Fo>>, hash: Hash) {
    forall k: nat :: Open(k) ==> RegistrationsOk(g, table, hash)
  }

  /** Every registration is in its chain, and an object has one at most. */
  ghost predicate RegistrationsOk(g: Graph, table: seq<seq<Fo>>, hash: Hash) {
    && HashOk(hash) && Hashed(table, Base, hash)
    && (forall i :: 0 <= i < |table| ==> DistinctBases(table[i]))
    && (forall i, e :: 0 <= i < |table| && e in table[i] ==> e.base < |g.objs|)
  }

  ghost function FoSet(table: seq<seq<Fo>>): set<Fo> {
    set i, e | 0 <= i < |table| && e in table[i] :: e
  }

  ghost function Bases(es: seq<Fo>): set<nat> {
    set e | e in es :: e.base
  }

  function Ids(q: seq<Fo>): seq<nat> { seq(|q|, i requires 0 <= i < |q| => q[i].id) }

  /** The queue without the first registration of the object. */
  function WithoutFirst(q: seq<Fo>, obj: nat): seq<Fo> {
    if q == [] then [] else if q[0].base == obj then q[1..] else [q[0]] + WithoutFirst(q[1..], obj)
  }

  lemma {:induction false} WithoutFirstAt(q: seq<Fo>, j: nat, obj: nat)
    requires j <= |q| && (forall k :: 0 <= k < j ==> q[k].base != obj) && (j < |q| ==> q[j].base == obj)
    ensures WithoutFirst(q, obj) == if j < |q| then q[..j] + q[j + 1..] else q
  {
    if j > 0 {
      var rest := q[1..];
      WithoutFirstAt(rest, j - 1, obj);
      if j < |q| {
        InFront(q[0], rest, rest[..j - 1], rest[j..], q, j);
      } else {
        assert q == [q[0]] + rest;
      }
    }
  }

  lemma InFront(x: Fo, rest: seq<Fo>, a: seq<Fo>, b: seq<Fo>, q: seq<Fo>, j: nat)
    requires 0 < j < |q| && q == [x] + rest && a == rest[..j - 1] && b == rest[j..]
    ensures [x] + (a + b) == q[..j] + q[j + 1..]
  {
    assert q[..j] == [x] + a;
    assert q[j + 1..] == b;
  }

  lemma {:induction false} WithoutFirstMultiset(q: seq<Fo>, obj: nat)
    ensures multiset(WithoutFirst(q, obj)) <= multiset(q)
  {
    if q != [] {
      assert q == [q[0]] + q[1..];
      WithoutFirstMultiset(q[1..], obj);
    }
  }

  lemma SameRegistration(g: Graph, table: seq<seq<Fo>>, e: Fo, f: Fo, hash: Hash)
    requires FoTableOk(g, table, hash) && e in Entries(table) && f in Entries(table) && e.base == f.base
    ensures e == f
  {
    assert Open(0);
    var i := EntryInChain(table, e);
    var j := EntryInChain(table, f);
    assert hash(Base(e), |table|) == i && hash(Base(f), |table|) == j;
    var a :| 0 <= a < |table[i]| && table[i][a] == e;
    var b :| 0 <= b < |table[i]| && table[i][b] == f;
  }

  lemma HashInRange(g: Graph, table: seq<seq<Fo>>, hash: Hash)
    requires FoTableOk(g, table, hash)
    ensures HashOk(hash)
  {
    assert Open(0);
  }

  /** No registration is in the table twice. */
  lemma OnceEach(entries: multiset<Fo>, ready: seq<Fo>, ran: seq<nat>, nextId: nat)
    requires Separate(entries + multiset(ready), ran, nextId)
    ensures forall e :: e in entries ==> entries[e] == 1
  {
    assert Open(0);
    assert forall e :: e in entries ==> e in entries + multiset(ready);
  }

  /** Growing keeps one registration per object. */
  lemma GrownOk(g: Graph, was: seq<seq<Fo>>, now: seq<seq<Fo>>, hash: Hash)
    requires FoTableOk(g, was, hash) && Hashed(now, Base, hash) && Entries(now) == Entries(was)
    requires forall e :: e in Entries(was) ==> Entries(was)[e] == 1
    ensures FoTableOk(g, now, hash)
  {
    assert RegistrationsOk(g, was, hash) by { assert Open(0); }
    forall i, e | 0 <= i < |now| && e in now[i] ensures e.base < |g.objs| {
      ChainInEntries(now, i, e);
      var k := EntryInChain(was, e);
    }
    forall i: nat | i < |now| ensures DistinctBases(now[i]) {
      forall a: nat, b: nat | a < b < |now[i]| ensures now[i][a].base != now[i][b].base {
        ChainInEntries(now, i, now[i][a]);
        ChainInEntries(now, i, now[i][b]);
        ChainWithinEntries(now, i);
        if now[i][a].base == now[i][b].base {
          SameRegistration(g, was, now[i][a], now[i][b], hash);
          TwoPlaces(now[i], a, b);
        }
      }
    }
  }

  /** The chain with its entry at j replaced, deleted or, at the end of the search, with a new
      one in front. */
  function Edited(chain: seq<Fo>, j: nat, put: Option<Fo>): seq<Fo>
    requires j <= |chain|
  {
    match put
    case None => if j < |chain| then chain[..j] + chain[j + 1..] else chain
    case Some(e) => if j < |chain| then chain[j := e] else [e] + chain
  }

  lemma EditedChain(chain: seq<Fo>, j: nat, obj: nat, put: Option<Fo>)
    requires DistinctBases(chain) && j <= |chain| && (forall k :: 0 <= k < j ==> chain[k].base != obj)
    requires (put.Some? ==> put.value.base == obj) && (j < |chain| ==> chain[j].base == obj)
    ensures DistinctBases(Edited(chain, j, put))
    ensures forall e :: e in Edited(chain, j, put) ==> e in chain || put == Some(e)
    ensures multiset(Edited(chain, j, put)) + (if j < |chain| then multiset{chain[j]} else multiset{}) ==
      multiset(chain) + if put.Some? then multiset{put.value} else multiset{}
  {
    var more := if put.Some? then [put.value] else [];
    assert multiset(more) == if put.Some? then multiset{put.value} else multiset{};
    ChainEdited(chain, j, obj, more);
    if j < |chain| {
      assert Edited(chain, j, put) == chain[..j] + more + chain[j + 1..];
    } else {
      assert Edited(chain, j, put) == more + chain;
    }
  }

  /** The same, with what is put as a sequence. */
  lemma ChainEdited(chain: seq<Fo>, j: nat, obj: nat, put: seq<Fo>)
    requires DistinctBases(chain) && j <= |chain| && (forall k :: 0 <= k < j ==> chain[k].base != obj)
    requires |put| <= 1 && (forall e :: e in put ==> e.base == obj)
    requires j < |chain| ==> chain[j].base == obj
    ensures j == |chain| ==> DistinctBases(put + chain) && multiset(put + chain) == multiset(chain) + multiset(put)
    ensures j < |chain| ==> var c := chain[..j] + put + chain[j + 1..];
      DistinctBases(c) && multiset(c) + multiset{chain[j]} == multiset(chain) + multiset(put)
  {
    if j == |chain| {
      assert multiset(put + chain) == multiset(chain) + multiset(put);
    } else {
      ChainExchanged(chain, j, put);
      assert chain == chain[..j] + [chain[j]] + chain[j + 1..];
      calc {
        multiset(chain[..j] + put + chain[j + 1..]) + multiset{chain[j]};
        multiset(chain[..j]) + multiset(put) + multiset(chain[j + 1..]) + multiset{chain[j]};
        (multiset(chain[..j]) + multiset{chain[j]} + multiset(chain[j + 1..])) + multiset(put);
        multiset(chain) + multiset(put);
      }
    }
  }

  lemma ChainExchanged(chain: seq<Fo>, j: nat, put: seq<Fo>)
    requires DistinctBases(chain) && j < |chain|
    requires |put| <= 1 && (forall e :: e in put ==> e.base == chain[j].base)
    ensures DistinctBases(chain[..j] + put + chain[j + 1..])
  {
    var c := chain[..j] + put + chain[j + 1..];
    forall a, b | 0 <= a < b < |c| ensures c[a].base != c[b].base {
      var x := if a < j then a else a + 1 - |put|;
      var y := if b < j then b else b + 1 - |put|;
      assert c[a].base == chain[x].base && c[b].base == chain[y].base && x < y;
    }
  }

  lemma InRange(g: Graph, table: seq<seq<Fo>>, i: nat, hash: Hash)
    requires FoTableOk(g, table, hash) && i < |table|
    ensures DistinctBases(table[i])
    ensures forall e :: e in table[i] ==> hash(e.base, |table|) == i && e.base < |g.objs|
  {
    assert Open(0);
    assert forall e :: e in table[i] ==> hash(Base(e), |table|) == i;
  }

  /** The object's registration, if any, is the one the search finds. */
  lemma OnlyInChain(g: Graph, table: seq<seq<Fo>>, i: nat, j: nat, obj: nat, hash: Hash)
    requires FoTableOk(g, table, hash) && i < |table| && i == hash(obj, |table|)
    requires j <= |table[i]| && (forall k :: 0 <= k < j ==> table[i][k].base != obj)
    requires j < |table[i]| ==> table[i][j].base == obj
    ensures forall e :: e in Entries(table) && e.base == obj ==> j < |table[i]| && e == table[i][j]
    ensures j < |table[i]| ==> table[i][j] in Entries(table)
  {
    assert Open(0);
    if j < |table[i]| {
      ChainInEntries(table, i, table[i][j]);
    }
    forall e | e in Entries(table) && e.base == obj ensures j < |table[i]| && e == table[i][j] {
      var k := EntryInChain(table, e);
      assert hash(Base(e), |table|) == k;
      var a :| 0 <= a < |table[i]| && table[i][a] == e;
      assert a >= j;
    }
  }

  /** The entries seen so far are either taken out or left in the chain. */
  ghost predicate ChainSplit(seen: seq<Fo>, left: seq<Fo>, queued: seq<Fo>, which: Which, m: set<nat>) {
    forall k: nat :: Open(k) ==> SplitInTwo(seen, left, queued, which, m)
  }

  ghost predicate SplitInTwo(seen: seq<Fo>, left: seq<Fo>, queued: seq<Fo>, which: Which, m: set<nat>) {
    && (forall e :: e in queued <==> e in seen && Hit(which, m, e))
    && (forall e :: e in left <==> e in seen && !Hit(which, m, e))
    && multiset(left) + multiset(queued) == multiset(seen)
    && DistinctBases(left)
  }

  lemma SplitOff(seen: seq<Fo>, e: Fo, left: seq<Fo>, queued: seq<Fo>, which: Which, m: set<nat>)
    requires ChainSplit(seen, left, queued, which, m) && forall x :: x in seen ==> x.base != e.base
    ensures Hit(which, m, e) ==> ChainSplit(seen + [e], left, [e] + queued, which, m)
    ensures !Hit(which, m, e) ==> ChainSplit(seen + [e], left + [e], queued, which, m)
    ensures e.base !in Bases(queued)
  {
    assert SplitInTwo(seen, left, queued, which, m) by { assert Open(0); }
    assert multiset(seen + [e]) == multiset(seen) + multiset{e};
    assert multiset([e] + queued) == multiset(queued) + multiset{e};
    assert multiset(left + [e]) == multiset(left) + multiset{e};
  }

  /** The heap is in order and its roots are marked. */
  ghost predicate HeapReady(h: Heap, m: set<nat>) { h.Valid() && h.RootTargets() <= m }

  ghost predicate Ready(h: Heap, m: set<nat>, size: nat) {
    INITIAL_MARK_STACK_SIZE <= size && forall k: nat :: Open(k) ==> HeapReady(h, m)
  }

  lemma GivesObjects(g: Graph, size: nat, m: set<nat>, o: nat, r: set<nat>, lost: bool)
    requires Gives(g, size, m, o, r, lost)
    ensures m <= r && r + {o} <= AllObjects(g)
  {
    GivesWithin(g, size, m, o, r, lost);
  }

  lemma RootsInside(h: Heap, m: set<nat>, m': set<nat>, o: nat)
    requires Ready(h, m, INITIAL_MARK_STACK_SIZE) && m <= m'
    ensures h.RootTargets() + m' + {o} == m' + {o}
  {
    assert Open(0);
  }

  /** What marking from one object has come to. */
  lemma GivesWithin(g: Graph, size: nat, m: set<nat>, o: nat, r: set<nat>, lost: bool)
    requires Gives(g, size, m, o, r, lost)
    ensures WellFormed(g) && m <= AllObjects(g) && o < |g.objs| && INITIAL_MARK_STACK_SIZE <= size
    ensures lost <==> Overflows(g, size, m, o)
    ensures m <= r <= m + ReachPlus(g, {o}) && r + {o} <= AllObjects(g)
    ensures !lost ==> forall x :: x == o || x in r - m ==> Traced(g, r, x)
  {
    assert Open(0);
    FromReaches(g, size, m, o);
  }

  /** With at least these marks, and a mark stack of at least this size, marking from some object
      overflows it. */
  ghost predicate MayOverflow(g: Graph, m: set<nat>, size: nat) {
    exists m', o, size' :: m <= m' && size <= size' && OverflowsAt(g, size', m', o)
  }

  ghost predicate OverflowsAt(g: Graph, size: nat, m: set<nat>, o: nat) {
    && WellFormed(g) && m <= AllObjects(g) && o < |g.objs| && INITIAL_MARK_STACK_SIZE <= size
    && Overflows(g, size, m, o)
  }

  lemma GraphOk(h: Heap)
    requires h.Valid()
    ensures WellFormed(h.graph)
  {
    assert Open(0);
  }

  lemma ReadyGrows(h: Heap, m: set<nat>, size: nat, m': set<nat>, size': nat)
    requires Ready(h, m, size) && m <= m' && size <= size'
    ensures Ready(h, m', size')
  {
    assert Open(0);
  }

  lemma GaveUp(g: Graph, m: set<nat>, m': set<nat>, o: nat)
    requires WellFormed(g) && Closed(g, m) && m' <= AllObjects(g) && o < |g.objs|
    requires m + {o} <= m' <= m + ReachPlus(g, {o}) + {o}
    ensures ReachSet(g, m') == m + ReachPlus(g, {o}) + {o}
  {
    SelfAndPlusClosed(g, m, o);
    ReachSetLeast(g, m', m + ReachPlus(g, {o}) + {o});
    SourcesReachable(g, m');
    ReachSetClosed(g, m');
    TracedAbsorbs(g, ReachSet(g, m'), {o});
  }

  lemma AllTraced(g: Graph, m: set<nat>, m': set<nat>, o: nat)
    requires WellFormed(g) && Closed(g, m) && m <= m' <= m + ReachPlus(g, {o})
    requires forall x :: x == o || x in m' - m ==> Traced(g, m', x)
    ensures m' == m + ReachPlus(g, {o})
  {
    forall x, t | x in m' && Edge(g, x, t) ensures t in m' {
      assert x in m ==> t in m;
      assert x !in m ==> Traced(g, m', x);
    }
    TracedAbsorbs(g, m', {o});
  }

  lemma OneRoot(g: Graph, m: set<nat>, o: nat, m1: set<nat>, m2: set<nat>)
    requires WellFormed(g) && Closed(g, m) && m <= AllObjects(g) && o < |g.objs| && m1 == m + {o}
    requires m1 <= m2 <= ReachSet(g, m1) && Traced(g, m2, o) && forall x :: x in m2 - m1 ==> Traced(g, m2, x)
    ensures Closed(g, m2) && m2 == m + ReachSet(g, {o})
  {
    SourcesReachable(g, {o});
    ReachSetClosed(g, {o});
    ReachSetLeast(g, m1, m + ReachSet(g, {o}));
    forall x, t | x in m2 && Edge(g, x, t) ensures t in m2 {
      assert x in m ==> t in m;
      assert x !in m ==> Traced(g, m2, x);
    }
    ReachSetLeast(g, {o}, m2);
  }

  lemma RootBound(g: Graph, m: set<nat>, all: set<nat>, o: nat)
    requires WellFormed(g) && o in all && all <= AllObjects(g)
    ensures ReachSet(g, {o}) <= ReachSet(g, all)
  {
    ReachSetClosed(g, all);
    SourcesReachable(g, all);
    ReachSetLeast(g, {o}, ReachSet(g, all));
  }

  /** The objects with ordered finalizers, in the order of the table. */
  function OrderedOf(chain: seq<Fo>): seq<nat> {
    if chain == [] then []
    else
      var last := chain[|chain| - 1];
      OrderedOf(chain[..|chain| - 1]) + if last.level == 0 then [last.base] else []
  }

  lemma OrderedAppend(chain: seq<Fo>, e: Fo)
    ensures OrderedOf(chain + [e]) == OrderedOf(chain) + if e.level == 0 then [e.base] else []
  {
    assert (chain + [e])[..|chain|] == chain;
  }

  /** Eager levels do not touch the ordered registrations. */
  ghost predicate SameOrdered(which: Which, left: seq<Fo>, seen: seq<Fo>) {
    which.Eager() ==> OrderedOf(left) == OrderedOf(seen)
  }

  lemma OrderKept(seen: seq<Fo>, e: Fo, left: seq<Fo>, which: Which, m: set<nat>)
    requires SameOrdered(which, left, seen)
    ensures if Hit(which, m, e) then SameOrdered(which, left, seen + [e])
      else SameOrdered(which, left + [e], seen + [e])
  {
    OrderedAppend(seen, e);
    OrderedAppend(left, e);
  }

  function Walk(table: seq<seq<Fo>>): seq<nat> {
    if table == [] then [] else Walk(table[..|table| - 1]) + OrderedOf(table[|table| - 1])
  }

  /** What is queued and marked, given the walk over the dead ordered objects. */
  ghost predicate QueuedBy(g: Graph, fos: set<Fo>, links: set<nat>, hooks: Hooks, run: seq<Stage>, queued: seq<Fo>,
      m: set<nat>) {
    && run != [] && run[0].given == {}
    && var p := PlanOf(g, fos, links, hooks, Last(run).given);
      && run[0].marks == p.level2 && m == p.ordered + Bases(queued)
      && (forall e :: e in queued <==> e in fos && Queued(p, e))
  }

  /** The walk visits the objects with ordered finalizers. */
  lemma {:induction false} WalkMembers(table: seq<seq<Fo>>, o: nat)
    ensures o in Walk(table) <==> exists e :: e in FoSet(table) && e.level == 0 && e.base == o
  {
    if table != [] {
      var n := |table| - 1;
      WalkMembers(table[..n], o);
      ChainMembers(table[n], o);
      assert forall e :: e in FoSet(table) <==> e in FoSet(table[..n]) || e in table[n];
    }
  }

  lemma {:induction false} ChainMembers(chain: seq<Fo>, o: nat)
    ensures o in OrderedOf(chain) <==> exists e :: e in chain && e.level == 0 && e.base == o
  {
    if chain != [] {
      var n := |chain| - 1;
      ChainMembers(chain[..n], o);
      assert chain == chain[..n] + [chain[n]];
    }
  }

  lemma WalkDead(table: seq<seq<Fo>>, m: set<nat>)
    ensures DeadOf(Walk(table), m) == Dead(FoSet(table), 0, m)
  {
    forall o: nat ensures o in DeadOf(Walk(table), m) <==> o in Dead(FoSet(table), 0, m) {
      WalkMembers(table, o);
    }
  }

  lemma NothingGivenUp(g: Graph, m: set<nat>, walk: seq<nat>, run: seq<Stage>)
    requires IsRun(g, walk, run) && run[0].given == {} && m <= run[0].marks && |Unscanned(g, m)| < run[0].size
    ensures Last(run).given == {}
  {
    UnscannedShrinks(g, m, run[0].marks);
    GivenUpIff(g, walk, run);
    EnoughRoom(g, run[0].size, run[0].marks, walk);
  }

  class Finalizer {
    var graph: Graph
    var blocks: seq<Block>
    var roots: seq<RootArea>
    var stackSize: nat
    const hash: Hash
    var marks: set<nat>
    var foTable: seq<seq<Fo>>
    var foEntries: int
    /** GC_finalize_now */
    var ready: seq<Fo>
    var dlTable: seq<seq<Dl>>
    var dlEntries: int
    /** Registrations made so far, and those whose finalizer was called, in order. */
    var nextId: nat
    var ran: seq<nat>
    /** The collector has given up, and with it the program. */
    var aborted: bool

    /** Nothing is registered and no table is allocated yet; a collection has finished. */
    constructor (heap: Heap, m: set<nat>, size: nat, h: Hash)
      requires HashOk(h) && Closed(heap.graph, m) && m <= AllObjects(heap.graph)
      requires INITIAL_MARK_STACK_SIZE <= size && HeapReady(heap, m)
      ensures TablesOk() && LinksOk() && LifecycleOk() && MarkerOk() && Closed(graph, marks)
      ensures foTable == [] && dlTable == [] && ready == [] && ran == [] && nextId == 0 && !aborted
    {
      graph, blocks, roots, hash, marks, stackSize := heap.graph, heap.blocks, heap.roots, h, m, size;
      foTable, foEntries, dlTable, dlEntries := [], 0, [], 0;
      ready, ran, nextId, aborted := [], [], 0, false;
      new;
      GraphOk(heap);
    }

    /** The roots are marked. */
    ghost predicate MarkerOk()
      reads this
    {
      Ready(Heap(graph, blocks, roots), marks, stackSize)
    }

    /** The marker can recover from an overflow: static data fits in the stack. */
    ghost predicate Fits()
      reads this
    {
      Heap(graph, blocks, roots).StaticDataFits(stackSize)
    }

    /** Fewer unmarked objects have words than the mark stack has room for. */
    ghost predicate RoomLeft()
      reads this
    {
      |Unscanned(graph, marks)| < stackSize
    }

    ghost predicate TablesOk()
      reads this
    {
      && WellFormed(graph) && marks <= AllObjects(graph)
      && FoTableOk(graph, foTable, hash)
      && foEntries == |Entries(foTable)|
    }

    /** Walk one chain: unlink the unmarked registrations that are selected, mark their
        objects and put them in front of the ready queue. */
    method EnqueueChain(chain: seq<Fo>, which: Which) returns (left: seq<Fo>, ghost queued: seq<Fo>)
      requires DistinctBases(chain)
      modifies this`marks, this`ready, this`foEntries
      ensures ready == queued + old(ready) && marks == old(marks) + Bases(queued)
      ensures forall e :: e in queued <==> e in chain && which.Selects(e) && e.base !in old(marks)
      ensures forall e :: e in left <==> e in chain && !(which.Selects(e) && e.base !in old(marks))
      ensures multiset(left) + multiset(queued) == multiset(chain)
      ensures foEntries == old(foEntries) - |queued|
      ensures DistinctBases(left) && SameOrdered(which, left, chain)
    {
      left, queued := [], [];
      for j := 0 to |chain|
        invariant ready == queued + old(ready) && marks == old(marks) + Bases(queued)
        invariant ChainSplit(chain[..j], left, queued, which, old(marks))
        invariant SameOrdered(which, left, chain[..j])
        invariant foEntries == old(foEntries) - |queued|
      {
        var e := chain[j];
        assert chain[..j + 1] == chain[..j] + [e];
        assert forall x :: x in chain[..j] ==> x.base != e.base;
        SplitOff(chain[..j], e, left, queued, which, old(marks));
        OrderKept(chain[..j], e, left, which, old(marks));
        assert Bases([e] + queued) == Bases(queued) + {e.base};
        if which.Selects(e) && e.base !in marks {
          marks := marks + {e.base};
          foEntries := foEntries - 1;
          ready := [e] + ready;
          queued := [e] + queued;
        } else {
          left := left + [e];
        }
      }
      assert chain[..|chain|] == chain;
      assert SplitInTwo(chain, left, queued, which, old(marks)) by { assert Open(0); }
    }

    /** One chain of the table. */
    method EnqueueAt(i: nat, which: Which, ghost m: set<nat>) returns (ghost more: seq<Fo>)
      requires i < |foTable| && DistinctBases(foTable[i])
      requires forall e :: e in foTable[i] ==> (e.base in marks <==> e.base in m)
      modifies this`marks, this`ready, this`foEntries, this`foTable
      ensures |foTable| == |old(foTable)| && foTable == old(foTable)[i := foTable[i]] && DistinctBases(foTable[i])
      ensures ready == more + old(ready) && marks == old(marks) + Bases(more)
      ensures forall e :: e in more <==> e in old(foTable)[i] && Hit(which, m, e)
      ensures forall e :: e in foTable[i] <==> e in old(foTable)[i] && e !in more
      ensures Entries(foTable) + multiset(more) == Entries(old(foTable))
      ensures foEntries == old(foEntries) - |more|
      ensures SameOrdered(which, foTable[i], old(foTable)[i])
    {
      var left;
      left, more := EnqueueChain(foTable[i], which);
      foTable := foTable[i := left];
      EntriesUpdate(old(foTable), i, left);
      MoveOver(Entries(old(foTable)), Entries(foTable), multiset(left), multiset(more), multiset(old(foTable)[i]));
    }

    /** The loop over the whole table, in finalize_eagers (one level) and at the end of
        GC_finalize (all that are left). */
    method EnqueueUnmarked(which: Which) returns (ghost queued: seq<Fo>)
      requires TablesOk()
      modifies this`marks, this`ready, this`foEntries, this`foTable
      ensures TablesOk()
      ensures ready == queued + old(ready) && marks == old(marks) + Bases(queued)
      ensures forall e :: e in queued <==> e in FoSet(old(foTable)) && Hit(which, old(marks), e)
      ensures FoSet(foTable) == FoSet(old(foTable)) - (set e | e in queued)
      ensures Entries(foTable) + multiset(queued) == Entries(old(foTable))
      ensures which.Eager() ==> Walk(foTable) == Walk(old(foTable))
    {
      queued := WalkTable(which);
      WalkEnd(graph, old(foTable), foTable, queued, which, old(marks), hash);
      assert |Entries(foTable) + multiset(queued)| == |Entries(foTable)| + |queued|;
    }

    /** Mark from one finalizable object, recovering if the mark stack overflows: then the
        object itself is marked, and all that the marked objects reach. */
    method MarkFromObject(o: nat) returns (lost: bool, ghost r: set<nat>)
      requires !aborted && MarkerOk() && WellFormed(graph) && marks <= AllObjects(graph) && o < |graph.objs|
      modifies this`marks, this`stackSize, this`aborted
      ensures Gives(graph, old(stackSize), old(marks), o, r, lost)
      ensures !aborted ==> MarkerOk() && marks <= AllObjects(graph) && stackSize >= old(stackSize)
      ensures !lost ==> !aborted && marks == r && stackSize == old(stackSize)
      ensures lost && !aborted ==> marks == ReachSet(graph, r + {o}) && Closed(graph, marks)
      ensures old(Fits()) ==> !aborted && Fits()
      ensures aborted ==> OverflowsAt(graph, old(stackSize), old(marks), o)
    {
      var h := Heap(graph, blocks, roots);
      assert HeapReady(h, marks) by { assert Open(0); }
      var gc := new Collector.Idle(h, marks, stackSize, o);
      lost := gc.MarkObject(o);
      r := gc.marks;
      GivesObjects(graph, stackSize, marks, o, r, lost);
      if lost {
        GivesWithin(graph, stackSize, marks, o, r, lost);
        Recover(gc, o);
      } else {
        marks := gc.marks;
        ReadyGrows(h, old(marks), stackSize, marks, stackSize);
      }
    }

    /** The recovery from an overflow of the mark stack. */
    method Recover(gc: Collector, o: nat)
      requires !aborted && MarkerOk() && gc.heap == Heap(graph, blocks, roots) && gc.stackSize == stackSize
      requires gc.Sane() && o in gc.kept && gc.stack == [] && gc.state == INVALID && gc.scanPtr == 0
      requires gc.objectsAreMarked && marks <= gc.marks && gc.marks + {o} <= AllObjects(graph)
      modifies gc, this`marks, this`stackSize, this`aborted
      ensures !aborted ==> MarkerOk() && stackSize >= old(stackSize) && marks <= AllObjects(graph)
      ensures !aborted ==> marks == ReachSet(graph, old(gc.marks) + {o}) && Closed(graph, marks)
      ensures old(Fits()) ==> !aborted && Fits()
    {
      ghost var h, m := gc.heap, gc.marks + {o};
      var ok := gc.GiveUp(o);
      aborted := !ok;
      marks, stackSize := gc.marks, gc.stackSize;
      if ok {
        GraphOk(h);
        RootsInside(h, old(marks), old(gc.marks), o);
        ReachSetClosed(graph, m);
        SourcesReachable(graph, m);
        ReadyGrows(h, old(marks), old(stackSize), marks, stackSize);
      }
    }

    /** Mark from a finalizable object that is marked itself. */
    method MarkFromMarked(o: nat)
      requires !aborted && MarkerOk() && WellFormed(graph) && marks <= AllObjects(graph) && o in marks
      modifies this`marks, this`stackSize, this`aborted
      ensures !aborted ==> MarkerOk() && old(marks) <= marks <= ReachSet(graph, old(marks))
      ensures !aborted ==> marks <= AllObjects(graph)
      ensures !aborted ==> Traced(graph, marks, o) && forall x :: x in marks - old(marks) ==> Traced(graph, marks, x)
      ensures !aborted ==> stackSize >= old(stackSize) && (old(RoomLeft()) ==> stackSize == old(stackSize))
      ensures old(Fits()) ==> !aborted && Fits()
      ensures old(RoomLeft()) ==> !aborted
      ensures aborted ==> MayOverflow(graph, old(marks), old(stackSize))
    {
      SourcesReachable(graph, marks);
      WithinReach(graph, marks, {o});
      if RoomLeft() {
        NoOverflow(graph, stackSize, marks, o);
      }
      var lost, r := MarkFromObject(o);
      GivesWithin(graph, old(stackSize), old(marks), o, r, lost);
      if lost && !aborted {
        WithinReach(graph, old(marks), r);
        SourcesReachable(graph, r);
        assert r + {o} == r;
        assert forall x :: x in marks ==> Traced(graph, marks, x);
      }
    }

    /** finalize_eagers: queue the dead objects of a level, then mark all they reach. */
    method FinalizeEagers(level: nat) returns (ghost queued: seq<Fo>)
      requires !aborted && TablesOk() && MarkerOk() && Closed(graph, marks)
      modifies this`marks, this`stackSize, this`aborted, this`ready, this`foEntries, this`foTable
      ensures !aborted ==> TablesOk() && MarkerOk() && Closed(graph, marks) && Bases(queued) <= marks
      ensures !aborted ==> marks == old(marks) + ReachSet(graph, Dead(FoSet(old(foTable)), level, old(marks)))
      ensures !aborted ==> ready == queued + old(ready) && Entries(foTable) + multiset(queued) == Entries(old(foTable))
      ensures !aborted ==> FoSet(foTable) == FoSet(old(foTable)) - (set e | e in queued)
      ensures !aborted ==> forall e :: e in queued <==> e in FoSet(old(foTable)) && Hit(Level(level), old(marks), e)
      ensures !aborted ==> level != 0 ==> Walk(foTable) == Walk(old(foTable))
      ensures !aborted ==> stackSize >= old(stackSize) && (old(RoomLeft()) ==> stackSize == old(stackSize))
      ensures old(Fits()) ==> !aborted && Fits()
      ensures old(RoomLeft()) ==> !aborted
      ensures aborted ==> MayOverflow(graph, old(marks), old(stackSize))
    {
      var before := |ready|;
      queued := EnqueueUnmarked(Level(level));
      var count := |ready| - before;
      assert ready[..count] == queued;
      assert Bases(queued) == Dead(FoSet(old(foTable)), level, old(marks));
      ReadyGrows(Heap(graph, blocks, roots), old(marks), stackSize, marks, stackSize);
      UnscannedShrinks(graph, old(marks), marks);
      MarkQueued(count, old(marks));
    }

    /** Mark from the registrations that were queued last. */
    method MarkQueued(count: nat, ghost m: set<nat>)
      requires !aborted && MarkerOk() && WellFormed(graph) && count <= |ready| && Closed(graph, m)
      requires marks == m + Bases(ready[..count]) <= AllObjects(graph)
      modifies this`marks, this`stackSize, this`aborted
      ensures !aborted ==> MarkerOk() && Closed(graph, marks) && marks <= AllObjects(graph)
      ensures !aborted ==> Bases(ready[..count]) <= marks
      ensures !aborted ==> marks == m + ReachSet(graph, Bases(ready[..count]))
      ensures !aborted ==> stackSize >= old(stackSize) && (old(RoomLeft()) ==> stackSize == old(stackSize))
      ensures old(Fits()) ==> !aborted && Fits()
      ensures old(RoomLeft()) ==> !aborted
      ensures aborted ==> MayOverflow(graph, old(marks), old(stackSize))
    {
      ghost var bases := Bases(ready[..count]);
      SourcesReachable(graph, bases);
      ReachSetClosed(graph, bases);
      ghost var bound := m + ReachSet(graph, bases);
      for k := 0 to count
        invariant MarkerOk() && m + bases <= marks <= bound && marks <= AllObjects(graph)
        invariant forall x :: x in marks ==> Traced(graph, marks, x) || x in Bases(ready[k..count])
        invariant !aborted && old(marks) <= marks && stackSize >= old(stackSize) && (old(Fits()) ==> Fits())
        invariant old(RoomLeft()) ==> stackSize == old(stackSize)
      {
        assert ready[k..count] == [ready[k]] + ready[k + 1..count];
        assert ready[k] in ready[..count];
        ReachSetLeast(graph, marks, bound);
        UnscannedShrinks(graph, old(marks), marks);
        MarkFromMarked(ready[k].base);
        if aborted {
          return;
        }
      }
      ReachSetLeast(graph, bases, marks);
    }

    /** The marking loop for ordered finalizers.  Every step of the walk is as Next says, so
        that RunMarks and GivenUpIff apply to the run. */
    method MarkOrdered() returns (ghost run: seq<Stage>)
      requires !aborted && TablesOk() && MarkerOk() && Closed(graph, marks)
      modifies this`marks, this`stackSize, this`aborted
      ensures !aborted ==> TablesOk() && MarkerOk()
      ensures !aborted ==> IsRun(graph, Walk(foTable), run)
      ensures !aborted ==> run[0] == Stage(old(stackSize), old(marks), {})
      ensures !aborted ==> Last(run).marks == marks && Last(run).size == stackSize
      ensures old(Fits()) ==> !aborted && Fits()
      ensures old(RoomLeft()) ==> !aborted && RoomLeft()
      ensures aborted ==> MayOverflow(graph, old(marks), old(stackSize))
    {
      ghost var walk: seq<nat> := [];
      run := [Stage(stackSize, marks, {})];
      for i := 0 to |foTable|
        invariant MarkerOk() && IsRun(graph, walk, run) && walk == Walk(foTable[..i])
        invariant run[0] == Stage(old(stackSize), old(marks), {})
        invariant Last(run).marks == marks && Last(run).size == stackSize
        invariant !aborted && (old(Fits()) ==> Fits()) && (old(RoomLeft()) ==> RoomLeft())
        invariant old(marks) <= marks && stackSize >= old(stackSize)
      {
        assert foTable[..i + 1][..i] == foTable[..i];
        InRange(graph, foTable, i, hash);
        run := MarkOrderedChain(foTable[i], walk, run);
        if aborted {
          return;
        }
        walk := walk + OrderedOf(foTable[i]);
      }
      assert foTable[..|foTable|] == foTable;
      assert StageOk(graph, Last(run)) by { assert Open(0); }
    }

    method MarkOrderedChain(chain: seq<Fo>, ghost walk: seq<nat>, ghost run: seq<Stage>)
      returns (ghost run': seq<Stage>)
      requires !aborted && MarkerOk() && IsRun(graph, walk, run) && Last(run).marks == marks
      requires Last(run).size == stackSize
      requires forall e :: e in chain ==> e.base < |graph.objs|
      modifies this`marks, this`stackSize, this`aborted
      ensures !aborted ==> MarkerOk() && IsRun(graph, walk + OrderedOf(chain), run') && run'[0] == run[0]
      ensures !aborted ==> old(marks) <= marks && stackSize >= old(stackSize)
      ensures !aborted ==> Last(run').marks == marks && Last(run').size == stackSize
      ensures old(Fits()) ==> !aborted && Fits()
      ensures old(RoomLeft()) ==> !aborted && RoomLeft()
      ensures aborted ==> MayOverflow(graph, old(marks), old(stackSize))
    {
      run' := run;
      assert walk + [] == walk;
      for j := 0 to |chain|
        invariant MarkerOk() && IsRun(graph, walk + OrderedOf(chain[..j]), run') && run'[0] == run[0]
        invariant Last(run').marks == marks && Last(run').size == stackSize
        invariant !aborted && (old(Fits()) ==> Fits()) && (old(RoomLeft()) ==> RoomLeft())
        invariant old(marks) <= marks && stackSize >= old(stackSize)
      {
        var o := chain[j].base;
        assert chain[..j + 1] == chain[..j] + [chain[j]];
        OrderedAppend(chain[..j], chain[j]);
        if chain[j].level == 0 {
          run' := MarkOrderedObject(o, walk + OrderedOf(chain[..j]), run');
          if aborted {
            return;
          }
          assert walk + OrderedOf(chain[..j]) + [o] == walk + OrderedOf(chain[..j + 1]);
        } else {
          assert OrderedOf(chain[..j + 1]) == OrderedOf(chain[..j]);
        }
      }
      assert chain[..|chain|] == chain;
    }

    /** One step of the walk. */
    method MarkOrderedObject(o: nat, ghost walk: seq<nat>, ghost run: seq<Stage>) returns (ghost run': seq<Stage>)
      requires !aborted && MarkerOk() && IsRun(graph, walk, run) && Last(run).marks == marks
      requires Last(run).size == stackSize
      requires o < |graph.objs|
      modifies this`marks, this`stackSize, this`aborted
      ensures !aborted ==> MarkerOk() && IsRun(graph, walk + [o], run') && run'[0] == run[0]
      ensures !aborted ==> old(marks) <= marks && stackSize >= old(stackSize)
      ensures !aborted ==> Last(run').marks == marks && Last(run').size == stackSize
      ensures old(Fits()) ==> !aborted && Fits()
      ensures old(RoomLeft()) ==> !aborted && RoomLeft()
      ensures aborted ==> MayOverflow(graph, old(marks), old(stackSize))
    {
      run' := run;
      ghost var s := Last(run);
      assert StageOk(graph, s) by { assert Open(0); }
      ghost var lost := o !in marks && Overflows(graph, stackSize, marks, o);
      if o !in marks {
        MarkFromDead(o);
        if aborted {
          return;
        }
      }
      ghost var t := Stage(stackSize, marks, if lost then s.given + {o} else s.given);
      RunExtends(graph, walk, run, o, t);
      run' := run + [t];
    }

    /** Mark from a dead object; after an overflow the object itself gets marked too. */
    method MarkFromDead(o: nat)
      requires !aborted && MarkerOk() && WellFormed(graph) && Closed(graph, marks) && marks <= AllObjects(graph)
      requires o < |graph.objs| && o !in marks
      modifies this`marks, this`stackSize, this`aborted
      ensures !aborted ==> MarkerOk() && stackSize >= old(stackSize)
      ensures !aborted ==>
        if Overflows(graph, old(stackSize), old(marks), o) then marks == old(marks) + ReachPlus(graph, {o}) + {o}
        else marks == old(marks) + ReachPlus(graph, {o}) && stackSize == old(stackSize)
      ensures old(Fits()) ==> !aborted && Fits()
      ensures old(RoomLeft()) ==> !aborted && RoomLeft()
      ensures aborted ==> MayOverflow(graph, old(marks), old(stackSize))
    {
      SelfAndPlusClosed(graph, marks, o);
      if RoomLeft() {
        NoOverflow(graph, stackSize, marks, o);
      }
      var lost, r := MarkFromObject(o);
      GivesWithin(graph, old(stackSize), old(marks), o, r, lost);
      if lost {
        GaveUp(graph, old(marks), r + {o}, o);
      } else {
        AllTraced(graph, old(marks), marks, o);
        UnscannedShrinks(graph, old(marks), marks);
      }
    }

    /** GC_push_last_roots_again: mark some more objects and all they reach. */
    method PushLastRoots(extra: seq<nat>)
      requires !aborted && MarkerOk() && WellFormed(graph) && Closed(graph, marks) && marks <= AllObjects(graph)
      requires forall o :: o in extra ==> o < |graph.objs|
      modifies this`marks, this`stackSize, this`aborted
      ensures !aborted ==> marks == old(marks) + ReachSet(graph, SetOf(extra))
      ensures !aborted ==> MarkerOk() && Closed(graph, marks) && marks <= AllObjects(graph)
      ensures !aborted ==> stackSize >= old(stackSize) && (old(RoomLeft()) ==> stackSize == old(stackSize))
      ensures old(Fits()) ==> !aborted && Fits()
      ensures old(RoomLeft()) ==> !aborted
      ensures aborted ==> MayOverflow(graph, old(marks), old(stackSize))
    {
      for k := 0 to |extra|
        invariant !aborted && (old(Fits()) ==> Fits())
        invariant MarkerOk() && Closed(graph, marks) && old(marks) <= marks <= AllObjects(graph)
        invariant SetOf(extra[..k]) <= marks <= old(marks) + ReachSet(graph, SetOf(extra))
        invariant stackSize >= old(stackSize) && (old(RoomLeft()) ==> stackSize == old(stackSize))
      {
        assert extra[..k + 1] == extra[..k] + [extra[k]] && extra[k] in extra;
        UnscannedShrinks(graph, old(marks), marks);
        PushLastRoot(extra[k]);
        if aborted {
          return;
        }
        RootBound(graph, old(marks), SetOf(extra), extra[k]);
      }
      assert extra[..|extra|] == extra;
      ReachSetLeast(graph, SetOf(extra), marks);
    }

    method PushLastRoot(o: nat)
      requires !aborted && MarkerOk() && WellFormed(graph) && Closed(graph, marks) && marks <= AllObjects(graph)
      requires o < |graph.objs|
      modifies this`marks, this`stackSize, this`aborted
      ensures !aborted ==> MarkerOk() && Closed(graph, marks) && o in marks
      ensures !aborted ==> marks == old(marks) + ReachSet(graph, {o}) <= AllObjects(graph)
      ensures !aborted ==> stackSize >= old(stackSize) && (old(RoomLeft()) ==> stackSize == old(stackSize))
      ensures old(Fits()) ==> !aborted && Fits()
      ensures old(RoomLeft()) ==> !aborted
      ensures aborted ==> MayOverflow(graph, old(marks), old(stackSize))
    {
      ghost var m := marks + {o};
      marks := marks + {o};
      ReadyGrows(Heap(graph, blocks, roots), old(marks), stackSize, marks, stackSize);
      UnscannedShrinks(graph, old(marks), marks);
      MarkFromMarked(o);
      if aborted {
        return;
      }
      OneRoot(graph, old(marks), o, m, marks);
    }

    /** Walk one chain of links: unlink what the pass drops, and clear the cell unless it
        is gone itself. */
    method SweepChain(chain: seq<Dl>, pass: Pass) returns (left: seq<Dl>, cleared: set<nat>)
      requires DistinctLinks(chain)
      modifies this`dlEntries
      ensures forall d :: d in left <==> d in chain && !Drops(pass, marks, d)
      ensures forall l :: l in cleared <==>
        pass != DropDangling && exists d :: d in chain && Drops(pass, marks, d) && d.link == l
      ensures dlEntries == old(dlEntries) - |chain| + |left| && DistinctLinks(left)
    {
      left, cleared := [], {};
      for j := 0 to |chain|
        invariant forall d :: d in left <==> d in chain[..j] && !Drops(pass, marks, d)
        invariant forall l :: l in cleared <==>
          pass != DropDangling && exists d :: d in chain[..j] && Drops(pass, marks, d) && d.link == l
        invariant dlEntries == old(dlEntries) - j + |left| && DistinctLinks(left)
      {
        var d := chain[j];
        assert chain[..j + 1] == chain[..j] + [d];
        assert forall x :: x in chain[..j] ==> x.link != d.link;
        if Drops(pass, marks, d) {
          if pass != DropDangling {
            cleared := cleared + {d.link};
          }
          dlEntries := dlEntries - 1;
        } else {
          left := left + [d];
        }
      }
      assert chain[..|chain|] == chain;
    }

    /** The growing test of GC_register_finalizer_inner. */
    method EnsureRoom(growth: bool)
      requires !aborted && TablesOk() && LifecycleOk()
      modifies this`foTable, this`aborted
      ensures TablesOk() && Entries(foTable) == Entries(old(foTable))
      ensures aborted <==> old(foTable) == [] && !growth
      ensures if aborted then foTable == old(foTable) else |foTable| > 0
      ensures |foTable| == SizeFor(old(|foTable|), foEntries, growth)
    {
      aborted := foTable == [] && !growth;
      if growth && (foTable == [] || foEntries > |foTable|) {
        HashInRange(graph, foTable, hash);
        OnceEach(Entries(foTable), ready, ran, nextId);
        foTable := GrowTable(foTable, Base, hash);
        GrownOk(graph, old(foTable), foTable, hash);
      }
    }

    /** GC_register_finalizer_inner: register fn for an object at a level, or with None
        take its registration back, from the table or else from the ready queue.  `inHeap`
        says whether the object has a header, `growth` and `memory` whether the table and a
        new entry can be allocated; an initial table that cannot be allocated aborts.  An
        object has one registration at most: the new one replaces the old one. */
    method Register(obj: nat, fn: Option<nat>, level: nat, inHeap: bool, growth: bool, memory: bool)
      returns (oldFn: Option<nat>, ghost gone: multiset<Fo>, ghost came: multiset<Fo>)
      requires !aborted && TablesOk() && LifecycleOk() && (inHeap ==> obj < |graph.objs|)
      modifies this`foTable, this`foEntries, this`ready, this`nextId, this`aborted
      ensures TablesOk() && LifecycleOk() && (aborted <==> old(foTable) == [] && !growth)
      ensures aborted ==> foTable == old(foTable) && ready == old(ready)
      ensures |foTable| == SizeFor(old(|foTable|), old(foEntries), growth)
      ensures !aborted && fn.Some? && (oldFn.Some? || (inHeap && memory)) ==>
        came == multiset{Fo(old(nextId), obj, fn.value, level)}
      ensures fn.None? || (oldFn.None? && !(inHeap && memory)) ==> came == multiset{}
      ensures !aborted ==> Replaced(Entries(old(foTable)), Entries(foTable), obj, oldFn, gone, came)
      ensures !aborted ==> ready == if fn.None? && oldFn.None? then WithoutFirst(old(ready), obj) else old(ready)
    {
      oldFn, gone, came := Enter(obj, fn, level, inHeap, growth, memory);
      if aborted {
        return;
      }
      if fn.None? && oldFn.None? {
        Dequeue(obj);
      }
    }

    /** Take the object's first entry, if any, off the ready queue. */
    method Dequeue(obj: nat)
      requires TablesOk() && LifecycleOk()
      modifies this`ready
      ensures TablesOk() && LifecycleOk() && ready == WithoutFirst(old(ready), obj)
    {
      SmallerLive(Entries(foTable), ready, obj, ran, nextId);
      var j := Find(ready, obj);
      WithoutFirstAt(ready, j, obj);
      if j < |ready| {
        ready := ready[..j] + ready[j + 1..];
      }
    }

    /** The part of a registration that concerns the table. */
    method Enter(obj: nat, fn: Option<nat>, level: nat, inHeap: bool, growth: bool, memory: bool)
      returns (oldFn: Option<nat>, ghost gone: multiset<Fo>, ghost came: multiset<Fo>)
      requires !aborted && TablesOk() && LifecycleOk() && (inHeap ==> obj < |graph.objs|)
      modifies this`foTable, this`foEntries, this`nextId, this`aborted
      ensures TablesOk() && LifecycleOk() && (aborted <==> old(foTable) == [] && !growth)
      ensures aborted ==> foTable == old(foTable)
      ensures |foTable| == SizeFor(old(|foTable|), old(foEntries), growth)
      ensures !aborted && fn.Some? && (oldFn.Some? || (inHeap && memory)) ==>
        came == multiset{Fo(old(nextId), obj, fn.value, level)}
      ensures fn.None? || (oldFn.None? && !(inHeap && memory)) ==> came == multiset{}
      ensures !aborted ==> Replaced(Entries(old(foTable)), Entries(foTable), obj, oldFn, gone, came)
    {
      oldFn, gone, came := None, multiset{}, multiset{};
      EnsureRoom(growth);
      if aborted {
        return;
      }
      oldFn, gone, came := ChangeLive(obj, fn, level, inHeap && memory);
    }

    method ChangeLive(obj: nat, fn: Option<nat>, level: nat, possible: bool)
      returns (oldFn: Option<nat>, ghost gone: multiset<Fo>, ghost came: multiset<Fo>)
      requires TablesOk() && LifecycleOk() && |foTable| > 0 && (possible ==> obj < |graph.objs|)
      modifies this`foTable, this`foEntries, this`nextId
      ensures TablesOk() && LifecycleOk() && |foTable| == |old(foTable)|
      ensures fn.Some? && (oldFn.Some? || possible) ==> came == multiset{Fo(old(nextId), obj, fn.value, level)}
      ensures fn.None? || (oldFn.None? && !possible) ==> came == multiset{}
      ensures Replaced(Entries(old(foTable)), Entries(foTable), obj, oldFn, gone, came)
    {
      oldFn, gone, came := Change(obj, fn, level, possible);
      ghost var e := Fo(old(nextId), obj, if fn.Some? then fn.value else 0, level);
      SeenFromLive(Entries(old(foTable)), Entries(foTable), gone, came, e, ready, obj, oldFn, ran, old(nextId), nextId);
    }

    /** Delete or replace the object's registration, or make one if that is possible. */
    method Change(obj: nat, fn: Option<nat>, level: nat, possible: bool)
      returns (oldFn: Option<nat>, ghost gone: multiset<Fo>, ghost came: multiset<Fo>)
      requires TablesOk() && |foTable| > 0 && (possible ==> obj < |graph.objs|)
      modifies this`foTable, this`foEntries, this`nextId
      ensures TablesOk() && nextId == old(nextId) + |came| && |foTable| == |old(foTable)|
      ensures fn.Some? && (oldFn.Some? || possible) ==> came == multiset{Fo(old(nextId), obj, fn.value, level)}
      ensures fn.None? || (oldFn.None? && !possible) ==> came == multiset{}
      ensures Replaced(Entries(old(foTable)), Entries(foTable), obj, oldFn, gone, came)
    {
      gone, came := multiset{}, multiset{};
      var i, j := Search(obj);
      oldFn := if j < |foTable[i]| then Some(foTable[i][j].fn) else None;
      if oldFn.Some? || (fn.Some? && possible) {
        gone, came := Edit(i, j, obj, fn, level);
        if fn.Some? {
          nextId := nextId + 1;
        }
      }
    }

    /** Where an object's registration is in the table, or would go. */
    method Search(obj: nat) returns (i: nat, j: nat)
      requires TablesOk() && |foTable| > 0
      ensures i < |foTable| && i == hash(obj, |foTable|) && j <= |foTable[i]|
      ensures forall k :: 0 <= k < j ==> foTable[i][k].base != obj
      ensures j < |foTable[i]| ==> foTable[i][j].base == obj && foTable[i][j] in Entries(foTable)
      ensures j == |foTable[i]| ==> forall e :: e in Entries(foTable) ==> e.base != obj
    {
      HashInRange(graph, foTable, hash);
      i := hash(obj, |foTable|);
      j := Find(foTable[i], obj);
      OnlyInChain(graph, foTable, i, j, obj, hash);
    }

    /** Delete, replace or insert the registration of an object in its chain. */
    method Edit(i: nat, j: nat, obj: nat, fn: Option<nat>, level: nat)
      returns (ghost gone: multiset<Fo>, ghost came: multiset<Fo>)
      requires TablesOk() && i < |foTable| && i == hash(obj, |foTable|)
      requires j <= |foTable[i]| && (forall k :: 0 <= k < j ==> foTable[i][k].base != obj)
      requires j < |foTable[i]| ==> foTable[i][j].base == obj
      requires j == |foTable[i]| ==> fn.Some? && obj < |graph.objs|
      modifies this`foTable, this`foEntries
      ensures TablesOk() && |foTable| == |old(foTable)|
      ensures Entries(foTable) + gone == Entries(old(foTable)) + came
      ensures gone == if j < |old(foTable)[i]| then multiset{old(foTable)[i][j]} else multiset{}
      ensures came == if fn.Some? then multiset{Fo(nextId, obj, fn.value, level)} else multiset{}
    {
      var chain := foTable[i];
      gone := if j < |chain| then multiset{chain[j]} else multiset{};
      came := if fn.Some? then multiset{Fo(nextId, obj, fn.value, level)} else multiset{};
      InRange(graph, foTable, i, hash);
      var put := if fn.Some? then Some(Fo(nextId, obj, fn.value, level)) else None;
      EditedChain(chain, j, obj, put);
      SetChain(i, Edited(chain, j, put), gone, came);
    }

    ghost predicate LinksOk()
      reads this
    {
      LinkTableOk(dlTable, hash) && dlEntries == Total(dlTable)
    }

    /** GC_general_register_disappearing_link for a cell at an address that is `aligned` or not.
        A misaligned cell aborts, and so does an initial table that cannot be allocated. */
    method RegisterLink(d: Dl, aligned: bool, growth: bool, memory: bool) returns (code: LinkCode)
      requires !aborted && LinksOk()
      modifies this`dlTable, this`dlEntries, this`aborted
      ensures LinksOk() && (aborted <==> !aligned || (old(dlTable) == [] && !growth))
      ensures aborted ==> dlTable == old(dlTable)
      ensures !aborted ==> |dlTable| == SizeFor(old(|dlTable|), old(dlEntries), growth)
      ensures var was := DlSet(old(dlTable)); !aborted ==>
        && (code == Duplicate <==> HasLink(was, d.link))
        && (code == NoMemory <==> !HasLink(was, d.link) && !memory)
        && DlSet(dlTable) == match code
          case Entered => was + {d}
          case Duplicate => Retargeted(was, d.link, d.target)
          case NoMemory => was
    {
      code := NoMemory;
      if !aligned || (dlTable == [] && !growth) {
        aborted := true;
        return;
      }
      if dlTable == [] || (dlEntries > |dlTable| && growth) {
        dlTable := GrowTable(dlTable, Link, hash);
        GrownLinks(old(dlTable), dlTable, hash);
      }
      dlTable, code := PutLink(dlTable, hash, d, memory);
      if code == Entered {
        dlEntries := dlEntries + 1;
      }
    }

    /** GC_unregister_disappearing_link.  Before the first registration there is no table, and
        the code reads through a null pointer: `faulted` says so. */
    method UnregisterLink(link: nat, aligned: bool) returns (found: bool, faulted: bool)
      requires LinksOk()
      modifies this`dlTable, this`dlEntries
      ensures LinksOk() && (faulted <==> aligned && old(dlTable) == [])
      ensures found <==> aligned && HasLink(DlSet(old(dlTable)), link)
      ensures DlSet(dlTable) == set d | d in DlSet(old(dlTable)) && !(aligned && d.link == link)
    {
      found, faulted := false, aligned && dlTable == [];
      if aligned && !faulted {
        dlTable, found := RemoveLink(dlTable, hash, link);
        if found {
          dlEntries := dlEntries - 1;
        }
      }
    }

    /** One of the three loops over the whole link table. */
    method SweepLinks(pass: Pass) returns (cleared: set<nat>)
      requires LinksOk()
      modifies this`dlTable, this`dlEntries
      ensures LinksOk() && Swept(DlSet(old(dlTable)), DlSet(dlTable), pass, marks, cleared)
      ensures pass == DropDangling ==> cleared == {}
    {
      cleared := {};
      for i := 0 to |dlTable|
        invariant |dlTable| == |old(dlTable)| && dlEntries == Total(dlTable)
        invariant forall k :: i <= k < |dlTable| ==> dlTable[k] == old(dlTable)[k]
        invariant forall k :: 0 <= k < |dlTable| ==> DistinctLinks(dlTable[k])
        invariant forall k, d :: 0 <= k < i && d in old(dlTable)[k] ==> (d in dlTable[k] <==> !Drops(pass, marks, d))
        invariant forall k, d :: 0 <= k < |dlTable| && d in dlTable[k] ==> d in old(dlTable)[k]
        invariant forall l :: l in cleared <==>
          pass != DropDangling &&
          exists k, d :: 0 <= k < i && d in old(dlTable)[k] && Drops(pass, marks, d) && d.link == l
      {
        var left, more := SweepChain(dlTable[i], pass);
        TotalUpdate(dlTable, i, left);
        dlTable := dlTable[i := left];
        cleared := cleared + more;
      }
      SweepEnd(old(dlTable), dlTable, pass, marks, cleared);
    }

    /** The eager levels of GC_finalize. */
    method QueueEagers(hooks: Hooks) returns (ghost queued: seq<Fo>)
      requires !aborted && TablesOk() && MarkerOk() && Closed(graph, marks)
      requires HooksOk(graph, hooks)
      modifies this`marks, this`stackSize, this`aborted, this`ready, this`foEntries, this`foTable
      ensures !aborted ==> TablesOk() && MarkerOk() && Closed(graph, marks) && Bases(queued) <= marks
      ensures !aborted ==> marks == PlanOf(graph, FoSet(old(foTable)), old(marks), hooks, {}).level2
      ensures !aborted ==> ready == queued + old(ready) && Entries(foTable) + multiset(queued) == Entries(old(foTable))
      ensures !aborted ==> FoSet(foTable) == FoSet(old(foTable)) - (set e | e in queued)
      ensures !aborted ==> Walk(foTable) == Walk(old(foTable))
      ensures !aborted ==> forall e :: e in queued <==>
        e in FoSet(old(foTable)) && e.Eager() && Queued(PlanOf(graph, FoSet(old(foTable)), old(marks), hooks, {}), e)
      ensures !aborted ==> forall e :: e in FoSet(foTable) && e.Eager() ==> e.base in marks
      ensures !aborted ==> EagerRule(graph, FoSet(old(foTable)), old(marks), hooks, queued, marks)
      ensures !aborted ==> stackSize >= old(stackSize) && (old(RoomLeft()) ==> stackSize == old(stackSize))
      ensures old(Fits()) ==> !aborted && Fits()
      ensures old(RoomLeft()) ==> !aborted
      ensures aborted ==> MayOverflow(graph, old(marks), old(stackSize))
    {
      queued := [];
      ghost var fos, p := FoSet(foTable), PlanOf(graph, FoSet(foTable), marks, hooks, {});
      ghost var first := QueueLevel(1, hooks.second);
      if aborted {
        return;
      }
      ghost var mid, entries := FoSet(foTable), Entries(foTable);
      SameDead(fos, first, 2, marks);
      UnscannedShrinks(graph, old(marks), marks);
      ghost var second := QueueLevel(2, hooks.third);
      if aborted {
        return;
      }
      queued := second + first;
      QueueJoin(second, first, old(ready), entries, Entries(foTable));
      EagersQueued(fos, mid, FoSet(foTable), first, second, p);
      EagerPlan(graph, fos, old(marks), hooks, {}, queued, marks);
    }

    /** One eager level and the hook after it. */
    method QueueLevel(level: nat, hook: seq<nat>) returns (ghost queued: seq<Fo>)
      requires !aborted && TablesOk() && MarkerOk() && Closed(graph, marks) && level != 0
      requires forall o :: o in hook ==> o < |graph.objs|
      modifies this`marks, this`stackSize, this`aborted, this`ready, this`foEntries, this`foTable
      ensures !aborted ==> TablesOk() && MarkerOk() && Closed(graph, marks) && Bases(queued) <= marks
      ensures !aborted ==> old(marks) <= marks
      ensures !aborted ==> var dead := Dead(FoSet(old(foTable)), level, old(marks));
        marks == old(marks) + ReachSet(graph, dead) + ReachSet(graph, SetOf(hook))
      ensures !aborted ==> ready == queued + old(ready) && Entries(foTable) + multiset(queued) == Entries(old(foTable))
      ensures !aborted ==> FoSet(foTable) == FoSet(old(foTable)) - (set e | e in queued)
      ensures !aborted ==> Walk(foTable) == Walk(old(foTable))
      ensures !aborted ==> forall e :: e in queued <==> e in FoSet(old(foTable)) && Hit(Level(level), old(marks), e)
      ensures !aborted ==> stackSize >= old(stackSize) && (old(RoomLeft()) ==> stackSize == old(stackSize))
      ensures old(Fits()) ==> !aborted && Fits()
      ensures old(RoomLeft()) ==> !aborted
      ensures aborted ==> MayOverflow(graph, old(marks), old(stackSize))
    {
      queued := FinalizeEagers(level);
      if aborted {
        return;
      }
      UnscannedShrinks(graph, old(marks), marks);
      PushLastRoots(hook);
    }

    /** All of GC_finalize that concerns finalizers. */
    method QueueFinalizers(hooks: Hooks) returns (ghost queued: seq<Fo>, ghost run: seq<Stage>)
      requires !aborted && TablesOk() && MarkerOk() && Closed(graph, marks)
      requires HooksOk(graph, hooks)
      modifies this`marks, this`stackSize, this`aborted, this`ready, this`foEntries, this`foTable
      ensures !aborted ==> TablesOk() && MarkerOk() && old(marks) <= marks
      ensures !aborted ==> (Closed(graph, marks) <==> LateTraced(graph, queued, marks))
      ensures !aborted ==> ready == queued + old(ready) && Entries(foTable) + multiset(queued) == Entries(old(foTable))
      ensures !aborted ==> Bases(queued) <= marks && forall e :: e in FoSet(foTable) ==> e.base in marks
      ensures !aborted ==> IsRun(graph, Walk(old(foTable)), run)
      ensures !aborted ==> QueuedBy(graph, FoSet(old(foTable)), old(marks), hooks, run, queued, marks)
      ensures !aborted ==> run[0].size >= old(stackSize) && (old(RoomLeft()) ==> Last(run).given == {})
      ensures old(Fits()) ==> !aborted && Fits()
      ensures old(RoomLeft()) ==> !aborted
      ensures aborted ==> MayOverflow(graph, old(marks), old(stackSize))
    {
      queued, run := [], [];
      ghost var eager := QueueEagers(hooks);
      if aborted {
        return;
      }
      UnscannedShrinks(graph, old(marks), marks);
      ghost var entries, mid := Entries(foTable), FoSet(foTable);
      ghost var rest;
      rest, run := QueueOrdered();
      if aborted {
        return;
      }
      queued := rest + eager;
      QueueJoin(rest, eager, old(ready), entries, Entries(foTable));
      AllQueued(graph, FoSet(old(foTable)), mid, FoSet(foTable), old(marks), hooks, eager, rest, run, marks);
      if old(RoomLeft()) {
        NothingGivenUp(graph, old(marks), Walk(old(foTable)), run);
      }
    }

    /** Mark from the dead ordered objects and queue what is still dead. */
    method QueueOrdered() returns (ghost rest: seq<Fo>, ghost run: seq<Stage>)
      requires !aborted && TablesOk() && MarkerOk() && Closed(graph, marks)
      modifies this`marks, this`stackSize, this`aborted, this`ready, this`foEntries, this`foTable
      ensures !aborted ==> TablesOk() && MarkerOk()
      ensures !aborted ==> ready == rest + old(ready) && Entries(foTable) + multiset(rest) == Entries(old(foTable))
      ensures !aborted ==> FoSet(foTable) == FoSet(old(foTable)) - (set e | e in rest)
      ensures !aborted ==> IsRun(graph, Walk(old(foTable)), run) && run[0] == Stage(old(stackSize), old(marks), {})
      ensures !aborted ==> var dead, m := Dead(FoSet(old(foTable)), 0, old(marks)), Last(run).marks;
        && m == old(marks) + ReachPlus(graph, dead) + Last(run).given && Closed(graph, m)
        && (forall o :: o in dead ==> Traced(graph, m, o))
        && marks == m + Bases(rest) && forall e :: e in rest <==> e in FoSet(old(foTable)) && Hit(AnyLevel, m, e)
      ensures old(Fits()) ==> !aborted && Fits()
      ensures old(RoomLeft()) ==> !aborted
      ensures aborted ==> MayOverflow(graph, old(marks), old(stackSize))
    {
      rest := [];
      run := MarkOrdered();
      if aborted {
        return;
      }
      ghost var m := marks;
      RunMarks(graph, Walk(foTable), run);
      WalkDead(foTable, run[0].marks);
      rest := EnqueueUnmarked(AnyLevel);
      ReadyGrows(Heap(graph, blocks, roots), m, stackSize, marks, stackSize);
    }

    /** GC_finalize.  What is queued and what is marked are given by the plan; only the objects
        given up depend on the order of the tables, and there are none if there is room left
        in the mark stack.  The mark set stays closed, so that nothing a queued object can
        reach is reclaimed, exactly if the queued objects of levels without a pass have been
        marked from.  A normal link is cleared exactly if its target was unmarked before any
        finalization marking; a late link exactly if its cell survives and its target does
        not; and the links that stay registered have live targets and live cells. */
    method Finalize(hooks: Hooks) returns (zeroed: set<nat>, ghost queued: seq<Fo>, ghost run: seq<Stage>)
      requires !aborted && TablesOk() && LinksOk() && MarkerOk() && Closed(graph, marks) && HooksOk(graph, hooks)
      modifies this`marks, this`stackSize, this`aborted
      modifies this`ready, this`foEntries, this`foTable, this`dlTable, this`dlEntries
      ensures !aborted ==> TablesOk() && LinksOk() && MarkerOk() && old(marks) <= marks
      ensures !aborted ==> (Closed(graph, marks) <==> LateTraced(graph, queued, marks))
      ensures !aborted && (forall e :: e in FoSet(old(foTable)) ==> e.level <= 2) ==> Closed(graph, marks)
      ensures !aborted ==> Entries(foTable) + multiset(ready) == old(Entries(foTable) + multiset(ready))
      ensures !aborted ==> ready == queued + old(ready) && Entries(foTable) + multiset(queued) == Entries(old(foTable))
      ensures !aborted ==> Bases(queued) <= marks && forall e :: e in FoSet(foTable) ==> e.base in marks
      ensures !aborted ==> IsRun(graph, Walk(old(foTable)), run) && run[0].size >= old(stackSize)
      ensures !aborted ==> old(RoomLeft()) ==> Last(run).given == {}
      ensures !aborted ==> var links := old(marks) + ReachSet(graph, SetOf(hooks.first));
        && QueuedBy(graph, FoSet(old(foTable)), links, hooks, run, queued, marks)
        && FinalizeRule(graph, FoSet(old(foTable)), links, hooks, Last(run).given, queued, run[0].marks, marks)
        && LinkOutcome(DlSet(old(dlTable)), DlSet(dlTable), zeroed, links, marks)
      ensures old(Fits()) ==> !aborted && Fits()
      ensures old(RoomLeft()) ==> !aborted
      ensures aborted ==> MayOverflow(graph, old(marks), old(stackSize))
    {
      zeroed, queued, run := {}, [], [];
      PushLastRoots(hooks.first);
      if aborted {
        return;
      }
      UnscannedShrinks(graph, old(marks), marks);
      zeroed, queued, run := FinalizeMarked(hooks);
      if aborted {
        return;
      }
      QueueJoin(queued, old(ready), [], Entries(old(foTable)), Entries(foTable));
    }

    /** The rest of GC_finalize, after the first hook. */
    method FinalizeMarked(hooks: Hooks) returns (zeroed: set<nat>, ghost queued: seq<Fo>, ghost run: seq<Stage>)
      requires !aborted && TablesOk() && LinksOk() && MarkerOk() && Closed(graph, marks) && HooksOk(graph, hooks)
      modifies this`marks, this`stackSize, this`aborted
      modifies this`ready, this`foEntries, this`foTable, this`dlTable, this`dlEntries
      ensures !aborted ==> TablesOk() && LinksOk() && MarkerOk() && old(marks) <= marks
      ensures !aborted ==> (Closed(graph, marks) <==> LateTraced(graph, queued, marks))
      ensures !aborted ==> ready == queued + old(ready) && Entries(foTable) + multiset(queued) == Entries(old(foTable))
      ensures !aborted ==> Bases(queued) <= marks && forall e :: e in FoSet(foTable) ==> e.base in marks
      ensures !aborted ==> IsRun(graph, Walk(old(foTable)), run) && run[0].size >= old(stackSize)
      ensures !aborted ==> old(RoomLeft()) ==> Last(run).given == {}
      ensures !aborted ==> QueuedBy(graph, FoSet(old(foTable)), old(marks), hooks, run, queued, marks)
      ensures !aborted ==>
        FinalizeRule(graph, FoSet(old(foTable)), old(marks), hooks, Last(run).given, queued, run[0].marks, marks)
      ensures !aborted ==> LinkOutcome(DlSet(old(dlTable)), DlSet(dlTable), zeroed, old(marks), marks)
      ensures old(Fits()) ==> !aborted && Fits()
      ensures old(RoomLeft()) ==> !aborted
      ensures aborted ==> MayOverflow(graph, old(marks), old(stackSize))
    {
      ghost var links, dls := marks, DlSet(dlTable);
      LinksUnique(dlTable, hash);
      var normal := SweepLinks(ClearNormal);
      ghost var dls1 := DlSet(dlTable);
      zeroed := normal;
      queued, run := QueueFinalizers(hooks);
      if aborted {
        return;
      }
      PlanRule(graph, FoSet(old(foTable)), old(marks), hooks, run, queued, marks);
      var none := SweepLinks(DropDangling);
      ghost var dls2 := DlSet(dlTable);
      var late := SweepLinks(ClearLate);
      zeroed := normal + late;
      LinkPasses(dls, dls1, dls2, DlSet(dlTable), normal, late, links, marks);
    }

    /** Every registration made is waiting in the table, waiting in the ready queue, or
        gone for good; those whose finalizer ran are among the gone, once each. */
    ghost predicate LifecycleOk()
      reads this
    {
      Separate(Entries(foTable) + multiset(ready), ran, nextId)
    }

    /** One round of the loop of GC_invoke_finalizers. */
    method InvokeNext() returns (called: Option<Fo>)
      requires LifecycleOk()
      modifies this`ready, this`ran
      ensures LifecycleOk() && (old(TablesOk()) ==> TablesOk()) && (old(LinksOk()) ==> LinksOk())
      ensures old(ready) == [] ==> called == None && ready == [] && ran == old(ran)
      ensures old(ready) != [] ==>
        called == Some(old(ready)[0]) && ready == old(ready)[1..] && ran == old(ran) + [old(ready)[0].id]
    {
      if ready == [] {
        return None;
      }
      var e := ready[0];
      FirstRan(Entries(foTable), ready, ran, nextId);
      ready := ready[1..];
      ran := ran + [e.id];
      return Some(e);
    }

    /** GC_invoke_finalizers, with callbacks that register nothing. */
    method InvokeFinalizers() returns (count: nat)
      requires TablesOk() && LinksOk() && LifecycleOk()
      modifies this`ready, this`ran
      ensures TablesOk() && LinksOk() && LifecycleOk()
      ensures ready == [] && count == |old(ready)| && ran == old(ran) + Ids(old(ready))
    {
      count := 0;
      while ready != []
        invariant TablesOk() && LinksOk() && LifecycleOk()
        invariant count <= |old(ready)| && ready == old(ready)[count..] && ran == old(ran) + Ids(old(ready)[..count])
        decreases |ready|
      {
        assert old(ready)[..count + 1] == old(ready)[..count] + [old(ready)[count]];
        var called := InvokeNext();
        count := count + 1;
      }
      assert old(ready)[..count] == old(ready);
    }

    /** The next collection: the program has changed the heap, keeping the registered
        objects allocated, and marking has finished; then GC_finalize runs. */
    method FinishCollection(heap: Heap, marks': set<nat>, hooks: Hooks)
      returns (zeroed: set<nat>, ghost queued: seq<Fo>, ghost run: seq<Stage>)
      requires !aborted && TablesOk() && LinksOk() && LifecycleOk() && INITIAL_MARK_STACK_SIZE <= stackSize
      requires HeapReady(heap, marks')
      requires Closed(heap.graph, marks') && marks' <= AllObjects(heap.graph) && HooksOk(heap.graph, hooks)
      requires forall e :: e in Entries(foTable) ==> e.base < |heap.graph.objs|
      modifies this`graph, this`blocks, this`roots, this`marks, this`stackSize, this`aborted
      modifies this`ready, this`foEntries, this`foTable, this`dlTable, this`dlEntries
      ensures !aborted ==> TablesOk() && LinksOk() && LifecycleOk() && MarkerOk() && marks' <= marks
      ensures !aborted ==> (Closed(graph, marks) <==> LateTraced(graph, queued, marks))
      ensures !aborted ==> graph == heap.graph
      ensures !aborted ==> Entries(foTable) + multiset(ready) == old(Entries(foTable) + multiset(ready))
      ensures !aborted ==> ready == queued + old(ready) && IsRun(graph, Walk(old(foTable)), run)
      ensures !aborted ==> |Unscanned(graph, marks')| < old(stackSize) ==> Last(run).given == {}
      ensures !aborted ==> var links := marks' + ReachSet(graph, SetOf(hooks.first));
        && QueuedBy(graph, FoSet(old(foTable)), links, hooks, run, queued, marks)
        && FinalizeRule(graph, FoSet(old(foTable)), links, hooks, Last(run).given, queued, run[0].marks, marks)
        && LinkOutcome(DlSet(old(dlTable)), DlSet(dlTable), zeroed, links, marks)
      ensures heap.StaticDataFits(old(stackSize)) ==> !aborted && Fits()
      ensures |Unscanned(heap.graph, marks')| < old(stackSize) ==> !aborted
      ensures aborted ==> MayOverflow(heap.graph, marks', old(stackSize))
    {
      NextCycle(heap, marks');
      zeroed, queued, run := FinalizeKeeping(hooks);
    }

    method FinalizeKeeping(hooks: Hooks) returns (zeroed: set<nat>, ghost queued: seq<Fo>, ghost run: seq<Stage>)
      requires !aborted && TablesOk() && LinksOk() && LifecycleOk() && MarkerOk() && Closed(graph, marks)
      requires HooksOk(graph, hooks)
      modifies this`marks, this`stackSize, this`aborted
      modifies this`ready, this`foEntries, this`foTable, this`dlTable, this`dlEntries
      ensures !aborted ==> TablesOk() && LinksOk() && LifecycleOk() && MarkerOk() && old(marks) <= marks
      ensures !aborted ==> (Closed(graph, marks) <==> LateTraced(graph, queued, marks))
      ensures !aborted ==> Entries(foTable) + multiset(ready) == old(Entries(foTable) + multiset(ready))
      ensures !aborted ==> ready == queued + old(ready) && IsRun(graph, Walk(old(foTable)), run)
      ensures !aborted ==> old(RoomLeft()) ==> Last(run).given == {}
      ensures !aborted ==> var links := old(marks) + ReachSet(graph, SetOf(hooks.first));
        && QueuedBy(graph, FoSet(old(foTable)), links, hooks, run, queued, marks)
        && FinalizeRule(graph, FoSet(old(foTable)), links, hooks, Last(run).given, queued, run[0].marks, marks)
        && LinkOutcome(DlSet(old(dlTable)), DlSet(dlTable), zeroed, links, marks)
      ensures old(Fits()) ==> !aborted && Fits()
      ensures old(RoomLeft()) ==> !aborted
      ensures aborted ==> MayOverflow(graph, old(marks), old(stackSize))
    {
      zeroed, queued, run := Finalize(hooks);
    }

    method NextCycle(heap: Heap, marks': set<nat>)
      requires TablesOk() && LinksOk() && INITIAL_MARK_STACK_SIZE <= stackSize
      requires HeapReady(heap, marks') && marks' <= AllObjects(heap.graph)
      requires forall e :: e in Entries(foTable) ==> e.base < |heap.graph.objs|
      modifies this`graph, this`blocks, this`roots, this`marks
      ensures TablesOk() && LinksOk() && MarkerOk() && Heap(graph, blocks, roots) == heap && marks == marks'
    {
      GraphOk(heap);
      forall i, e | 0 <= i < |foTable| && e in foTable[i] ensures e.base < |heap.graph.objs| {
        ChainInEntries(foTable, i, e);
      }
      graph, blocks, roots, marks := heap.graph, heap.blocks, heap.roots, marks';
    }

    /** Position of the object's registration in a chain, or the chain's length. */
    static method Find(chain: seq<Fo>, obj: nat) returns (j: nat)
      ensures j <= |chain| && (forall k :: 0 <= k < j ==> chain[k].base != obj)
      ensures j < |chain| ==> chain[j].base == obj
    {
      j := 0;
      while j < |chain| && chain[j].base != obj
        invariant j <= |chain| && forall k :: 0 <= k < j ==> chain[k].base != obj
      {
        j := j + 1;
      }
    }

    /** Put another chain in place, with `gone` removed and `came` added. */
    method SetChain(i: nat, chain: seq<Fo>, ghost gone: multiset<Fo>, ghost came: multiset<Fo>)
      requires TablesOk() && i < |foTable| && DistinctBases(chain)
      requires multiset(chain) + gone == multiset(foTable[i]) + came
      requires forall e :: e in chain ==> hash(e.base, |foTable|) == i && e.base < |graph.objs|
      modifies this`foTable, this`foEntries
      ensures TablesOk() && |foTable| == |old(foTable)|
      ensures Entries(foTable) + gone == Entries(old(foTable)) + came
    {
      EntriesUpdate(foTable, i, chain);
      SwapChain(Entries(foTable), Entries(foTable[i := chain]), multiset(foTable[i]), multiset(chain), gone, came);
      CountUpdate(foTable, i, chain);
      foEntries := foEntries + |chain| - |foTable[i]|;
      foTable := foTable[i := chain];
    }

    method WalkChain(i: nat, which: Which, ghost was: seq<seq<Fo>>, ghost m: set<nat>, ghost rest: seq<Fo>,
        ghost queued: seq<Fo>)
      returns (ghost queued': seq<Fo>)
      requires FoTableOk(graph, was, hash) && i < |was| && Walked(was, foTable, i, queued, which, m)
      requires forall k :: 0 <= k < |foTable| ==> DistinctBases(foTable[k])
      requires ready == queued + rest && marks == m + Bases(queued)
      modifies this`marks, this`ready, this`foEntries, this`foTable
      ensures Walked(was, foTable, i + 1, queued', which, m)
      ensures forall k :: 0 <= k < |foTable| ==> DistinctBases(foTable[k])
      ensures ready == queued' + rest && marks == m + Bases(queued')
      ensures Entries(foTable) + multiset(queued') == Entries(old(foTable)) + multiset(queued)
      ensures foEntries == old(foEntries) - |queued'| + |queued|
    {
      NotYetQueued(graph, was, i, queued, hash);
      ghost var more := EnqueueAt(i, which, m);
      WalkStep(was, old(foTable), foTable, i, queued, more, which, m);
      QueueJoin(more, queued, rest, Entries(old(foTable)), Entries(foTable));
      queued' := more + queued;
    }

    method WalkTable(which: Which) returns (ghost queued: seq<Fo>)
      requires FoTableOk(graph, foTable, hash)
      modifies this`marks, this`ready, this`foEntries, this`foTable
      ensures Walked(old(foTable), foTable, |foTable|, queued, which, old(marks))
      ensures forall k :: 0 <= k < |foTable| ==> DistinctBases(foTable[k])
      ensures ready == queued + old(ready) && marks == old(marks) + Bases(queued)
      ensures Entries(foTable) + multiset(queued) == Entries(old(foTable))
      ensures foEntries == old(foEntries) - |queued|
    {
      queued := [];
      assert RegistrationsOk(graph, foTable, hash) by { assert Open(0); }
      for i := 0 to |foTable|
        invariant Walked(old(foTable), foTable, i, queued, which, old(marks))
        invariant forall k :: 0 <= k < |foTable| ==> DistinctBases(foTable[k])
        invariant ready == queued + old(ready) && marks == old(marks) + Bases(queued)
        invariant Entries(foTable) + multiset(queued) == Entries(old(foTable))
        invariant foEntries == old(foEntries) - |queued|
      {
        queued := WalkChain(i, which, old(foTable), old(marks), old(ready), queued);
      }
    }
  }

  lemma WithinReach(g: Graph, m: set<nat>, objs: set<nat>)
    requires WellFormed(g) && m <= AllObjects(g) && objs <= ReachSet(g, m)
    ensures m <= ReachSet(g, m) && ReachPlus(g, objs) <= ReachSet(g, m) && ReachSet(g, objs) <= ReachSet(g, m)
  {
    SourcesReachable(g, m);
    ReachSetClosed(g, m);
    ReachSetLeast(g, objs, ReachSet(g, m));
    forall t | t in Successors(g, objs) ensures t in ReachSet(g, m) {
      var o :| o in objs && Edge(g, o, t);
    }
    ReachSetLeast(g, Successors(g, objs), ReachSet(g, m));
  }

  /** The rule for ordered finalizers, and for those of levels without a pass: a dead object is
      queued exactly if it is not given up and no dead ordered object, itself included, leads
      to it. */
  lemma OrderedRule(g: Graph, fos: set<Fo>, links: set<nat>, hooks: Hooks, given: set<nat>, e: Fo)
    requires WellFormed(g) && e in fos && !e.Eager()
    ensures var p := PlanOf(g, fos, links, hooks, given);
      Queued(p, e) <==> e.base !in p.level2 && e.base !in given && LedToByNone(g, fos, p.level2, e.base)
  {
    var p := PlanOf(g, fos, links, hooks, given);
    var dead := Dead(fos, 0, p.level2);
    if e.base in ReachPlus(g, dead) {
      ReachPlusEach(g, dead, e.base);
    }
    forall d | d in fos && d.level == 0 && d.base !in p.level2 ensures ReachPlus(g, {d.base}) <= ReachPlus(g, dead) {
      ReachPlusMonotone(g, {d.base}, dead);
    }
  }

  /** The plan does what the eager levels have to do. */
  lemma EagerPlan(g: Graph, fos: set<Fo>, links: set<nat>, hooks: Hooks, given: set<nat>, queued: seq<Fo>, m: set<nat>)
    requires WellFormed(g) && Closed(g, links) && links <= AllObjects(g)
    requires m == PlanOf(g, fos, links, hooks, given).level2
    requires forall e :: e in queued && e.Eager() ==> e in fos
    requires forall e :: e in fos && e.Eager() ==> (e in queued <==> Queued(PlanOf(g, fos, links, hooks, given), e))
    ensures EagerRule(g, fos, links, hooks, queued, m)
  {
    var p := PlanOf(g, fos, links, hooks, given);
    var one, two := LevelBases(queued, 1), LevelBases(queued, 2);
    var second, third := SetOf(hooks.second), SetOf(hooks.third);
    assert one == Dead(fos, 1, links);
    assert two == Dead(fos, 2, p.level1);
    ReachOfClosed(g, links);
    ReachUnion(g, links, second);
    ReachUnion(g, links + second, third);
    ReachUnion(g, links + second + third, one);
    ReachUnion(g, links + second + third + one, two);
  }

  /** The plan does what a finalization has to do. */
  lemma PlanRule(g: Graph, fos: set<Fo>, links: set<nat>, hooks: Hooks, run: seq<Stage>, queued: seq<Fo>, m: set<nat>)
    requires WellFormed(g) && Closed(g, links) && links <= AllObjects(g)
    requires QueuedBy(g, fos, links, hooks, run, queued, m)
    ensures FinalizeRule(g, fos, links, hooks, Last(run).given, queued, run[0].marks, m)
  {
    var given := Last(run).given;
    EagerPlan(g, fos, links, hooks, given, queued, run[0].marks);
    forall e | e in fos && !e.Eager()
      ensures e in queued <==> e.base !in run[0].marks && e.base !in given && LedToByNone(g, fos, run[0].marks, e.base)
    {
      OrderedRule(g, fos, links, hooks, given, e);
    }
  }

  /** Nothing that a hook reaches is queued after it, apart from eager objects of level 2 in the
      case of the last hook. */
  lemma HookedNotQueued(g: Graph, fos: set<Fo>, links: set<nat>, hooks: Hooks, given: set<nat>, queued: seq<Fo>,
      m: set<nat>, m': set<nat>, e: Fo)
    requires WellFormed(g) && FinalizeRule(g, fos, links, hooks, given, queued, m, m') && e in queued
    ensures !e.Eager() ==> e.base !in ReachSet(g, SetOf(hooks.second)) && e.base !in ReachSet(g, SetOf(hooks.third))
    ensures e.level != 1 ==> e.base !in ReachSet(g, SetOf(hooks.second))
    ensures !e.Eager() ==> forall d :: d in queued && d.Eager() ==> e.base !in ReachSet(g, {d.base})
  {
    var second, third := SetOf(hooks.second), SetOf(hooks.third);
    var all := links + second + third + LevelBases(queued, 1) + LevelBases(queued, 2);
    ReachUnion(g, all, second);
    ReachUnion(g, all, third);
    assert all + second == all + third == all;
    forall d | d in queued && d.Eager() ensures ReachSet(g, {d.base}) <= ReachSet(g, all) {
      ReachUnion(g, all, {d.base});
      assert d.base in LevelBases(queued, 1) || d.base in LevelBases(queued, 2);
      assert all + {d.base} == all;
    }
  }

  /** What is queued is what should be: the plan for the objects given up and the plan for
      none select the same registrations. */
  ghost predicate AsPromised(g: Graph, fos: set<Fo>, links: set<nat>, hooks: Hooks, given: set<nat>) {
    var p, promised := PlanOf(g, fos, links, hooks, given), PlanOf(g, fos, links, hooks, {});
    forall e :: e in fos ==> (Queued(p, e) <==> Queued(promised, e))
  }

  /** The promise is kept exactly if all objects given up would not have been queued anyway. */
  lemma GivenUpHarmless(g: Graph, fos: set<Fo>, links: set<nat>, hooks: Hooks, given: set<nat>, dead: set<nat>)
    requires dead == Dead(fos, 0, PlanOf(g, fos, links, hooks, {}).level2) && given <= dead
    ensures AsPromised(g, fos, links, hooks, given) <==> given <= ReachPlus(g, dead)
  {
    var p, promised := PlanOf(g, fos, links, hooks, given), PlanOf(g, fos, links, hooks, {});
    assert p.ordered == promised.ordered + given;
    if AsPromised(g, fos, links, hooks, given) {
      forall o | o in given ensures o in ReachPlus(g, dead) {
        var e :| e in fos && e.level == 0 && e.base !in p.level2 && e.base == o;
        assert Queued(p, e) <==> Queued(promised, e);
      }
    }
  }

  /** The promise of ordered finalization is kept exactly if no object that no dead ordered
      object leads to overflows in its turn. */
  lemma PromiseKeptIff(g: Graph, table: seq<seq<Fo>>, links: set<nat>, hooks: Hooks, run: seq<Stage>)
    requires IsRun(g, Walk(table), run) && run[0].given == {}
    requires run[0].marks == PlanOf(g, FoSet(table), links, hooks, {}).level2
    ensures AsPromised(g, FoSet(table), links, hooks, Last(run).given) <==>
      forall i: nat :: OverflowsInTurn(g, Walk(table), run, i) ==>
        Walk(table)[i] in ReachPlus(g, Dead(FoSet(table), 0, run[0].marks))
  {
    var walk, given, dead := Walk(table), Last(run).given, Dead(FoSet(table), 0, run[0].marks);
    RunMarks(g, walk, run);
    WalkDead(table, run[0].marks);
    GivenUpHarmless(g, FoSet(table), links, hooks, given, dead);
    forall o: nat ensures o in given <==> exists i: nat :: OverflowsInTurn(g, walk, run, i) && walk[i] == o {
      GivenInTurn(g, walk, run, o);
    }
  }

  /** If no object of either walk overflows in its turn, what is queued and marked is the
      same for both. */
  lemma OrderIndependent(g: Graph, fos: set<Fo>, links: set<nat>, hooks: Hooks, walk: seq<nat>, run: seq<Stage>,
      queued: seq<Fo>, m: set<nat>, walk': seq<nat>, run': seq<Stage>, queued': seq<Fo>, m': set<nat>)
    requires IsRun(g, walk, run) && RunStarts(g, walk, run) && NeverOverflows(g, run[0].size, run[0].marks, walk)
    requires IsRun(g, walk', run') && RunStarts(g, walk', run') && NeverOverflows(g, run'[0].size, run'[0].marks, walk')
    requires QueuedBy(g, fos, links, hooks, run, queued, m) && QueuedBy(g, fos, links, hooks, run', queued', m')
    ensures m == m' && forall e :: e in queued <==> e in queued'
  {
    GivenUpIff(g, walk, run);
    GivenUpIff(g, walk', run');
    assert Bases(queued) == Bases(queued');
  }

  /** Two registrations of which the walk queues the second and gives up the first, in
      either order, although nothing leads to either object. */
  lemma OrderMatters(size: nat, o: nat, a: Fo, b: Fo, run: seq<Stage>)
    requires INITIAL_MARK_STACK_SIZE <= size && o < 2 && a.level == b.level == 0 && a.base == o && b.base == 1 - o
    requires IsRun(Comb(size), Walk([[a, b]]), run) && run[0] == Stage(size, {}, {})
    ensures var none := Hooks([], [], []);
      var p := PlanOf(Comb(size), {a, b}, {}, none, Last(run).given);
      var promised := PlanOf(Comb(size), {a, b}, {}, none, {});
      && run[0].marks == p.level2
      && !Queued(p, a) && Queued(p, b) && Queued(promised, a) && Queued(promised, b)
  {
    PairRun(size, o, a, b, run);
    PairPlans(size, o, a, b);
  }

  lemma PairRun(size: nat, o: nat, a: Fo, b: Fo, run: seq<Stage>)
    requires INITIAL_MARK_STACK_SIZE <= size && o < 2 && a.level == b.level == 0 && a.base == o && b.base == 1 - o
    requires IsRun(Comb(size), Walk([[a, b]]), run) && run[0] == Stage(size, {}, {})
    ensures Last(run).given == {o}
  {
    PairWalk(a, b);
    FirstIsGivenUp(size, o, run);
  }

  lemma PairPlans(size: nat, o: nat, a: Fo, b: Fo)
    requires o < 2 && a.level == b.level == 0 && a.base == o && b.base == 1 - o
    ensures var none := Hooks([], [], []);
      var p, promised := PlanOf(Comb(size), {a, b}, {}, none, {o}), PlanOf(Comb(size), {a, b}, {}, none, {});
      p.level2 == {} && !Queued(p, a) && Queued(p, b) && Queued(promised, a) && Queued(promised, b)
  {
    PairPlan(size, {a, b}, {o}, a);
    PairPlan(size, {a, b}, {o}, b);
    PairPlan(size, {a, b}, {}, a);
    PairPlan(size, {a, b}, {}, b);
  }

  /** A dead object of level 3 that points to another one: it is queued, and the other one is
      not marked and will be reclaimed. */
  lemma NoPassForLevelThree(e: Fo)
    requires e.level == 3 && e.base == 0
    ensures var g := Graph([[Ptr(1)], [Data]]); var p := PlanOf(g, {e}, {}, Hooks([], [], []), {});
      Queued(p, e) && Edge(g, 0, 1) && 1 !in p.ordered + Bases([e]) && !LateTraced(g, [e], p.ordered + Bases([e]))
  {
    var g := Graph([[Ptr(1)], [Data]]);
    NothingReached(g);
    ReachSetLeast(g, Successors(g, {}), {});
    assert Dead({e}, 0, {}) == Dead({e}, 1, {}) == Dead({e}, 2, {}) == {} && SetOf([]) == {};
    assert Edge(g, 0, 1) && e in [e];
  }

  lemma PairWalk(a: Fo, b: Fo)
    requires a.level == b.level == 0
    ensures Walk([[a, b]]) == [a.base, b.base]
  {
    OrderedAppend([], a);
    OrderedAppend([a], b);
    assert [] + [a] == [a] && [a] + [b] == [a, b] && [[a, b]][..0] == [];
  }

  /** With registrations on top of the comb, exactly those not given up are queued. */
  lemma PairPlan(size: nat, fos: set<Fo>, given: set<nat>, e: Fo)
    requires (forall d :: d in fos ==> d.level == 0 && d.base < 2) && e in fos
    ensures var p := PlanOf(Comb(size), fos, {}, Hooks([], [], []), given);
      p.level2 == {} && (Queued(p, e) <==> e.base !in given)
  {
    OnlyOrdered(Comb(size), fos, given);
    forall d | d in fos ensures e.base !in ReachPlus(Comb(size), {d.base}) {
      CombReach(size, d.base);
    }
    OrderedRule(Comb(size), fos, {}, Hooks([], [], []), given, e);
  }

  lemma OnlyOrdered(g: Graph, fos: set<Fo>, given: set<nat>)
    requires forall e :: e in fos ==> e.level == 0
    ensures PlanOf(g, fos, {}, Hooks([], [], []), given).level2 == {}
  {
    NothingReached(g);
    assert Dead(fos, 1, {}) == {} && Dead(fos, 2, {}) == {} && SetOf([]) == {};
  }

  lemma NothingReached(g: Graph)
    ensures ReachSet(g, {}) == {}
  {
    ReachSetLeast(g, {}, {});
  }

  lemma SameDead(fos: set<Fo>, gone: seq<Fo>, level: nat, m: set<nat>)
    requires forall e :: e in gone ==> e.level != level
    ensures Dead(fos - (set e | e in gone), level, m) == Dead(fos, level, m)
  {
  }

  lemma EagersQueued(fos: set<Fo>, mid: set<Fo>, end: set<Fo>, first: seq<Fo>, second: seq<Fo>, p: Plan)
    requires mid == fos - (set e | e in first) && end == mid - (set e | e in second)
    requires forall e :: e in first <==> e in fos && Hit(Level(1), p.links, e)
    requires forall e :: e in second <==> e in mid && Hit(Level(2), p.level1, e)
    requires p.links <= p.level1 <= p.level2
    ensures end == fos - (set e | e in second + first)
    ensures forall e :: e in second + first <==> e in fos && e.Eager() && Queued(p, e)
    ensures forall e :: e in end && e.Eager() ==> e.base in p.level2
  {
  }

  /** The eager and the ordered part together. */
  lemma AllQueued(g: Graph, fos: set<Fo>, mid: set<Fo>, end: set<Fo>, links: set<nat>, hooks: Hooks, eager: seq<Fo>,
      rest: seq<Fo>, run: seq<Stage>, m: set<nat>)
    requires run != [] && run[0].given == {} && run[0].marks == PlanOf(g, fos, links, hooks, {}).level2
    requires mid == fos - (set e | e in eager) && end == mid - (set e | e in rest) && Bases(eager) <= run[0].marks
    requires forall e :: e in eager <==> e in fos && e.Eager() && Queued(PlanOf(g, fos, links, hooks, {}), e)
    requires forall e :: e in mid && e.Eager() ==> e.base in run[0].marks
    requires var dead, m' := Dead(mid, 0, run[0].marks), Last(run).marks;
      && m' == run[0].marks + ReachPlus(g, dead) + Last(run).given && Closed(g, m')
      && (forall o :: o in dead ==> Traced(g, m', o))
      && m == m' + Bases(rest) && forall e :: e in rest <==> e in mid && Hit(AnyLevel, m', e)
    ensures links <= m && Bases(rest + eager) <= m && (Closed(g, m) <==> LateTraced(g, rest + eager, m))
    ensures QueuedBy(g, fos, links, hooks, run, rest + eager, m)
    ensures forall e :: e in end ==> e.base in m
  {
    var p := PlanOf(g, fos, links, hooks, Last(run).given);
    SameDead(fos, eager, 0, run[0].marks);
    OrderedQueued(g, fos, mid, end, eager, rest, p, Last(run).marks);
    assert Bases(rest + eager) == Bases(eager) + Bases(rest);
    StaysClosed(g, Last(run).marks, m, rest);
    assert forall e :: e in eager ==> e.level <= 2;
  }

  lemma StaysClosed(g: Graph, m: set<nat>, m': set<nat>, rest: seq<Fo>)
    requires Closed(g, m) && m' == m + Bases(rest)
    requires forall e :: e in rest ==> e.level > 2 || Traced(g, m, e.base)
    ensures Closed(g, m') <==> LateTraced(g, rest, m')
  {
    if LateTraced(g, rest, m') {
      forall o, t | o in m' && Edge(g, o, t) ensures t in m' {
        if o !in m {
          var e :| e in rest && e.base == o;
          assert Traced(g, m, e.base) || Traced(g, m', e.base);
        }
      }
    }
  }

  lemma OrderedQueued(g: Graph, fos: set<Fo>, mid: set<Fo>, end: set<Fo>, eager: seq<Fo>, rest: seq<Fo>, p: Plan,
      m: set<nat>)
    requires Closed(g, m) && p.level2 <= m == p.ordered
    requires mid == fos - (set e | e in eager) && end == mid - (set e | e in rest)
    requires forall e :: e in eager <==> e in fos && e.Eager() && Queued(p, e)
    requires forall e :: e in mid && e.Eager() ==> e.base in p.level2
    requires forall o :: o in Dead(fos, 0, p.level2) ==> Traced(g, m, o)
    requires forall e :: e in rest <==> e in mid && Hit(AnyLevel, m, e)
    ensures end == fos - (set e | e in rest + eager)
    ensures forall e :: e in rest ==> e.level > 2 || Traced(g, m, e.base)
    ensures forall e :: e in rest + eager <==> e in fos && Queued(p, e)
    ensures forall e :: e in end ==> e.base in m
  {
    forall e | e in rest && e.level == 0 ensures Traced(g, m, e.base) {
      assert e.base in Dead(fos, 0, p.level2);
    }
  }

  /** Registrations in use have their own ids, none of which has run; none ran twice. */
  ghost predicate Separate(live: multiset<Fo>, ran: seq<nat>, nextId: nat) {
    forall k: nat :: Open(k) ==> OwnIds(live, ran, nextId)
  }

  ghost predicate OwnIds(live: multiset<Fo>, ran: seq<nat>, nextId: nat) {
    && (forall e :: e in live ==> e.id < nextId && live[e] == 1 && e.id !in ran)
    && (forall e, f :: e in live && f in live && e.id == f.id ==> e == f)
    && (forall a :: 0 <= a < |ran| ==> ran[a] < nextId)
    && (forall a, b :: 0 <= a < b < |ran| ==> ran[a] != ran[b])
  }

  lemma CountUpdate(table: seq<seq<Fo>>, i: nat, chain: seq<Fo>)
    requires i < |table|
    ensures |Entries(table[i := chain])| == |Entries(table)| + |chain| - |table[i]|
  {
    EntriesUpdate(table, i, chain);
    assert |multiset(chain)| == |chain| && |multiset(table[i])| == |table[i]|;
    assert |Entries(table[i := chain]) + multiset(table[i])| == |Entries(table) + multiset(chain)|;
  }

  /** The first ready registration has run. */
  lemma FirstRan(entries: multiset<Fo>, ready: seq<Fo>, ran: seq<nat>, nextId: nat)
    requires ready != [] && Separate(entries + multiset(ready), ran, nextId)
    ensures Separate(entries + multiset(ready[1..]), ran + [ready[0].id], nextId)
  {
    assert ready == [ready[0]] + ready[1..];
    MoveToRan(entries + multiset(ready), entries + multiset(ready[1..]), ready[0], ran, nextId);
  }

  lemma MoveToRan(live: multiset<Fo>, rest: multiset<Fo>, e: Fo, ran: seq<nat>, nextId: nat)
    requires Separate(live, ran, nextId) && live == rest + multiset{e}
    ensures Separate(rest, ran + [e.id], nextId)
  {
    assert Open(0);
    assert e in live;
    forall f | f in rest ensures f.id < nextId && rest[f] == 1 && f.id !in ran + [e.id] {
      assert f in live && live[f] == 1;
    }
  }

  /** Replacing registrations in the table by at most one new one. */
  lemma SwapLive(was: multiset<Fo>, now: multiset<Fo>, gone: multiset<Fo>, came: multiset<Fo>, ready: seq<Fo>,
      ran: seq<nat>, nextId: nat)
    requires Separate(was + multiset(ready), ran, nextId) && now + gone == was + came
    requires came == multiset{} || exists e: Fo :: e.id == nextId && came == multiset{e}
    ensures Separate(now + multiset(ready), ran, nextId + if came == multiset{} then 0 else 1)
  {
    assert Open(0);
    var live, live' := was + multiset(ready), now + multiset(ready);
    assert live' + gone == live + came by {
      assert live' + gone == (now + gone) + multiset(ready);
      assert live + came == (was + came) + multiset(ready);
    }
    forall e | e in live' ensures e in came || e in live {
      assert (live' + gone)[e] > 0;
    }
    forall e | e in live' ensures live'[e] == 1 {
      assert (live + came)[e] <= 1;
    }
  }

  /** The registration of the object, if there is one, goes and others come. */
  ghost predicate Replaced(was: multiset<Fo>, now: multiset<Fo>, obj: nat, oldFn: Option<nat>, gone: multiset<Fo>,
      came: multiset<Fo>) {
    forall k: nat :: Open(k) ==> ReplacedIn(was, now, obj, oldFn, gone, came)
  }

  ghost predicate ReplacedIn(was: multiset<Fo>, now: multiset<Fo>, obj: nat, oldFn: Option<nat>, gone: multiset<Fo>,
      came: multiset<Fo>) {
    && now + gone == was + came
    && (oldFn.Some? ==> exists e :: e in was && e.base == obj && Some(e.fn) == oldFn && gone == multiset{e})
    && (oldFn.None? ==> gone == multiset{} && forall e :: e in was ==> e.base != obj)
  }

  /** A registration, seen from the registrations in use. */
  lemma SeenFromLive(was: multiset<Fo>, now: multiset<Fo>, gone: multiset<Fo>, came: multiset<Fo>, e: Fo,
      ready: seq<Fo>, obj: nat, oldFn: Option<nat>, ran: seq<nat>, nextId: nat, nextId': nat)
    requires Separate(was + multiset(ready), ran, nextId) && Replaced(was, now, obj, oldFn, gone, came)
    requires nextId' == nextId + |came| && (came == multiset{} || (e.id == nextId && came == multiset{e}))
    ensures Separate(now + multiset(ready), ran, nextId')
  {
    assert ReplacedIn(was, now, obj, oldFn, gone, came) by { assert Open(0); }
    SwapLive(was, now, gone, came, ready, ran, nextId);
  }

  lemma SmallerLive(entries: multiset<Fo>, ready: seq<Fo>, obj: nat, ran: seq<nat>, nextId: nat)
    requires Separate(entries + multiset(ready), ran, nextId)
    ensures Separate(entries + multiset(WithoutFirst(ready, obj)), ran, nextId)
  {
    assert Open(0);
    WithoutFirstMultiset(ready, obj);
    var live, live' := entries + multiset(ready), entries + multiset(WithoutFirst(ready, obj));
    forall e | e in live' ensures e in live && live'[e] == 1 {
      assert live'[e] <= live[e];
    }
  }

  lemma SwapChain(was: multiset<Fo>, now: multiset<Fo>, chain: multiset<Fo>, chain': multiset<Fo>,
      gone: multiset<Fo>, came: multiset<Fo>)
    requires now + chain == was + chain' && chain' + gone == chain + came
    ensures now + gone == was + came
  {
    assert (now + gone) + chain == (now + chain) + gone;
    assert (was + chain') + gone == was + (chain' + gone);
    assert was + (chain + came) == (was + came) + chain;
    MultisetCancel(now + gone, was + came, chain);
  }

  lemma QueueJoin(more: seq<Fo>, queued: seq<Fo>, rest: seq<Fo>, was: multiset<Fo>, now: multiset<Fo>)
    requires now + multiset(more) == was
    ensures more + (queued + rest) == (more + queued) + rest
    ensures Bases(more + queued) == Bases(queued) + Bases(more)
    ensures now + multiset(more + queued) == was + multiset(queued)
  {
    assert multiset(more + queued) == multiset(more) + multiset(queued);
    assert now + (multiset(more) + multiset(queued)) == (now + multiset(more)) + multiset(queued);
  }

  ghost predicate Hit(which: Which, m: set<nat>, e: Fo) { which.Selects(e) && e.base !in m }

  /** The first i chains have been walked: what was hit is queued, the rest is left. */
  ghost predicate Walked(was: seq<seq<Fo>>, now: seq<seq<Fo>>, i: nat, queued: seq<Fo>, which: Which, m: set<nat>) {
    && i <= |was| == |now|
    && (forall k :: i <= k < |was| ==> now[k] == was[k])
    && (forall e :: e in queued ==> Hit(which, m, e) && exists k :: 0 <= k < i && e in was[k])
    && (forall k, e :: 0 <= k < i && e in was[k] ==>
      (e in queued <==> Hit(which, m, e)) && (e in now[k] <==> !Hit(which, m, e)))
    && (forall k, e :: 0 <= k < i && e in now[k] ==> e in was[k])
    && (forall k :: 0 <= k < i ==> SameOrdered(which, now[k], was[k]))
  }

  lemma WalkStep(was: seq<seq<Fo>>, now: seq<seq<Fo>>, next: seq<seq<Fo>>, i: nat, queued: seq<Fo>, more: seq<Fo>,
      which: Which, m: set<nat>)
    requires i < |was| && Walked(was, now, i, queued, which, m)
    requires |next| == |now| && next == now[i := next[i]]
    requires forall e :: e in more <==> e in was[i] && Hit(which, m, e)
    requires forall e :: e in next[i] <==> e in was[i] && e !in more
    requires SameOrdered(which, next[i], was[i])
    ensures Walked(was, next, i + 1, more + queued, which, m)
  {
  }

  lemma WalkEnd(g: Graph, was: seq<seq<Fo>>, now: seq<seq<Fo>>, queued: seq<Fo>, which: Which, m: set<nat>, hash: Hash)
    requires Walked(was, now, |was|, queued, which, m)
    requires FoTableOk(g, was, hash) && forall k :: 0 <= k < |now| ==> DistinctBases(now[k])
    ensures FoTableOk(g, now, hash) && Bases(queued) <= AllObjects(g)
    ensures forall e :: e in queued <==> e in FoSet(was) && Hit(which, m, e)
    ensures FoSet(now) == FoSet(was) - (set e | e in queued)
    ensures which.Eager() ==> Walk(now) == Walk(was)
  {
    assert RegistrationsOk(g, was, hash) by { assert Open(0); }
    if which.Eager() {
      SameWalk(was, now);
    }
  }

  lemma {:induction false} SameWalk(was: seq<seq<Fo>>, now: seq<seq<Fo>>)
    requires |was| == |now| && forall k :: 0 <= k < |was| ==> OrderedOf(now[k]) == OrderedOf(was[k])
    ensures Walk(now) == Walk(was)
  {
    if was != [] {
      SameWalk(was[..|was| - 1], now[..|now| - 1]);
    }
  }

  /** Objects registered in one chain are not registered in another. */
  lemma NotYetQueued(g: Graph, table: seq<seq<Fo>>, i: nat, queued: seq<Fo>, hash: Hash)
    requires FoTableOk(g, table, hash) && i < |table|
    requires forall e :: e in queued ==> exists k :: 0 <= k < i && e in table[k]
    ensures forall e :: e in table[i] ==> e.base !in Bases(queued)
  {
    assert Open(0);
    forall e, x | e in table[i] && x in queued ensures e.base != x.base {
      var k :| 0 <= k < i && x in table[k];
      assert x in table[k] && hash(Base(x), |table|) == k && hash(Base(e), |table|) == i;
    }
  }

  lemma MoveOver(was: multiset<Fo>, now: multiset<Fo>, left: multiset<Fo>, more: multiset<Fo>, chain: multiset<Fo>)
    requires now + chain == was + left && left + more == chain
    ensures now + more == was
  {
    MultisetCancel(now + more, was, left);
  }
}

/** Draining the bounded mark stack, as a function of the graph, the mark set, the stack and
    its size.  Finalization marks from single objects this way, and what it does next
    depends on whether entries get lost. */
module Tracing {
  import opened Locks
  import opened ObjectGraph
  import opened MarkStack
  import BlockLayout

  /** The mark set, the mark stack, and whether entries were thrown away. */
  datatype Trail = Trail(marks: set<nat>, stack: seq<Entry>, lost: bool)

  function Whole(g: Graph, o: nat): Entry
    requires o < |g.objs|
  {
    Entry(Object(o), 0, |g.objs[o]|)
  }

  predicate GoodEntry(g: Graph, e: Entry) {
    e.src.Object? && e.src.o < |g.objs| && e.lo < e.hi <= |g.objs[e.src.o]|
  }

  ghost predicate Good(g: Graph, size: nat, s: Trail) {
    && WellFormed(g) && s.marks <= AllObjects(g)
    && INITIAL_MARK_STACK_SIZE <= size && |s.stack| <= size
    && forall e :: e in s.stack ==> GoodEntry(g, e)
  }

  /** PUSH_OBJ */
  function PushObject(g: Graph, size: nat, s: Trail, o: nat): (r: Trail)
    requires Good(g, size, s) && o < |g.objs|
    ensures Good(g, size, r) && r.marks == s.marks
  {
    if g.objs[o] == [] then s
    else Trail(s.marks, Pushed(s.stack, size, Whole(g, o)), s.lost || |s.stack| == size)
  }

  /** PUSH_CONTENTS */
  function Consider(g: Graph, size: nat, s: Trail, w: Word): (r: Trail)
    requires Good(g, size, s) && (w.Ptr? ==> w.obj < |g.objs|)
    ensures Good(g, size, r)
  {
    if w.Ptr? && w.obj !in s.marks then PushObject(g, size, s.(marks := s.marks + {w.obj}), w.obj) else s
  }

  /** Mark from words, first to last. */
  function Scan(g: Graph, size: nat, s: Trail, words: seq<Word>): (r: Trail)
    requires Good(g, size, s) && Resolved(g, words)
    ensures Good(g, size, r)
    decreases |words|
  {
    if words == [] then s else Scan(g, size, Consider(g, size, s, words[0]), words[1..])
  }

  /** The end of the part of the top range that is marked from at once. */
  function CutOff(e: Entry): nat {
    if e.hi - e.lo >= SPLIT_RANGE_WORDS then e.lo + (SPLIT_RANGE_WORDS - 1) else e.hi
  }

  /** The stack without that part. */
  function Popped(stack: seq<Entry>): seq<Entry>
    requires stack != []
  {
    var top := |stack| - 1;
    var e := stack[top];
    stack[..top] + if CutOff(e) < e.hi then [e.(lo := CutOff(e))] else []
  }

  /** One range of GC_mark_from. */
  function Round(g: Graph, size: nat, s: Trail): (r: Trail)
    requires Good(g, size, s) && s.stack != []
    ensures Good(g, size, r)
  {
    var e := s.stack[|s.stack| - 1];
    PoppedGood(g, size, s);
    Scan(g, size, s.(stack := Popped(s.stack)), g.objs[e.src.o][e.lo..CutOff(e)])
  }

  lemma PoppedGood(g: Graph, size: nat, s: Trail)
    requires Good(g, size, s) && s.stack != []
    ensures var e := s.stack[|s.stack| - 1];
      GoodEntry(g, e) && Good(g, size, s.(stack := Popped(s.stack))) && Resolved(g, g.objs[e.src.o][e.lo..CutOff(e)])
  {
    var e := s.stack[|s.stack| - 1];
    assert e in s.stack && Resolved(g, g.objs[e.src.o]);
    forall x | x in Popped(s.stack) ensures GoodEntry(g, x) {
      assert x in s.stack || x == e.(lo := CutOff(e));
    }
  }

  /** What marking from some words changes: their targets get marked, those that were not get
      pushed, and unless entries are lost the stack only grows. */
  ghost predicate Marked(g: Graph, s: Trail, r: Trail, words: seq<Word>) {
    && s.marks <= r.marks && (r.marks == s.marks ==> r == s) && (s.lost ==> r.lost)
    && (forall w :: w in words && w.Ptr? ==> w.obj in r.marks)
    && (forall x: nat :: x in r.marks && x !in s.marks ==> x < |g.objs| && Ptr(x) in words)
    && (forall e :: e in r.stack ==> e in s.stack || (e.src.Object? && e.src.o in r.marks && e.src.o !in s.marks))
    && (!r.lost ==> s.stack <= r.stack && AllPushed(g, s, r))
  }

  ghost predicate AllPushed(g: Graph, s: Trail, r: Trail) {
    forall x: nat :: x in r.marks && x !in s.marks && x < |g.objs| && g.objs[x] != [] ==> Whole(g, x) in r.stack
  }

  lemma ConsiderMarks(g: Graph, size: nat, s: Trail, w: Word)
    requires Good(g, size, s) && (w.Ptr? ==> w.obj < |g.objs|)
    ensures Marked(g, s, Consider(g, size, s, w), [w])
  {
  }

  lemma MarkedTwice(g: Graph, s: Trail, r: Trail, t: Trail, w: Word, words: seq<Word>, more: seq<Word>)
    requires Marked(g, s, r, [w]) && Marked(g, r, t, more) && words == [w] + more
    ensures Marked(g, s, t, words)
  {
    assert forall x :: x in words <==> x == w || x in more;
    assert w in [w];
  }

  lemma {:induction false} ScanMarks(g: Graph, size: nat, s: Trail, words: seq<Word>)
    requires Good(g, size, s) && Resolved(g, words)
    ensures Marked(g, s, Scan(g, size, s, words), words)
    decreases |words|
  {
    if words != [] {
      var r := Consider(g, size, s, words[0]);
      ConsiderMarks(g, size, s, words[0]);
      ScanMarks(g, size, r, words[1..]);
      MarkedTwice(g, s, r, Scan(g, size, s, words), words[0], words, words[1..]);
    }
  }

  lemma PoppedWork(stack: seq<Entry>)
    requires stack != [] && stack[|stack| - 1].lo < stack[|stack| - 1].hi
    ensures Work(Popped(stack)) < Work(stack)
  {
    var top := |stack| - 1;
    var e := stack[top];
    if CutOff(e) < e.hi {
      assert Popped(stack)[..top] == stack[..top];
    } else {
      assert Popped(stack) == stack[..top];
    }
  }

  lemma RoundProgress(g: Graph, size: nat, s: Trail)
    requires Good(g, size, s) && s.stack != []
    ensures var r := Round(g, size, s);
      s.marks <= r.marks && (r.marks == s.marks ==> Work(r.stack) < Work(s.stack))
  {
    PoppedGood(g, size, s);
    PoppedWork(s.stack);
    var e := s.stack[|s.stack| - 1];
    ScanMarks(g, size, s.(stack := Popped(s.stack)), g.objs[e.src.o][e.lo..CutOff(e)]);
  }

  /** GC_mark_from until the stack is empty. */
  function Drain(g: Graph, size: nat, s: Trail): (r: Trail)
    requires Good(g, size, s)
    ensures Good(g, size, r) && r.stack == []
    decreases AllObjects(g) - s.marks, Work(s.stack)
  {
    if s.stack == [] then s
    else
      RoundProgress(g, size, s);
      Drain(g, size, Round(g, size, s))
  }

  /** Marking from one object: the mark set afterwards, and whether the stack overflowed. */
  function From(g: Graph, size: nat, m: set<nat>, o: nat): (r: Trail)
    requires WellFormed(g) && m <= AllObjects(g) && o < |g.objs| && INITIAL_MARK_STACK_SIZE <= size
  {
    Drain(g, size, PushObject(g, size, Trail(m, [], false), o))
  }

  predicate Overflows(g: Graph, size: nat, m: set<nat>, o: nat)
    requires WellFormed(g) && m <= AllObjects(g) && o < |g.objs| && INITIAL_MARK_STACK_SIZE <= size
  {
    From(g, size, m, o).lost
  }

  lemma {:induction false} ScanOneMore(g: Graph, size: nat, s: Trail, words: seq<Word>, w: Word)
    requires Good(g, size, s) && Resolved(g, words) && (w.Ptr? ==> w.obj < |g.objs|)
    ensures Resolved(g, words + [w])
    ensures Scan(g, size, s, words + [w]) == Consider(g, size, Scan(g, size, s, words), w)
    decreases |words|
  {
    var more := words + [w];
    if words != [] {
      assert more[1..] == words[1..] + [w];
      ScanOneMore(g, size, Consider(g, size, s, words[0]), words[1..], w);
    }
  }

  /** Marking from o gives mark set m', and the stack overflows or does not. */
  ghost predicate Gives(g: Graph, size: nat, m: set<nat>, o: nat, m': set<nat>, lost: bool) {
    forall k: nat :: Open(k) ==>
      && WellFormed(g) && m <= AllObjects(g) && o < |g.objs| && INITIAL_MARK_STACK_SIZE <= size
      && From(g, size, m, o) == Trail(m', [], lost)
  }

  /** Words behind the last pointer make no difference. */
  lemma {:induction false} ScanData(g: Graph, size: nat, s: Trail, words: seq<Word>, n: nat)
    requires Good(g, size, s) && Resolved(g, words) && n <= |words| && forall i :: n <= i < |words| ==> words[i].Data?
    ensures Resolved(g, words[..n]) && Scan(g, size, s, words) == Scan(g, size, s, words[..n])
    decreases |words|
  {
    if words != [] {
      if n == 0 {
        ScanData(g, size, s, words[1..], 0);
        assert words[1..][..0] == words[..0];
      } else {
        ScanData(g, size, Consider(g, size, s, words[0]), words[1..], n - 1);
        assert words[1..][..n - 1] == words[..n][1..];
      }
    }
  }

  // What a drained stack has marked

  ghost predicate Covers(g: Graph, s: Trail, x: nat) {
    Covered(Heap(g, [], []), s.marks, s.stack, Object(x))
  }

  /** Started from mark set m with object o: only what o reaches is marked, and unless entries
      were lost all that has to be looked at is pending. */
  ghost predicate Sound(g: Graph, s: Trail, m: set<nat>, o: nat) {
    && m <= s.marks <= m + ReachPlus(g, {o})
    && (forall e :: e in s.stack && e.src.Object? ==> e.src.o == o || e.src.o in s.marks - m)
    && (!s.lost ==> forall x: nat :: x < |g.objs| && (x == o || x in s.marks - m) ==> Covers(g, s, x))
  }

  lemma NewInReach(g: Graph, m: set<nat>, o: nat, y: nat, x: nat)
    requires WellFormed(g) && Edge(g, y, x) && (y == o || y in ReachPlus(g, {o}))
    ensures x in ReachPlus(g, {o})
  {
    if y == o {
      ReachPlusOfMember(g, {o}, o, x);
    } else {
      ReachPlusStep(g, {o}, y, x);
    }
  }

  /** A range that was pending is marked from or still pending. */
  lemma StillCovered(g: Graph, s: Trail, r: Trail, x: nat, words: seq<Word>)
    requires s.stack != [] && GoodEntry(g, s.stack[|s.stack| - 1]) && x < |g.objs| && Covers(g, s, x)
    requires var e := s.stack[|s.stack| - 1]; words == g.objs[e.src.o][e.lo..CutOff(e)]
    requires s.marks <= r.marks && Popped(s.stack) <= r.stack
    requires forall w :: w in words && w.Ptr? ==> w.obj in r.marks
    ensures Covers(g, r, x)
  {
    var h, top := Heap(g, [], []), |s.stack| - 1;
    var e := s.stack[top];
    forall i: nat | i < |g.objs[x]| && Pending(s.stack, Object(x), i)
      ensures (g.objs[x][i].Ptr? ==> g.objs[x][i].obj in r.marks) || Pending(r.stack, Object(x), i)
    {
      var y :| y in s.stack && y.Covers(Object(x), i);
      var k :| 0 <= k < |s.stack| && s.stack[k] == y;
      if k < top {
        assert Popped(s.stack)[k] == y && r.stack[k] == y && y in r.stack;
      } else if i < CutOff(e) {
        assert words[i - e.lo] == g.objs[x][i] && words[i - e.lo] in words;
      } else {
        var left := e.(lo := CutOff(e));
        assert Popped(s.stack)[top] == left && r.stack[top] == left && left in r.stack && left.Covers(Object(x), i);
      }
    }
    assert h.Words(Object(x)) == g.objs[x];
  }

  lemma WholeCovers(g: Graph, s: Trail, x: nat)
    requires x < |g.objs| && (g.objs[x] == [] || Whole(g, x) in s.stack)
    ensures Covers(g, s, x)
  {
    forall i: nat | i < |g.objs[x]| ensures Pending(s.stack, Object(x), i) {
      assert Whole(g, x).Covers(Object(x), i);
    }
  }

  lemma RoundSound(g: Graph, size: nat, s: Trail, m: set<nat>, o: nat)
    requires Good(g, size, s) && s.stack != [] && Sound(g, s, m, o)
    ensures Sound(g, Round(g, size, s), m, o)
  {
    PoppedGood(g, size, s);
    var e := s.stack[|s.stack| - 1];
    var words := g.objs[e.src.o][e.lo..CutOff(e)];
    var p, r := s.(stack := Popped(s.stack)), Round(g, size, s);
    assert e in s.stack;
    ScanMarks(g, size, p, words);
    forall x | x in r.marks && x !in s.marks ensures x in ReachPlus(g, {o}) {
      assert Ptr(x) in g.objs[e.src.o];
      NewInReach(g, m, o, e.src.o, x);
    }
    forall x | x in r.stack && x.src.Object? ensures x.src.o == o || x.src.o in r.marks - m {
      assert x in p.stack ==> x in s.stack || x == e.(lo := CutOff(e));
    }
    if !r.lost {
      forall x: nat | x < |g.objs| && (x == o || x in r.marks - m) ensures Covers(g, r, x) {
        RoundCovers(g, size, s, x);
      }
    }
  }

  /** What was covered stays so, and what got marked is on the stack. */
  lemma RoundCovers(g: Graph, size: nat, s: Trail, x: nat)
    requires Good(g, size, s) && s.stack != [] && !Round(g, size, s).lost && x < |g.objs|
    requires Covers(g, s, x) || (x !in s.marks && x in Round(g, size, s).marks)
    ensures Covers(g, Round(g, size, s), x)
  {
    PoppedGood(g, size, s);
    var e := s.stack[|s.stack| - 1];
    var words := g.objs[e.src.o][e.lo..CutOff(e)];
    ScanMarks(g, size, s.(stack := Popped(s.stack)), words);
    if Covers(g, s, x) {
      StillCovered(g, s, Round(g, size, s), x, words);
    } else {
      WholeCovers(g, Round(g, size, s), x);
    }
  }

  lemma {:induction false} DrainSound(g: Graph, size: nat, s: Trail, m: set<nat>, o: nat)
    requires Good(g, size, s) && Sound(g, s, m, o)
    ensures Sound(g, Drain(g, size, s), m, o)
    decreases AllObjects(g) - s.marks, Work(s.stack)
  {
    if s.stack != [] {
      RoundProgress(g, size, s);
      RoundSound(g, size, s, m, o);
      DrainSound(g, size, Round(g, size, s), m, o);
    }
  }

  /** Marking from o marks only what o leads to; without an overflow, o and all that got
      marked have been marked from. */
  lemma FromReaches(g: Graph, size: nat, m: set<nat>, o: nat)
    requires WellFormed(g) && m <= AllObjects(g) && o < |g.objs| && INITIAL_MARK_STACK_SIZE <= size
    ensures var r := From(g, size, m, o);
      && m <= r.marks <= m + ReachPlus(g, {o}) && r.marks <= AllObjects(g)
      && (!r.lost ==> forall x :: x == o || x in r.marks - m ==> Traced(g, r.marks, x))
  {
    var s := PushObject(g, size, Trail(m, [], false), o);
    WholeCovers(g, s, o);
    DrainSound(g, size, s, m, o);
    var r := From(g, size, m, o);
    if !r.lost {
      forall x, t | (x == o || x in r.marks - m) && Edge(g, x, t) ensures t in r.marks {
        assert Covers(g, r, x);
        var i :| 0 <= i < |g.objs[x]| && g.objs[x][i] == Ptr(t);
        assert Heap(g, [], []).Words(Object(x))[i] == Ptr(t);
      }
    }
  }

  // When nothing gets lost

  /** Objects with words that are not marked. */
  function Unscanned(g: Graph, m: set<nat>): set<nat> {
    set x | x in AllObjects(g) && x !in m && g.objs[x] != []
  }

  /** There is room for what is on the stack and for every object that can still be pushed. */
  ghost predicate Roomy(g: Graph, size: nat, s: Trail) {
    !s.lost && |s.stack| + |Unscanned(g, s.marks)| <= size
  }

  lemma ConsiderRoomy(g: Graph, size: nat, s: Trail, w: Word)
    requires Good(g, size, s) && (w.Ptr? ==> w.obj < |g.objs|) && Roomy(g, size, s)
    ensures Roomy(g, size, Consider(g, size, s, w))
  {
    if w.Ptr? && w.obj !in s.marks {
      var u, u' := Unscanned(g, s.marks), Unscanned(g, s.marks + {w.obj});
      assert u' == u - {w.obj};
      assert g.objs[w.obj] != [] ==> w.obj in u && |u'| == |u| - 1;
      assert g.objs[w.obj] == [] ==> w.obj !in u && u' == u;
    }
  }

  lemma {:induction false} ScanRoomy(g: Graph, size: nat, s: Trail, words: seq<Word>)
    requires Good(g, size, s) && Resolved(g, words) && Roomy(g, size, s)
    ensures Roomy(g, size, Scan(g, size, s, words))
    decreases |words|
  {
    if words != [] {
      ConsiderRoomy(g, size, s, words[0]);
      ScanRoomy(g, size, Consider(g, size, s, words[0]), words[1..]);
    }
  }

  lemma {:induction false} DrainRoomy(g: Graph, size: nat, s: Trail)
    requires Good(g, size, s) && Roomy(g, size, s)
    ensures !Drain(g, size, s).lost
    decreases AllObjects(g) - s.marks, Work(s.stack)
  {
    if s.stack != [] {
      PoppedGood(g, size, s);
      var e := s.stack[|s.stack| - 1];
      ScanRoomy(g, size, s.(stack := Popped(s.stack)), g.objs[e.src.o][e.lo..CutOff(e)]);
      RoundProgress(g, size, s);
      DrainRoomy(g, size, Round(g, size, s));
    }
  }

  /** If fewer unmarked objects have words than the stack has room for, nothing gets lost. */
  lemma NoOverflow(g: Graph, size: nat, m: set<nat>, o: nat)
    requires WellFormed(g) && m <= AllObjects(g) && o < |g.objs| && INITIAL_MARK_STACK_SIZE <= size
    requires |Unscanned(g, m)| < size
    ensures !Overflows(g, size, m, o)
  {
    DrainRoomy(g, size, PushObject(g, size, Trail(m, [], false), o));
  }

  lemma UnscannedShrinks(g: Graph, m: set<nat>, m': set<nat>)
    requires m <= m'
    ensures |Unscanned(g, m')| <= |Unscanned(g, m)|
  {
    BlockLayout.Smaller(Unscanned(g, m'), Unscanned(g, m));
  }

  /** Marking from what has nothing new to offer changes nothing. */
  lemma {:induction false} DrainIdle(g: Graph, size: nat, s: Trail)
    requires Good(g, size, s) && forall e :: e in s.stack ==> Traced(g, s.marks, e.src.o)
    ensures Drain(g, size, s) == s.(stack := [])
    decreases Work(s.stack)
  {
    if s.stack != [] {
      PoppedGood(g, size, s);
      PoppedWork(s.stack);
      var e, p := s.stack[|s.stack| - 1], s.(stack := Popped(s.stack));
      var words := g.objs[e.src.o][e.lo..CutOff(e)];
      ScanMarks(g, size, p, words);
      assert e in s.stack;
      assert forall x: nat :: Ptr(x) in words ==> Edge(g, e.src.o, x);
      assert forall x :: x in p.stack ==> x in s.stack || x == e.(lo := CutOff(e));
      DrainIdle(g, size, p);
    }
  }

  lemma IdleFrom(g: Graph, size: nat, m: set<nat>, o: nat)
    requires WellFormed(g) && m <= AllObjects(g) && o < |g.objs| && INITIAL_MARK_STACK_SIZE <= size && Traced(g, m, o)
    ensures From(g, size, m, o) == Trail(m, [], false)
  {
    DrainIdle(g, size, PushObject(g, size, Trail(m, [], false), o));
  }

  lemma {:induction false} DrainStaysLost(g: Graph, size: nat, s: Trail)
    requires Good(g, size, s) && s.lost
    ensures Drain(g, size, s).lost
    decreases AllObjects(g) - s.marks, Work(s.stack)
  {
    if s.stack != [] {
      PoppedGood(g, size, s);
      var e := s.stack[|s.stack| - 1];
      ScanMarks(g, size, s.(stack := Popped(s.stack)), g.objs[e.src.o][e.lo..CutOff(e)]);
      RoundProgress(g, size, s);
      DrainStaysLost(g, size, Round(g, size, s));
    }
  }

  // A graph that overflows a stack of any size

  /** Objects 0 and 1 point to object 2.  From there on, n objects in a row each point to a
      leaf of their own and to the next object; the last object and the leaves hold data. */
  function CombWords(n: nat, o: nat): seq<Word> {
    if o < 2 then [Ptr(2)] else if o < n + 2 then [Ptr(Leaf(n, o)), Ptr(o + 1)] else [Data]
  }

  function Leaf(n: nat, o: nat): nat { n + 1 + o }

  function Comb(n: nat): (g: Graph)
    ensures WellFormed(g) && |g.objs| == 2 * n + 3 && forall o :: 0 <= o < |g.objs| ==> g.objs[o] == CombWords(n, o)
  {
    Graph(seq(2 * n + 3, o requires 0 <= o => CombWords(n, o)))
  }

  /** After going down k teeth, they and their leaves are marked, and the leaves wait on the
      stack. */
  function DownMarks(n: nat, k: nat): (m: set<nat>)
    requires k <= n
    ensures forall o :: o in m ==> 2 <= o <= k + 2 || n + 3 <= o < n + 3 + k
  {
    if k == 0 then {2} else DownMarks(n, k - 1) + {Leaf(n, k + 1)} + {k + 2}
  }

  function Teeth(n: nat, k: nat): (s: seq<Entry>)
    requires k <= n
    ensures |s| == k && forall e :: e in s ==> GoodEntry(Comb(n), e)
  {
    if k == 0 then [] else Teeth(n, k - 1) + [Whole(Comb(n), Leaf(n, k + 1))]
  }

  function Down(n: nat, k: nat): Trail
    requires k <= n
  {
    Trail(DownMarks(n, k), Teeth(n, k) + [Whole(Comb(n), k + 2)], false)
  }

  lemma DownGood(n: nat, k: nat, size: nat)
    requires k <= n && INITIAL_MARK_STACK_SIZE <= size && k < size
    ensures Good(Comb(n), size, Down(n, k)) && |Down(n, k).stack| == k + 1
  {
  }

  /** Marking from an object of two words on top of the stack. */
  lemma RoundOfTwo(g: Graph, size: nat, s: Trail, rest: seq<Entry>, c: nat, v: Word, w: Word)
    requires Good(g, size, s) && c < |g.objs| && g.objs[c] == [v, w] && s.stack == rest + [Whole(g, c)]
    ensures Good(g, size, s.(stack := rest)) && (v.Ptr? ==> v.obj < |g.objs|) && (w.Ptr? ==> w.obj < |g.objs|)
    ensures Round(g, size, s) == Consider(g, size, Consider(g, size, s.(stack := rest), v), w)
  {
    PoppedGood(g, size, s);
    assert Popped(s.stack) == rest && g.objs[c][0..2] == g.objs[c];
    ScanTwo(g, size, s.(stack := rest), v, w, g.objs[c]);
  }

  lemma ScanTwo(g: Graph, size: nat, s: Trail, v: Word, w: Word, words: seq<Word>)
    requires Good(g, size, s) && Resolved(g, words) && words == [v, w]
    ensures (v.Ptr? ==> v.obj < |g.objs|) && (w.Ptr? ==> w.obj < |g.objs|)
    ensures Scan(g, size, s, words) == Consider(g, size, Consider(g, size, s, v), w)
  {
    assert words[0] == v && words[1] == w && words[1..] == [w];
    ScanOne(g, size, Consider(g, size, s, v), w, [w]);
  }

  /** Marking from an object that points to two new ones. */
  lemma Tooth(g: Graph, size: nat, m: set<nat>, teeth: seq<Entry>, c: nat, s: Trail, x: nat, y: nat)
    requires c < |g.objs| && x < |g.objs| && y < |g.objs| && x != y
    requires s == Trail(m, teeth + [Whole(g, c)], false) && Good(g, size, s)
    requires g.objs[c] == [Ptr(x), Ptr(y)] && g.objs[x] != [] && g.objs[y] != [] && x !in m && y !in m
    ensures var r := Round(g, size, s);
      if |teeth| + 1 < size then r == Trail(m + {x} + {y}, teeth + [Whole(g, x)] + [Whole(g, y)], false) else r.lost
  {
    RoundOfTwo(g, size, s, teeth, c, Ptr(x), Ptr(y));
    PushNew(g, size, s.(stack := teeth), x);
    PushNew(g, size, Trail(m + {x}, teeth + [Whole(g, x)], false), y);
  }

  /** One tooth further down. */
  lemma GoDown(n: nat, k: nat, size: nat)
    requires k < n && INITIAL_MARK_STACK_SIZE <= size && k < size
    ensures Good(Comb(n), size, Down(n, k))
    ensures var r := Round(Comb(n), size, Down(n, k)); if k + 1 < size then r == Down(n, k + 1) else r.lost
  {
    DownGood(n, k, size);
    var c := k + 2;
    assert Comb(n).objs[c] == [Ptr(Leaf(n, c)), Ptr(c + 1)];
    Tooth(Comb(n), size, DownMarks(n, k), Teeth(n, k), c, Down(n, k), Leaf(n, c), c + 1);
  }

  lemma PushNew(g: Graph, size: nat, s: Trail, x: nat)
    requires Good(g, size, s) && x < |g.objs| && g.objs[x] != [] && x !in s.marks
    ensures Consider(g, size, s, Ptr(x)) ==
      Trail(s.marks + {x}, Pushed(s.stack, size, Whole(g, x)), s.lost || |s.stack| == size)
  {
  }

  lemma {:induction false} CombDrains(size: nat, k: nat)
    requires INITIAL_MARK_STACK_SIZE <= size && k < size
    ensures Good(Comb(size), size, Down(size, k)) && Drain(Comb(size), size, Down(size, k)).lost
    decreases size - k
  {
    var g, s := Comb(size), Down(size, k);
    GoDown(size, k, size);
    RoundProgress(g, size, s);
    if k + 1 < size {
      CombDrains(size, k + 1);
    } else {
      DrainStaysLost(g, size, Round(g, size, s));
    }
  }

  /** Marking from either of the two objects on top overflows a stack of that size. */
  lemma CombOverflows(size: nat, o: nat)
    requires INITIAL_MARK_STACK_SIZE <= size && o < 2
    ensures Overflows(Comb(size), size, {}, o)
  {
    var g := Comb(size);
    assert g.objs[o] == [Ptr(2)] && g.objs[2] != [];
    assert Down(size, 0) == Trail({2}, [Whole(g, 2)], false);
    CombDrains(size, 0);
    FromOne(g, size, o, 2);
  }

  /** Marking from an object with one pointer, to another with words. */
  lemma FromOne(g: Graph, size: nat, o: nat, x: nat)
    requires WellFormed(g) && INITIAL_MARK_STACK_SIZE <= size && o < |g.objs| && x < |g.objs|
    requires g.objs[o] == [Ptr(x)] && g.objs[x] != []
    ensures var s := Trail({x}, [Whole(g, x)], false);
      Good(g, size, s) && From(g, size, {}, o) == Drain(g, size, s)
  {
    var s := PushObject(g, size, Trail({}, [], false), o);
    assert s.stack == [Whole(g, o)] && g.objs[o][0..1] == [Ptr(x)] && Popped(s.stack) == [];
    ScanOne(g, size, Trail({}, [], false), Ptr(x), g.objs[o][0..1]);
    assert Round(g, size, s) == Trail({x}, [Whole(g, x)], false);
    RoundProgress(g, size, s);
  }

  lemma ScanOne(g: Graph, size: nat, s: Trail, w: Word, words: seq<Word>)
    requires Good(g, size, s) && Resolved(g, words) && words == [w]
    ensures (w.Ptr? ==> w.obj < |g.objs|) && Scan(g, size, s, words) == Consider(g, size, s, w)
  {
    assert words[0] == w && words[1..] == [];
  }
}

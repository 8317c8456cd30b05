/** The sequential marker: the bounded mark stack, the recovery state machine of
    GC_mark_some, and the stop-the-world driver loop.

    A full mark stack throws entries away and flips the state to INVALID; the
    collector then rescans the heap for marked objects.  The class below keeps the
    collector's globals as fields; the main result is StoppedMark's contract: the
    mark phase ends with exactly the reachable objects marked, however often the
    stack overflows, and it does end. */
module Marker {
  import opened Locks
  import opened Basics
  import opened ObjectGraph
  import opened MarkStack
  import T = Tracing

  /** What one call of GC_mark_some, or a whole mark phase, came to. */
  datatype Outcome = More | Finished | Abandoned | Aborted

  datatype State = NONE | PUSH_UNCOLLECTABLE | ROOTS_PUSHED | INVALID | PARTIALLY_INVALID

  /** The marked objects and root areas among `need` are covered. */
  ghost predicate AllCovered(h: Heap, marks: set<nat>, stack: seq<Entry>, need: iset<Source>) {
    forall k: nat :: Open(k) ==> EachCovered(h, marks, stack, need)
  }

  ghost predicate EachCovered(h: Heap, marks: set<nat>, stack: seq<Entry>, need: iset<Source>) {
    forall s :: s in need && Live(marks, s) ==> Covered(h, marks, stack, s)
  }

  ghost predicate ValidEntry(h: Heap, marks: set<nat>, e: Entry) {
    e.lo < e.hi <= |h.Words(e.src)| && Live(marks, e.src)
  }

  /** Ranges on the stack are real and the stack fits. */
  ghost predicate ValidStack(h: Heap, marks: set<nat>, stack: seq<Entry>, size: nat) {
    && INITIAL_MARK_STACK_SIZE <= size
    && |stack| <= size
    && forall e :: e in stack ==> ValidEntry(h, marks, e)
  }

  ghost predicate OnlyReachable(h: Heap, marks: set<nat>, kept: set<nat>) {
    kept <= marks <= ReachSet(h.graph, h.RootTargets() + kept)
  }

  lemma TargetReachable(h: Heap, marks: set<nat>, kept: set<nat>, src: Source, i: nat)
    requires h.Valid() && marks <= ReachSet(h.graph, h.RootTargets() + kept) && kept <= AllObjects(h.graph)
    requires Live(marks + kept, src)
    requires i < |h.Words(src)| && h.Words(src)[i].Ptr?
    ensures h.Words(src)[i].obj in ReachSet(h.graph, h.RootTargets() + kept)
  {
    assert Open(0);
    var t := h.Words(src)[i].obj;
    if src.Object? {
      assert Ptr(t) in h.graph.objs[src.o];
      SourcesReachable(h.graph, h.RootTargets() + kept);
      FollowPointer(h.graph, h.RootTargets() + kept, src.o, t);
    } else {
      assert h.RootPointsTo(t);
      SourcesReachable(h.graph, h.RootTargets() + kept);
    }
  }

  /** Marking o and pushing it keeps everything covered. */
  lemma PushCovers(h: Heap, marks: set<nat>, stack: seq<Entry>, o: nat, stack': seq<Entry>, need: iset<Source>)
    requires AllCovered(h, marks, stack, need)
    requires forall e :: e in stack ==> e in stack'
    requires Covered(h, marks + {o}, stack', Object(o))
    ensures AllCovered(h, marks + {o}, stack', need)
  {
    assert Open(0);
    forall s | s in need && Live(marks + {o}, s) ensures Covered(h, marks + {o}, stack', s) {
      if s != Object(o) {
        assert Covered(h, marks, stack, s);
      }
    }
  }

  /** While a range is being scanned it counts as pending; a word may leave the range
      once it needs no more marking. */
  lemma Narrow(h: Heap, marks: set<nat>, stack: seq<Entry>, src: Source, lo: nat, hi: nat, lo': nat, hi': nat,
      need: iset<Source>)
    requires AllCovered(h, marks, stack + [Entry(src, lo, hi)], need)
    requires hi <= |h.Words(src)|
    requires forall i :: lo <= i < hi && !(lo' <= i < hi') && h.Words(src)[i].Ptr? ==> h.Words(src)[i].obj in marks
    ensures AllCovered(h, marks, stack + [Entry(src, lo', hi')], need)
  {
    assert Open(0);
    var narrow := stack + [Entry(src, lo', hi')];
    assert Entry(src, lo', hi') in narrow;
    forall s | s in need && Live(marks, s) ensures Covered(h, marks, narrow, s) {
      assert Covered(h, marks, stack + [Entry(src, lo, hi)], s);
      forall i | 0 <= i < |h.Words(s)| && Pending(stack + [Entry(src, lo, hi)], s, i)
        ensures (h.Words(s)[i].Ptr? ==> h.Words(s)[i].obj in marks) || Pending(narrow, s, i)
      {
        var x :| x in stack + [Entry(src, lo, hi)] && x.Covers(s, i);
        assert x in narrow || x == Entry(src, lo, hi);
        assert s == src && lo' <= i < hi' ==> Entry(src, lo', hi').Covers(s, i);
      }
    }
  }

  lemma DropEmpty(h: Heap, marks: set<nat>, stack: seq<Entry>, src: Source, lo: nat, hi: nat, need: iset<Source>)
    requires AllCovered(h, marks, stack + [Entry(src, lo, hi)], need) && lo >= hi
    ensures AllCovered(h, marks, stack, need)
  {
    assert Open(0);
    forall s | s in need && Live(marks, s) ensures Covered(h, marks, stack, s) {
      assert Covered(h, marks, stack + [Entry(src, lo, hi)], s);
    }
  }

  lemma SplitTop(h: Heap, marks: set<nat>, stack: seq<Entry>, mid: nat, need: iset<Source>)
    requires AllCovered(h, marks, stack, need)
    requires 0 < |stack| && stack[|stack| - 1].lo <= mid <= stack[|stack| - 1].hi
    ensures var e := stack[|stack| - 1];
      AllCovered(h, marks, stack[..|stack| - 1] + [e.(lo := mid)] + [e.(hi := mid)], need)
  {
    assert Open(0);
    var e := stack[|stack| - 1];
    var rest := stack[..|stack| - 1];
    var split := rest + [e.(lo := mid)] + [e.(hi := mid)];
    assert stack == rest + [e] && e.(lo := mid) in split && e.(hi := mid) in split;
    forall s | s in need && Live(marks, s) ensures Covered(h, marks, split, s) {
      forall i | 0 <= i < |h.Words(s)| && Pending(stack, s, i) ensures Pending(split, s, i) {
        var x :| x in stack && x.Covers(s, i);
        if x == e {
          assert e.(lo := mid).Covers(s, i) || e.(hi := mid).Covers(s, i);
        } else {
          assert x in split;
        }
      }
      assert Covered(h, marks, stack, s);
    }
  }

  /** The sources each state promises to have covered: nothing when entries were
      thrown away; the marked objects below scan_ptr during a repairing rescan; the
      collectable ones and those below scan_ptr while the uncollectable objects are
      being pushed; everything, roots included, once the roots are pushed. */
  ghost predicate Needed(h: Heap, state: State, scan: nat, s: Source) {
    match state
    case INVALID => false
    case PARTIALLY_INVALID => s.Object? && h.Below(scan, s.o)
    case PUSH_UNCOLLECTABLE => s.Object? && (!h.Kept(s.o) || h.Below(scan, s.o))
    case ROOTS_PUSHED => true
    case NONE => true
  }

  ghost function Need(h: Heap, state: State, scan: nat): iset<Source> {
    iset s: Source | Needed(h, state, scan, s)
  }

  /** Once the objects of the next block are covered the scan may move past it. */
  lemma ScanPastBlock(h: Heap, marks: set<nat>, stack: seq<Entry>, state: State, scan: nat, b: nat)
    requires h.Valid() && b == h.NextUsed(scan) < |h.blocks|
    requires AllCovered(h, marks, stack, Need(h, state, scan))
    requires forall o :: o in h.blocks[b].objs && o in marks && Object(o) !in Need(h, state, scan)
                         ==> Covered(h, marks, stack, Object(o))
    ensures AllCovered(h, marks, stack, Need(h, state, h.blocks[b].addr + h.blocks[b].len))
    ensures h.NextUsed(h.blocks[b].addr + h.blocks[b].len) > h.NextUsed(scan)
  {
    assert Open(0);
    var past := h.blocks[b].addr + h.blocks[b].len;
    assert h.ValidBlock(h.blocks[b]);
    assert h.NextUsed(past) > b;
    forall s | s in Need(h, state, past) && Live(marks, s) ensures Covered(h, marks, stack, s) {
      if s !in Need(h, state, scan) {
        var c: nat :| h.InBlock(s.o, c) && h.blocks[c].addr < past;
        assert !h.Below(scan, s.o) && h.blocks[c].addr >= scan;
        assert b <= c;
      }
    }
  }

  lemma BlockValid(h: Heap, b: nat)
    requires h.Valid() && b < |h.blocks|
    ensures h.ValidBlock(h.blocks[b])
  {
    assert Open(0);
  }

  /** Only blocks of the uncollectable kind hold objects that still need pushing. */
  lemma NothingToPush(h: Heap, marks: set<nat>, stack: seq<Entry>, scan: nat, b: nat)
    requires h.Valid() && b < |h.blocks| && !h.blocks[b].kind.Uncollectable?
    ensures forall o :: o in h.blocks[b].objs && Object(o) !in Need(h, PUSH_UNCOLLECTABLE, scan)
                        ==> Covered(h, marks, stack, Object(o))
  {
    assert Open(0);
    forall o | o in h.blocks[b].objs && Object(o) !in Need(h, PUSH_UNCOLLECTABLE, scan)
      ensures Covered(h, marks, stack, Object(o))
    {
      var c: nat :| h.InBlock(o, c) && h.blocks[c].kind.IsUncollectable();
      assert h.InBlock(o, b) && h.ValidBlock(h.blocks[b]);
    }
  }

  /** With no block left to scan, every marked object is covered. */
  lemma ScanComplete(h: Heap, marks: set<nat>, stack: seq<Entry>, state: State, scan: nat)
    requires h.Valid() && marks <= AllObjects(h.graph) && h.NextUsed(scan) == |h.blocks|
    requires state == PARTIALLY_INVALID || state == PUSH_UNCOLLECTABLE
    requires AllCovered(h, marks, stack, Need(h, state, scan))
    ensures AllCovered(h, marks, stack, iset s: Source | s.Object?)
  {
    assert Open(0);
    forall s: Source | s.Object? && s.o in marks ensures Covered(h, marks, stack, s) {
      assert h.InSomeBlock(s.o);
      var b: nat :| h.InBlock(s.o, b);
      assert h.Below(scan, s.o);
      assert s in Need(h, state, scan);
    }
  }

  /** An empty stack with everything covered means exactly the reachable is marked. */
  lemma CoveredIsReached(h: Heap, marks: set<nat>, kept: set<nat>)
    requires h.Valid() && OnlyReachable(h, marks, kept)
    requires AllCovered(h, marks, [], Need(h, ROOTS_PUSHED, 0))
    ensures marks == ReachSet(h.graph, h.RootTargets() + kept)
  {
    assert Open(0);
    forall o, t | o in marks && Edge(h.graph, o, t) ensures t in marks {
      assert Object(o) in Need(h, ROOTS_PUSHED, 0) && Covered(h, marks, [], Object(o));
      var i :| 0 <= i < |h.graph.objs[o]| && h.graph.objs[o][i] == Ptr(t);
      assert h.Words(Object(o))[i] == Ptr(t);
    }
    forall t | t in h.RootTargets() ensures t in marks {
      var r: nat :| r < |h.roots| && Ptr(t) in h.roots[r].words;
      assert Root(r) in Need(h, ROOTS_PUSHED, 0) && Covered(h, marks, [], Root(r));
      var i :| 0 <= i < |h.roots[r].words| && h.roots[r].words[i] == Ptr(t);
      assert h.Words(Root(r))[i] == Ptr(t);
    }
    ReachSetLeast(h.graph, h.RootTargets() + kept, marks);
  }

  /** The objects and the first n root areas. */
  ghost function RootsBelow(n: nat): iset<Source> { iset s: Source | s.Object? || s.r < n }

  lemma AllRootsCovered(h: Heap, marks: set<nat>, stack: seq<Entry>)
    requires AllCovered(h, marks, stack, RootsBelow(|h.roots|))
    ensures AllCovered(h, marks, stack, Need(h, ROOTS_PUSHED, 0))
  {
    assert Open(0);
  }

  // The marker's steps are those of Tracing, as long as only objects are on the stack.

  /** Marking from one word leads from s to r. */
  ghost predicate Considers(g: Graph, size: nat, s: T.Trail, w: Word, r: T.Trail) {
    forall k: nat :: Open(k) ==>
      T.Good(g, size, s) && (w.Ptr? ==> w.obj < |g.objs|) ==> r == T.Consider(g, size, s, w)
  }

  /** Marking from some words leads from s to r. */
  ghost predicate Scans(g: Graph, size: nat, s: T.Trail, words: seq<Word>, r: T.Trail) {
    forall k: nat :: Open(k) ==> T.Good(g, size, s) && Resolved(g, words) ==> r == T.Scan(g, size, s, words)
  }

  /** Draining the stack from s and from r gives the same. */
  ghost predicate Drains(g: Graph, size: nat, s: T.Trail, r: T.Trail) {
    forall k: nat :: Open(k) ==>
      T.Good(g, size, s) ==> T.Good(g, size, r) && T.Drain(g, size, s) == T.Drain(g, size, r)
  }

  lemma ScansNothing(h: Heap, src: Source, lo: nat, size: nat, s: T.Trail)
    requires lo <= |h.Words(src)|
    ensures Scans(h.graph, size, s, h.Words(src)[lo..lo], s)
  {
  }

  lemma ScansOneMore(h: Heap, src: Source, lo: nat, hi: nat, size: nat, s: T.Trail, r: T.Trail, t: T.Trail)
    requires lo <= hi < |h.Words(src)| && Scans(h.graph, size, s, h.Words(src)[lo..hi], r)
    requires Considers(h.graph, size, r, h.Words(src)[hi], t)
    ensures Scans(h.graph, size, s, h.Words(src)[lo..hi + 1], t)
  {
    assert Open(0);
    var words, w := h.Words(src)[lo..hi], h.Words(src)[hi];
    assert h.Words(src)[lo..hi + 1] == words + [w];
    if T.Good(h.graph, size, s) && Resolved(h.graph, words + [w]) {
      assert (words + [w])[|words|] == w && forall i :: 0 <= i < |words| ==> (words + [w])[i] == words[i];
      T.ScanOneMore(h.graph, size, s, words, w);
    }
  }

  /** Words behind the last pointer make no difference. */
  lemma DataBehind(h: Heap, src: Source, lo: nat, hi: nat, limit: nat, size: nat, s: T.Trail, r: T.Trail)
    requires lo <= limit <= hi <= |h.Words(src)| && forall i :: limit <= i < hi ==> h.Words(src)[i].Data?
    requires Scans(h.graph, size, s, h.Words(src)[lo..limit], r)
    ensures Scans(h.graph, size, s, h.Words(src)[lo..hi], r)
  {
    assert Open(0);
    var words := h.Words(src)[lo..hi];
    if T.Good(h.graph, size, s) && Resolved(h.graph, words) {
      assert words[..limit - lo] == h.Words(src)[lo..limit];
      T.ScanData(h.graph, size, s, words, limit - lo);
    }
  }

  lemma DrainsTwice(g: Graph, size: nat, s: T.Trail, t: T.Trail, r: T.Trail)
    requires Drains(g, size, s, t) && Drains(g, size, t, r)
    ensures Drains(g, size, s, r)
  {
    assert Open(0);
  }

  /** The marker after pushing an object. */
  function PushedNow(h: Heap, size: nat, s: T.Trail, o: nat): T.Trail
    requires |s.stack| <= size && GC_MARK_STACK_DISCARDS <= size
  {
    var n := |h.Words(Object(o))|;
    if n == 0 then s
    else T.Trail(s.marks, Pushed(s.stack, size, Entry(Object(o), 0, n)), s.lost || |s.stack| == size)
  }

  /** An object was pushed on the empty stack, and the stack drained. */
  lemma DrainedFrom(h: Heap, size: nat, m: set<nat>, o: nat, s: T.Trail, r: T.Trail)
    requires h.Valid() && m + {o} <= AllObjects(h.graph) && INITIAL_MARK_STACK_SIZE <= size
    requires s == PushedNow(h, size, T.Trail(m, [], false), o) && Drains(h.graph, size, s, r) && r.stack == []
    ensures T.Gives(h.graph, size, m, o, r.marks, r.lost)
  {
    assert Open(0);
    assert o in AllObjects(h.graph);
  }

  lemma PushConsiders(h: Heap, size: nat, s: T.Trail, o: nat, r: T.Trail)
    requires |s.stack| <= size && GC_MARK_STACK_DISCARDS <= size && o !in s.marks
    requires r == PushedNow(h, size, s.(marks := s.marks + {o}), o)
    ensures Considers(h.graph, size, s, Ptr(o), r)
  {
  }

  /** One range has been taken off the stack and marked from. */
  lemma DrainsOn(h: Heap, size: nat, s: T.Trail, t: T.Trail, e: Entry, hi: nat, u: T.Trail, r: T.Trail)
    requires Drains(h.graph, size, s, t) && t.stack != [] && e == t.stack[|t.stack| - 1] && hi == T.CutOff(e)
    requires u == t.(stack := T.Popped(t.stack)) && e.lo < hi <= |h.Words(e.src)|
    requires Scans(h.graph, size, u, h.Words(e.src)[e.lo..hi], r)
    ensures Drains(h.graph, size, s, r)
  {
    assert Open(0);
    if T.Good(h.graph, size, s) {
      T.PoppedGood(h.graph, size, t);
      T.RoundProgress(h.graph, size, t);
    }
  }

  /** GC_mark_from looks at no more words than this in one call. */
  const MARK_PORTION := HBLKSIZE / WORD_BYTES + SPLIT_RANGE_WORDS

  class Collector {
    const heap: Heap
    var marks: set<nat>
    var stack: seq<Entry>
    var stackSize: nat
    var state: State
    var scanPtr: nat
    var tooSmall: bool
    var objectsAreMarked: bool
    /** The objects that marking starts from, besides the roots: those that were marked when
        it began, and an object pushed without being marked. */
    ghost var kept: set<nat>
    /** Calls of GC_mark_some so far. */
    ghost var calls: nat

    /** GC_mark_init. */
    constructor (h: Heap)
      ensures heap == h && marks == {} && stack == [] && state == NONE
      ensures stackSize == INITIAL_MARK_STACK_SIZE
    {
      heap := h;
      marks, stack, stackSize, state := {}, [], INITIAL_MARK_STACK_SIZE, NONE;
      scanPtr, tooSmall, objectsAreMarked, kept, calls := 0, false, false, {}, 0;
    }

    /** What holds in every state. */
    ghost predicate Sane()
      reads this
    {
      && heap.Valid() && ValidStack(heap, marks + kept, stack, stackSize) && kept <= AllObjects(heap.graph)
      && marks <= ReachSet(heap.graph, heap.RootTargets() + kept)
    }

    /** The marker's variables, as the functions of Tracing see them. */
    ghost function Now(): T.Trail
      reads this
    {
      T.Trail(marks, stack, state == INVALID)
    }

    /** The marker has gone on from s by marking from some words. */
    ghost predicate Scanned(s: T.Trail, words: seq<Word>)
      reads this
    {
      Scans(heap.graph, stackSize, s, words, Now())
    }

    /** The sources in `need` are covered, unless entries were thrown away. */
    ghost predicate Keeps(need: iset<Source>)
      reads this
    {
      state != INVALID ==> AllCovered(heap, marks, stack, need)
    }

    ghost predicate KeepsWith(need: iset<Source>, e: Entry)
      reads this
    {
      state != INVALID ==> AllCovered(heap, marks, stack + [e], need)
    }

    /** PUSH_OBJ: push all words of a marked object.  A full stack first loses its
        top entries (GC_signal_mark_stack_overflow). */
    method PushObj(o: nat)
      requires Sane() && o in marks + kept
      modifies this`stack, this`state, this`tooSmall
      ensures Sane()
      ensures Now() == PushedNow(heap, stackSize, old(Now()), o)
      ensures state == old(state) || (state == INVALID && old(|stack|) == stackSize)
      ensures old(|stack|) < stackSize ==> |stack| <= old(|stack|) + 1
      ensures state != INVALID ==> old(stack) <= stack && Covered(heap, marks, stack, Object(o))
    {
      if |heap.Words(Object(o))| != 0 {
        var e := Entry(Object(o), 0, |heap.Words(Object(o))|);
        if |stack| == stackSize {
          state := INVALID;
          tooSmall := true;
        }
        stack := Pushed(stack, stackSize, e);
        assert e in stack;
      }
    }

    /** PUSH_CONTENTS: mark the target of a pointer and push it, unless it was
        marked already. */
    method PushContents(w: Word, ghost pend: seq<Entry>, ghost need: iset<Source>)
      requires Sane()
      requires w.Ptr? ==> w.obj in ReachSet(heap.graph, heap.RootTargets() + kept)
      requires state != INVALID ==> AllCovered(heap, marks, stack + pend, need)
      modifies this`marks, this`stack, this`state, this`tooSmall
      ensures Sane()
      ensures Considers(heap.graph, stackSize, old(Now()), w, Now())
      ensures marks == old(marks) + (if w.Ptr? then {w.obj} else {})
      ensures marks == old(marks) ==> stack == old(stack) && state == old(state)
      ensures state == old(state) || state == INVALID
      ensures state != INVALID ==> AllCovered(heap, marks, stack + pend, need)
    {
      if w.Ptr? && w.obj !in marks {
        marks := marks + {w.obj};
        PushObj(w.obj);
        PushConsiders(heap, stackSize, old(Now()), w.obj, Now());
        if state != INVALID {
          assert Covered(heap, marks, stack + pend, Object(w.obj));
          PushCovers(heap, old(marks), old(stack) + pend, w.obj, stack + pend, need);
        }
      }
    }

    /** The first loop over a range in GC_mark_from: find its last pointer. */
    static method LastPointer(words: seq<Word>, lo: nat, hi: nat) returns (limit: int)
      requires lo < hi <= |words|
      ensures lo - 1 <= limit < hi
      ensures forall i :: limit < i < hi ==> words[i].Data?
      ensures limit >= lo ==> words[limit].Ptr?
    {
      limit := hi - 1;
      while limit >= lo && !words[limit].Ptr?
        invariant lo - 1 <= limit < hi
        invariant forall i :: limit < i < hi ==> words[i].Data?
      {
        limit := limit - 1;
      }
    }

    /** The range-scanning part of GC_mark_from.  The last pointer of the range is
        found first and marked from last; the words behind it hold no pointer. */
    method ScanRange(src: Source, lo: nat, hi: nat, ghost need: iset<Source>)
      requires Sane() && lo < hi <= |heap.Words(src)| && Live(marks + kept, src)
      requires KeepsWith(need, Entry(src, lo, hi))
      modifies this`marks, this`stack, this`state, this`tooSmall
      ensures Sane() && Keeps(need)
      ensures Scanned(old(Now()), heap.Words(src)[lo..hi])
      ensures old(marks) <= marks && |marks| <= |old(marks)| + (hi - lo)
      ensures marks == old(marks) ==> stack == old(stack) && state == old(state)
      ensures state == old(state) || state == INVALID
    {
      var limit := LastPointer(heap.Words(src), lo, hi);
      var end: nat := limit + 1;
      ghost var words := heap.Words(src);
      assert forall i :: end <= i < hi ==> words[i].Data?;
      if state != INVALID {
        Narrow(heap, marks, stack, src, lo, hi, lo, end, need);
      }
      if lo > limit {
        if state != INVALID {
          DropEmpty(heap, marks, stack, src, lo, end, need);
        }
        ScansNothing(heap, src, lo, stackSize, Now());
        DataBehind(heap, src, lo, hi, lo, stackSize, Now(), Now());
        return;
      }
      ScanUpTo(src, lo, limit, need);
      DataBehind(heap, src, lo, hi, end, stackSize, old(Now()), Now());
    }

    /** The second loop: mark from the words before the deferred pointer, then from it. */
    method ScanUpTo(src: Source, lo: nat, deferred: nat, ghost need: iset<Source>)
      requires Sane() && lo <= deferred < |heap.Words(src)| && Live(marks + kept, src)
      requires KeepsWith(need, Entry(src, lo, deferred + 1))
      modifies this`marks, this`stack, this`state, this`tooSmall
      ensures Sane() && Keeps(need)
      ensures Scanned(old(Now()), heap.Words(src)[lo..deferred + 1])
      ensures old(marks) <= marks && |marks| <= |old(marks)| + (deferred + 1 - lo)
      ensures marks == old(marks) ==> stack == old(stack) && state == old(state)
      ensures state == old(state) || state == INVALID
    {
      ScanWords(src, lo, deferred + 1, need);
      if state != INVALID {
        DropEmpty(heap, marks, stack, src, deferred + 1, deferred + 1, need);
      }
    }

    method ScanWords(src: Source, lo: nat, hi: nat, ghost need: iset<Source>)
      requires Sane() && lo <= hi <= |heap.Words(src)| && Live(marks + kept, src)
      requires KeepsWith(need, Entry(src, lo, hi))
      modifies this`marks, this`stack, this`state, this`tooSmall
      ensures Sane() && KeepsWith(need, Entry(src, hi, hi))
      ensures Scanned(old(Now()), heap.Words(src)[lo..hi])
      ensures old(marks) <= marks && |marks| <= |old(marks)| + (hi - lo)
      ensures marks == old(marks) ==> stack == old(stack) && state == old(state)
      ensures state == old(state) || state == INVALID
    {
      var cur := lo;
      ScansNothing(heap, src, lo, stackSize, Now());
      while cur < hi
        invariant lo <= cur <= hi && Sane() && KeepsWith(need, Entry(src, cur, hi))
        invariant Scanned(old(Now()), heap.Words(src)[lo..cur])
        invariant old(marks) <= marks && |marks| <= |old(marks)| + (cur - lo)
        invariant marks == old(marks) ==> stack == old(stack) && state == old(state)
        invariant state == old(state) || state == INVALID
      {
        var next := cur + 1;
        ScanNext(src, lo, cur, next, hi, need, old(Now()));
        cur := next;
      }
    }

    method ScanNext(src: Source, ghost lo: nat, cur: nat, next: nat, hi: nat, ghost need: iset<Source>,
        ghost s: T.Trail)
      requires Sane() && lo <= cur < hi <= |heap.Words(src)| && next == cur + 1 && Live(marks + kept, src)
      requires KeepsWith(need, Entry(src, cur, hi)) && Scanned(s, heap.Words(src)[lo..cur])
      modifies this`marks, this`stack, this`state, this`tooSmall
      ensures Sane() && KeepsWith(need, Entry(src, next, hi)) && Scanned(s, heap.Words(src)[lo..next])
      ensures old(marks) <= marks && |marks| <= |old(marks)| + 1
      ensures marks == old(marks) ==> stack == old(stack) && state == old(state)
      ensures state == old(state) || state == INVALID
    {
      Consider(src, cur, next, hi, need);
      ScansOneMore(heap, src, lo, cur, stackSize, s, old(Now()), Now());
    }

    /** Mark from the first word of a range that is being scanned. */
    method Consider(src: Source, lo: nat, next: nat, hi: nat, ghost need: iset<Source>)
      requires Sane() && lo < hi <= |heap.Words(src)| && next == lo + 1 && Live(marks + kept, src)
      requires KeepsWith(need, Entry(src, lo, hi))
      modifies this`marks, this`stack, this`state, this`tooSmall
      ensures Sane() && KeepsWith(need, Entry(src, next, hi))
      ensures Considers(heap.graph, stackSize, old(Now()), heap.Words(src)[lo], Now())
      ensures old(marks) <= marks && |marks| <= |old(marks)| + 1
      ensures marks == old(marks) ==> stack == old(stack) && state == old(state)
      ensures state == old(state) || state == INVALID
    {
      var w := heap.Words(src)[lo];
      if w.Ptr? {
        TargetReachable(heap, marks, kept, src, lo);
      }
      PushContents(w, [Entry(src, lo, hi)], need);
      if state != INVALID {
        Narrow(heap, marks, stack, src, lo, hi, next, hi, need);
      }
    }

    /** GC_mark_from on the global stack: mark from ranges at the top until about a
        block's worth of words has been looked at. */
    method MarkFrom(ghost need: iset<Source>)
      requires Sane() && Keeps(need)
      modifies this`marks, this`stack, this`state, this`tooSmall, this`objectsAreMarked
      ensures Sane() && Keeps(need) && objectsAreMarked
      ensures old(marks) <= marks && |marks| <= |old(marks)| + MARK_PORTION
      ensures marks == old(marks) ==> state == old(state)
      ensures marks == old(marks) && old(|stack|) > 0 ==> Work(stack) < old(Work(stack))
      ensures state == old(state) || state == INVALID
      ensures Drains(heap.graph, stackSize, old(Now()), Now())
    {
      objectsAreMarked := true;
      var credit := HBLKSIZE;
      while |stack| > 0 && credit >= 0
        invariant Sane() && Keeps(need) && old(marks) <= marks && objectsAreMarked
        invariant marks == old(marks) ==> state == old(state)
        invariant state == old(state) || state == INVALID
        invariant credit < HBLKSIZE && marks == old(marks) ==> Work(stack) < old(Work(stack))
        invariant credit == HBLKSIZE ==> stack == old(stack)
        invariant -(WORD_BYTES * SPLIT_RANGE_WORDS) < credit <= HBLKSIZE
        invariant WORD_BYTES * (|marks| - |old(marks)|) <= HBLKSIZE - credit
        invariant Drains(heap.graph, stackSize, old(Now()), Now())
        decreases credit
      {
        var words := MarkRange(need, old(Now()));
        credit := credit - WORD_BYTES * words;
      }
    }

    /** One range, or the first part of a long one. */
    method MarkRange(ghost need: iset<Source>, ghost s: T.Trail) returns (words: nat)
      requires Sane() && Keeps(need) && |stack| > 0 && Drains(heap.graph, stackSize, s, Now())
      modifies this`marks, this`stack, this`state, this`tooSmall
      ensures Sane() && Keeps(need) && old(marks) <= marks && 0 < words < SPLIT_RANGE_WORDS
      ensures |marks| <= |old(marks)| + words
      ensures marks == old(marks) ==> state == old(state) && Work(stack) < old(Work(stack))
      ensures state == old(state) || state == INVALID
      ensures Drains(heap.graph, stackSize, s, Now())
    {
      var e, hi := Take(need);
      words := hi - e.lo;
      ghost var taken := Now();
      ScanRange(e.src, e.lo, hi, need);
      DrainsOn(heap, stackSize, s, old(Now()), e, hi, taken, Now());
    }

    /** while (!GC_mark_stack_empty()) MARK_FROM_MARK_STACK() */
    method DrainStack()
      requires Sane()
      modifies this`marks, this`stack, this`state, this`tooSmall, this`objectsAreMarked
      ensures Sane() && old(marks) <= marks && stack == []
      ensures Drains(heap.graph, stackSize, old(Now()), Now())
      ensures old(objectsAreMarked) ==> objectsAreMarked
      ensures state == old(state) || state == INVALID
    {
      ghost var s := Now();
      while |stack| > 0
        invariant Sane() && Drains(heap.graph, stackSize, s, Now()) && old(marks) <= marks
        invariant (old(objectsAreMarked) ==> objectsAreMarked) && (state == old(state) || state == INVALID)
        decreases Unmarked(), Work(stack)
      {
        ghost var t := Now();
        MarkFrom(iset{});
        DrainsTwice(heap.graph, stackSize, s, t, Now());
      }
    }

    /** Take the range at the top of the stack, or only its first part if it is long. */
    method Take(ghost need: iset<Source>) returns (e: Entry, hi: nat)
      requires Sane() && Keeps(need) && |stack| > 0
      modifies this`stack
      ensures Sane() && KeepsWith(need, Entry(e.src, e.lo, hi))
      ensures e.lo < hi <= |heap.Words(e.src)| && Live(marks + kept, e.src)
      ensures Work(stack) < old(Work(stack))
      ensures e == old(stack[|stack| - 1]) && hi == T.CutOff(e) && stack == T.Popped(old(stack))
    {
      var top := |stack| - 1;
      e := stack[top];
      assert ValidEntry(heap, marks + kept, e) && stack == stack[..top] + [e];
      hi := e.hi;
      if e.hi - e.lo >= SPLIT_RANGE_WORDS {
        hi := e.lo + (SPLIT_RANGE_WORDS - 1);
        if state != INVALID {
          SplitTop(heap, marks, stack, hi, need);
        }
        stack := stack[..top] + [e.(lo := hi)];
        assert stack[..top] == old(stack)[..top] && ValidEntry(heap, marks + kept, e.(lo := hi));
      } else {
        stack := stack[..top];
        assert old(stack) == stack + [Entry(e.src, e.lo, hi)];
      }
    }

    /** GC_push_marked: push the marked objects of a block. */
    method PushMarked(b: nat)
      requires Sane() && b < |heap.blocks|
      modifies this`stack, this`state, this`tooSmall, this`objectsAreMarked
      ensures Sane()
      ensures state == old(state) || (state == INVALID && old(|stack|) + MAX_OBJS_PER_BLOCK > stackSize)
      ensures old(objectsAreMarked) ==> objectsAreMarked
      ensures !objectsAreMarked ==> stack == old(stack) && state == old(state)
      ensures state != INVALID ==> old(stack) <= stack
      ensures state != INVALID ==> forall o :: o in heap.blocks[b].objs && o in marks ==>
        Covered(heap, marks, stack, Object(o))
    {
      var objs := heap.blocks[b].objs;
      BlockValid(heap, b);
      if !heap.blocks[b].kind.HasPointers() || (forall o :: o in objs ==> o !in marks) {
        return;
      }
      objectsAreMarked := true;
      for k := 0 to |objs|
        invariant Sane() && objectsAreMarked
        invariant state == old(state) || (state == INVALID && old(|stack|) + MAX_OBJS_PER_BLOCK > stackSize)
        invariant old(|stack|) + MAX_OBJS_PER_BLOCK <= stackSize ==> |stack| <= old(|stack|) + k
        invariant state != INVALID ==> old(stack) <= stack
        invariant state != INVALID ==> forall j :: 0 <= j < k && objs[j] in marks ==>
          Covered(heap, marks, stack, Object(objs[j]))
      {
        if objs[k] in marks {
          PushObj(objs[k]);
        }
      }
    }

    /** GC_push_next_marked: push the next block in use at or above h; return the
        address behind it, or 0 if there is none. */
    method PushNextMarked(h: nat) returns (next: nat)
      requires Sane() && (state == INVALID || state == PARTIALLY_INVALID)
      requires Keeps(Need(heap, PARTIALLY_INVALID, h))
      modifies this`stack, this`state, this`tooSmall, this`objectsAreMarked
      ensures Sane()
      ensures state == old(state) || (state == INVALID && old(|stack|) + MAX_OBJS_PER_BLOCK > stackSize)
      ensures old(objectsAreMarked) ==> objectsAreMarked
      ensures next == 0 <==> heap.NextUsed(h) == |heap.blocks|
      ensures next == 0 ==> stack == old(stack) && state == old(state)
      ensures next != 0 ==> heap.NextUsed(next) > heap.NextUsed(h)
      ensures state != INVALID && next != 0 ==> AllCovered(heap, marks, stack, Need(heap, PARTIALLY_INVALID, next))
      ensures state != INVALID && next == 0 ==> AllCovered(heap, marks, stack, iset s: Source | s.Object?)
    {
      var b := heap.NextUsed(h);
      if b == |heap.blocks| {
        if state != INVALID {
          ScanComplete(heap, marks, stack, state, h);
        }
        return 0;
      }
      PushMarked(b);
      next := heap.blocks[b].addr + heap.blocks[b].len;
      BlockValid(heap, b);
      if state != INVALID {
        StackGrows(heap, marks, old(stack), stack, Need(heap, PARTIALLY_INVALID, h));
        ScanPastBlock(heap, marks, stack, state, h, b);
      }
    }

    /** The loop of GC_push_next_marked_uncollectable: skip blocks of other kinds. */
    static method NextUncollectable(hp: Heap, h: nat, ghost marks: set<nat>, ghost stack: seq<Entry>)
      returns (at: nat, b: nat)
      requires hp.Valid() && AllCovered(hp, marks, stack, Need(hp, PUSH_UNCOLLECTABLE, h))
      ensures b == hp.NextUsed(at) && hp.NextUsed(h) <= b <= |hp.blocks|
      ensures b < |hp.blocks| ==> hp.blocks[b].kind.Uncollectable?
      ensures AllCovered(hp, marks, stack, Need(hp, PUSH_UNCOLLECTABLE, at))
    {
      at, b := h, hp.NextUsed(h);
      while b < |hp.blocks| && !hp.blocks[b].kind.Uncollectable?
        invariant b == hp.NextUsed(at) && hp.NextUsed(h) <= b <= |hp.blocks|
        invariant AllCovered(hp, marks, stack, Need(hp, PUSH_UNCOLLECTABLE, at))
        decreases |hp.blocks| - b
      {
        NothingToPush(hp, marks, stack, at, b);
        ScanPastBlock(hp, marks, stack, PUSH_UNCOLLECTABLE, at, b);
        at := hp.blocks[b].addr + hp.blocks[b].len;
        b := hp.NextUsed(at);
      }
    }

    /** GC_push_next_marked_uncollectable. */
    method PushNextMarkedUncollectable(h: nat) returns (next: nat)
      requires Sane() && state == PUSH_UNCOLLECTABLE
      requires Keeps(Need(heap, PUSH_UNCOLLECTABLE, h))
      modifies this`stack, this`state, this`tooSmall, this`objectsAreMarked
      ensures Sane()
      ensures state == old(state) || state == INVALID
      ensures old(objectsAreMarked) ==> objectsAreMarked
      ensures !objectsAreMarked ==> stack == old(stack) && state == old(state)
      ensures next == 0 ==> stack == old(stack) && state == old(state)
      ensures next != 0 ==> heap.NextUsed(next) > heap.NextUsed(h)
      ensures state != INVALID && next != 0 ==> AllCovered(heap, marks, stack, Need(heap, PUSH_UNCOLLECTABLE, next))
      ensures state != INVALID && next == 0 ==> AllCovered(heap, marks, stack, iset s: Source | s.Object?)
    {
      var at, b := NextUncollectable(heap, h, marks, stack);
      if b == |heap.blocks| {
        ScanComplete(heap, marks, stack, state, at);
        return 0;
      }
      PushMarked(b);
      BlockValid(heap, b);
      next := heap.blocks[b].addr + heap.blocks[b].len;
      if state != INVALID {
        StackGrows(heap, marks, old(stack), stack, Need(heap, PUSH_UNCOLLECTABLE, at));
        ScanPastBlock(heap, marks, stack, state, at, b);
      }
    }

    /** How many root areas are static data. */
    static ghost function StaticCount(h: Heap): (k: nat)
      requires exists k: nat :: h.StaticFirst(k)
      ensures h.StaticFirst(k)
    {
      var k: nat :| h.StaticFirst(k);
      k
    }

    /** The mark stack is full and there is static data to push on it: the one case in which
        the collector gives up. */
    ghost predicate NoRoom()
      reads this
    {
      |stack| == stackSize && exists r :: r in heap.roots && r.Deferred? && r.words != []
    }

    /** GC_push_roots.  Static areas are pushed as ranges, and a full stack aborts
        there (GC_push_all); stacks and registers are marked from at once and may
        overflow the stack. */
    method PushRoots() returns (ok: bool)
      requires Sane() && Keeps(iset s: Source | s.Object?)
      modifies this`marks, this`stack, this`state, this`tooSmall
      ensures Sane() && (!ok ==> NoRoom())
      ensures heap.StaticDataFits(stackSize) && old(|stack|) <= stackSize / 4 ==> ok
      ensures old(marks) <= marks
      ensures state == old(state) || (state == INVALID && marks != old(marks))
      ensures ok ==> Keeps(Need(heap, ROOTS_PUSHED, 0))
    {
      ghost var fits := heap.StaticDataFits(stackSize) && old(|stack|) <= stackSize / 4;
      ghost var k: nat := if fits then StaticCount(heap) else 0;
      assert RootsBelow(0) == iset s: Source | s.Object?;
      for r := 0 to |heap.roots|
        invariant Sane() && Keeps(RootsBelow(r))
        invariant old(marks) <= marks
        invariant state == old(state) || (state == INVALID && marks != old(marks))
        invariant fits && r <= k ==> |stack| == old(|stack|) + StaticAreas(heap.roots[..r])
      {
        assert RootsBelow(r + 1) - iset{Root(r)} == RootsBelow(r);
        StaticStep(heap.roots, r);
        ok := PushRoot(r, RootsBelow(r + 1));
        if !ok {
          return;
        }
      }
      if state != INVALID {
        AllRootsCovered(heap, marks, stack);
      }
      return true;
    }

    /** One root area. */
    method PushRoot(r: nat, ghost done: iset<Source>) returns (ok: bool)
      requires Sane() && r < |heap.roots| && Keeps(done - iset{Root(r)})
      modifies this`marks, this`stack, this`state, this`tooSmall
      ensures Sane() && old(marks) <= marks
      ensures !ok ==> NoRoom() && heap.roots[r].Deferred? && heap.roots[r].words != [] && |old(stack)| == stackSize
      ensures state == old(state) || (state == INVALID && marks != old(marks))
      ensures ok ==> Keeps(done)
      ensures ok && heap.roots[r].Deferred? ==> |stack| == |old(stack)| + if heap.roots[r].words != [] then 1 else 0
    {
      var words := heap.roots[r].words;
      if state != INVALID {
        RootPending(heap, marks, stack, r, done);
      }
      if words == [] {
        if state != INVALID {
          DropEmpty(heap, marks, stack, Root(r), 0, 0, done);
        }
        return true;
      }
      if heap.roots[r].Deferred? {
        if |stack| == stackSize {
          assert heap.roots[r] in heap.roots;
          return false;
        }
        stack := stack + [Entry(Root(r), 0, |words|)];
      } else {
        ScanUpTo(Root(r), 0, |words| - 1, done);
      }
      return true;
    }

    /** alloc_mark_stack on an empty stack.  It may fail, and the stack keeps its size. */
    method AllocMarkStack(n: nat)
      requires Sane() && stack == [] && stackSize <= n
      modifies this`tooSmall, this`stackSize, this`stack
      ensures Sane() && stack == [] && !tooSmall && (stackSize == n || stackSize == old(stackSize))
    {
      tooSmall := false;
      if * {
        stackSize := n;
      }
      stack := [];
    }

    /** The invariant between two calls of GC_mark_some. */
    ghost predicate Inv()
      reads this
    {
      && Sane() && kept <= marks && Keeps(Need(heap, state, scanPtr))
      && (state == NONE || state == ROOTS_PUSHED ==> scanPtr == 0)
      && (!objectsAreMarked ==>
           && (state == PUSH_UNCOLLECTABLE || (state == INVALID && scanPtr == 0))
           && stack == [] && marks == kept && forall o :: o in kept ==> heap.Kept(o))
    }

    ghost function Unmarked(): set<nat>
      reads this
    {
      AllObjects(heap.graph) - marks
    }

    ghost function Phase(): nat
      reads this
    {
      match state
      case INVALID => if !objectsAreMarked then 6 else if scanPtr != 0 then 4 else 3
      case PUSH_UNCOLLECTABLE => 5
      case PARTIALLY_INVALID => 2
      case ROOTS_PUSHED => 1
      case NONE => 0
    }

    ghost function BlocksLeft(): nat
      reads this`scanPtr
    {
      |heap.blocks| - heap.NextUsed(scanPtr)
    }

    /** The stack is drained before anything else is pushed. */
    ghost predicate Draining()
      reads this
    {
      state != NONE && |stack| > if state == PUSH_UNCOLLECTABLE then stackSize / 4 else 0
    }

    /** Progress of one call: fewer unmarked objects, or a later phase, or fewer blocks
        to scan, or fewer pending words. */
    twostate predicate Progress()
      reads this
    {
      || old(marks) < marks
      || (old(marks) == marks &&
           (|| Phase() < old(Phase())
            || (Phase() == old(Phase()) &&
                 (|| BlocksLeft() < old(BlocksLeft())
                  || (BlocksLeft() == old(BlocksLeft()) && Work(stack) < old(Work(stack)))))))
    }

    /** GC_mark_some, with a sequential marker. */
    method MarkSome() returns (r: Outcome)
      requires Inv()
      modifies this`marks, this`stack, this`stackSize, this`state, this`scanPtr, this`tooSmall, this`objectsAreMarked
      modifies this`calls
      ensures calls == old(calls) + 1
      ensures r != Abandoned
      ensures if r == Aborted then NoRoom() else Inv()
      ensures stackSize >= old(stackSize) && (heap.StaticDataFits(old(stackSize)) ==> r != Aborted)
      ensures r == Finished ==> state == NONE && stack == [] && marks == ReachSet(heap.graph, heap.RootTargets() + kept)
      ensures r == More && old(state) != NONE ==> state != NONE && Progress()
      ensures r == Finished ==> old(state) == ROOTS_PUSHED && old(stack) == [] && marks == old(marks)
      ensures old(Draining()) ==> r == More && |marks| <= |old(marks)| + MARK_PORTION
      ensures old(state) == NONE ==> r == More && state == NONE
    {
      r := MarkInState();
      calls := calls + 1;
    }

    /** The switch on the state. */
    method MarkInState() returns (r: Outcome)
      requires Inv()
      modifies this`marks, this`stack, this`stackSize, this`state, this`scanPtr, this`tooSmall, this`objectsAreMarked
      ensures r != Abandoned
      ensures if r == Aborted then NoRoom() else Inv()
      ensures stackSize >= old(stackSize) && (heap.StaticDataFits(old(stackSize)) ==> r != Aborted)
      ensures r == Finished ==> state == NONE && stack == [] && marks == ReachSet(heap.graph, heap.RootTargets() + kept)
      ensures r == More && old(state) != NONE ==> state != NONE && Progress()
      ensures r == Finished ==> old(state) == ROOTS_PUSHED && old(stack) == [] && marks == old(marks)
      ensures old(Draining()) ==> r == More && |marks| <= |old(marks)| + MARK_PORTION
      ensures old(state) == NONE ==> r == More && state == NONE
    {
      match state
      case NONE => return More;
      case PUSH_UNCOLLECTABLE =>
        if |stack| > stackSize / 4 {
          MarkFrom(Need(heap, state, scanPtr));
          return More;
        } else {
          r := PushUncollectables();
        }
      case ROOTS_PUSHED =>
        if |stack| > 0 {
          MarkFrom(Need(heap, state, scanPtr));
          return More;
        } else {
          state := NONE;
          CoveredIsReached(heap, marks, kept);
          if tooSmall {
            AllocMarkStack(2 * stackSize);
          }
          return Finished;
        }
      case INVALID => r := Rescan();
      case PARTIALLY_INVALID => r := Rescan();
    }

    /** The else branch of state PUSH_UNCOLLECTABLE. */
    method PushUncollectables() returns (r: Outcome)
      requires Inv() && state == PUSH_UNCOLLECTABLE && |stack| <= stackSize / 4
      modifies this`marks, this`stack, this`state, this`scanPtr, this`tooSmall, this`objectsAreMarked
      ensures r == More || (r == Aborted && NoRoom() && !heap.StaticDataFits(stackSize))
      ensures r == More ==> Inv() && Progress() && state != NONE
    {
      scanPtr := PushNextMarkedUncollectable(scanPtr);
      if scanPtr == 0 {
        r := RootsAfterScan();
      } else {
        r := More;
      }
    }

    /** The end of a scan: push the roots and, unless that overflowed, go on to
        ROOTS_PUSHED. */
    method RootsAfterScan() returns (r: Outcome)
      requires Sane() && Keeps(iset s: Source | s.Object?) && scanPtr == 0
      requires state == PUSH_UNCOLLECTABLE || state == PARTIALLY_INVALID
      requires |stack| <= stackSize / 4 && kept <= marks
      modifies this`marks, this`stack, this`state, this`tooSmall, this`objectsAreMarked
      ensures r == More || (r == Aborted && NoRoom() && !heap.StaticDataFits(stackSize))
      ensures r == More ==> Inv() && objectsAreMarked && old(marks) <= marks
      ensures r == More ==> state == ROOTS_PUSHED || (state == INVALID && marks != old(marks))
    {
      var ok := PushRoots();
      if !ok {
        return Aborted;
      }
      objectsAreMarked := true;
      if state != INVALID {
        state := ROOTS_PUSHED;
      }
      return More;
    }

    /** States INVALID and PARTIALLY_INVALID. */
    method Rescan() returns (r: Outcome)
      requires Inv() && (state == INVALID || state == PARTIALLY_INVALID)
      modifies this`marks, this`stack, this`stackSize, this`state, this`scanPtr, this`tooSmall, this`objectsAreMarked
      ensures r == More || (r == Aborted && NoRoom() && !heap.StaticDataFits(stackSize))
      ensures stackSize >= old(stackSize)
      ensures r == More ==> Inv() && Progress() && state != NONE
      ensures old(stack) != [] ==> r == More && |marks| <= |old(marks)| + MARK_PORTION
    {
      if !objectsAreMarked {
        state := PUSH_UNCOLLECTABLE;
        return More;
      }
      if |stack| > 0 {
        MarkFrom(Need(heap, state, scanPtr));
        return More;
      }
      r := ScanOn();
    }

    /** With the stack drained, push the marked objects of one more block. */
    method ScanOn() returns (r: Outcome)
      requires Inv() && (state == INVALID || state == PARTIALLY_INVALID) && objectsAreMarked && stack == []
      modifies this`marks, this`stack, this`stackSize, this`state, this`scanPtr, this`tooSmall, this`objectsAreMarked
      ensures r == More || (r == Aborted && NoRoom() && !heap.StaticDataFits(stackSize))
      ensures stackSize >= old(stackSize)
      ensures r == More ==> Inv() && Progress() && state != NONE
    {
      ScanBlock();
      if scanPtr == 0 && state == PARTIALLY_INVALID {
        r := RootsAfterScan();
      } else {
        r := More;
      }
    }

    method ScanBlock()
      requires Sane() && (state == INVALID || state == PARTIALLY_INVALID) && objectsAreMarked && stack == []
      requires Keeps(Need(heap, state, scanPtr))
      modifies this`stack, this`stackSize, this`state, this`scanPtr, this`tooSmall, this`objectsAreMarked
      ensures Sane() && objectsAreMarked && stackSize >= old(stackSize)
      ensures scanPtr == 0 ==> stack == []
      ensures state == if old(scanPtr) == 0 then PARTIALLY_INVALID else old(state)
      ensures scanPtr != 0 ==> BlocksLeft() < old(BlocksLeft()) && Keeps(Need(heap, PARTIALLY_INVALID, scanPtr))
      ensures scanPtr == 0 ==> Keeps(iset s: Source | s.Object?)
    {
      StartScan();
      scanPtr := PushNextMarked(scanPtr);
    }

    /** A scan that starts at the bottom of the heap in state INVALID repairs the
        invariant; the empty stack may be replaced by a larger one first. */
    method StartScan()
      requires Sane() && (state == INVALID || state == PARTIALLY_INVALID) && stack == []
      requires Keeps(Need(heap, state, scanPtr))
      modifies this`stack, this`stackSize, this`state, this`tooSmall
      ensures Sane() && stack == [] && Keeps(Need(heap, PARTIALLY_INVALID, scanPtr)) && stackSize >= old(stackSize)
      ensures state == if scanPtr == 0 then PARTIALLY_INVALID else old(state)
    {
      if scanPtr == 0 && state == INVALID {
        if tooSmall {
          AllocMarkStack(2 * stackSize);
        }
        state := PARTIALLY_INVALID;
      }
    }

    /** GC_clear_marks: uncollectable blocks keep their mark bits. */
    method ClearMarks()
      requires heap.Valid() && marks <= AllObjects(heap.graph)
      requires INITIAL_MARK_STACK_SIZE <= stackSize && stack == []
      modifies this`marks, this`state, this`scanPtr, this`objectsAreMarked, this`kept
      ensures marks == (set o | o in old(marks) && heap.Kept(o)) == kept
      ensures Inv() && state == INVALID
    {
      for b := 0 to |heap.blocks|
        invariant marks <= old(marks)
        invariant forall o :: o in old(marks) ==>
          (o in marks <==> forall a: nat :: a < b && heap.InBlock(o, a) ==> heap.blocks[a].kind.IsUncollectable())
      {
        if !heap.blocks[b].kind.IsUncollectable() {
          marks := marks - (set o | o in heap.blocks[b].objs);
        }
      }
      objectsAreMarked := false;
      state := INVALID;
      scanPtr := 0;
      assert Open(0);
      forall o | o in old(marks) ensures o in marks <==> heap.Kept(o) {
        assert heap.InSomeBlock(o);
      }
      kept := marks;
      SourcesReachable(heap.graph, heap.RootTargets() + kept);
    }

    /** The invariant while marking goes on, closed. */
    ghost predicate Going()
      reads this
    {
      forall k: nat :: Open(k) ==> Inv() && state != NONE
    }

    /** What a call of GC_mark_some comes to in the loop of GC_stopped_mark. */
    method CallOnce() returns (r: Outcome)
      requires Going()
      modifies this`marks, this`stack, this`stackSize, this`state, this`scanPtr, this`tooSmall, this`objectsAreMarked
      modifies this`calls
      ensures calls == old(calls) + 1 && stackSize >= old(stackSize) && r != Abandoned
      ensures r == Finished ==> marks == ReachSet(heap.graph, heap.RootTargets() + kept)
      ensures r == Aborted ==> NoRoom() && !heap.StaticDataFits(old(stackSize))
      ensures r == More ==> Going() && (Unmarked() < old(Unmarked()) || (marks == old(marks) && Progress()))
    {
      assert Open(0);
      r := MarkSome();
    }

    /** The loop of GC_stopped_mark after GC_initiate_gc.  The stop function is asked
        before each call of GC_mark_some, and answers true for the first time after n calls or
        not at all before the phase ends. */
    method StoppedMark(stop: nat -> bool) returns (r: Outcome, n: nat)
      requires Inv() && state == INVALID
      modifies this`marks, this`stack, this`stackSize, this`state, this`scanPtr, this`tooSmall, this`objectsAreMarked
      modifies this`calls
      ensures r == Finished ==> marks == ReachSet(heap.graph, heap.RootTargets() + kept)
      ensures r != More && (r == Aborted ==> NoRoom() && !heap.StaticDataFits(old(stackSize)))
      ensures (r == Abandoned <==> stop(n)) && forall i :: 0 <= i < n ==> !stop(i)
      ensures calls == old(calls) + n + (if r == Abandoned then 0 else 1)
      ensures r == Abandoned ==> Inv() && state != NONE && (n == 0 ==> marks == old(marks))
      ensures stackSize >= old(stackSize)
    {
      scanPtr := 0;
      n := 0;
      while true
        invariant Going() && stackSize >= old(stackSize)
        invariant calls == old(calls) + n && forall i :: 0 <= i < n ==> !stop(i)
        invariant n == 0 ==> marks == old(marks)
        decreases Unmarked(), Phase(), BlocksLeft(), Work(stack)
      {
        if stop(n) {
          assert Inv() && state != NONE by { assert Open(0); }
          return Abandoned, n;
        }
        r := CallOnce();
        if r != More {
          return;
        }
        n := n + 1;
      }
    }

    /** A full stop-the-world mark phase: GC_invalidate_mark_state, GC_clear_marks and
        GC_stopped_mark.  It ends.  It is abandoned exactly if the stop function answers
        true before the last call of GC_mark_some; if it is neither abandoned nor aborted,
        exactly the objects reachable from the roots or from marked uncollectable objects
        are marked. */
    method Collect(stop: nat -> bool) returns (r: Outcome, n: nat)
      requires heap.Valid() && marks <= AllObjects(heap.graph)
      requires INITIAL_MARK_STACK_SIZE <= stackSize
      modifies this
      ensures r == Finished ==>
        marks == ReachSet(heap.graph, heap.RootTargets() + set o | o in old(marks) && heap.Kept(o))
      ensures r != More && (r == Aborted ==> NoRoom() && !heap.StaticDataFits(old(stackSize)))
      ensures (r == Abandoned <==> stop(n)) && forall i :: 0 <= i < n ==> !stop(i)
      ensures calls == old(calls) + n + (if r == Abandoned then 0 else 1)
      ensures r == Abandoned && n == 0 ==> marks == set o | o in old(marks) && heap.Kept(o)
    {
      state := INVALID;
      stack := [];
      ClearMarks();
      r, n := StoppedMark(stop);
    }

    /** The marker as GC_finalize finds it, about to mark from one object. */
    constructor Idle(h: Heap, m: set<nat>, size: nat, o: nat)
      ensures heap == h && marks == m && stack == [] && state == NONE && stackSize == size
      ensures scanPtr == 0 && objectsAreMarked && kept == m + {o}
    {
      heap := h;
      marks, stack, stackSize, state := m, [], size, NONE;
      scanPtr, tooSmall, objectsAreMarked, kept, calls := 0, false, true, m + {o}, 0;
    }

    /** The normal mark procedure of a finalizable object: push the object, which need not be
        marked, and drain the stack. */
    method MarkObject(o: nat) returns (lost: bool)
      requires heap.Valid() && kept == marks + {o} <= AllObjects(heap.graph) && stack == [] && state == NONE
      requires INITIAL_MARK_STACK_SIZE <= stackSize
      modifies this`marks, this`stack, this`state, this`tooSmall, this`objectsAreMarked
      ensures T.Gives(heap.graph, stackSize, old(marks), o, marks, lost)
      ensures Sane() && stack == [] && state == (if lost then INVALID else NONE) && old(marks) <= marks
      ensures old(objectsAreMarked) ==> objectsAreMarked
    {
      SourcesReachable(heap.graph, heap.RootTargets() + kept);
      PushObj(o);
      ghost var s := Now();
      DrainStack();
      DrainedFrom(heap, stackSize, old(marks), o, s, Now());
      lost := state != NONE;
    }

    /** What GC_finalize does after an overflow: mark the object too, so that it is given up,
        and make the mark bits consistent again.  All that the roots and the marked objects
        reach gets marked. */
    method GiveUp(o: nat) returns (ok: bool)
      requires Sane() && o in kept && stack == [] && state == INVALID && scanPtr == 0 && objectsAreMarked
      modifies this
      ensures ok ==> marks == ReachSet(heap.graph, heap.RootTargets() + old(marks) + {o})
      ensures stackSize >= old(stackSize) && (heap.StaticDataFits(old(stackSize)) ==> ok)
    {
      marks := marks + {o};
      kept := marks;
      SourcesReachable(heap.graph, heap.RootTargets() + kept);
      assert heap.RootTargets() + old(marks) + {o} == heap.RootTargets() + kept;
      ok := Recover();
    }

    /** while (!GC_mark_some(0)); */
    method Recover() returns (ok: bool)
      requires Sane() && marks == kept && stack == [] && state == INVALID && scanPtr == 0 && objectsAreMarked
      modifies this`marks, this`stack, this`stackSize, this`state, this`scanPtr, this`tooSmall, this`objectsAreMarked
      modifies this`calls
      ensures ok ==> marks == ReachSet(heap.graph, heap.RootTargets() + kept)
      ensures stackSize >= old(stackSize) && (heap.StaticDataFits(old(stackSize)) ==> ok)
    {
      var r, n := StoppedMark(i => false);
      ok := r == Finished;
    }
  }

  lemma StackGrows(h: Heap, marks: set<nat>, stack: seq<Entry>, stack': seq<Entry>, need: iset<Source>)
    requires AllCovered(h, marks, stack, need) && stack <= stack'
    ensures AllCovered(h, marks, stack', need)
  {
    assert Open(0);
    forall s | s in need && Live(marks, s) ensures Covered(h, marks, stack', s) {
      assert Covered(h, marks, stack, s);
    }
  }

  /** A root area whose range has just been pushed is covered. */
  lemma RootPending(h: Heap, marks: set<nat>, stack: seq<Entry>, r: nat, need: iset<Source>)
    requires r < |h.roots| && AllCovered(h, marks, stack, need - iset{Root(r)})
    ensures AllCovered(h, marks, stack + [Entry(Root(r), 0, |h.roots[r].words|)], need)
  {
    assert Open(0);
    var e := Entry(Root(r), 0, |h.roots[r].words|);
    StackGrows(h, marks, stack, stack + [e], need - iset{Root(r)});
    assert e in stack + [e];
    assert forall i :: 0 <= i < |h.Words(Root(r))| ==> e.Covers(Root(r), i);
  }
}

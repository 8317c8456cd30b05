/** The heap as the marker sees it, and the bounded mark stack. */
module MarkStack {
  import opened Locks
  import opened Basics
  import opened ObjectGraph
  import BlockLayout

  const HBLKSIZE := BlockLayout.BlockBytes
  const WORD_BYTES := 8
  const INITIAL_MARK_STACK_SIZE := 1 * HBLKSIZE
  const GC_MARK_STACK_DISCARDS := INITIAL_MARK_STACK_SIZE / 8
  const SPLIT_RANGE_WORDS := 128
  /** A block holds at most one object per two-word granule. */
  const MAX_OBJS_PER_BLOCK := HBLKSIZE / (2 * WORD_BYTES)

  /** A block in use: its address and length in heap-block units and its objects. */
  datatype Block = Block(addr: nat, len: nat, kind: Kind, objs: seq<nat>)

  /** Static data is pushed as a range for later; stacks and registers are marked
      from right away, word by word. */
  datatype RootArea = Deferred(words: seq<Word>) | Eager(words: seq<Word>)

  /** Where a mark-stack range lies: in an object or in a root area. */
  datatype Source = Object(o: nat) | Root(r: nat)

  /** Words lo..hi of src still have to be marked from. */
  datatype Entry = Entry(src: Source, lo: nat, hi: nat) {
    predicate Covers(s: Source, i: nat) { src == s && lo <= i < hi }
  }

  datatype Heap = Heap(graph: Graph, blocks: seq<Block>, roots: seq<RootArea>) {
    function Words(s: Source): seq<Word> {
      match s
      case Object(o) => if o < |graph.objs| then graph.objs[o] else []
      case Root(r) => if r < |roots| then roots[r].words else []
    }

    predicate InBlock(o: nat, b: nat) { b < |blocks| && o in blocks[b].objs }

    ghost predicate InSomeBlock(o: nat) { exists b :: InBlock(o, b) }

    /** Blocks are in address order and disjoint, every object lies in one block,
        and an object has words to mark from exactly if its block's kind has. */
    ghost predicate Valid() {
      forall k: nat :: Open(k) ==> InOrder()
    }

    ghost predicate InOrder() {
      && WellFormed(graph)
      && (forall r :: 0 <= r < |roots| ==> Resolved(graph, roots[r].words))
      && (forall b :: 0 <= b < |blocks| ==> ValidBlock(blocks[b]))
      && (forall a, b :: 0 <= a < b < |blocks| ==> blocks[a].addr + blocks[a].len <= blocks[b].addr)
      && (forall o :: o in AllObjects(graph) ==> InSomeBlock(o))
      && (forall a, b, o :: InBlock(o, a) && InBlock(o, b) ==> a == b)
    }

    ghost predicate ValidBlock(b: Block) {
      && 0 < b.addr && 0 < b.len && |b.objs| <= MAX_OBJS_PER_BLOCK
      && forall o :: o in b.objs ==> o < |graph.objs| && (graph.objs[o] != [] <==> b.kind.HasPointers())
    }

    /** The lowest block in use that starts at h or above, or the number of blocks. */
    function NextUsed(h: nat, from: nat := 0): (b: nat)
      requires from <= |blocks|
      ensures from <= b <= |blocks|
      ensures b < |blocks| ==> h <= blocks[b].addr
      ensures forall a :: from <= a < b ==> blocks[a].addr < h
      decreases |blocks| - from
    {
      if from < |blocks| && blocks[from].addr < h then NextUsed(h, from + 1) else from
    }

    ghost predicate RootPointsTo(o: nat) { exists r :: 0 <= r < |roots| && Ptr(o) in roots[r].words }

    ghost function RootTargets(): set<nat> {
      set o: nat | 0 <= o < |graph.objs| && RootPointsTo(o)
    }

    /** The first k root areas are static data, the others are not or are empty. */
    ghost predicate StaticFirst(k: nat) {
      && k <= |roots| && (forall r :: 0 <= r < k ==> roots[r].Deferred?)
      && (forall r :: k <= r < |roots| ==> roots[r].Deferred? ==> roots[r].words == [])
    }

    /** Static data comes first, as in GC_push_roots, and fits in three quarters of a mark
        stack. */
    ghost predicate StaticDataFits(size: nat) {
      (exists k: nat :: StaticFirst(k)) && StaticAreas(roots) <= size - size / 4
    }

    /** The object's block starts below h. */
    ghost predicate Below(h: nat, o: nat) {
      exists b: nat :: InBlock(o, b) && blocks[b].addr < h
    }

    /** The object's block keeps its mark bits from one collection to the next. */
    ghost predicate Kept(o: nat) {
      exists b: nat :: InBlock(o, b) && blocks[b].kind.IsUncollectable()
    }
  }

  /** Static areas that are not empty. */
  function StaticAreas(roots: seq<RootArea>): nat {
    if roots == [] then 0
    else
      var last := roots[|roots| - 1];
      StaticAreas(roots[..|roots| - 1]) + if last.Deferred? && last.words != [] then 1 else 0
  }

  lemma {:induction false} StaticAreasPrefix(roots: seq<RootArea>, n: nat)
    requires n <= |roots|
    ensures StaticAreas(roots[..n]) <= StaticAreas(roots)
  {
    if n < |roots| {
      StaticAreasPrefix(roots[..|roots| - 1], n);
      assert roots[..|roots| - 1][..n] == roots[..n];
    } else {
      assert roots[..n] == roots;
    }
  }

  lemma StaticStep(roots: seq<RootArea>, r: nat)
    requires r < |roots|
    ensures StaticAreas(roots[..r + 1]) <= StaticAreas(roots)
    ensures StaticAreas(roots[..r + 1]) ==
      StaticAreas(roots[..r]) + if roots[r].Deferred? && roots[r].words != [] then 1 else 0
  {
    assert roots[..r + 1][..r] == roots[..r];
    StaticAreasPrefix(roots, r + 1);
  }

  ghost predicate Pending(stack: seq<Entry>, s: Source, i: nat) {
    exists e :: e in stack && e.Covers(s, i)
  }

  /** Every pointer in s has its target marked or lies in a pending range. */
  ghost predicate Covered(h: Heap, marks: set<nat>, stack: seq<Entry>, s: Source) {
    forall i :: 0 <= i < |h.Words(s)| ==>
      (h.Words(s)[i].Ptr? ==> h.Words(s)[i].obj in marks) || Pending(stack, s, i)
  }

  ghost predicate Live(marks: set<nat>, s: Source) {
    s.Object? ==> s.o in marks
  }

  /** Words still to be looked at. */
  function Work(stack: seq<Entry>): nat {
    if stack == [] then 0
    else var e := stack[|stack| - 1];
      Work(stack[..|stack| - 1]) + (if e.lo <= e.hi then e.hi - e.lo else 0)
  }

  /** The stack after pushing e; a full one first loses its top entries
      (GC_signal_mark_stack_overflow). */
  function Pushed(stack: seq<Entry>, size: nat, e: Entry): seq<Entry>
    requires |stack| <= size && GC_MARK_STACK_DISCARDS <= size
  {
    (if |stack| == size then stack[..size - GC_MARK_STACK_DISCARDS] else stack) + [e]
  }
}

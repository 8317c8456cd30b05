/** What the block allocator maintains: heap blocks as a partition of the heap, free blocks
    on lists by size, and counts.  Sizes are in heap blocks, which all byte counts of the
    allocator are multiples of. */
module BlockLayout {
  import opened Locks

  /** Bytes in a heap block, and the sizes that are positive as signed words. */
  const BlockBytes: nat := 4096
  const MaxBlocks: nat := 0x8_0000_0000_0000
  /** Highest free list index. */
  const LastList: nat := 60
  /** Not a list: where a free block is while it is on no list. */
  const NoList: nat := 61

  /** A block in use has the size of its objects in bytes, which its length follows from. */
  datatype Hdr = Used(blocks: nat, sz: nat) | Free(blocks: nat)

  type Hdrs = map<nat, Hdr>

  /** OBJ_SZ_TO_BLOCKS */
  function BlocksFor(sz: nat): nat { (sz + BlockBytes - 1) / BlockBytes }

  function Span(h: Hdr): nat { h.blocks }

  /** Blocks in use are as long as the objects in them need. */
  ghost predicate Sized(hdrs: Hdrs) {
    forall h :: h in hdrs && hdrs[h].Used? ==> hdrs[h].blocks == BlocksFor(hdrs[h].sz)
  }

  /** GC_hblk_fl_from_blocks */
  function ListFor(blocks: nat): (i: nat)
    ensures i <= LastList
  {
    if blocks <= 32 then blocks else if blocks >= 256 then LastList else (blocks - 32) / 8 + 32
  }

  /** Larger blocks are on higher lists, and up to 31 blocks each size has its own. */
  lemma ListForOrder(a: nat, b: nat)
    ensures a <= b ==> ListFor(a) <= ListFor(b)
    ensures ListFor(a) == ListFor(b) && ListFor(a) < 32 ==> a == b
  {
  }

  // The partition of the heap

  ghost predicate Owns(hdrs: Hdrs, h: nat, x: nat) {
    h in hdrs && h <= x < h + Span(hdrs[h])
  }

  ghost predicate Ordered(hdrs: Hdrs) {
    && 0 !in hdrs
    && (forall h: nat :: h in hdrs ==> 0 < Span(hdrs[h]) < MaxBlocks)
    && (forall a: nat, b: nat :: a in hdrs && b in hdrs && a < b ==> a + Span(hdrs[a]) <= b)
  }

  /** Every heap block number is owned by one header. */
  ghost predicate Layout(hdrs: Hdrs, heap: set<nat>) {
    && Ordered(hdrs)
    && (forall h, x: nat :: Owns(hdrs, h, x) ==> x in heap)
    && (forall x: nat :: x in heap ==> exists h :: Owns(hdrs, h, x))
  }

  lemma Relabel(hdrs: Hdrs, heap: set<nat>, h: nat, v: Hdr)
    requires Layout(hdrs, heap) && h in hdrs && Span(v) == Span(hdrs[h])
    ensures Layout(hdrs[h := v], heap)
  {
    SameOwners(hdrs, hdrs[h := v], heap, h, h, h);
  }

  function CutHdrs(hdrs: Hdrs, h: nat, left: Hdr, right: Hdr): Hdrs {
    hdrs[h := left][h + Span(left) := right]
  }

  /** Blocks a and b of one division are block c of the other. */
  lemma SameOwners(hdrs: Hdrs, hdrs': Hdrs, heap: set<nat>, a: nat, b: nat, c: nat)
    requires Layout(hdrs, heap)
    requires forall h, x: nat :: h != a && h != b && h != c ==> (Owns(hdrs, h, x) <==> Owns(hdrs', h, x))
    requires forall x: nat :: (Owns(hdrs, a, x) || Owns(hdrs, b, x) || Owns(hdrs, c, x)) <==> (Owns(hdrs', a, x)
        || Owns(hdrs', b, x) || Owns(hdrs', c, x))
    ensures forall h, x: nat :: Owns(hdrs', h, x) ==> x in heap
    ensures forall x: nat :: x in heap ==> exists h :: Owns(hdrs', h, x)
  {
    forall x: nat | x in heap ensures exists h :: Owns(hdrs', h, x) {
      var h :| Owns(hdrs, h, x);
      assert h != a && h != b && h != c ==> Owns(hdrs', h, x);
    }
    forall h, x: nat | Owns(hdrs', h, x) ensures x in heap {
      assert h != a && h != b && h != c ==> Owns(hdrs, h, x);
    }
  }

  lemma Cut(hdrs: Hdrs, heap: set<nat>, h: nat, left: Hdr, right: Hdr)
    requires Layout(hdrs, heap) && h in hdrs
    requires 0 < Span(left) && 0 < Span(right) && Span(left) + Span(right) == Span(hdrs[h])
    ensures h + Span(left) !in hdrs && Layout(CutHdrs(hdrs, h, left, right), heap)
  {
    assert h + Span(left) !in hdrs;
    SameOwners(hdrs, CutHdrs(hdrs, h, left, right), heap, h, h + Span(left), h);
  }

  function JoinHdrs(hdrs: Hdrs, a: nat, b: nat): Hdrs
    requires a in hdrs && b in hdrs
  {
    (hdrs - {b})[a := Free(Span(hdrs[a]) + Span(hdrs[b]))]
  }

  lemma Join(hdrs: Hdrs, heap: set<nat>, a: nat, b: nat)
    requires Layout(hdrs, heap) && a in hdrs && b in hdrs && b == a + Span(hdrs[a])
    requires Span(hdrs[a]) + Span(hdrs[b]) < MaxBlocks
    ensures Layout(JoinHdrs(hdrs, a, b), heap)
  {
    SameOwners(hdrs, JoinHdrs(hdrs, a, b), heap, a, b, a);
  }

  ghost function Range(p: nat, n: nat): (r: set<nat>)
    ensures forall x: nat :: x in r <==> p <= x < p + n
    ensures |r| == n
  {
    if n == 0 then {} else Range(p, n - 1) + {p + n - 1}
  }

  /** A new block away from the heap is away from its blocks. */
  lemma Away(hdrs: Hdrs, heap: set<nat>, p: nat, n: nat)
    requires Layout(hdrs, heap) && 0 < n && Range(p, n) !! heap
    ensures forall a: nat :: a in hdrs ==> a + Span(hdrs[a]) <= p || p + n <= a
  {
    forall a: nat | a in hdrs ensures a + Span(hdrs[a]) <= p || p + n <= a {
      assert p in Range(p, n) && p !in heap && !Owns(hdrs, a, p);
      assert Owns(hdrs, a, a) && a in heap && a !in Range(p, n);
    }
  }

  lemma Grow(hdrs: Hdrs, heap: set<nat>, p: nat, v: Hdr, heap': set<nat>)
    requires Layout(hdrs, heap) && 0 < p && 0 < Span(v) < MaxBlocks
    requires Range(p, Span(v)) !! heap && heap' == heap + Range(p, Span(v))
    ensures p !in hdrs && Layout(hdrs[p := v], heap')
    ensures |heap'| == |heap| + Span(v)
  {
    Away(hdrs, heap, p, Span(v));
    GrowLayout(hdrs, hdrs[p := v], heap, p, v, heap');
    assert |heap'| == |heap| + |Range(p, Span(v))|;
  }

  lemma GrowLayout(hdrs: Hdrs, now: Hdrs, heap: set<nat>, p: nat, v: Hdr, heap': set<nat>)
    requires Layout(hdrs, heap) && 0 < p && 0 < Span(v) < MaxBlocks && now == hdrs[p := v]
    requires forall a: nat :: a in hdrs ==> a + Span(hdrs[a]) <= p || p + Span(v) <= a
    requires forall x: nat :: x in heap' <==> x in heap || p <= x < p + Span(v)
    ensures p !in hdrs && Layout(now, heap')
  {
    forall x: nat | x in heap' ensures exists o :: Owns(now, o, x) {
      if x in heap {
        var o :| Owns(hdrs, o, x);
        assert Owns(now, o, x);
      } else {
        assert Owns(now, p, x);
      }
    }
    forall o, x: nat | Owns(now, o, x) ensures x in heap' {
      assert o == p || Owns(hdrs, o, x);
    }
  }

  /** Two blocks fit into the heap together. */
  lemma TwoFit(hdrs: Hdrs, heap: set<nat>, a: nat, b: nat)
    requires Layout(hdrs, heap) && a in hdrs && b in hdrs && a != b
    ensures Span(hdrs[a]) + Span(hdrs[b]) <= |heap|
  {
    var ra, rb := Range(a, Span(hdrs[a])), Range(b, Span(hdrs[b]));
    assert ra <= heap by {
      forall x: nat | x in ra ensures x in heap { assert Owns(hdrs, a, x); }
    }
    assert rb <= heap - ra by {
      forall x: nat | x in rb ensures x in heap - ra { assert Owns(hdrs, b, x); }
    }
    Smaller(rb, heap - ra);
  }

  lemma {:induction false} Smaller(a: set<nat>, b: set<nat>)
    requires a <= b
    ensures |a| <= |b|
  {
    if a != {} {
      var x :| x in a;
      Smaller(a - {x}, b - {x});
    }
  }

  // Free neighbours

  predicate FreeAt(hdrs: Hdrs, h: nat) { h in hdrs && hdrs[h].Free? }

  /** No free block starts where h ends. */
  ghost predicate NoNext(hdrs: Hdrs, h: nat) {
    h in hdrs ==> !FreeAt(hdrs, h + Span(hdrs[h]))
  }

  /** No free block ends where h starts. */
  ghost predicate NoPrev(hdrs: Hdrs, h: nat) {
    forall a: nat :: FreeAt(hdrs, a) ==> a + hdrs[a].blocks != h
  }

  /** No two free blocks are adjacent, `odd` aside. */
  ghost predicate Separated(hdrs: Hdrs, odd: nat) {
    forall a: nat :: FreeAt(hdrs, a) && FreeAt(hdrs, a + hdrs[a].blocks) ==> a == odd || a + hdrs[a].blocks == odd
  }

  // Sums

  function UsedSpan(h: Hdr): nat { if h.Used? then Span(h) else 0 }

  /** Blocks in use. */
  ghost function UsedSum(hdrs: Hdrs): nat
    decreases |hdrs|
  {
    if hdrs == map[] then 0 else
      var h :| h in hdrs;
      UsedSpan(hdrs[h]) + UsedSum(hdrs - {h})
  }

  lemma {:induction false} UsedSumAt(hdrs: Hdrs, h: nat)
    requires h in hdrs
    ensures UsedSum(hdrs) == UsedSpan(hdrs[h]) + UsedSum(hdrs - {h})
    decreases |hdrs|
  {
    var k :| k in hdrs && UsedSum(hdrs) == UsedSpan(hdrs[k]) + UsedSum(hdrs - {k});
    if k != h {
      UsedSumAt(hdrs - {k}, h);
      UsedSumAt(hdrs - {h}, k);
      assert hdrs - {k} - {h} == hdrs - {h} - {k};
    }
  }

  lemma UsedSumPut(hdrs: Hdrs, h: nat, v: Hdr)
    ensures UsedSum(hdrs[h := v]) == UsedSum(hdrs) + UsedSpan(v) - if h in hdrs then UsedSpan(hdrs[h]) else 0
  {
    var now: Hdrs := hdrs[h := v];
    UsedSumAt(now, h);
    assert now - {h} == hdrs - {h};
    if h in hdrs {
      UsedSumAt(hdrs, h);
    } else {
      assert hdrs - {h} == hdrs;
    }
  }

  ghost function ListSum(hdrs: Hdrs, q: seq<nat>): int {
    if q == [] then 0 else (if q[0] in hdrs then Span(hdrs[q[0]]) else 0) + ListSum(hdrs, q[1..])
  }

  lemma {:induction false} ListSumFrame(hdrs: Hdrs, hdrs': Hdrs, q: seq<nat>)
    requires forall h: nat :: h in q ==> h in hdrs && h in hdrs' && Span(hdrs[h]) == Span(hdrs'[h])
    ensures ListSum(hdrs, q) == ListSum(hdrs', q)
  {
    if q != [] {
      ListSumFrame(hdrs, hdrs', q[1..]);
    }
  }

  lemma {:induction false} ListSumAppend(hdrs: Hdrs, p: seq<nat>, q: seq<nat>)
    ensures ListSum(hdrs, p + q) == ListSum(hdrs, p) + ListSum(hdrs, q)
  {
    if p == [] {
      assert p + q == q;
    } else {
      assert (p + q)[1..] == p[1..] + q;
      ListSumAppend(hdrs, p[1..], q);
    }
  }

  /** Exchange one element of a list for others. */
  lemma ListSumExchange(hdrs: Hdrs, q: seq<nat>, k: nat, put: seq<nat>)
    requires k < |q| && q[k] in hdrs
    ensures ListSum(hdrs, q[..k] + put + q[k + 1..]) == ListSum(hdrs, q) - Span(hdrs[q[k]]) + ListSum(hdrs, put)
  {
    assert q == q[..k] + ([q[k]] + q[k + 1..]);
    ListSumAppend(hdrs, q[..k], [q[k]] + q[k + 1..]);
    assert ([q[k]] + q[k + 1..])[1..] == q[k + 1..];
    ListSumAppend(hdrs, q[..k] + put, q[k + 1..]);
    ListSumAppend(hdrs, q[..k], put);
  }

  ghost function Total(s: seq<int>): int { if s == [] then 0 else Total(s[..|s| - 1]) + s[|s| - 1] }

  lemma {:induction false} TotalPut(s: seq<int>, i: nat, v: int)
    requires i < |s|
    ensures Total(s[i := v]) == Total(s) - s[i] + v
  {
    if i < |s| - 1 {
      assert s[i := v][..|s| - 1] == s[..|s| - 1][i := v];
      TotalPut(s[..|s| - 1], i, v);
    } else {
      assert s[i := v][..i] == s[..i];
    }
  }

  // Lists

  function At(q: seq<nat>, k: int): nat { if 0 <= k < |q| then q[k] else 0 }

  ghost predicate Distinct(q: seq<nat>) {
    && (forall k :: 0 <= k < |q| ==> q[k] != 0)
    && (forall j, k :: 0 <= j < k < |q| ==> q[j] != q[k])
  }

  ghost predicate NextAt(next: map<nat, nat>, q: seq<nat>, k: int)
    requires 0 <= k < |q|
  {
    q[k] in next && next[q[k]] == At(q, k + 1)
  }

  ghost predicate PrevAt(prev: map<nat, nat>, q: seq<nat>, k: int)
    requires 0 <= k < |q|
  {
    q[k] in prev && prev[q[k]] == At(q, k - 1)
  }

  /** The links make up the list q. */
  ghost predicate Linked(next: map<nat, nat>, prev: map<nat, nat>, head: nat, q: seq<nat>) {
    && head == At(q, 0) && Distinct(q) && (forall h: nat :: h in q ==> h in next && h in prev)
    && (forall k {:trigger NextAt(next, q, k)} :: 0 <= k < |q| ==> NextAt(next, q, k))
    && (forall k {:trigger PrevAt(prev, q, k)} :: 0 <= k < |q| ==> PrevAt(prev, q, k))
  }

  ghost predicate AllLinked(next: map<nat, nat>, prev: map<nat, nat>, heads: seq<nat>, lists: seq<seq<nat>>) {
    |heads| == |lists| == LastList + 1 && forall k: nat :: Open(k) ==> EachLinked(next, prev, heads, lists)
  }

  ghost predicate EachLinked(next: map<nat, nat>, prev: map<nat, nat>, heads: seq<nat>, lists: seq<seq<nat>>) {
    && |heads| == |lists| == LastList + 1
    && (forall i :: 0 <= i < |lists| ==> Linked(next, prev, heads[i], lists[i]))
    && (forall i, j, h: nat :: 0 <= i < j < |lists| && h in lists[i] ==> h !in lists[j])
  }

  lemma LinkedFrame(next: map<nat, nat>, prev: map<nat, nat>, next': map<nat, nat>, prev': map<nat, nat>, head: nat,
      q: seq<nat>)
    requires Linked(next, prev, head, q)
    requires forall h: nat :: h in q ==> h in next' && h in prev' && next'[h] == next[h] && prev'[h] == prev[h]
    ensures Linked(next', prev', head, q)
  {
    forall k | 0 <= k < |q| ensures NextAt(next', q, k) && PrevAt(prev', q, k) {
      assert q[k] in q && NextAt(next, q, k) && PrevAt(prev, q, k);
    }
  }

  /** Which list a block belongs on; `odd` is on list n instead. */
  ghost function Home(hdrs: Hdrs, odd: nat, n: nat, h: nat): nat {
    if !FreeAt(hdrs, h) then NoList else if h == odd then n else ListFor(hdrs[h].blocks)
  }

  /** The lists hold exactly the free blocks. */
  ghost predicate OnLists(hdrs: Hdrs, lists: seq<seq<nat>>, odd: nat, n: nat) {
    && |lists| == LastList + 1
    && (forall i: nat, h: nat {:trigger h in lists[i]} :: i < |lists| && h in lists[i] ==> Home(hdrs, odd, n, h) == i)
    && (forall h: nat :: Home(hdrs, odd, n, h) <= LastList ==> h in lists[Home(hdrs, odd, n, h)])
  }

  ghost predicate Counted(hdrs: Hdrs, lists: seq<seq<nat>>, counts: seq<int>) {
    |counts| == |lists| && forall i :: 0 <= i < |lists| ==> counts[i] == ListSum(hdrs, lists[i])
  }

  /** Used and free blocks make up the heap; an odd block on no list is not counted. */
  ghost predicate Balanced(hdrs: Hdrs, counts: seq<int>, heap: set<nat>, odd: nat, n: nat) {
    UsedSum(hdrs) + Total(counts) + (if n == NoList && odd in hdrs then Span(hdrs[odd]) else 0) == |heap|
  }

  /** The state of the allocator, up to links.  Between two steps of an operation one block
      may be odd: on list n, whatever its size, or on none. */
  ghost predicate Good(hdrs: Hdrs, lists: seq<seq<nat>>, counts: seq<int>, heap: set<nat>, odd: nat, n: nat) {
    |lists| == |counts| == LastList + 1 && forall k: nat :: Open(k) ==> Parts(hdrs, lists, counts, heap, odd, n)
  }

  ghost predicate Parts(hdrs: Hdrs, lists: seq<seq<nat>>, counts: seq<int>, heap: set<nat>, odd: nat, n: nat) {
    && Layout(hdrs, heap)
    && OnLists(hdrs, lists, odd, n)
    && Counted(hdrs, lists, counts)
    && Balanced(hdrs, counts, heap, odd, n)
  }
}

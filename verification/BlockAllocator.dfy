/** The allocator of heap blocks: segregated free lists, first fit within a list, splitting,
    coalescing, and a search for places that are not black listed.

    Header allocation does not fail here, and a header is set up where the block is taken
    from its list rather than one call later. */
module BlockAllocator {
  import opened Locks
  import opened Basics
  import opened BlockLayout
  import opened BlockSteps
  import opened HeaderIndex
  import BL = BlackList

  /** A section of the heap: block numbers start, ..., start + size - 1. */
  datatype Sect = Sect(start: nat, size: nat)

  ghost predicate SectsAre(sects: seq<Sect>, heap: set<nat>) {
    forall k: nat :: Open(k) ==> SectsCover(sects, heap)
  }

  ghost predicate SectsCover(sects: seq<Sect>, heap: set<nat>) {
    && (forall s: Sect, x: nat :: s in sects && s.start <= x < s.start + s.size ==> x in heap)
    && (forall x: nat :: x in heap ==> exists s: Sect :: s in sects && s.start <= x < s.start + s.size)
  }

  /** What to do with a free block that is large enough. */
  datatype Choice = Skip | TakeAt(start: nat) | Drop

  /** Block h with its first `need` blocks put to use for objects of a size, the rest free. */
  function Carved(hdrs: Hdrs, h: nat, need: nat, sz: nat): Hdrs
    requires h in hdrs && need <= Span(hdrs[h])
  {
    if need == Span(hdrs[h]) then hdrs[h := Used(need, sz)]
    else CutHdrs(hdrs, h, Used(need, sz), Free(Span(hdrs[h]) - need))
  }

  lemma CarvedSum(hdrs: Hdrs, lists: seq<seq<nat>>, counts: seq<int>, heap: set<nat>, h: nat, n: nat, need: nat,
      sz: nat, now: Hdrs, lists': seq<seq<nat>>, counts': seq<int>)
    requires Good(hdrs, lists, counts, heap, h, n) && n <= LastList && FreeAt(hdrs, h) && 0 < need <= Span(hdrs[h])
    requires Good(now, lists', counts', heap, 0, 0) && now == Carved(hdrs, h, need, sz)
    ensures Total(counts') == Total(counts) - need
  {
    assert Balanced(hdrs, counts, heap, h, n) && Balanced(now, counts', heap, 0, 0) && Layout(hdrs, heap) by {
      assert Open(0);
    }
    if need == Span(hdrs[h]) {
      UsedSumPut(hdrs, h, Used(need, sz));
    } else {
      CutSum(hdrs, h, Used(need, sz), Free(Span(hdrs[h]) - need));
    }
  }

  lemma CarvedSeparated(hdrs: Hdrs, h: nat, need: nat, sz: nat, now: Hdrs)
    requires Ordered(hdrs) && FreeAt(hdrs, h) && 0 < need <= Span(hdrs[h]) && now == Carved(hdrs, h, need, sz)
    requires Separated(hdrs, h) && NoNext(hdrs, h)
    ensures Separated(now, 0)
  {
    var rest, end := h + need, h + Span(hdrs[h]);
    assert !FreeAt(hdrs, end);
    forall a: nat | FreeAt(now, a) ensures !FreeAt(now, a + now[a].blocks) {
      CarvedFree(hdrs, h, need, sz, now, a);
      CarvedFree(hdrs, h, need, sz, now, a + now[a].blocks);
      if a in hdrs {
        assert FreeAt(hdrs, a + hdrs[a].blocks) ==> a + hdrs[a].blocks == h;
        assert a + Span(hdrs[a]) <= h || end <= a;
      }
    }
  }

  lemma CarvedFree(hdrs: Hdrs, h: nat, need: nat, sz: nat, now: Hdrs, x: nat)
    requires Ordered(hdrs) && FreeAt(hdrs, h) && 0 < need <= Span(hdrs[h]) && now == Carved(hdrs, h, need, sz)
    ensures var rest, end := h + need, h + Span(hdrs[h]);
      FreeAt(now, x) ==>
        || (x == rest && rest < end && now[x].blocks == end - rest && x !in hdrs)
        || (x != h && FreeAt(hdrs, x) && now[x] == hdrs[x])
  {
  }

  lemma NotListed(hdrs: Hdrs, lists: seq<seq<nat>>, counts: seq<int>, heap: set<nat>, h: nat)
    requires Good(hdrs, lists, counts, heap, h, NoList) && FreeAt(hdrs, h)
    ensures h != 0 && forall j :: 0 <= j < |lists| ==> h !in lists[j]
  {
    assert Open(0) && Home(hdrs, h, NoList, h) == NoList;
  }

  lemma LayoutOf(hdrs: Hdrs, lists: seq<seq<nat>>, counts: seq<int>, heap: set<nat>, odd: nat, n: nat)
    requires Good(hdrs, lists, counts, heap, odd, n)
    ensures Layout(hdrs, heap)
  {
    assert Open(0);
  }

  lemma CutSeparated(hdrs: Hdrs, h: nat, t: nat, now: Hdrs)
    requires Ordered(hdrs) && FreeAt(hdrs, h) && h < t < h + Span(hdrs[h]) && Separated(hdrs, 0)
    requires now == CutHdrs(hdrs, h, Free(t - h), Free(Span(hdrs[h]) - (t - h)))
    ensures Separated(now, t) && NoNext(now, t)
  {
    assert !FreeAt(hdrs, h + hdrs[h].blocks);
    forall x: nat | FreeAt(now, x) ensures FreeAt(now, x + now[x].blocks) ==> x + now[x].blocks == t {
      if x != h && x != t {
        assert FreeAt(hdrs, x) && !FreeAt(hdrs, x + hdrs[x].blocks);
        assert x < h ==> x + Span(hdrs[x]) <= h;
        assert h < x ==> h + Span(hdrs[h]) <= x;
      }
    }
  }

  class Allocator {
    /** The way from addresses to headers. */
    const index: Index
    /** The headers, and for blocks on a free list their links. */
    var hdrs: Hdrs
    var next: map<nat, nat>
    var prev: map<nat, nat>
    /** GC_hblkfreelist and GC_free_bytes */
    var heads: seq<nat>
    var freeBlocks: seq<int>
    ghost var lists: seq<seq<nat>>
    /** GC_large_free_bytes, GC_heapsize and GC_bytes_dropped */
    var largeFree: int
    var heapBlocks: int
    var dropped: int
    var dropCount: nat
    ghost var heap: set<nat>
    /** GC_heap_sects */
    var sects: seq<Sect>
    const maxSects: nat
    var tables: BL.Tables
    /** GC_black_list_spacing */
    var spacing: nat
    var findLeak: bool

    /** The links, lists and counts are in order; see Good about the odd block. */
    ghost predicate Ok(odd: nat, n: nat)
      reads this
    {
      AllLinked(next, prev, heads, lists) && Good(hdrs, lists, freeBlocks, heap, odd, n)
    }

    /** Free blocks are never adjacent, as long as the heap's size is positive as a signed
        word. */
    ghost predicate Apart(odd: nat)
      reads this
    {
      |heap| < MaxBlocks ==> Separated(hdrs, odd)
    }

    /** The index finds the headers of the blocks there are. */
    ghost predicate Indexed()
      reads this, index
    {
      index.Valid() && Refines(index.bottoms, hdrs)
    }

    /** The same, except that the counts of block h may be missing. */
    ghost predicate IndexedFor(h: nat)
      reads this, index
    {
      && index.Valid() && h in hdrs
      && (Refines(index.bottoms, hdrs) || Refines(index.bottoms, hdrs[h := Free(Span(hdrs[h]))]))
    }

    ghost predicate Inv()
      reads this, index
    {
      && Ok(0, 0) && Apart(0) && Sized(hdrs) && Indexed()
      && largeFree == Total(freeBlocks) && heapBlocks == |heap|
      && tables.WellFormed()
    }

    /** GC_remove_from_fl: take block h off list n, or off the list for its size if n is
        negative. */
    method RemoveFromFl(h: nat, n: int, ghost i: nat, ghost k: nat)
      requires AllLinked(next, prev, heads, lists) && |freeBlocks| == |lists| && h in hdrs
      requires i < |lists| && k < |lists[i]| && lists[i][k] == h && i == if n < 0 then ListFor(Span(hdrs[h])) else n
      modifies this`next, this`prev, this`heads, this`freeBlocks, this`lists
      ensures AllLinked(next, prev, heads, lists)
      ensures lists == old(lists)[i := RemoveAt(old(lists)[i], k)]
      ensures freeBlocks == Bump(old(freeBlocks), i, 0 - Span(hdrs[h]))
    {
      assert h in lists[i];
      assert Linked(next, prev, heads[i], lists[i]) by { assert Open(0); }
      var index := if n < 0 then ListFor(Span(hdrs[h])) else n;
      if prev[h] == 0 {
        heads := heads[index := next[h]];
      } else {
        next := next[prev[h] := next[h]];
      }
      freeBlocks := freeBlocks[index := freeBlocks[index] - Span(hdrs[h])];
      assert PrevAt(old(prev), lists[i], k) && NextAt(old(next), lists[i], k);
      if next[h] != 0 {
        prev := prev[next[h] := prev[h]];
      }
      Unlinked(old(next), old(prev), old(heads), lists, i, k, next, prev, heads);
      lists := lists[i := RemoveAt(lists[i], k)];
    }

    /** GC_add_to_fl: put block h on the list for its size. */
    method AddToFl(h: nat)
      requires AllLinked(next, prev, heads, lists) && |freeBlocks| == |lists|
      requires h in hdrs && h != 0 && forall j :: 0 <= j < |lists| ==> h !in lists[j]
      modifies this`next, this`prev, this`heads, this`freeBlocks, this`lists
      ensures AllLinked(next, prev, heads, lists)
      ensures lists == PushOn(old(lists), ListFor(Span(hdrs[h])), h)
      ensures freeBlocks == Bump(old(freeBlocks), ListFor(Span(hdrs[h])), Span(hdrs[h]))
    {
      var index := ListFor(Span(hdrs[h]));
      var second := heads[index];
      heads := heads[index := h];
      freeBlocks := freeBlocks[index := freeBlocks[index] + Span(hdrs[h])];
      next := next[h := second];
      prev := prev[h := 0];
      if second != 0 {
        prev := prev[second := h];
      }
      Pushed(old(next), old(prev), old(heads), lists, index, h, next, prev);
      lists := PushOn(lists, index, h);
    }

    /** Take a block off the list it is on. */
    method Unlist(h: nat, n: nat)
      requires Ok(h, n) && n <= LastList && FreeAt(hdrs, h)
      modifies this`next, this`prev, this`heads, this`freeBlocks, this`lists
      ensures Ok(h, NoList)
    {
      ghost var k := Position(next, prev, heads, hdrs, lists, freeBlocks, heap, h, n, h);
      UnlistAt(h, n, k);
    }

    method UnlistAt(h: nat, n: nat, ghost k: nat)
      requires Ok(h, n) && FreeAt(hdrs, h) && n < |lists| && k < |lists[n]| && lists[n][k] == h
      modifies this`next, this`prev, this`heads, this`freeBlocks, this`lists
      ensures Ok(h, NoList) && lists == old(lists)[n := RemoveAt(old(lists)[n], k)]
      ensures Total(freeBlocks) == old(Total(freeBlocks)) - Span(hdrs[h])
    {
      assert Linked(next, prev, heads[n], lists[n]) by { assert Open(0); }
      Detach(hdrs, lists, freeBlocks, heap, h, n, k);
      TotalPut(freeBlocks, n, freeBlocks[n] + (0 - Span(hdrs[h])));
      RemoveFromFl(h, n, n, k);
    }

    /** Put a block that is on no list on the list for its size. */
    method List(h: nat)
      requires Ok(h, NoList) && FreeAt(hdrs, h)
      modifies this`next, this`prev, this`heads, this`freeBlocks, this`lists
      ensures Ok(0, 0)
    {
      NotListed(hdrs, lists, freeBlocks, heap, h);
      Attach(hdrs, lists, freeBlocks, heap, h, ListFor(Span(hdrs[h])));
      AddToFl(h);
    }

    /** GC_get_first_part, with the header of the block taken. */
    method GetFirstPart(h: nat, need: nat, sz: nat, n: nat)
      requires Ok(h, n) && n <= LastList && FreeAt(hdrs, h) && 0 < need <= Span(hdrs[h])
      requires Apart(h) && (|heap| < MaxBlocks ==> NoNext(hdrs, h))
      requires Indexed()
      modifies this`hdrs, this`next, this`prev, this`heads, this`freeBlocks, this`lists
      modifies index
      ensures Ok(0, 0) && Apart(0) && hdrs == Carved(old(hdrs), h, need, sz)
      ensures Total(freeBlocks) == old(Total(freeBlocks)) - need
      ensures Indexed()
    {
      Unlist(h, n);
      Use(h, need, sz);
      CarvedSum(old(hdrs), old(lists), old(freeBlocks), heap, h, n, need, sz, hdrs, lists, freeBlocks);
      if |heap| < MaxBlocks {
        assert Layout(old(hdrs), heap) by { LayoutOf(old(hdrs), old(lists), old(freeBlocks), heap, h, n); }
        CarvedSeparated(old(hdrs), h, need, sz, hdrs);
      }
    }

    /** Put the first part of a block that is on no list to use. */
    method Use(h: nat, need: nat, sz: nat)
      requires Ok(h, NoList) && FreeAt(hdrs, h) && 0 < need <= Span(hdrs[h])
      requires Indexed()
      modifies this`hdrs, this`next, this`prev, this`heads, this`freeBlocks, this`lists
      modifies index
      ensures Ok(0, 0) && hdrs == Carved(old(hdrs), h, need, sz)
      ensures Indexed()
    {
      if Span(hdrs[h]) == need {
        IndexUse(h, need, sz);
        UseWhole(hdrs, lists, freeBlocks, heap, h, Used(need, sz));
        hdrs := hdrs[h := Used(need, sz)];
      } else {
        var t := h + need;
        CutOff(h, need, sz, t);
        List(t);
      }
    }

    /** The index entries for a free block that is put to use as a whole. */
    method IndexUse(h: nat, need: nat, sz: nat)
      requires Indexed() && Ok(h, NoList) && FreeAt(hdrs, h) && 0 < need == Span(hdrs[h])
      modifies index
      ensures index.Valid() && Refines(index.bottoms, hdrs[h := Used(need, sz)])
    {
      ghost var was := index.bottoms;
      index.InstallCounts(h, need);
      assert Ordered(hdrs) by { LayoutOf(hdrs, lists, freeBlocks, heap, h, NoList); }
      CellsUse(was, index.bottoms, hdrs, h, sz);
    }

    /** The index entries for the first part of a free block that is put to use. */
    method IndexCarve(h: nat, need: nat, sz: nat, t: nat)
      requires Indexed() && Ok(h, NoList) && FreeAt(hdrs, h) && 0 < need < Span(hdrs[h]) && t == h + need
      modifies index
      ensures index.Valid() && Refines(index.bottoms, Carved(hdrs, h, need, sz))
    {
      ghost var was := index.bottoms;
      index.InstallHeader(t);
      ghost var mid := index.bottoms;
      index.InstallCounts(h, need);
      assert Layout(hdrs, heap) by { LayoutOf(hdrs, lists, freeBlocks, heap, h, NoList); }
      CellsCarve(was, mid, index.bottoms, hdrs, heap, h, need, sz, t);
    }

    method CutOff(h: nat, need: nat, sz: nat, t: nat)
      requires Ok(h, NoList) && FreeAt(hdrs, h) && 0 < need < Span(hdrs[h]) && t == h + need
      requires Indexed()
      modifies this`hdrs
      modifies index
      ensures Ok(t, NoList) && FreeAt(hdrs, t)
      ensures hdrs == Carved(old(hdrs), h, need, sz)
      ensures Indexed()
    {
      IndexCarve(h, need, sz, t);
      var now := Carved(hdrs, h, need, sz);
      assert FreeAt(now, t);
      UsePart(hdrs, now, lists, freeBlocks, heap, h, t, Used(need, sz), Span(hdrs[h]) - need);
      hdrs := now;
    }

    /** GC_split_block: block h becomes two free blocks, the second of which, t, takes its
        place on list n although its size may belong elsewhere. */
    method SplitBlock(h: nat, t: nat, n: nat)
      requires Ok(0, 0) && FreeAt(hdrs, h) && h < t < h + Span(hdrs[h]) && n == ListFor(Span(hdrs[h]))
      requires Indexed()
      modifies this`hdrs, this`next, this`prev, this`heads, this`freeBlocks, this`lists
      modifies index
      ensures Ok(t, n) && hdrs == CutHdrs(old(hdrs), h, Free(t - h), Free(Span(old(hdrs)[h]) - (t - h)))
      ensures Total(freeBlocks) == old(Total(freeBlocks))
      ensures Indexed()
    {
      ghost var k := SplitReady(next, prev, heads, hdrs, lists, freeBlocks, heap, h, t);
      IndexSplit(h, t);
      SplitLinks(h, t, n, k);
      Split(old(hdrs), hdrs, old(lists), lists, old(freeBlocks), freeBlocks, heap, h, t, n, k);
    }

    /** The index entry for the second part of a free block. */
    method IndexSplit(h: nat, t: nat)
      requires Indexed() && Ok(0, 0) && FreeAt(hdrs, h) && h < t < h + Span(hdrs[h])
      modifies index
      ensures index.Valid() && Refines(index.bottoms, CutHdrs(hdrs, h, Free(t - h), Free(Span(hdrs[h]) - (t - h))))
    {
      ghost var was := index.bottoms;
      index.InstallHeader(t);
      assert Ordered(hdrs) by { LayoutOf(hdrs, lists, freeBlocks, heap, 0, 0); }
      CellsCut(was, index.bottoms, hdrs, h, t - h, Span(hdrs[h]) - (t - h), t);
    }

    method SplitLinks(h: nat, t: nat, n: nat, ghost k: nat)
      requires AllLinked(next, prev, heads, lists) && |freeBlocks| == |lists| && n < |lists| && k < |lists[n]|
      requires lists[n][k] == h
      requires h in hdrs && h != 0 && h < t < h + Span(hdrs[h]) && forall j :: 0 <= j < |lists| ==> t !in lists[j]
      modifies this`hdrs, this`next, this`prev, this`heads, this`freeBlocks, this`lists
      ensures AllLinked(next, prev, heads, lists)
      ensures hdrs == CutHdrs(old(hdrs), h, Free(t - h), Free(Span(old(hdrs)[h]) - (t - h)))
      ensures lists == PushOn(old(lists)[n := ReplaceAt(old(lists)[n], k, t)], ListFor(t - h), h)
      ensures freeBlocks == Bump(Bump(old(freeBlocks), n, 0 - (t - h)), ListFor(t - h), t - h)
    {
      var total, size := Span(hdrs[h]), t - h;
      ReplaceOnList(h, t, n, k);
      freeBlocks := freeBlocks[n := freeBlocks[n] - size];
      hdrs := CutHdrs(hdrs, h, Free(size), Free(total - size));
      AddToFl(h);
    }

    /** Put t in the place of h on list n. */
    method ReplaceOnList(h: nat, t: nat, n: nat, ghost k: nat)
      requires AllLinked(next, prev, heads, lists) && n < |lists| && k < |lists[n]| && lists[n][k] == h
      requires t != 0 && forall j :: 0 <= j < |lists| ==> t !in lists[j]
      modifies this`next, this`prev, this`heads, this`lists
      ensures AllLinked(next, prev, heads, lists) && lists == old(lists)[n := ReplaceAt(old(lists)[n], k, t)]
      ensures forall j :: 0 <= j < |lists| ==> h !in lists[j]
    {
      assert h in lists[n];
      assert Linked(next, prev, heads[n], lists[n]) by { assert Open(0); }
      assert PrevAt(prev, lists[n], k) && NextAt(next, lists[n], k);
      var p, x := prev[h], next[h];
      prev := prev[t := p];
      next := next[t := x];
      if p != 0 {
        next := next[p := t];
      } else {
        heads := heads[n := t];
      }
      if x != 0 {
        prev := prev[x := t];
      }
      Replaced(old(next), old(prev), old(heads), lists, n, k, t, next, prev, heads);
      lists := lists[n := ReplaceAt(lists[n], k, t)];
    }

    /** The search for a start that is not black listed: the first one that leaves room for
        `need` blocks, or if there is none an address past the last such start. */
    method FindStart(h: nat, avail: nat, need: nat, eff: nat) returns (last: nat)
      requires tables.WellFormed() && 0 < eff <= need <= avail
      ensures h <= last <= h + avail
      ensures forall s :: h <= s < last && s + need <= h + avail ==> BL.Listed(tables, s, eff)
      ensures last + need <= h + avail ==> !BL.Listed(tables, last, eff)
    {
      last := h;
      while last + need <= h + avail
        invariant h <= last <= h + avail
        invariant forall s :: h <= s < last && s + need <= h + avail ==> BL.Listed(tables, s, eff)
        decreases h + avail - last
      {
        BL.NextStartMeaning(tables, last, eff);
        var r := BL.IsBlackListed(tables, last, eff * BlockBytes);
        if r == 0 {
          return;
        }
        last := r;
      }
    }

    /** Kinds of blocks for which the black lists matter. */
    predicate Checked(kind: Kind, need: nat) { !kind.IsUncollectable() && (kind != PtrFree || need > 2) }

    /** What GC_allochblk_nth does with a free block that is large enough: the first place that
        is not black listed if there is one; otherwise the first place at all for very large
        requests, and for the others every fourth block that is given up this way is dropped,
        if single blocks are asked for. */
    method Choose(h: nat, avail: nat, need: nat, kind: Kind, ignoreOffPage: bool) returns (c: Choice)
      requires tables.WellFormed() && 0 < need <= avail
      modifies this`dropCount
      ensures var q := Asked(need, true, kind, ignoreOffPage);
        match c
        case TakeAt(s) => RightPlace(tables, h, avail, q, spacing, s)
        case _ =>
          && NoClean(tables, h, avail, q) && !VeryLarge(avail, need, spacing)
          && (c.Drop? <==> need == 1 && !findLeak && (old(dropCount) + 1) % 4 == 0)
      ensures dropCount == old(dropCount) + if !c.TakeAt? && need == 1 && !findLeak then 1 else 0
    {
      if !Checked(kind, need) {
        return TakeAt(h);
      }
      var eff := if ignoreOffPage then 1 else need;
      var start := FindStart(h, avail, need, eff);
      var left := avail - (start - h);
      if left >= need {
        return TakeAt(start);
      }
      if need > spacing && avail - need > spacing {
        return TakeAt(h);
      }
      if left == 0 && need == 1 && !findLeak {
        dropCount := dropCount + 1;
        if dropCount % 4 == 0 {
          return Drop;
        }
      }
      return Skip;
    }

    /** Whether GC_allochblk_nth considers a free block: it is exactly right, or may be
        split and the next one on its list is not obviously better. */
    method Considered(h: nat, need: nat, maySplit: bool) returns (yes: bool)
      requires tables.WellFormed() && FreeAt(hdrs, h) && h in next && (next[h] != 0 ==> next[h] in hdrs) && 0 < need
      ensures yes <==> Fits(hdrs, h, need, maySplit) && !Outdone(hdrs, tables, h, next[h], need)
    {
      var avail := Span(hdrs[h]);
      if avail < need {
        return false;
      }
      if avail != need {
        if !maySplit {
          return false;
        }
        var better := next[h];
        if better != 0 && need <= Span(hdrs[better]) < avail {
          var listed := BL.IsBlackListed(tables, better, need * BlockBytes);
          BL.NextStartMeaning(tables, better, need);
          return listed != 0;
        }
      }
      return true;
    }

    /** Make start, within free block h of list n, the start of a free block on list n. */
    method Isolate(h: nat, start: nat, n: nat)
      requires Ok(0, 0) && Apart(0) && FreeAt(hdrs, h) && n == ListFor(Span(hdrs[h])) && h <= start < h + Span(hdrs[h])
      requires Indexed()
      modifies this`hdrs, this`next, this`prev, this`heads, this`freeBlocks, this`lists
      modifies index
      ensures Ok(start, n) && hdrs == SplitHdrs(old(hdrs), h, start)
      ensures Total(freeBlocks) == old(Total(freeBlocks))
      ensures Apart(start) && (|heap| < MaxBlocks ==> NoNext(hdrs, start))
      ensures Indexed()
    {
      if start != h {
        SplitBlock(h, start, n);
      } else {
        NoOdd(hdrs, lists, freeBlocks, heap, h);
      }
      if |heap| < MaxBlocks {
        assert Layout(old(hdrs), heap) by { LayoutOf(old(hdrs), old(lists), old(freeBlocks), heap, 0, 0); }
        IsolatedApart(old(hdrs), heap, h, start);
      }
    }

    method Carve(h: nat, start: nat, need: nat, sz: nat, n: nat)
      requires Ok(0, 0) && Apart(0) && FreeAt(hdrs, h) && n == ListFor(Span(hdrs[h]))
      requires 0 < need && h <= start && start + need <= h + Span(hdrs[h])
      requires Indexed()
      modifies this`hdrs, this`next, this`prev, this`heads, this`freeBlocks, this`lists
      modifies index
      ensures Ok(0, 0) && Apart(0) && Total(freeBlocks) == old(Total(freeBlocks)) - need
      ensures hdrs == Carved(SplitHdrs(old(hdrs), h, start), start, need, sz)
      ensures Indexed()
    {
      Isolate(h, start, n);
      GetFirstPart(start, need, sz, n);
    }

    /** Allocate at start within free block h of list n. */
    method Take(h: nat, start: nat, need: nat, sz: nat, n: nat)
      requires Inv() && FreeAt(hdrs, h) && n == ListFor(Span(hdrs[h]))
      requires 0 < need == BlocksFor(sz) && h <= start && start + need <= h + Span(hdrs[h])
      modifies this`hdrs, this`next, this`prev, this`heads, this`freeBlocks, this`lists, this`largeFree
      modifies index
      ensures Inv() && largeFree == old(largeFree) - need
      ensures hdrs == Carved(SplitHdrs(old(hdrs), h, start), start, need, sz)
    {
      Carve(h, start, need, sz, n);
      largeFree := largeFree - need;
      PlacedSized(old(hdrs), hdrs, h, start, need, sz);
    }

    /** Make every single block of free block h, which is on no list, a block in use. */
    method Chop(h: nat)
      requires Ok(h, NoList) && FreeAt(hdrs, h)
      requires Indexed()
      modifies this`hdrs
      modifies index
      ensures Ok(0, 0) && IsChopped(old(hdrs), hdrs, h, h + Span(old(hdrs)[h]))
      ensures Indexed()
    {
      var limit := h + Span(hdrs[h]);
      ghost var was := hdrs;
      ChoppedGood(was, lists, freeBlocks, heap, h, limit, limit);
      assert Layout(was, heap) by { LayoutOf(was, lists, freeBlocks, heap, h, NoList); }
      for b := h to limit
        invariant hdrs == Chopped(was, h, b) && Indexed()
      {
        ghost var bottoms := index.bottoms;
        if b == h {
          SameCell(bottoms, hdrs, b);
        } else {
          index.InstallHeader(b);
        }
        NothingThere(was, heap, h, b);
        CellsChop(bottoms, index.bottoms, hdrs, b, BlockBytes);
        hdrs := hdrs[b := Used(1, BlockBytes)];
      }
      ChoppedAt(was, h, limit);
    }

    /** Give up a free block, block k of list n, that is completely black listed. */
    method DropBlock(h: nat, n: nat, ghost k: nat)
      requires Inv() && FreeAt(hdrs, h) && n == ListFor(Span(hdrs[h])) && k < |lists[n]| && lists[n][k] == h
      modifies this`hdrs, this`next, this`prev, this`heads, this`freeBlocks, this`lists, this`largeFree, this`dropped
      modifies index
      ensures Inv() && largeFree == old(largeFree) - Span(old(hdrs)[h]) && dropped == old(dropped) + Span(old(hdrs)[h])
      ensures UsedKept(old(hdrs), hdrs) && FreeKept(old(hdrs), hdrs) && old(hdrs).Keys <= hdrs.Keys
      ensures lists == old(lists)[n := RemoveAt(old(lists)[n], k)]
    {
      var total := Span(hdrs[h]);
      largeFree := largeFree - total;
      dropped := dropped + total;
      RemoveAndChop(h, n, k);
      assert Layout(old(hdrs), heap) by { LayoutOf(old(hdrs), old(lists), old(freeBlocks), heap, 0, 0); }
      ChoppedKeeps(old(hdrs), hdrs, heap, h);
    }

    method RemoveAndChop(h: nat, n: nat, ghost k: nat)
      requires Ok(0, 0) && FreeAt(hdrs, h) && n == ListFor(Span(hdrs[h])) && k < |lists[n]| && lists[n][k] == h
      requires Indexed()
      modifies this`hdrs, this`next, this`prev, this`heads, this`freeBlocks, this`lists
      modifies index
      ensures Ok(0, 0) && Total(freeBlocks) == old(Total(freeBlocks)) - Span(old(hdrs)[h])
      ensures IsChopped(old(hdrs), hdrs, h, h + Span(old(hdrs)[h]))
      ensures lists == old(lists)[n := RemoveAt(old(lists)[n], k)]
      ensures Indexed()
    {
      NoOdd(hdrs, lists, freeBlocks, heap, h);
      UnlistAt(h, n, k);
      Chop(h);
    }

    function Asked(need: nat, maySplit: bool, kind: Kind, ignoreOffPage: bool): Query {
      Query(need, maySplit, Checked(kind, need), if ignoreOffPage then 1 else need)
    }

    /** Consider free block h, block k of list n: allocate in it, drop it, or pass on. */
    method Visit(h: nat, sz: nat, need: nat, kind: Kind, ignoreOffPage: bool, n: nat, maySplit: bool, ghost k: nat)
      returns (c: Choice)
      requires Inv() && n <= LastList && 0 < need == BlocksFor(sz) && k < |lists[n]| && lists[n][k] == h
      modifies this`hdrs, this`next, this`prev, this`heads, this`freeBlocks, this`lists, this`largeFree,
        this`dropped, this`dropCount
      modifies index
      ensures Inv() && UsedKept(old(hdrs), hdrs) && old(hdrs).Keys <= hdrs.Keys
      ensures c.TakeAt? ==>
        && Granted(old(hdrs), hdrs, c.start, sz, h) && c.start != 0
        && largeFree == old(largeFree) - need && dropped == old(dropped)
      ensures !c.TakeAt? ==> FreeKept(old(hdrs), hdrs) && largeFree + dropped == old(largeFree + dropped)
      ensures c.Drop? ==> lists == old(lists)[n := RemoveAt(old(lists)[n], k)] && !BL.Empty(tables)
      ensures c.Skip? ==> hdrs == old(hdrs) && lists == old(lists) && next == old(next)
      ensures h in old(hdrs) && n == ListFor(Span(old(hdrs)[h]))
      ensures var q := Asked(need, maySplit, kind, ignoreOffPage);
        && (c.TakeAt? ==> Picked(old(hdrs), tables, h, Next(old(lists)[n], k), q, spacing, c.start))
        && (c.Drop? ==> Hopeless(old(hdrs), tables, h, q))
        && (c.Skip? ==> Hopeless(hdrs, tables, h, q) || Outdone(hdrs, tables, h, Next(lists[n], k), need))
    {
      c := Decide(h, need, kind, ignoreOffPage, n, maySplit, k);
      match c {
        case TakeAt(start) => TakeFor(h, start, need, sz, n);
        case Drop => DropBlock(h, n, k);
        case Skip =>
      }
    }

    method Decide(h: nat, need: nat, kind: Kind, ignoreOffPage: bool, n: nat, maySplit: bool, ghost k: nat)
      returns (c: Choice)
      requires Inv() && n <= LastList && 0 < need && k < |lists[n]| && lists[n][k] == h
      modifies this`dropCount
      ensures Inv() && FreeAt(hdrs, h) && n == ListFor(Span(hdrs[h])) && h != 0
      ensures var q := Asked(need, maySplit, kind, ignoreOffPage);
        match c
        case TakeAt(s) => Picked(hdrs, tables, h, Next(lists[n], k), q, spacing, s)
        case Drop => Hopeless(hdrs, tables, h, q) && !BL.Empty(tables)
        case Skip => Hopeless(hdrs, tables, h, q) || Outdone(hdrs, tables, h, Next(lists[n], k), need)
    {
      ListedFacts(next, prev, heads, hdrs, lists, freeBlocks, heap, n, k);
      var considered := Considered(h, need, maySplit);
      if !considered {
        return Skip;
      }
      c := Choose(h, Span(hdrs[h]), need, kind, ignoreOffPage);
      assert BL.Empty(tables) ==> c.TakeAt? by {
        ghost var eff := if ignoreOffPage then 1 else need;
        assert !c.TakeAt? ==> BL.Listed(tables, h, eff);
        if BL.Empty(tables) { NothingListed(tables, h, eff); }
      }
    }

    method TakeFor(h: nat, start: nat, need: nat, sz: nat, n: nat)
      requires Inv() && FreeAt(hdrs, h) && n == ListFor(Span(hdrs[h]))
      requires 0 < need == BlocksFor(sz) && h <= start && start + need <= h + Span(hdrs[h])
      modifies this`hdrs, this`next, this`prev, this`heads, this`freeBlocks, this`lists, this`largeFree
      modifies index
      ensures Inv() && largeFree == old(largeFree) - need
      ensures UsedKept(old(hdrs), hdrs) && old(hdrs).Keys <= hdrs.Keys && Granted(old(hdrs), hdrs, start, sz, h)
    {
      Take(h, start, need, sz, n);
      assert Layout(old(hdrs), heap) by { LayoutOf(old(hdrs), old(lists), old(freeBlocks), heap, 0, 0); }
      TakenFacts(old(hdrs), hdrs, heap, h, start, need, sz);
    }

    /** One round of the search, up to the next block to look at.  After dropping the first
        block of the list, the search starts again. */
    method Round(hbp: nat, sz: nat, need: nat, kind: Kind, ignoreOffPage: bool, n: nat, maySplit: bool,
        ghost k: nat, ghost q: Query)
      returns (c: Choice, hbp': nat, restart: bool, ghost k': nat)
      requires Inv() && n <= LastList && 0 < need == BlocksFor(sz) && k < |lists[n]| && lists[n][k] == hbp
      requires q == Asked(need, maySplit, kind, ignoreOffPage) && Passed(hdrs, tables, lists[n], k, q)
      modifies this`hdrs, this`next, this`prev, this`heads, this`freeBlocks, this`lists, this`largeFree,
        this`dropped, this`dropCount
      modifies index
      ensures Inv() && UsedKept(old(hdrs), hdrs) && old(hdrs).Keys <= hdrs.Keys
      ensures c.TakeAt? ==>
        && Granted(old(hdrs), hdrs, c.start, sz, hbp) && c.start != 0
        && largeFree == old(largeFree) - need && dropped == old(dropped)
      ensures n == ListFor(BlocksAt(old(hdrs), hbp))
      ensures c.TakeAt? ==> Picked(old(hdrs), tables, hbp, Next(old(lists)[n], k), q, spacing, c.start)
      ensures c.Drop? ==> lists[n] == RemoveAt(old(lists)[n], k) && Hopeless(old(hdrs), tables, hbp, q)
      ensures c.Skip? ==> lists == old(lists)
      ensures !c.TakeAt? ==>
        && FreeKept(old(hdrs), hdrs) && largeFree + dropped == old(largeFree + dropped)
        && (BL.Empty(tables) ==> hdrs == old(hdrs))
      ensures !c.TakeAt? ==>
        lists == old(lists)[n := lists[n]] && |lists[n]| <= old(|lists[n]|) && |lists[n]| - k' < old(|lists[n]|) - k
      ensures !c.TakeAt? && restart ==> |lists[n]| < old(|lists[n]|)
      ensures !c.TakeAt? && !restart ==>
        k' <= |lists[n]| && hbp' == At(lists[n], k') && Passed(hdrs, tables, lists[n], k', q)
    {
      ListedFacts(next, prev, heads, hdrs, lists, freeBlocks, heap, n, k);
      var p := prev[hbp];
      hbp', restart, k' := 0, false, k;
      ghost var was, list := hdrs, lists[n];
      c := Visit(hbp, sz, need, kind, ignoreOffPage, n, maySplit, k);
      match c {
        case TakeAt(start) =>
        case Drop =>
          PassedDropped(was, hdrs, tables, list, lists, freeBlocks, heap, n, k, q);
          if p == 0 {
            restart := true;
          } else {
            ListedFacts(next, prev, heads, hdrs, lists, freeBlocks, heap, n, k - 1);
            hbp' := next[p];
          }
        case Skip =>
          PassedOn(hdrs, tables, list, k, q);
          hbp' := next[hbp];
          k' := k + 1;
      }
    }

    /** GC_allochblk_nth: look for a place for objects of a size on one free list.  It is found
        in block f, the first one on the list that neither is hopeless nor has an obviously
        better one behind it. */
    method AllocNth(sz: nat, kind: Kind, ignoreOffPage: bool, n: nat, maySplit: bool) returns (r: nat, ghost f: nat)
      requires Inv() && n <= LastList && 0 < BlocksFor(sz)
      modifies this`hdrs, this`next, this`prev, this`heads, this`freeBlocks, this`lists, this`largeFree,
        this`dropped, this`dropCount
      modifies index
      ensures Inv() && UsedKept(old(hdrs), hdrs) && old(hdrs).Keys <= hdrs.Keys
      ensures r != 0 ==> Granted(old(hdrs), hdrs, r, sz, f)
      ensures r != 0 ==> n == ListFor(Span(old(hdrs)[f]))
      ensures r != 0 ==>
        FirstFit(old(hdrs), tables, old(lists)[n], Asked(BlocksFor(sz), maySplit, kind, ignoreOffPage), spacing, f, r)
      ensures largeFree + dropped + (if r != 0 then BlocksFor(sz) else 0) == old(largeFree + dropped)
      ensures r == 0 ==>
        FreeKept(old(hdrs), hdrs) && forall j :: 0 <= j < |lists| && j != n ==> lists[j] == old(lists)[j]
      ensures r == 0 ==> Passed(hdrs, tables, lists[n], |lists[n]|, Asked(BlocksFor(sz), maySplit, kind, ignoreOffPage))
      ensures BL.Empty(tables) && r == 0 ==> hdrs == old(hdrs)
      decreases |lists[n]|
    {
      var need := BlocksFor(sz);
      var hbp := heads[n];
      f := 0;
      ghost var k: nat := 0;
      ghost var q := Asked(need, maySplit, kind, ignoreOffPage);
      ghost var gone: set<nat> := {};
      assert hbp == At(lists[n], 0) by { assert Open(0); }
      NothingDropped(hdrs, tables, lists[n], q);
      while hbp != 0
        invariant Inv() && k <= |lists[n]| <= |old(lists)[n]| && hbp == At(lists[n], k)
        invariant UsedKept(old(hdrs), hdrs) && FreeKept(old(hdrs), hdrs) && old(hdrs).Keys <= hdrs.Keys
        invariant largeFree + dropped == old(largeFree + dropped)
        invariant Passed(hdrs, tables, lists[n], k, q) && lists == old(lists)[n := lists[n]]
        invariant BL.Empty(tables) ==> hdrs == old(hdrs)
        invariant Thinned(old(hdrs), tables, old(lists)[n], gone, lists[n], q)
        decreases |lists[n]| - k
      {
        ghost var was, list, at := hdrs, lists[n], k;
        ListFree(next, prev, heads, hdrs, lists, freeBlocks, heap, n);
        var c, restart;
        f := hbp;
        c, hbp, restart, k := Round(hbp, sz, need, kind, ignoreOffPage, n, maySplit, k, q);
        Since(old(hdrs), was, hdrs);
        if c.TakeAt? {
          Found(old(hdrs), was, tables, old(lists)[n], gone, list, at, q, spacing, c.start);
          return c.start, f;
        }
        if c.Drop? {
          OneDropped(old(hdrs), was, tables, old(lists)[n], gone, list, at, q);
          gone := gone + {list[at]};
        }
        if restart {
          was := hdrs;
          list := lists[n];
          ListFree(next, prev, heads, hdrs, lists, freeBlocks, heap, n);
          r, f := AllocNth(sz, kind, ignoreOffPage, n, maySplit);
          Since(old(hdrs), was, hdrs);
          if r != 0 {
            FoundLater(old(hdrs), was, tables, old(lists)[n], gone, list, q, spacing, f, r);
          }
          return;
        }
      }
      if k < |lists[n]| {
        ListedFacts(next, prev, heads, hdrs, lists, freeBlocks, heap, n, k);
      }
      return 0, 0;
    }

    /** GC_enough_large_bytes_left: the largest n such that list n and the later ones, with
        what is allocated in large blocks, reach the maximum seen; 0 if there is none. */
    method EnoughLargeLeft(inUse: nat, most: nat) returns (n: nat)
      requires |freeBlocks| == LastList + 1
      ensures n <= LastList
      ensures n > 0 ==> inUse + Total(freeBlocks) - Total(freeBlocks[..n]) >= most
      ensures forall m :: n < m <= LastList ==> inUse + Total(freeBlocks) - Total(freeBlocks[..m]) < most
    {
      var blocks: int, i: int := inUse, LastList;
      assert freeBlocks[..LastList + 1] == freeBlocks;
      while i >= 0
        invariant -1 <= i <= LastList && blocks == inUse + Total(freeBlocks) - Total(freeBlocks[..i + 1])
        invariant forall m :: i < m <= LastList ==> inUse + Total(freeBlocks) - Total(freeBlocks[..m]) < most
      {
        assert freeBlocks[..i + 1][..i] == freeBlocks[..i];
        blocks := blocks + freeBlocks[i];
        if blocks >= most {
          return i;
        }
        i := i - 1;
      }
      return 0;
    }

    /** GC_allochblk: exact matches on the list for the size first, then the lists from it or
        the next one up to a limit, with splitting.  It fails only if every place in every
        block that may be used is black listed; so if nothing is, it succeeds exactly if there
        is such a block.  The block f that is used has the size asked for, or there is no
        hope in any block of that size nor in any block on a lower list that may be split. */
    method Alloc(sz: nat, kind: Kind, ignoreOffPage: bool, splitLimit: nat) returns (r: nat, ghost f: nat)
      requires Inv() && splitLimit <= LastList && 0 < BlocksFor(sz) < 2 * MaxBlocks
      modifies this`hdrs, this`next, this`prev, this`heads, this`freeBlocks, this`lists, this`largeFree,
        this`dropped, this`dropCount
      modifies index
      ensures Inv() && UsedKept(old(hdrs), hdrs)
      ensures r != 0 ==> Granted(old(hdrs), hdrs, r, sz, f) && MayUse(Span(old(hdrs)[f]), BlocksFor(sz), splitLimit + 1)
      ensures largeFree + dropped + (if r != 0 then BlocksFor(sz) else 0) == old(largeFree + dropped)
      ensures var q := Asked(BlocksFor(sz), true, kind, ignoreOffPage);
        if r == 0 then FreeKept(old(hdrs), hdrs) && NoHope(hdrs, tables, q, splitLimit + 1)
        else RightPlace(tables, f, Span(old(hdrs)[f]), q, spacing, r) && Preferred(old(hdrs), hdrs, tables, q, f)
      ensures BL.Empty(tables) ==>
        (r != 0 <==>
          exists g: nat :: FreeAt(old(hdrs), g) && MayUse(Span(old(hdrs)[g]), BlocksFor(sz), splitLimit + 1))
    {
      var need := BlocksFor(sz);
      if need >= MaxBlocks {
        TooLarge(hdrs, lists, freeBlocks, heap, need);
        return 0, 0;
      }
      var startList := ListFor(need);
      ghost var q := Asked(need, true, kind, ignoreOffPage);
      r, f := AllocNth(sz, kind, ignoreOffPage, startList, false);
      if r != 0 {
        FitFacts(old(hdrs), tables, old(lists)[startList], q.(maySplit := false), spacing, f, r);
        return;
      }
      ExactDone(hdrs, tables, lists, freeBlocks, heap, q);
      var first := if startList < 32 then startList + 1 else startList;
      var i := first;
      while i <= splitLimit
        invariant first <= i
        invariant Inv() && UsedKept(old(hdrs), hdrs) && FreeKept(old(hdrs), hdrs) && old(hdrs).Keys <= hdrs.Keys
        invariant largeFree + dropped == old(largeFree + dropped)
        invariant NoHope(hdrs, tables, q, i)
        invariant BL.Empty(tables) ==> hdrs == old(hdrs)
      {
        ghost var was, list := hdrs, lists[i];
        r, f := AllocNth(sz, kind, ignoreOffPage, i, true);
        Since(old(hdrs), was, hdrs);
        if r != 0 {
          FitFacts(was, tables, list, q, spacing, f, r);
          NoHopeBefore(old(hdrs), was, hdrs, tables, q, f, i);
          return;
        }
        NextListDone(was, hdrs, tables, lists, freeBlocks, heap, q, i);
        i := i + 1;
      }
      NoHopeBelow(hdrs, tables, q, i, splitLimit + 1);
      if BL.Empty(tables) {
        NothingMayBeUsed(hdrs, tables, q, splitLimit + 1);
      }
      return 0, 0;
    }

    /** Make block h, which is free and on no list, one with the next block, if possible. */
    method MergeNext(h: nat)
      requires Ok(h, NoList) && FreeAt(hdrs, h) && Apart(h)
      requires Indexed()
      modifies this`hdrs, this`next, this`prev, this`heads, this`freeBlocks, this`lists
      modifies index
      ensures Ok(h, NoList) && FreeAt(hdrs, h) && Apart(h) && (|heap| < MaxBlocks ==> NoNext(hdrs, h))
      ensures hdrs == old(hdrs) || Joined(old(hdrs), hdrs, h, h + Span(old(hdrs)[h]))
      ensures UsedSum(hdrs) == old(UsedSum(hdrs))
      ensures Indexed()
    {
      var x := h + Span(hdrs[h]);
      if x in hdrs && hdrs[x].Free? && Span(hdrs[h]) + Span(hdrs[x]) < MaxBlocks {
        JoinBlocks(h, x, h, x);
      }
      if |heap| < MaxBlocks {
        assert Layout(old(hdrs), heap) by { LayoutOf(old(hdrs), old(lists), old(freeBlocks), heap, h, NoList); }
        NextMerged(old(hdrs), hdrs, heap, h, x);
      }
    }

    /** The same with the block before, p. */
    method MergePrev(h: nat, p: nat) returns (h': nat)
      requires Ok(h, NoList) && FreeAt(hdrs, h) && Apart(h) && (|heap| < MaxBlocks ==> NoNext(hdrs, h))
      requires PrevIs(hdrs, h, p)
      requires Indexed()
      modifies this`hdrs, this`next, this`prev, this`heads, this`freeBlocks, this`lists
      modifies index
      ensures Ok(h', NoList) && FreeAt(hdrs, h') && Apart(0)
      ensures (hdrs == old(hdrs) && h' == h) || (h' == p && Joined(old(hdrs), hdrs, p, h))
      ensures UsedSum(hdrs) == old(UsedSum(hdrs))
      ensures Indexed()
    {
      h' := h;
      if p != 0 && Span(hdrs[h]) + Span(hdrs[p]) < MaxBlocks {
        JoinBlocks(p, h, h, p);
        h' := p;
      }
      if |heap| < MaxBlocks {
        assert Layout(old(hdrs), heap) by { LayoutOf(old(hdrs), old(lists), old(freeBlocks), heap, h, NoList); }
        PrevMerged(old(hdrs), hdrs, heap, h, p);
      }
    }

    /** Join adjacent free blocks a and b; one of them is on no list, the other, x, leaves
        its list. */
    method JoinBlocks(a: nat, b: nat, ghost odd: nat, x: nat)
      requires Ok(odd, NoList) && FreeAt(hdrs, a) && FreeAt(hdrs, b) && b == a + hdrs[a].blocks
      requires (odd == a && x == b) || (odd == b && x == a)
      requires hdrs[a].blocks + hdrs[b].blocks < MaxBlocks
      requires Indexed()
      modifies this`hdrs, this`next, this`prev, this`heads, this`freeBlocks, this`lists
      modifies index
      ensures Ok(a, NoList) && FreeAt(hdrs, a) && Joined(old(hdrs), hdrs, a, b) && UsedSum(hdrs) == old(UsedSum(hdrs))
      ensures Indexed()
    {
      var joined := JoinHdrs(hdrs, a, b);
      assert a != b by { assert Open(0); }
      assert FreeAt(joined, a);
      ghost var i := ListFor(Span(hdrs[x]));
      ghost var k := Position(next, prev, heads, hdrs, lists, freeBlocks, heap, odd, NoList, x);
      RemoveFromFl(x, -1, i, k);
      ghost var was := index.bottoms;
      index.RemoveHeader(b);
      assert Ordered(hdrs) by { LayoutOf(old(hdrs), old(lists), old(freeBlocks), heap, odd, NoList); }
      CellsJoin(was, index.bottoms, hdrs, a, b);
      hdrs := joined;
      JoinedFacts(old(hdrs), hdrs, old(lists), lists, old(freeBlocks), freeBlocks, heap, a, b, odd, x, i, k);
    }

    /** Block h, in use, becomes free, is joined with free neighbours and goes on a list. */
    method Release(h: nat)
      requires Ok(0, 0) && Apart(0) && h in hdrs && hdrs[h].Used?
      requires IndexedFor(h)
      modifies this`hdrs, this`next, this`prev, this`heads, this`freeBlocks, this`lists
      modifies index
      ensures Ok(0, 0) && Apart(0) && Released(old(hdrs), hdrs, h)
      ensures Total(freeBlocks) == old(Total(freeBlocks)) + Span(old(hdrs)[h])
      ensures Indexed()
    {
      MakeFree(h);
      ghost var freed := hdrs;
      var f := Coalesce(h);
      ReleasedFacts(old(hdrs), freed, hdrs, h, f);
      List(f);
      ReleasedTotal(old(hdrs), old(lists), old(freeBlocks), hdrs, lists, freeBlocks, heap, Span(old(hdrs)[h]));
    }

    /** The walk along forwarding counts from any address: it ends at the header of the block
        in use that holds the address, or finds that there is none.  Inside a free block the
        index has no entry. */
    method FindBlock(a: nat) returns (found: bool, h: nat)
      requires Inv()
      ensures found ==> Owns(hdrs, h, a)
      ensures forall o: nat :: Owns(hdrs, o, a) && (hdrs[o].Used? || o == a) ==> found && h == o
    {
      assert Ordered(hdrs) by { LayoutOf(hdrs, lists, freeBlocks, heap, 0, 0); }
      var c;
      h, c := index.FindStart(a, hdrs);
      HeaderIff(index.bottoms, hdrs, h);
      OwnerFound(index.bottoms, hdrs, a, h);
      return c.Header?, h;
    }

    /** GC_free_block_ending_at, through the index. */
    method FreeBlockEndingAt(h: nat) returns (p: nat)
      requires Ok(h, NoList) && Indexed() && h in hdrs
      ensures PrevIs(hdrs, h, p)
    {
      assert Ordered(hdrs) by { LayoutOf(hdrs, lists, freeBlocks, heap, h, NoList); }
      p := index.FreeBlockEndingAt(h, hdrs);
    }

    /** Join a free block that is on no list with its free neighbours. */
    method Coalesce(h: nat) returns (f: nat)
      requires Ok(h, NoList) && FreeAt(hdrs, h) && Apart(h)
      requires Indexed()
      modifies this`hdrs, this`next, this`prev, this`heads, this`freeBlocks, this`lists
      modifies index
      ensures Ok(f, NoList) && Apart(0) && Coalesced(old(hdrs), hdrs, h, f) && UsedSum(hdrs) == old(UsedSum(hdrs))
      ensures Indexed()
    {
      var p := FreeBlockEndingAt(h);
      MergeNext(h);
      assert PrevIs(hdrs, h, p) by { PrevStays(old(hdrs), old(lists), old(freeBlocks), heap, hdrs, h, p); }
      ghost var merged := hdrs;
      f := MergePrev(h, p);
      CoalescedFacts(old(hdrs), merged, hdrs, h, p, f);
    }

    /** No heap yet. */
    constructor (limit: nat, t: BL.Tables)
      requires t.WellFormed()
      ensures Inv() && SectsAre(sects, heap) && heapBlocks == 0 && hdrs == map[] && fresh(index)
    {
      hdrs, next, prev := map[], map[], map[];
      index := new Index();
      heads, freeBlocks, lists := seq(LastList + 1, i => 0), seq(LastList + 1, i => 0), seq(LastList + 1, i => []);
      largeFree, heapBlocks, dropped, dropCount, heap, sects, maxSects := 0, 0, 0, 0, {}, [], limit;
      tables, spacing, findLeak := t, 16, false;
      new;
      AllZero(freeBlocks);
    }

    /** GC_freehblk.  Freeing a free block aborts. */
    method FreeBlock(h: nat) returns (aborted: bool)
      requires Inv() && h in hdrs
      modifies this`hdrs, this`next, this`prev, this`heads, this`freeBlocks, this`lists, this`largeFree
      modifies index
      ensures Inv() && aborted == old(hdrs)[h].Free?
      ensures aborted ==> hdrs == old(hdrs) && largeFree == old(largeFree)
      ensures !aborted ==> Released(old(hdrs), hdrs, h) && largeFree == old(largeFree) + BlocksFor(old(hdrs)[h].sz)
    {
      if hdrs[h].Free? {
        return true;
      }
      var size := BlocksFor(hdrs[h].sz);
      Release(h);
      largeFree := largeFree + size;
      return false;
    }

    /** GC_add_to_heap: n blocks from p on become part of the heap, save the first two of
        the address space and the very last one.  Too many sections, or a section whose size
        is negative as a signed word, abort. */
    method AddToHeap(p: nat, n: nat) returns (aborted: bool)
      requires Inv() && SectsAre(sects, heap) && 0 < n && p + n <= 2 * MaxBlocks && Range(p, n) !! heap
      modifies this`hdrs, this`next, this`prev, this`heads, this`freeBlocks, this`lists, this`largeFree, this`heapBlocks
      modifies this`heap, this`sects, index
      ensures Inv() && SectsAre(sects, heap)
      ensures aborted <==> old(|sects|) >= maxSects || |Usable(p, n)| >= MaxBlocks
      ensures aborted ==> heap == old(heap) && hdrs == old(hdrs)
      ensures !aborted ==> heap == old(heap) + Usable(p, n) && largeFree == old(largeFree) + |Usable(p, n)|
      ensures UsedKept(old(hdrs), hdrs) && UsedKept(hdrs, old(hdrs))
    {
      if |sects| >= maxSects {
        return true;
      }
      var start, size := Trim(p, n);
      if size >= MaxBlocks {
        return true;
      }
      if size > 0 {
        EnterSection(start, size, Usable(p, n));
      }
      return false;
    }

    method EnterSection(p: nat, n: nat, ghost more: set<nat>)
      requires Inv() && SectsAre(sects, heap) && 1 < p && 0 < n < MaxBlocks && more == Range(p, n) && more !! heap
      modifies this`hdrs, this`next, this`prev, this`heads, this`freeBlocks, this`lists, this`largeFree, this`heapBlocks
      modifies this`heap, this`sects, index
      ensures Inv() && SectsAre(sects, heap) && heap == old(heap) + more && largeFree == old(largeFree) + n
      ensures UsedKept(old(hdrs), hdrs) && UsedKept(hdrs, old(hdrs))
    {
      SectAdded(sects, heap, p, n, more);
      sects := sects + [Sect(p, n)];
      AddSection(p, n, more);
    }

    method AddSection(p: nat, n: nat, ghost more: set<nat>)
      requires Inv() && 1 < p && 0 < n < MaxBlocks && more == Range(p, n) && more !! heap
      modifies this`hdrs, this`next, this`prev, this`heads, this`freeBlocks, this`lists, this`largeFree,
        this`heapBlocks, this`heap
      modifies index
      ensures Inv() && heap == old(heap) + more && largeFree == old(largeFree) + n
      ensures UsedKept(old(hdrs), hdrs) && UsedKept(hdrs, old(hdrs))
    {
      Extend(p, n, more);
      heapBlocks := heapBlocks + n;
      largeFree := largeFree + n;
    }

    /** The part of a new section that is used. */
    static method Trim(p: nat, n: nat) returns (start: nat, size: nat)
      requires 0 < n && p + n <= 2 * MaxBlocks
      ensures Range(start, size) == Usable(p, n) && size == |Usable(p, n)| && (size > 0 ==> 1 < start)
    {
      start, size := p, n;
      while start <= 1 && size > 0
        invariant p <= start && start + size == p + n && (start == p || start <= 2)
      {
        start, size := start + 1, size - 1;
      }
      if size > 0 && start + size == 2 * MaxBlocks {
        size := size - 1;
      }
      assert Range(start, size) == Usable(p, n);
    }

    /** Add the blocks of a new section to the free blocks. */
    method Extend(p: nat, n: nat, ghost more: set<nat>)
      requires Ok(0, 0) && Apart(0) && Sized(hdrs)
      requires 1 < p && 0 < n < MaxBlocks && more == Range(p, n) && more !! heap
      requires Indexed()
      modifies this`hdrs, this`next, this`prev, this`heads, this`freeBlocks, this`lists, this`heap
      modifies index
      ensures Ok(0, 0) && Apart(0) && Sized(hdrs) && heap == old(heap) + more && |heap| == old(|heap|) + n
      ensures UsedKept(old(hdrs), hdrs) && UsedKept(hdrs, old(hdrs)) && Total(freeBlocks) == old(Total(freeBlocks)) + n
      ensures Indexed()
    {
      Install(p, Used(n, n * BlockBytes), more);
      ghost var mid := hdrs;
      Release(p);
      ExtendedFacts(old(hdrs), mid, hdrs, p, Used(n, n * BlockBytes));
    }

    /** Enter a new block as one in use. */
    method Install(p: nat, v: Hdr, ghost more: set<nat>)
      requires Ok(0, 0) && Apart(0) && 1 < p && v.Used? && 0 < v.blocks < MaxBlocks && more == Range(p, v.blocks)
      requires more !! heap
      requires Indexed()
      modifies this`hdrs, this`heap
      modifies index
      ensures Ok(0, 0) && Apart(0) && heap == old(heap) + more && |heap| == old(|heap|) + v.blocks
      ensures p !in old(hdrs) && hdrs == old(hdrs)[p := v]
      ensures IndexedFor(p)
    {
      ghost var heap', was := heap + more, index.bottoms;
      NewSection(hdrs, lists, freeBlocks, heap, heap', p, v);
      index.InstallHeader(p);
      assert forall a: nat :: a in hdrs ==> a + Span(hdrs[a]) <= p || p + v.blocks <= a by {
        LayoutOf(hdrs, lists, freeBlocks, heap, 0, 0);
        Away(hdrs, heap, p, v.blocks);
      }
      CellsGrow(was, index.bottoms, hdrs, p, v.blocks);
      assert hdrs[p := v][p := Free(v.blocks)] == hdrs[p := Free(v.blocks)];
      hdrs := hdrs[p := v];
      heap := heap';
    }

    /** The index entries for a block that becomes free. */
    method IndexFree(h: nat)
      requires Ok(0, 0) && h in hdrs && hdrs[h].Used? && IndexedFor(h)
      modifies index
      ensures index.Valid() && Refines(index.bottoms, hdrs[h := Free(Span(hdrs[h]))])
    {
      ghost var was := index.bottoms;
      index.RemoveCounts(h, Span(hdrs[h]));
      assert Layout(hdrs, heap) by { LayoutOf(hdrs, lists, freeBlocks, heap, 0, 0); }
      Relabel(hdrs, heap, h, Free(Span(hdrs[h])));
      if Refines(was, hdrs) {
        CellsFree(was, index.bottoms, hdrs, h);
      } else {
        CellsStillFree(was, index.bottoms, hdrs[h := Free(Span(hdrs[h]))], h);
      }
    }

    method MakeFree(h: nat)
      requires Ok(0, 0) && Apart(0) && h in hdrs && hdrs[h].Used?
      requires IndexedFor(h)
      modifies this`hdrs
      modifies index
      ensures hdrs == old(hdrs)[h := Free(Span(old(hdrs)[h]))] && Ok(h, NoList) && Apart(h)
      ensures UsedSum(hdrs) == old(UsedSum(hdrs)) - Span(old(hdrs)[h])
      ensures Indexed()
    {
      IndexFree(h);
      FreeUp(hdrs, lists, freeBlocks, heap, h);
      UsedSumPut(hdrs, h, Free(Span(hdrs[h])));
      hdrs := hdrs[h := Free(Span(hdrs[h]))];
      assert Separated(old(hdrs), 0) ==> Separated(hdrs, h) by {
        assert forall a: nat :: a != h ==> (FreeAt(hdrs, a) <==> FreeAt(old(hdrs), a));
        assert 0 !in old(hdrs) by { LayoutOf(old(hdrs), lists, freeBlocks, heap, 0, 0); }
      }
    }
  }

  /** The blocks of a new section that the heap can use. */
  ghost function Usable(p: nat, n: nat): set<nat> {
    set x | x in Range(p, n) && 1 < x < 2 * MaxBlocks - 1
  }

  lemma {:induction false} AllZero(s: seq<int>)
    requires forall i :: 0 <= i < |s| ==> s[i] == 0
    ensures Total(s) == 0
  {
    if s != [] {
      AllZero(s[..|s| - 1]);
    }
  }

  lemma NewSection(hdrs: Hdrs, lists: seq<seq<nat>>, counts: seq<int>, heap: set<nat>, heap': set<nat>, p: nat, v: Hdr)
    requires Good(hdrs, lists, counts, heap, 0, 0) && 0 < p && v.Used? && 0 < v.blocks < MaxBlocks
    requires Range(p, v.blocks) !! heap && heap' == heap + Range(p, v.blocks)
    ensures p !in hdrs && Good(hdrs[p := v], lists, counts, heap', 0, 0) && |heap'| == |heap| + v.blocks
    ensures Separated(hdrs, 0) ==> Separated(hdrs[p := v], 0)
  {
    assert Layout(hdrs, heap) && OnLists(hdrs, lists, 0, 0) && Counted(hdrs, lists, counts) by { assert Open(0); }
    var now := hdrs[p := v];
    Grow(hdrs, heap, p, v, heap');
    UsedSumPut(hdrs, p, v);
    NewUsed(hdrs, now, lists, counts, p, v);
    assert Balanced(now, counts, heap', 0, 0) by { assert Balanced(hdrs, counts, heap, 0, 0) by { assert Open(0); } }
  }

  lemma NewUsed(hdrs: Hdrs, now: Hdrs, lists: seq<seq<nat>>, counts: seq<int>, p: nat, v: Hdr)
    requires OnLists(hdrs, lists, 0, 0) && Counted(hdrs, lists, counts) && p !in hdrs && v.Used? && now == hdrs[p := v]
    ensures OnLists(now, lists, 0, 0) && Counted(now, lists, counts)
    ensures Separated(hdrs, 0) ==> Separated(now, 0)
  {
    ListsKept(hdrs, now, lists, 0, 0, 0, 0);
    CountsKept(hdrs, now, lists, counts);
    assert forall x: nat :: FreeAt(now, x) <==> FreeAt(hdrs, x);
  }

  lemma SectAdded(sects: seq<Sect>, heap: set<nat>, p: nat, n: nat, more: set<nat>)
    requires SectsAre(sects, heap) && more == Range(p, n)
    ensures SectsAre(sects + [Sect(p, n)], heap + more)
  {
    assert SectsCover(sects, heap) by { assert Open(0); }
    var heap' := heap + more;
    var now, added := sects + [Sect(p, n)], Sect(p, n);
    assert forall s: Sect :: s in now <==> s in sects || s == added;
    forall x: nat | x in heap' ensures exists s: Sect :: s in now && s.start <= x < s.start + s.size {
      if x in heap {
        var s: Sect :| s in sects && s.start <= x < s.start + s.size;
        assert s in now;
      } else {
        assert added in now && added.start <= x < added.start + added.size;
      }
    }
  }

  lemma ExtendedFacts(was: Hdrs, mid: Hdrs, now: Hdrs, p: nat, v: Hdr)
    requires p !in was && mid == was[p := v] && Released(mid, now, p)
    ensures UsedKept(was, now) && UsedKept(now, was) && (Sized(was) ==> Sized(now))
  {
  }

  /** Block h has been given back: it is part of a free block, and the others in use are the
      same as before. */
  ghost predicate Released(was: Hdrs, now: Hdrs, h: nat)
    requires h in was
  {
    && (forall x: nat :: x in was && was[x].Used? && x != h ==> x in now && now[x] == was[x])
    && (forall x: nat :: x in now && now[x].Used? ==> x != h && x in was && was[x] == now[x])
    && exists f: nat :: FreeAt(now, f) && f <= h && h + Span(was[h]) <= f + Span(now[f])
  }

  /** p is the free block that ends where h starts, or 0. */
  ghost predicate PrevIs(hdrs: Hdrs, h: nat, p: nat) {
    if p == 0 then NoPrev(hdrs, h) else FreeAt(hdrs, p) && p + hdrs[p].blocks == h
  }

  lemma PrevStays(was: Hdrs, lists: seq<seq<nat>>, counts: seq<int>, heap: set<nat>, now: Hdrs, h: nat, p: nat)
    requires Good(was, lists, counts, heap, h, NoList) && PrevIs(was, h, p) && FreeAt(was, h)
    requires now == was || Joined(was, now, h, h + Span(was[h]))
    ensures PrevIs(now, h, p)
  {
    LayoutOf(was, lists, counts, heap, h, NoList);
    forall a: nat | FreeAt(now, a) ensures a + now[a].blocks == h ==> FreeAt(was, a) && was[a] == now[a] {
    }
  }

  /** f is a free block around h; blocks in use are the same. */
  ghost predicate Coalesced(was: Hdrs, now: Hdrs, h: nat, f: nat) {
    && FreeAt(was, h) && FreeAt(now, f) && f <= h && h + Span(was[h]) <= f + Span(now[f])
    && UsedKept(was, now) && UsedKept(now, was)
  }

  lemma CoalescedFacts(was: Hdrs, merged: Hdrs, now: Hdrs, h: nat, p: nat, f: nat)
    requires FreeAt(was, h)
    requires merged == was || Joined(was, merged, h, h + Span(was[h]))
    requires (now == merged && f == h) || (f == p && Joined(merged, now, p, h))
    ensures Coalesced(was, now, h, f)
  {
    assert FreeAt(merged, h) && Span(merged[h]) >= Span(was[h]);
  }

  lemma ReleasedFacts(was: Hdrs, freed: Hdrs, now: Hdrs, h: nat, f: nat)
    requires h in was && was[h].Used? && freed == was[h := Free(Span(was[h]))] && Coalesced(freed, now, h, f)
    ensures Released(was, now, h)
  {
    assert FreeAt(now, f) && f <= h && h + Span(was[h]) <= f + Span(now[f]);
  }

  lemma ReleasedTotal(was: Hdrs, lists: seq<seq<nat>>, counts: seq<int>, now: Hdrs, lists': seq<seq<nat>>,
      counts': seq<int>, heap: set<nat>, n: nat)
    requires Good(was, lists, counts, heap, 0, 0) && Good(now, lists', counts', heap, 0, 0)
    requires UsedSum(now) == UsedSum(was) - n
    ensures Total(counts') == Total(counts) + n
  {
    assert Balanced(was, counts, heap, 0, 0) && Balanced(now, counts', heap, 0, 0) by { assert Open(0); }
  }

  lemma JoinedFacts(hdrs: Hdrs, now: Hdrs, lists: seq<seq<nat>>, lists': seq<seq<nat>>, counts: seq<int>,
      counts': seq<int>, heap: set<nat>, a: nat, b: nat, odd: nat, x: nat, i: nat, k: nat)
    requires Good(hdrs, lists, counts, heap, odd, NoList) && FreeAt(hdrs, a) && FreeAt(hdrs, b)
    requires b == a + Span(hdrs[a]) && Span(hdrs[a]) + Span(hdrs[b]) < MaxBlocks && now == JoinHdrs(hdrs, a, b)
    requires (odd == a && x == b) || (odd == b && x == a)
    requires i == ListFor(Span(hdrs[x])) && k < |lists[i]| && lists[i][k] == x && Distinct(lists[i])
    requires lists' == lists[i := RemoveAt(lists[i], k)] && counts' == Bump(counts, i, 0 - Span(hdrs[x]))
    ensures Good(now, lists', counts', heap, a, NoList) && Joined(hdrs, now, a, b) && UsedSum(now) == UsedSum(hdrs)
  {
    assert a != b by { assert Open(0); }
    MergeSums(hdrs, now, a, b);
    Merge(hdrs, lists, counts, heap, a, b, odd, x, i, k);
  }

  ghost predicate Joined(was: Hdrs, now: Hdrs, a: nat, b: nat) {
    FreeAt(was, a) && FreeAt(was, b) && a + was[a].blocks == b && a != b && now == JoinHdrs(was, a, b)
  }

  lemma NextMerged(was: Hdrs, now: Hdrs, heap: set<nat>, h: nat, x: nat)
    requires Layout(was, heap) && |heap| < MaxBlocks && FreeAt(was, h) && Separated(was, h) && x == h + was[h].blocks
    requires if FreeAt(was, x) && was[h].blocks + was[x].blocks < MaxBlocks then now == JoinHdrs(was, h, x)
      else now == was
    ensures Separated(now, h) && NoNext(now, h)
  {
    if FreeAt(was, x) {
      TwoFit(was, heap, h, x);
      assert !FreeAt(was, x + was[x].blocks);
      JoinSeparated(was, now, h, x, h);
    }
  }

  /** After a join only the joined block can have free neighbours that are new. */
  lemma JoinSeparated(was: Hdrs, now: Hdrs, a: nat, b: nat, odd: nat)
    requires Ordered(was) && Joined(was, now, a, b) && (odd == a || odd == b) && Separated(was, odd)
    ensures Separated(now, a)
  {
    forall x: nat | FreeAt(now, x) && x != a ensures FreeAt(now, x + now[x].blocks) ==> x + now[x].blocks == a {
      assert FreeAt(was, x) && (FreeAt(was, x + was[x].blocks) ==> x + was[x].blocks == odd);
    }
  }

  lemma PrevMerged(was: Hdrs, now: Hdrs, heap: set<nat>, h: nat, p: nat)
    requires Layout(was, heap) && |heap| < MaxBlocks && FreeAt(was, h) && Separated(was, h) && NoNext(was, h)
    requires PrevIs(was, h, p)
    requires if p != 0 && was[h].blocks + was[p].blocks < MaxBlocks then now == JoinHdrs(was, p, h) else now == was
    ensures Separated(now, 0)
  {
    if p != 0 {
      TwoFit(was, heap, p, h);
      PrevJoined(was, now, h, p);
    }
  }

  lemma PrevJoined(was: Hdrs, now: Hdrs, h: nat, p: nat)
    requires Ordered(was) && Joined(was, now, p, h) && Separated(was, h) && NoNext(was, h)
    ensures Separated(now, 0)
  {
    JoinSeparated(was, now, p, h, h);
    assert p + now[p].blocks == h + was[h].blocks && !FreeAt(now, h + was[h].blocks);
    forall x: nat | FreeAt(now, x) ensures x + now[x].blocks != p {
      if x != p {
        assert FreeAt(was, x) && x != h && x + was[x].blocks != h && !FreeAt(was, x + was[x].blocks);
      }
    }
  }

  lemma TooLarge(hdrs: Hdrs, lists: seq<seq<nat>>, counts: seq<int>, heap: set<nat>, need: nat)
    requires Good(hdrs, lists, counts, heap, 0, 0) && need >= MaxBlocks
    ensures forall f: nat :: FreeAt(hdrs, f) ==> Span(hdrs[f]) < need
  {
    assert Open(0);
  }

  /** A request: how many blocks, whether a larger block may be split, whether the black
      lists matter and if so for how many blocks. */
  datatype Query = Query(need: nat, maySplit: bool, checked: bool, eff: nat)

  /** Every place in the block is black listed, if the block fits at all. */
  ghost predicate Hopeless(hdrs: Hdrs, t: BL.Tables, h: nat, q: Query)
    requires t.WellFormed()
  {
    Fits(hdrs, h, q.need, q.maySplit) ==>
      q.checked && forall x: nat :: h <= x && x + q.need <= h + Span(hdrs[h]) ==> BL.Listed(t, x, q.eff)
  }

  /** The start of the block can be used. */
  ghost predicate Promising(hdrs: Hdrs, t: BL.Tables, h: nat, q: Query)
    requires t.WellFormed()
  {
    Fits(hdrs, h, q.need, q.maySplit) && !BL.Listed(t, h, q.need)
  }

  /** A block of that many blocks serves a request for `need`: it has the size, or is larger
      and on a list below the limit. */
  predicate MayUse(blocks: int, need: nat, limit: nat) {
    blocks == need || (blocks > need && ListFor(blocks) < limit)
  }

  /** There is no place for the request in the blocks that may be used. */
  ghost predicate NoHope(hdrs: Hdrs, t: BL.Tables, q: Query, limit: nat)
    requires t.WellFormed()
  {
    forall g: nat :: FreeAt(hdrs, g) && MayUse(Span(hdrs[g]), q.need, limit) ==> Hopeless(hdrs, t, g, q)
  }

  /** Block f has the size asked for, or there was no hope in the blocks, still free, that
      have it or are on a lower list. */
  ghost predicate Preferred(was: Hdrs, now: Hdrs, t: BL.Tables, q: Query, f: nat)
    requires t.WellFormed() && f in was
  {
    Span(was[f]) == q.need || forall g: nat ::
      FreeAt(was, g) && g in now && now[g] == was[g] && MayUse(Span(was[g]), q.need, ListFor(Span(was[f]))) ==>
        Hopeless(was, t, g, q)
  }

  /** A place of the size within a block. */
  predicate Within(h: nat, avail: nat, need: nat, s: nat) { h <= s && s + need <= h + avail }

  /** No place within the block is free of black listed blocks. */
  ghost predicate NoClean(t: BL.Tables, h: nat, avail: nat, q: Query)
    requires t.WellFormed()
  {
    q.checked && forall x: nat :: Within(h, avail, q.need, x) ==> BL.Listed(t, x, q.eff)
  }

  predicate VeryLarge(avail: nat, need: nat, spacing: nat) { need > spacing && avail - need > spacing }

  /** The place to take within a block: its start if black lists do not matter; the first place
      that is not black listed, if there is one; its start for very large requests if not. */
  ghost predicate RightPlace(t: BL.Tables, h: nat, avail: int, q: Query, spacing: nat, s: nat)
    requires t.WellFormed()
  {
    && avail >= 0 && Within(h, avail, q.need, s)
    && (!q.checked ==> s == h)
    && (q.checked && NoClean(t, h, avail, q) ==> s == h && VeryLarge(avail, q.need, spacing))
    && (q.checked && !NoClean(t, h, avail, q) ==>
      !BL.Listed(t, s, q.eff) && forall x: nat :: h <= x < s ==> BL.Listed(t, x, q.eff))
  }

  /** A larger block is passed over if the next one on its list is large enough and smaller,
      and starts at a place that can be used. */
  ghost predicate Outdone(hdrs: Hdrs, t: BL.Tables, h: nat, better: nat, need: nat)
    requires t.WellFormed()
  {
    && h in hdrs && better in hdrs && better != 0
    && need <= Span(hdrs[better]) < Span(hdrs[h]) && !BL.Listed(t, better, need)
  }

  /** The block after block k of a list, or 0. */
  function Next(list: seq<nat>, k: nat): nat { if k + 1 < |list| then list[k + 1] else 0 }

  /** Block h is taken from, at s: it fits, the one after it is not obviously better, and the
      place is right. */
  ghost predicate Picked(hdrs: Hdrs, t: BL.Tables, h: nat, better: nat, q: Query, spacing: nat, s: nat)
    requires t.WellFormed()
  {
    && Fits(hdrs, h, q.need, q.maySplit) && !Outdone(hdrs, t, h, better, q.need)
    && RightPlace(t, h, Span(hdrs[h]), q, spacing, s)
  }

  /** The list without some of its blocks. */
  function Without(list: seq<nat>, gone: set<nat>): seq<nat> {
    if list == [] then []
    else Without(list[..|list| - 1], gone) + if list[|list| - 1] in gone then [] else [list[|list| - 1]]
  }

  lemma {:induction false} WithoutNone(list: seq<nat>, gone: set<nat>)
    requires forall h :: h in list ==> h !in gone
    ensures Without(list, gone) == list
  {
    if list != [] {
      WithoutNone(list[..|list| - 1], gone);
    }
  }

  lemma {:induction false} WithoutTwice(list: seq<nat>, a: set<nat>, b: set<nat>)
    ensures Without(Without(list, a), b) == Without(list, a + b)
  {
    if list != [] {
      var rest, last := list[..|list| - 1], list[|list| - 1];
      WithoutTwice(rest, a, b);
      var w := Without(rest, a);
      if last in a {
        assert w + [] == w;
      } else {
        assert (w + [last])[..|w|] == w;
      }
    }
  }

  lemma {:induction false} WithoutOne(list: seq<nat>, k: nat)
    requires Distinct(list) && k < |list|
    ensures Without(list, {list[k]}) == RemoveAt(list, k)
  {
    var n := |list| - 1;
    var rest := list[..n];
    if k == n {
      assert forall h :: h in rest ==> h != list[k];
      WithoutNone(rest, {list[k]});
    } else {
      WithoutOne(rest, k);
      assert RemoveAt(list, k) == RemoveAt(rest, k) + [list[n]];
    }
  }

  /** Hopeless blocks have been dropped from a list. */
  ghost predicate Thinned(hdrs: Hdrs, t: BL.Tables, list: seq<nat>, gone: set<nat>, now: seq<nat>, q: Query)
    requires t.WellFormed()
  {
    forall o: nat :: Open(o) ==>
      now == Without(list, gone) && forall g :: g in gone ==> g in list && Hopeless(hdrs, t, g, q)
  }

  /** With some hopeless blocks dropped from the list, block f is the first one that fits, unless
      blocks in front of it are hopeless or are larger while f can be used from its start; and
      the one behind f is not obviously better.  The place s within f is right. */
  ghost predicate FirstFit(hdrs: Hdrs, t: BL.Tables, list: seq<nat>, q: Query, spacing: nat, f: nat, s: nat)
    requires t.WellFormed()
  {
    forall o: nat :: Open(o) ==> exists gone, k: nat :: FitAt(hdrs, t, list, gone, k, q, spacing, f, s)
  }

  ghost predicate FitAt(hdrs: Hdrs, t: BL.Tables, list: seq<nat>, gone: set<nat>, k: nat, q: Query, spacing: nat,
      f: nat, s: nat)
    requires t.WellFormed()
  {
    var now := Without(list, gone);
    && k < |now| && now[k] == f && Thinned(hdrs, t, list, gone, now, q) && Passed(hdrs, t, now, k, q)
    && Picked(hdrs, t, f, Next(now, k), q, spacing, s)
  }

  lemma FitFacts(hdrs: Hdrs, t: BL.Tables, list: seq<nat>, q: Query, spacing: nat, f: nat, s: nat)
    requires t.WellFormed() && FirstFit(hdrs, t, list, q, spacing, f, s)
    ensures Fits(hdrs, f, q.need, q.maySplit) && RightPlace(t, f, Span(hdrs[f]), q.(maySplit := true), spacing, s)
  {
    assert Open(0);
  }

  lemma NothingDropped(hdrs: Hdrs, t: BL.Tables, list: seq<nat>, q: Query)
    requires t.WellFormed()
    ensures Thinned(hdrs, t, list, {}, list, q)
  {
    WithoutNone(list, {});
  }

  lemma ListFree(next: map<nat, nat>, prev: map<nat, nat>, heads: seq<nat>, hdrs: Hdrs, lists: seq<seq<nat>>,
      counts: seq<int>, heap: set<nat>, n: nat)
    requires AllLinked(next, prev, heads, lists) && Good(hdrs, lists, counts, heap, 0, 0) && n < |lists|
    ensures Distinct(lists[n]) && forall h :: h in lists[n] ==> FreeAt(hdrs, h)
  {
    assert Linked(next, prev, heads[n], lists[n]) by { assert Open(0); }
    MembersFree(hdrs, lists, counts, heap, n);
  }

  lemma OneDropped(first: Hdrs, was: Hdrs, t: BL.Tables, list: seq<nat>, gone: set<nat>, now: seq<nat>, k: nat,
      q: Query)
    requires t.WellFormed() && Thinned(first, t, list, gone, now, q) && FreeKept(first, was)
    requires Distinct(now) && (forall h :: h in now ==> FreeAt(was, h)) && k < |now| && Hopeless(was, t, now[k], q)
    ensures Thinned(first, t, list, gone + {now[k]}, RemoveAt(now, k), q)
  {
    assert Open(0);
    WithoutOne(now, k);
    WithoutTwice(list, gone, {now[k]});
    WithoutWithin(list, gone);
    assert FreeAt(was, now[k]);
  }

  lemma {:induction false} WithoutWithin(list: seq<nat>, gone: set<nat>)
    ensures forall h :: h in Without(list, gone) ==> h in list
  {
    if list != [] {
      WithoutWithin(list[..|list| - 1], gone);
    }
  }

  /** What is known of free blocks that are as they were at first. */
  lemma PassedSince(first: Hdrs, was: Hdrs, t: BL.Tables, list: seq<nat>, k: nat, q: Query)
    requires t.WellFormed() && FreeKept(first, was) && (forall h :: h in list ==> FreeAt(was, h))
    requires Passed(was, t, list, k, q)
    ensures Passed(first, t, list, k, q)
  {
    assert Open(0);
    forall j | 0 <= j < k ensures
      Hopeless(first, t, list[j], q) ||
      (k < |list| && Promising(first, t, list[k], q) && Span(first[list[k]]) < BlocksAt(first, list[j]))
    {
      assert FreeAt(was, list[j]);
      assert k < |list| ==> FreeAt(was, list[k]);
    }
  }

  lemma PickedSince(first: Hdrs, was: Hdrs, t: BL.Tables, list: seq<nat>, k: nat, q: Query, spacing: nat, s: nat)
    requires t.WellFormed() && FreeKept(first, was) && (forall h :: h in list ==> FreeAt(was, h)) && k < |list|
    requires Picked(was, t, list[k], Next(list, k), q, spacing, s)
    ensures Picked(first, t, list[k], Next(list, k), q, spacing, s)
  {
    assert FreeAt(was, list[k]);
    assert k + 1 < |list| ==> FreeAt(was, list[k + 1]);
  }

  lemma Found(first: Hdrs, was: Hdrs, t: BL.Tables, list: seq<nat>, gone: set<nat>, now: seq<nat>, k: nat, q: Query,
      spacing: nat, s: nat)
    requires t.WellFormed() && Thinned(first, t, list, gone, now, q) && FreeKept(first, was)
    requires (forall h :: h in now ==> FreeAt(was, h)) && k < |now| && Passed(was, t, now, k, q)
    requires Picked(was, t, now[k], Next(now, k), q, spacing, s)
    ensures FirstFit(first, t, list, q, spacing, now[k], s)
  {
    assert Open(0);
    PassedSince(first, was, t, now, k, q);
    PickedSince(first, was, t, now, k, q, spacing, s);
    assert FitAt(first, t, list, gone, k, q, spacing, now[k], s);
  }

  lemma FoundLater(first: Hdrs, was: Hdrs, t: BL.Tables, list: seq<nat>, gone: set<nat>, now: seq<nat>, q: Query,
      spacing: nat, f: nat, s: nat)
    requires t.WellFormed() && Thinned(first, t, list, gone, now, q) && FreeKept(first, was)
    requires (forall h :: h in now ==> FreeAt(was, h)) && FirstFit(was, t, now, q, spacing, f, s)
    ensures FirstFit(first, t, list, q, spacing, f, s)
  {
    assert Open(0);
    var more, k: nat :| FitAt(was, t, now, more, k, q, spacing, f, s);
    var end := Without(now, more);
    WithoutTwice(list, gone, more);
    WithoutWithin(now, more);
    WithoutWithin(list, gone);
    PassedSince(first, was, t, end, k, q);
    PickedSince(first, was, t, end, k, q, spacing, s);
    forall g | g in more ensures Hopeless(first, t, g, q) {
      assert FreeAt(was, g);
    }
    assert FitAt(first, t, list, gone + more, k, q, spacing, f, s);
  }

  /** Each of the first k blocks is hopeless, or larger than block k, whose start can be used. */
  ghost predicate Passed(hdrs: Hdrs, t: BL.Tables, list: seq<nat>, k: nat, q: Query)
    requires t.WellFormed()
  {
    forall o: nat :: Open(o) ==>
      && k <= |list|
      && forall j :: 0 <= j < k ==>
        Hopeless(hdrs, t, list[j], q) ||
        (k < |list| && Promising(hdrs, t, list[k], q) && Span(hdrs[list[k]]) < BlocksAt(hdrs, list[j]))
  }

  function BlocksAt(hdrs: Hdrs, h: nat): int { if h in hdrs then Span(hdrs[h]) else 0 }

  lemma NotBoth(hdrs: Hdrs, t: BL.Tables, h: nat, q: Query)
    requires t.WellFormed() && q.eff <= q.need && Hopeless(hdrs, t, h, q)
    ensures !Promising(hdrs, t, h, q)
  {
    assert Fits(hdrs, h, q.need, q.maySplit) ==> BL.Listed(t, h, q.eff);
    if b :| h <= b < h + q.eff && BL.StackListed(t, b) {
      assert h <= b < h + q.need;
    }
  }

  lemma PassedOn(hdrs: Hdrs, t: BL.Tables, list: seq<nat>, k: nat, q: Query)
    requires t.WellFormed() && q.eff <= q.need && k < |list| && Passed(hdrs, t, list, k, q)
    requires Hopeless(hdrs, t, list[k], q) || (q.maySplit && Outdone(hdrs, t, list[k], Next(list, k), q.need))
    ensures Passed(hdrs, t, list, k + 1, q)
  {
    assert Open(0);
    if Hopeless(hdrs, t, list[k], q) {
      NotBoth(hdrs, t, list[k], q);
    }
  }

  /** What is on a list is free. */
  lemma MembersFree(hdrs: Hdrs, lists: seq<seq<nat>>, counts: seq<int>, heap: set<nat>, n: nat)
    requires Good(hdrs, lists, counts, heap, 0, 0) && n < |lists|
    ensures forall j :: 0 <= j < |lists[n]| ==> FreeAt(hdrs, lists[n][j])
  {
    assert Open(0);
    forall j | 0 <= j < |lists[n]| ensures FreeAt(hdrs, lists[n][j]) {
      assert lists[n][j] in lists[n] && Home(hdrs, 0, 0, lists[n][j]) == n;
    }
  }

  lemma PassedDropped(was: Hdrs, now: Hdrs, t: BL.Tables, list: seq<nat>, lists: seq<seq<nat>>, counts: seq<int>,
      heap: set<nat>, n: nat, k: nat, q: Query)
    requires t.WellFormed() && q.eff <= q.need && k < |list| && Passed(was, t, list, k, q)
    requires Hopeless(was, t, list[k], q)
    requires FreeKept(was, now) && Good(now, lists, counts, heap, 0, 0) && n < |lists| && lists[n] == RemoveAt(list, k)
    ensures Passed(now, t, lists[n], k, q)
  {
    assert forall j :: 0 <= j < k ==> Hopeless(was, t, list[j], q) by {
      assert Open(0);
      NotBoth(was, t, list[k], q);
    }
    MembersFree(now, lists, counts, heap, n);
    forall j | 0 <= j < k ensures Hopeless(now, t, lists[n][j], q) {
      assert lists[n][j] == list[j];
    }
  }

  lemma PassedAll(hdrs: Hdrs, t: BL.Tables, list: seq<nat>, q: Query, f: nat)
    requires t.WellFormed() && Passed(hdrs, t, list, |list|, q) && f in list
    ensures Hopeless(hdrs, t, f, q)
  {
    assert Open(0);
  }

  /** All free blocks of a list that has been passed over are hopeless. */
  lemma ListDone(hdrs: Hdrs, t: BL.Tables, lists: seq<seq<nat>>, counts: seq<int>, heap: set<nat>, q: Query, i: nat,
      g: nat)
    requires Good(hdrs, lists, counts, heap, 0, 0) && t.WellFormed() && FreeAt(hdrs, g) && i == ListFor(Span(hdrs[g]))
    requires i < |lists| && Passed(hdrs, t, lists[i], |lists[i]|, q)
    ensures Hopeless(hdrs, t, g, q)
  {
    assert Home(hdrs, 0, 0, g) == i && g in lists[i] by { assert Open(0); }
    PassedAll(hdrs, t, lists[i], q, g);
  }

  /** After the search for an exact match there is no hope in blocks of that size, and no larger
      block is on a list below the first one that is searched with splitting. */
  lemma ExactDone(hdrs: Hdrs, t: BL.Tables, lists: seq<seq<nat>>, counts: seq<int>, heap: set<nat>, q: Query)
    requires Good(hdrs, lists, counts, heap, 0, 0) && t.WellFormed() && q.maySplit && ListFor(q.need) < |lists|
    requires var l := lists[ListFor(q.need)]; Passed(hdrs, t, l, |l|, q.(maySplit := false))
    ensures NoHope(hdrs, t, q, if ListFor(q.need) < 32 then ListFor(q.need) + 1 else ListFor(q.need))
  {
    var startList := ListFor(q.need);
    var first := if startList < 32 then startList + 1 else startList;
    forall g: nat | FreeAt(hdrs, g) && MayUse(Span(hdrs[g]), q.need, first) ensures Hopeless(hdrs, t, g, q)
    {
      ListForOrder(q.need, Span(hdrs[g]));
      ListDone(hdrs, t, lists, counts, heap, q.(maySplit := false), startList, g);
    }
  }

  /** After the search of list i with splitting there is no hope up to that list. */
  lemma NextListDone(was: Hdrs, now: Hdrs, t: BL.Tables, lists: seq<seq<nat>>, counts: seq<int>, heap: set<nat>,
      q: Query, i: nat)
    requires FreeKept(was, now) && Good(now, lists, counts, heap, 0, 0) && t.WellFormed() && NoHope(was, t, q, i)
    requires i < |lists| && Passed(now, t, lists[i], |lists[i]|, q)
    ensures NoHope(now, t, q, i + 1)
  {
    forall g: nat | FreeAt(now, g) && MayUse(Span(now[g]), q.need, i + 1) ensures Hopeless(now, t, g, q) {
      if ListFor(Span(now[g])) == i {
        ListDone(now, t, lists, counts, heap, q, i, g);
      } else {
        assert Hopeless(was, t, g, q);
      }
    }
  }

  lemma NoHopeBelow(hdrs: Hdrs, t: BL.Tables, q: Query, i: nat, limit: nat)
    requires t.WellFormed() && NoHope(hdrs, t, q, i) && limit <= i
    ensures NoHope(hdrs, t, q, limit)
  {
  }

  /** What was known before the search of the list on which block f was found. */
  lemma NoHopeBefore(first: Hdrs, was: Hdrs, now: Hdrs, t: BL.Tables, q: Query, f: nat, i: nat)
    requires t.WellFormed() && FreeKept(first, was) && first.Keys <= was.Keys && UsedKept(was, now)
    requires NoHope(was, t, q, i) && f in first && ListFor(Span(first[f])) == i
    ensures Preferred(first, now, t, q, f)
  {
    forall g: nat | FreeAt(first, g) && g in now && now[g] == first[g] && MayUse(Span(first[g]), q.need, i)
      ensures Hopeless(first, t, g, q)
    {
      assert FreeAt(was, g);
      assert Hopeless(was, t, g, q);
    }
  }

  lemma NothingMayBeUsed(hdrs: Hdrs, t: BL.Tables, q: Query, limit: nat)
    requires t.WellFormed() && BL.Empty(t) && q.maySplit && NoHope(hdrs, t, q, limit)
    ensures forall g: nat :: FreeAt(hdrs, g) ==> !MayUse(Span(hdrs[g]), q.need, limit)
  {
    forall g: nat | FreeAt(hdrs, g) ensures !MayUse(Span(hdrs[g]), q.need, limit) {
      NothingListed(t, g, q.eff);
      assert MayUse(Span(hdrs[g]), q.need, limit) ==> Hopeless(hdrs, t, g, q);
    }
  }

  /** Block r is in use for objects of the size, and lies within block f that was free. */
  ghost predicate Granted(was: Hdrs, now: Hdrs, r: nat, sz: nat, f: nat) {
    && r in now && now[r] == Used(BlocksFor(sz), sz)
    && FreeAt(was, f) && f <= r && r + BlocksFor(sz) <= f + Span(was[f])
  }

  lemma ListedFacts(next: map<nat, nat>, prev: map<nat, nat>, heads: seq<nat>, hdrs: Hdrs, lists: seq<seq<nat>>,
      counts: seq<int>, heap: set<nat>, n: nat, k: nat)
    requires AllLinked(next, prev, heads, lists) && Good(hdrs, lists, counts, heap, 0, 0) && n < |lists|
    requires k < |lists[n]|
    ensures var h := lists[n][k];
      && FreeAt(hdrs, h) && n == ListFor(Span(hdrs[h])) && h != 0
      && h in next && next[h] == At(lists[n], k + 1) && (next[h] != 0 ==> next[h] in hdrs)
      && h in prev && prev[h] == At(lists[n], k - 1)
  {
    assert Open(0);
    var h := lists[n][k];
    assert h in lists[n] && Linked(next, prev, heads[n], lists[n]) && NextAt(next, lists[n], k)
      && PrevAt(prev, lists[n], k);
    assert Home(hdrs, 0, 0, h) == n;
    if k + 1 < |lists[n]| {
      assert lists[n][k + 1] in lists[n] && Home(hdrs, 0, 0, lists[n][k + 1]) == n;
    }
  }

  lemma TakenFacts(was: Hdrs, now: Hdrs, heap: set<nat>, h: nat, start: nat, need: nat, sz: nat)
    requires Layout(was, heap) && FreeAt(was, h) && h <= start && 0 < need == BlocksFor(sz)
    requires start + need <= h + Span(was[h])
    requires now == Carved(SplitHdrs(was, h, start), start, need, sz)
    ensures UsedKept(was, now) && was.Keys <= now.Keys && Granted(was, now, start, sz, h)
  {
    assert forall x: nat :: x in was && h < x < h + Span(was[h]) ==> x == h;
  }

  /** What holds between consecutive steps holds over both. */
  lemma Since(first: Hdrs, was: Hdrs, now: Hdrs)
    requires UsedKept(first, was) && FreeKept(first, was) && UsedKept(was, now)
    ensures UsedKept(first, now) && (FreeKept(was, now) ==> FreeKept(first, now))
    ensures forall r: nat, sz: nat, f: nat :: Granted(was, now, r, sz, f) ==> Granted(first, now, r, sz, f)
  {
  }

  lemma NothingListed(t: BL.Tables, h: nat, n: nat)
    requires t.WellFormed() && BL.Empty(t)
    ensures !BL.Listed(t, h, n)
  {
  }

  /** The blocks from h up to limit are in use, each of its own. */
  function Chopped(hdrs: Hdrs, h: nat, limit: nat): Hdrs {
    if limit <= h then hdrs else Chopped(hdrs, h, limit - 1)[limit - 1 := Used(1, BlockBytes)]
  }

  /** The blocks from h up to limit are in use; the others are as they were. */
  ghost predicate IsChopped(hdrs: Hdrs, now: Hdrs, h: nat, limit: nat) {
    forall k: nat :: Open(k) ==>
      && (forall x: nat :: x in now <==> x in hdrs || h <= x < limit)
      && (forall x: nat :: x in now ==> now[x] == if h <= x < limit then Used(1, BlockBytes) else hdrs[x])
  }

  lemma OwnerFound(bottoms: map<nat, seq<Cell>>, hdrs: Hdrs, a: nat, h: nat)
    requires Refines(bottoms, hdrs) && Ordered(hdrs)
    requires if CellAt(bottoms, a).Forward? then Inside(hdrs, h, a) else h == a
    ensures forall o: nat :: Owns(hdrs, o, a) && (hdrs[o].Used? || o == a) ==> h == o && h in hdrs
    ensures h in hdrs ==> Owns(hdrs, h, a)
  {
    assert Open(0) && CellOk(hdrs, a, CellAt(bottoms, a));
    forall o: nat | Owns(hdrs, o, a) && (hdrs[o].Used? || o == a) ensures h == o && h in hdrs {
      assert o != a ==> Inside(hdrs, o, a);
    }
  }

  lemma SameCell(bottoms: map<nat, seq<Cell>>, hdrs: Hdrs, b: nat)
    requires Refines(bottoms, hdrs) && b in hdrs
    ensures Changed(bottoms, bottoms, b, Header)
  {
    HeaderIff(bottoms, hdrs, b);
  }

  /** No block in use lies where the chopping has come to. */
  lemma NothingThere(was: Hdrs, heap: set<nat>, h: nat, b: nat)
    requires Layout(was, heap) && FreeAt(was, h) && h <= b < h + Span(was[h])
    ensures var hdrs := Chopped(was, h, b);
      (b in hdrs ==> b == h && hdrs[b].Free?) && forall o: nat :: !Inside(hdrs, o, b)
  {
    ChoppedAt(was, h, b);
    assert Open(0);
    var hdrs := Chopped(was, h, b);
    forall o: nat ensures !Inside(hdrs, o, b) {
      if o in hdrs && !(h <= o < b) {
        assert o < h ==> o + Span(was[o]) <= h;
      }
    }
  }

  lemma CellsCarve(was: map<nat, seq<Cell>>, mid: map<nat, seq<Cell>>, now: map<nat, seq<Cell>>, hdrs: Hdrs,
      heap: set<nat>, h: nat, need: nat, sz: nat, t: nat)
    requires Refines(was, hdrs) && Layout(hdrs, heap) && FreeAt(hdrs, h) && 0 < need < Span(hdrs[h]) && t == h + need
    requires Changed(was, mid, t, Header) && CountsSet(mid, now, h, h + need)
    ensures Refines(now, Carved(hdrs, h, need, sz))
  {
    var rest := Span(hdrs[h]) - need;
    var cut := CutHdrs(hdrs, h, Free(need), Free(rest));
    assert cut[h := Used(need, sz)] == Carved(hdrs, h, need, sz) && cut[h] == Free(need);
    assert Ordered(cut) by { Cut(hdrs, heap, h, Free(need), Free(rest)); }
    CellsCut(was, mid, hdrs, h, need, rest, t);
    CellsUse(mid, now, cut, h, sz);
  }

  lemma {:induction false} ChoppedAt(hdrs: Hdrs, h: nat, limit: nat)
    ensures IsChopped(hdrs, Chopped(hdrs, h, limit), h, limit)
  {
    assert Open(0);
    if h < limit {
      ChoppedAt(hdrs, h, limit - 1);
    }
  }

  /** The blocks before b are in use; the rest is free and on no list. */
  ghost predicate ChoppedTo(now: Hdrs, lists: seq<seq<nat>>, counts: seq<int>, heap: set<nat>, b: nat, limit: nat) {
    if b < limit then Good(now[b := Free(limit - b)], lists, counts, heap, b, NoList)
    else Good(now, lists, counts, heap, 0, 0)
  }

  lemma ChopStep(was: Hdrs, now: Hdrs, lists: seq<seq<nat>>, counts: seq<int>, heap: set<nat>, b: nat, b': nat,
      limit: nat)
    requires b < limit && b' == b + 1 && ChoppedTo(was, lists, counts, heap, b, limit)
    requires now == was[b := Used(1, BlockBytes)]
    ensures ChoppedTo(now, lists, counts, heap, b', limit)
  {
    var left := was[b := Free(limit - b)];
    if b' < limit {
      var cut := now[b' := Free(limit - b')];
      assert cut == CutHdrs(left, b, Used(1, BlockBytes), Free(limit - b'));
      UsePart(left, cut, lists, counts, heap, b, b', Used(1, BlockBytes), limit - b');
    } else {
      assert now == left[b := Used(1, BlockBytes)];
      UseWhole(left, lists, counts, heap, b, Used(1, BlockBytes));
    }
  }

  lemma {:induction false} ChoppedGood(was: Hdrs, lists: seq<seq<nat>>, counts: seq<int>, heap: set<nat>, h: nat,
      b: nat, limit: nat)
    requires Good(was, lists, counts, heap, h, NoList) && FreeAt(was, h) && h <= b <= limit == h + Span(was[h])
    ensures ChoppedTo(Chopped(was, h, b), lists, counts, heap, b, limit)
    decreases b
  {
    if b == h {
      assert was[h := Free(limit - h)] == was;
      assert h < limit by { assert Open(0); }
    } else {
      ChoppedGood(was, lists, counts, heap, h, b - 1, limit);
      ChopStep(Chopped(was, h, b - 1), Chopped(was, h, b), lists, counts, heap, b - 1, b, limit);
    }
  }

  lemma ChoppedKeeps(hdrs: Hdrs, now: Hdrs, heap: set<nat>, h: nat)
    requires Layout(hdrs, heap) && FreeAt(hdrs, h) && IsChopped(hdrs, now, h, h + Span(hdrs[h]))
    ensures FreeKept(hdrs, now) && UsedKept(hdrs, now) && hdrs.Keys <= now.Keys
    ensures Sized(hdrs) ==> Sized(now)
    ensures Separated(hdrs, 0) ==> Separated(now, 0)
  {
    assert Open(0);
    assert forall x: nat :: x in hdrs && h <= x < h + Span(hdrs[h]) ==> x == h;
    KeptSeparated(hdrs, now);
    KeptSized(hdrs, now);
  }

  lemma KeptSized(hdrs: Hdrs, now: Hdrs)
    requires forall x: nat :: x in now ==> now[x] == Used(1, BlockBytes) || (x in hdrs && now[x] == hdrs[x])
    ensures Sized(hdrs) ==> Sized(now)
  {
    assert BlocksFor(BlockBytes) == 1;
  }

  lemma KeptSeparated(hdrs: Hdrs, now: Hdrs)
    requires FreeKept(hdrs, now)
    ensures Separated(hdrs, 0) ==> Separated(now, 0)
  {
    assert forall x: nat :: FreeAt(now, x) ==> FreeAt(hdrs, x);
  }

  /** Blocks in use stay as they are. */
  ghost predicate UsedKept(was: Hdrs, now: Hdrs) {
    forall h: nat :: h in was && was[h].Used? ==> h in now && now[h] == was[h]
  }

  /** What is free is as it was before. */
  ghost predicate FreeKept(was: Hdrs, now: Hdrs) {
    forall h: nat :: FreeAt(now, h) ==> h in was && was[h] == now[h]
  }

  /** Free block h split at start, unless that is where it starts. */
  function SplitHdrs(hdrs: Hdrs, h: nat, start: nat): (r: Hdrs)
    requires FreeAt(hdrs, h) && h <= start < h + Span(hdrs[h])
    ensures FreeAt(r, start) && start + Span(r[start]) == h + Span(hdrs[h])
  {
    if start == h then hdrs else CutHdrs(hdrs, h, Free(start - h), Free(Span(hdrs[h]) - (start - h)))
  }

  lemma IsolatedApart(hdrs: Hdrs, heap: set<nat>, h: nat, start: nat)
    requires Layout(hdrs, heap) && FreeAt(hdrs, h) && h <= start < h + Span(hdrs[h]) && Separated(hdrs, 0)
    ensures Separated(SplitHdrs(hdrs, h, start), start) && NoNext(SplitHdrs(hdrs, h, start), start)
  {
    if start != h {
      CutSeparated(hdrs, h, start, SplitHdrs(hdrs, h, start));
    }
  }

  lemma PlacedSized(hdrs: Hdrs, now: Hdrs, h: nat, start: nat, need: nat, sz: nat)
    requires Sized(hdrs) && FreeAt(hdrs, h) && h <= start && 0 < need == BlocksFor(sz)
    requires start + need <= h + Span(hdrs[h])
    requires now == Carved(SplitHdrs(hdrs, h, start), start, need, sz)
    ensures Sized(now)
  {
    assert Sized(SplitHdrs(hdrs, h, start));
  }

  /** A free block that serves a request: large enough, and of the size if it must not be
      split. */
  ghost predicate Fits(hdrs: Hdrs, h: nat, need: nat, maySplit: bool) {
    h in hdrs && Span(hdrs[h]) >= need && (maySplit || Span(hdrs[h]) == need)
  }

  lemma Position(next: map<nat, nat>, prev: map<nat, nat>, heads: seq<nat>, hdrs: Hdrs, lists: seq<seq<nat>>,
      counts: seq<int>, heap: set<nat>, odd: nat, n: nat, h: nat) returns (k: nat)
    requires AllLinked(next, prev, heads, lists) && Good(hdrs, lists, counts, heap, odd, n)
    requires Home(hdrs, odd, n, h) <= LastList
    ensures var q := lists[Home(hdrs, odd, n, h)]; k < |q| && q[k] == h && Distinct(q)
    ensures h != 0 && h in next && h in prev
  {
    assert Open(0);
    var i := Home(hdrs, odd, n, h);
    assert h in lists[i] && Linked(next, prev, heads[i], lists[i]);
    k :| 0 <= k < |lists[i]| && lists[i][k] == h;
  }

  lemma SplitReady(next: map<nat, nat>, prev: map<nat, nat>, heads: seq<nat>, hdrs: Hdrs, lists: seq<seq<nat>>,
      counts: seq<int>, heap: set<nat>, h: nat, t: nat)
    returns (k: nat)
    requires AllLinked(next, prev, heads, lists) && Good(hdrs, lists, counts, heap, 0, 0) && FreeAt(hdrs, h)
    requires h < t < h + Span(hdrs[h])
    ensures |counts| == |lists| && h != 0 && forall j :: 0 <= j < |lists| ==> t !in lists[j]
    ensures var now := CutHdrs(hdrs, h, Free(t - h), Free(Span(hdrs[h]) - (t - h)));
      SplitAt(hdrs, now, lists, h, t, ListFor(Span(hdrs[h])), k)
  {
    assert Open(0);
    k := Position(next, prev, heads, hdrs, lists, counts, heap, 0, 0, h);
    NewBlock(hdrs, lists, heap, h, t);
  }

  lemma NewBlock(hdrs: Hdrs, lists: seq<seq<nat>>, heap: set<nat>, h: nat, t: nat)
    requires Layout(hdrs, heap) && OnLists(hdrs, lists, 0, 0) && h in hdrs && h < t < h + Span(hdrs[h])
    ensures t !in hdrs && forall j :: 0 <= j < |lists| ==> t !in lists[j]
  {
    assert Home(hdrs, 0, 0, t) == NoList;
  }
}

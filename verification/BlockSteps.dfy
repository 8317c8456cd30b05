/** The steps of the block allocator as changes of headers, lists and counts. */
module BlockSteps {
  import opened Locks
  import opened BlockLayout

  function RemoveAt(q: seq<nat>, k: nat): seq<nat>
    requires k < |q|
  {
    q[..k] + q[k + 1..]
  }

  function ReplaceAt(q: seq<nat>, k: nat, t: nat): seq<nat>
    requires k < |q|
  {
    q[k := t]
  }

  function Bump(counts: seq<int>, i: nat, d: int): seq<int>
    requires i < |counts|
  {
    counts[i := counts[i] + d]
  }

  // Links

  lemma RemoveAtMembers(q: seq<nat>, k: nat)
    requires k < |q| && Distinct(q)
    ensures forall h: nat :: h in RemoveAt(q, k) <==> h in q && h != q[k]
  {
    forall h: nat | h in q && h != q[k] ensures h in RemoveAt(q, k) {
      var j :| 0 <= j < |q| && q[j] == h;
      assert RemoveAt(q, k)[if j < k then j else j - 1] == h;
    }
  }

  /** The element of q that becomes element j. */
  function Origin(k: nat, j: nat): nat { if j < k then j else j + 1 }

  lemma NextRemoved(next: map<nat, nat>, next': map<nat, nat>, q: seq<nat>, k: nat, j: nat)
    requires Distinct(q) && k < |q| && j < |q| - 1 && NextAt(next, q, k) && NextAt(next, q, Origin(k, j))
    requires next' == if k == 0 then next else next[q[k - 1] := next[q[k]]]
    ensures NextAt(next', RemoveAt(q, k), j)
  {
    var r, m := RemoveAt(q, k), Origin(k, j);
    assert r[j] == q[m] && (j + 1 < |r| ==> r[j + 1] == q[Origin(k, j + 1)]);
    assert k > 0 && m != k - 1 ==> q[m] != q[k - 1];
  }

  lemma PrevRemoved(prev: map<nat, nat>, prev': map<nat, nat>, q: seq<nat>, k: nat, j: nat)
    requires Distinct(q) && k < |q| && j < |q| - 1 && PrevAt(prev, q, k) && PrevAt(prev, q, Origin(k, j))
    requires prev' == if k == |q| - 1 then prev else prev[q[k + 1] := prev[q[k]]]
    ensures PrevAt(prev', RemoveAt(q, k), j)
  {
    var r, m := RemoveAt(q, k), Origin(k, j);
    assert r[j] == q[m] && (j > 0 ==> r[j - 1] == q[Origin(k, j - 1)]);
    assert k < |q| - 1 && m != k + 1 ==> q[m] != q[k + 1];
  }

  lemma DistinctRemoved(q: seq<nat>, k: nat)
    requires Distinct(q) && k < |q|
    ensures Distinct(RemoveAt(q, k))
  {
    var r := RemoveAt(q, k);
    assert forall j :: 0 <= j < |r| ==> r[j] == q[Origin(k, j)];
  }

  lemma LinkedRemoved(next: map<nat, nat>, prev: map<nat, nat>, head: nat, q: seq<nat>, k: nat,
      next': map<nat, nat>, prev': map<nat, nat>, head': nat)
    requires Linked(next, prev, head, q) && k < |q| && NextAt(next, q, k) && PrevAt(prev, q, k)
    requires head' == if k == 0 then next[q[k]] else head
    requires next' == if k == 0 then next else next[q[k - 1] := next[q[k]]]
    requires prev' == if k == |q| - 1 then prev else prev[q[k + 1] := prev[q[k]]]
    ensures Linked(next', prev', head', RemoveAt(q, k))
  {
    var r := RemoveAt(q, k);
    DistinctRemoved(q, k);
    forall j | 0 <= j < |r| ensures NextAt(next', r, j) && PrevAt(prev', r, j) {
      assert NextAt(next, q, Origin(k, j)) && PrevAt(prev, q, Origin(k, j));
      NextRemoved(next, next', q, k, j);
      PrevRemoved(prev, prev', q, k, j);
    }
    assert k == 0 && |q| > 1 ==> r[0] == q[1];
  }

  lemma LinkedReplaced(next: map<nat, nat>, prev: map<nat, nat>, head: nat, q: seq<nat>, k: nat, t: nat,
      next': map<nat, nat>, prev': map<nat, nat>, head': nat)
    requires Linked(next, prev, head, q) && k < |q| && t !in q && t != 0 && NextAt(next, q, k) && PrevAt(prev, q, k)
    requires head' == if k == 0 then t else head
    requires var links := next[t := next[q[k]]]; next' == if k == 0 then links else links[q[k - 1] := t]
    requires var links := prev[t := prev[q[k]]]; prev' == if k == |q| - 1 then links else links[q[k + 1] := t]
    ensures Linked(next', prev', head', ReplaceAt(q, k, t))
  {
    assert forall j :: 0 <= j < |q| ==> q[j] in q;
    var r := ReplaceAt(q, k, t);
    forall j | 0 <= j < |r| ensures NextAt(next', r, j) && PrevAt(prev', r, j) {
      assert NextAt(next, q, j) && PrevAt(prev, q, j);
    }
  }

  /** Links elsewhere than on list i are the same. */
  lemma OtherLists(next: map<nat, nat>, prev: map<nat, nat>, heads: seq<nat>, lists: seq<seq<nat>>, i: nat,
      next': map<nat, nat>, prev': map<nat, nat>, heads': seq<nat>, lists': seq<seq<nat>>, h: nat)
    requires AllLinked(next, prev, heads, lists) && i < |lists| && |heads'| == |heads|
    requires |lists'| == |lists| && lists' == lists[i := lists'[i]] && heads' == heads[i := heads'[i]]
        && Linked(next', prev', heads'[i], lists'[i])
    requires forall x: nat :: x in lists'[i] ==> x in lists[i] || x == h
    requires forall j :: 0 <= j < |lists| && j != i ==> h !in lists[j]
    requires forall x: nat :: x in next && x !in lists[i] && x != h ==> x in next' && next'[x] == next[x]
    requires forall x: nat :: x in prev && x !in lists[i] && x != h ==> x in prev' && prev'[x] == prev[x]
    ensures AllLinked(next', prev', heads', lists')
  {
    assert Open(0);
    forall j | 0 <= j < |lists| && j != i ensures Linked(next', prev', heads'[j], lists'[j]) {
      assert forall x: nat :: x in lists[j] ==> x !in lists[i];
      LinkedFrame(next, prev, next', prev', heads[j], lists[j]);
    }
  }

  lemma LinkedPushed(next: map<nat, nat>, prev: map<nat, nat>, head: nat, q: seq<nat>, h: nat, next': map<nat, nat>,
      prev': map<nat, nat>)
    requires Linked(next, prev, head, q) && h !in q && h != 0
    requires next' == next[h := head]
    requires prev' == if head == 0 then prev[h := 0] else prev[h := 0][head := h]
    ensures Linked(next', prev', h, [h] + q)
  {
    var r := [h] + q;
    assert forall j :: 0 < j < |r| ==> r[j] == q[j - 1] && r[j] in q;
    forall j | 0 <= j < |r| ensures NextAt(next', r, j) && PrevAt(prev', r, j) {
      if j > 0 {
        assert NextAt(next, q, j - 1) && PrevAt(prev, q, j - 1);
      }
    }
  }

  /** The links of list i after block k has been taken out. */
  lemma Unlinked(next: map<nat, nat>, prev: map<nat, nat>, heads: seq<nat>, lists: seq<seq<nat>>, i: nat, k: nat,
      next': map<nat, nat>, prev': map<nat, nat>, heads': seq<nat>)
    requires AllLinked(next, prev, heads, lists) && i < |lists| && k < |lists[i]| && lists[i][k] in next
    requires lists[i][k] in prev
    requires var h := lists[i][k];
      && heads' == (if prev[h] == 0 then heads[i := next[h]] else heads)
      && next' == (if prev[h] == 0 then next else next[prev[h] := next[h]])
      && prev' == (if next[h] == 0 then prev else prev[next[h] := prev[h]])
    ensures AllLinked(next', prev', heads', lists[i := RemoveAt(lists[i], k)])
  {
    assert Open(0);
    var q := lists[i];
    assert NextAt(next, q, k) && PrevAt(prev, q, k);
    LinkedRemoved(next, prev, heads[i], q, k, next', prev', heads'[i]);
    RemoveAtMembers(q, k);
    OtherLists(next, prev, heads, lists, i, next', prev', heads', lists[i := RemoveAt(q, k)], q[k]);
  }

  lemma Pushed(next: map<nat, nat>, prev: map<nat, nat>, heads: seq<nat>, lists: seq<seq<nat>>, i: nat, h: nat,
      next': map<nat, nat>, prev': map<nat, nat>)
    requires AllLinked(next, prev, heads, lists) && i < |lists| && h != 0
    requires forall j :: 0 <= j < |lists| ==> h !in lists[j]
    requires next' == next[h := heads[i]]
    requires prev' == if heads[i] == 0 then prev[h := 0] else prev[h := 0][heads[i] := h]
    ensures AllLinked(next', prev', heads[i := h], lists[i := [h] + lists[i]])
  {
    assert Open(0);
    LinkedPushed(next, prev, heads[i], lists[i], h, next', prev');
    OtherLists(next, prev, heads, lists, i, next', prev', heads[i := h], lists[i := [h] + lists[i]], h);
  }

  lemma Replaced(next: map<nat, nat>, prev: map<nat, nat>, heads: seq<nat>, lists: seq<seq<nat>>, i: nat, k: nat,
      t: nat, next': map<nat, nat>, prev': map<nat, nat>, heads': seq<nat>)
    requires AllLinked(next, prev, heads, lists) && i < |lists| && k < |lists[i]| && lists[i][k] in next
    requires lists[i][k] in prev
    requires t != 0 && forall j :: 0 <= j < |lists| ==> t !in lists[j]
    requires var h := lists[i][k];
      && heads' == (if prev[h] == 0 then heads[i := t] else heads)
      && next' == (if prev[h] == 0 then next[t := next[h]] else next[t := next[h]][prev[h] := t])
      && prev' == (if next[h] == 0 then prev[t := prev[h]] else prev[t := prev[h]][next[h] := t])
    ensures AllLinked(next', prev', heads', lists[i := ReplaceAt(lists[i], k, t)])
    ensures lists[i][k] !in ReplaceAt(lists[i], k, t)
    ensures forall j :: 0 <= j < |lists| && j != i ==> lists[i][k] !in lists[j]
  {
    assert Open(0);
    var q := lists[i];
    assert NextAt(next, q, k) && PrevAt(prev, q, k);
    LinkedReplaced(next, prev, heads[i], q, k, t, next', prev', heads'[i]);
    OtherLists(next, prev, heads, lists, i, next', prev', heads', lists[i := ReplaceAt(q, k, t)], t);
    assert q[k] in q;
  }

  // Lists and counts

  lemma ListsKept(hdrs: Hdrs, hdrs': Hdrs, lists: seq<seq<nat>>, odd: nat, n: nat, odd': nat, n': nat)
    requires OnLists(hdrs, lists, odd, n) && forall h: nat :: Home(hdrs, odd, n, h) == Home(hdrs', odd', n', h)
    ensures OnLists(hdrs', lists, odd', n')
  {
  }

  lemma CountsChanged(hdrs: Hdrs, lists: seq<seq<nat>>, counts: seq<int>, i: nat, q: seq<nat>, d: int)
    requires Counted(hdrs, lists, counts) && i < |lists| && ListSum(hdrs, q) == ListSum(hdrs, lists[i]) + d
    ensures Counted(hdrs, lists[i := q], Bump(counts, i, d)) && Total(Bump(counts, i, d)) == Total(counts) + d
  {
    TotalPut(counts, i, counts[i] + d);
  }

  /** Headers of listed blocks keep their length. */
  lemma CountsKept(hdrs: Hdrs, hdrs': Hdrs, lists: seq<seq<nat>>, counts: seq<int>)
    requires Counted(hdrs, lists, counts)
    requires forall i, h: nat :: 0 <= i < |lists| && h in lists[i] ==>
      h in hdrs && h in hdrs' && Span(hdrs[h]) == Span(hdrs'[h])
    ensures Counted(hdrs', lists, counts)
  {
    forall i | 0 <= i < |lists| ensures ListSum(hdrs, lists[i]) == ListSum(hdrs', lists[i]) {
      ListSumFrame(hdrs, hdrs', lists[i]);
    }
  }

  lemma RemovedSum(hdrs: Hdrs, q: seq<nat>, k: nat)
    requires k < |q| && q[k] in hdrs
    ensures ListSum(hdrs, RemoveAt(q, k)) == ListSum(hdrs, q) - Span(hdrs[q[k]])
  {
    ListSumExchange(hdrs, q, k, []);
    assert q[..k] + [] + q[k + 1..] == RemoveAt(q, k);
  }

  /** Take block k off list i. */
  lemma Detach(hdrs: Hdrs, lists: seq<seq<nat>>, counts: seq<int>, heap: set<nat>, h: nat, i: nat, k: nat)
    requires Good(hdrs, lists, counts, heap, h, i) && i < |lists| && k < |lists[i]| && lists[i][k] == h
    requires Distinct(lists[i]) && FreeAt(hdrs, h)
    ensures Good(hdrs, lists[i := RemoveAt(lists[i], k)], Bump(counts, i, 0 - Span(hdrs[h])), heap, h, NoList)
  {
    assert Open(0);
    assert forall x: nat :: x != h ==> Home(hdrs, h, i, x) == Home(hdrs, h, NoList, x);
    RemoveAtMembers(lists[i], k);
    RemovedSum(hdrs, lists[i], k);
    CountsChanged(hdrs, lists, counts, i, RemoveAt(lists[i], k), 0 - Span(hdrs[h]));
  }

  lemma Attach(hdrs: Hdrs, lists: seq<seq<nat>>, counts: seq<int>, heap: set<nat>, h: nat, i: nat)
    requires Good(hdrs, lists, counts, heap, h, NoList) && FreeAt(hdrs, h) && i == ListFor(Span(hdrs[h]))
    ensures Good(hdrs, lists[i := [h] + lists[i]], Bump(counts, i, Span(hdrs[h])), heap, 0, 0)
  {
    assert Open(0);
    assert ([h] + lists[i])[1..] == lists[i];
    assert forall x: nat :: x != h ==> Home(hdrs, h, NoList, x) == Home(hdrs, 0, 0, x);
    CountsChanged(hdrs, lists, counts, i, [h] + lists[i], Span(hdrs[h]));
  }

  /** No block has to be odd. */
  lemma NoOdd(hdrs: Hdrs, lists: seq<seq<nat>>, counts: seq<int>, heap: set<nat>, h: nat)
    requires Good(hdrs, lists, counts, heap, 0, 0) && FreeAt(hdrs, h)
    ensures Good(hdrs, lists, counts, heap, h, ListFor(Span(hdrs[h]))) && h in lists[ListFor(Span(hdrs[h]))]
  {
    assert Open(0);
    ListsKept(hdrs, hdrs, lists, 0, 0, h, ListFor(Span(hdrs[h])));
    assert Home(hdrs, 0, 0, h) <= LastList;
  }

  /** A used block becomes free, and is on no list yet. */
  lemma FreeUp(hdrs: Hdrs, lists: seq<seq<nat>>, counts: seq<int>, heap: set<nat>, h: nat)
    requires Good(hdrs, lists, counts, heap, 0, 0) && h in hdrs && hdrs[h].Used?
    ensures Good(hdrs[h := Free(Span(hdrs[h]))], lists, counts, heap, h, NoList)
  {
    assert Open(0);
    var now: Hdrs := hdrs[h := Free(Span(hdrs[h]))];
    Relabel(hdrs, heap, h, now[h]);
    UsedSumPut(hdrs, h, now[h]);
    ListsKept(hdrs, now, lists, 0, 0, h, NoList);
    CountsKept(hdrs, now, lists, counts);
  }

  /** Adjacent free blocks a and b, one of them on no list and the other, x, about to leave
      its list, are made one. */
  lemma Merge(hdrs: Hdrs, lists: seq<seq<nat>>, counts: seq<int>, heap: set<nat>, a: nat, b: nat, odd: nat, x: nat,
      i: nat, k: nat)
    requires Good(hdrs, lists, counts, heap, odd, NoList) && FreeAt(hdrs, a) && FreeAt(hdrs, b)
    requires b == a + Span(hdrs[a]) && Span(hdrs[a]) + Span(hdrs[b]) < MaxBlocks
    requires (odd == a && x == b) || (odd == b && x == a)
    requires i == ListFor(Span(hdrs[x])) && k < |lists[i]| && lists[i][k] == x && Distinct(lists[i])
    ensures var lists', counts' := lists[i := RemoveAt(lists[i], k)], Bump(counts, i, 0 - Span(hdrs[x]));
      Good(JoinHdrs(hdrs, a, b), lists', counts', heap, a, NoList)
  {
    assert Open(0);
    var now: Hdrs := JoinHdrs(hdrs, a, b);
    Join(hdrs, heap, a, b);
    MergeLists(hdrs, now, lists, counts, a, b, odd, x, i, k);
    MergeBalance(hdrs, now, counts, heap, a, b, odd, x, i);
  }

  lemma MergeBalance(hdrs: Hdrs, now: Hdrs, counts: seq<int>, heap: set<nat>, a: nat, b: nat, odd: nat, x: nat, i: nat)
    requires Balanced(hdrs, counts, heap, odd, NoList) && i < |counts|
    requires FreeAt(hdrs, a) && FreeAt(hdrs, b) && a != b && now == JoinHdrs(hdrs, a, b)
    requires (odd == a && x == b) || (odd == b && x == a)
    ensures Balanced(now, Bump(counts, i, 0 - Span(hdrs[x])), heap, a, NoList)
  {
    MergeSums(hdrs, now, a, b);
    TotalPut(counts, i, counts[i] - Span(hdrs[x]));
  }

  lemma MergeSums(hdrs: Hdrs, now: Hdrs, a: nat, b: nat)
    requires FreeAt(hdrs, a) && FreeAt(hdrs, b) && a != b && now == JoinHdrs(hdrs, a, b)
    ensures UsedSum(now) == UsedSum(hdrs) && Span(now[a]) == Span(hdrs[a]) + Span(hdrs[b])
  {
    UsedSumAt(hdrs, b);
    UsedSumPut(hdrs - {b}, a, now[a]);
  }

  lemma MergeLists(hdrs: Hdrs, now: Hdrs, lists: seq<seq<nat>>, counts: seq<int>, a: nat, b: nat, odd: nat, x: nat,
      i: nat, k: nat)
    requires OnLists(hdrs, lists, odd, NoList) && Counted(hdrs, lists, counts)
    requires FreeAt(hdrs, a) && FreeAt(hdrs, b) && a != b && now == JoinHdrs(hdrs, a, b)
    requires (odd == a && x == b) || (odd == b && x == a)
    requires i == ListFor(Span(hdrs[x])) && k < |lists[i]| && lists[i][k] == x && Distinct(lists[i])
    ensures OnLists(now, lists[i := RemoveAt(lists[i], k)], a, NoList)
    ensures Counted(now, lists[i := RemoveAt(lists[i], k)], Bump(counts, i, 0 - Span(hdrs[x])))
  {
    var lists', counts' := lists[i := RemoveAt(lists[i], k)], Bump(counts, i, 0 - Span(hdrs[x]));
    RemoveAtMembers(lists[i], k);
    RemovedSum(hdrs, lists[i], k);
    CountsChanged(hdrs, lists, counts, i, RemoveAt(lists[i], k), 0 - Span(hdrs[x]));
    assert forall h: nat :: Home(now, a, NoList, h) == if h == a || h == b then NoList else Home(hdrs, odd, NoList, h);
    CountsKept(hdrs, now, lists', counts');
  }

  /** A free block on no list is put to use, in whole ... */
  lemma UseWhole(hdrs: Hdrs, lists: seq<seq<nat>>, counts: seq<int>, heap: set<nat>, h: nat, v: Hdr)
    requires Good(hdrs, lists, counts, heap, h, NoList) && FreeAt(hdrs, h) && v.Used? && Span(v) == Span(hdrs[h])
    ensures Good(hdrs[h := v], lists, counts, heap, 0, 0)
  {
    assert Open(0);
    Relabel(hdrs, heap, h, v);
    UsedSumPut(hdrs, h, v);
    ListsKept(hdrs, hdrs[h := v], lists, h, NoList, 0, 0);
    CountsKept(hdrs, hdrs[h := v], lists, counts);
  }

  /** ... or in part, which leaves a free block t on no list. */
  lemma UsePart(hdrs: Hdrs, now: Hdrs, lists: seq<seq<nat>>, counts: seq<int>, heap: set<nat>, h: nat, t: nat,
      v: Hdr, rest: nat)
    requires Good(hdrs, lists, counts, heap, h, NoList) && FreeAt(hdrs, h)
    requires v.Used? && 0 < v.blocks && 0 < rest && v.blocks + rest == hdrs[h].blocks
    requires t == h + v.blocks && now == CutHdrs(hdrs, h, v, Free(rest))
    ensures Good(now, lists, counts, heap, t, NoList)
  {
    assert Open(0);
    Cut(hdrs, heap, h, v, Free(rest));
    UsePartLists(hdrs, now, lists, counts, h, t, v, rest);
    UsePartBalance(hdrs, now, counts, heap, h, t, v, rest);
  }

  lemma UsePartBalance(hdrs: Hdrs, now: Hdrs, counts: seq<int>, heap: set<nat>, h: nat, t: nat, v: Hdr, rest: nat)
    requires Balanced(hdrs, counts, heap, h, NoList) && FreeAt(hdrs, h) && v.Used? && 0 < v.blocks
    requires v.blocks + rest == Span(hdrs[h])
    requires t == h + v.blocks && t !in hdrs && now == CutHdrs(hdrs, h, v, Free(rest))
    ensures Balanced(now, counts, heap, t, NoList)
  {
    CutSum(hdrs, h, v, Free(rest));
  }

  lemma CutSum(hdrs: Hdrs, h: nat, left: Hdr, right: Hdr)
    requires FreeAt(hdrs, h) && right.Free? && 0 < Span(left) && h + Span(left) !in hdrs
    ensures UsedSum(CutHdrs(hdrs, h, left, right)) == UsedSum(hdrs) + UsedSpan(left)
  {
    var mid, t := hdrs[h := left], h + Span(left);
    UsedSumPut(hdrs, h, left);
    UsedSumPut(mid, t, right);
    assert t !in mid && UsedSpan(right) == 0 && UsedSpan(hdrs[h]) == 0;
  }

  lemma UsePartLists(hdrs: Hdrs, now: Hdrs, lists: seq<seq<nat>>, counts: seq<int>, h: nat, t: nat, v: Hdr, rest: nat)
    requires OnLists(hdrs, lists, h, NoList) && Counted(hdrs, lists, counts)
    requires FreeAt(hdrs, h) && v.Used? && 0 < v.blocks && t == h + v.blocks && t !in hdrs
    requires now == CutHdrs(hdrs, h, v, Free(rest))
    ensures OnLists(now, lists, t, NoList) && Counted(now, lists, counts)
  {
    ListsKept(hdrs, now, lists, h, NoList, t, NoList);
    CountsKept(hdrs, now, lists, counts);
  }

  function PushOn(lists: seq<seq<nat>>, j: nat, h: nat): seq<seq<nat>>
    requires j < |lists|
  {
    lists[j := [h] + lists[j]]
  }

  /** Free block h, block k of its list, is split at t; t takes its place on the list,
      whatever its size, and h goes to the list for its new size. */
  ghost predicate SplitAt(hdrs: Hdrs, now: Hdrs, lists: seq<seq<nat>>, h: nat, t: nat, i: nat, k: nat) {
    && FreeAt(hdrs, h) && h < t < h + Span(hdrs[h]) && 0 !in hdrs && t !in hdrs
    && now == CutHdrs(hdrs, h, Free(t - h), Free(Span(hdrs[h]) - (t - h)))
    && i == ListFor(Span(hdrs[h])) && i < |lists| == LastList + 1 && k < |lists[i]| && lists[i][k] == h
      && Distinct(lists[i])
  }

  lemma Split(hdrs: Hdrs, now: Hdrs, lists: seq<seq<nat>>, lists': seq<seq<nat>>, counts: seq<int>,
      counts': seq<int>, heap: set<nat>, h: nat, t: nat, i: nat, k: nat)
    requires Good(hdrs, lists, counts, heap, 0, 0) && SplitAt(hdrs, now, lists, h, t, i, k)
    requires lists' == PushOn(lists[i := ReplaceAt(lists[i], k, t)], ListFor(t - h), h)
    requires counts' == Bump(Bump(counts, i, 0 - (t - h)), ListFor(t - h), t - h)
    ensures Good(now, lists', counts', heap, t, i) && Total(counts') == Total(counts)
  {
    assert Open(0);
    Cut(hdrs, heap, h, Free(t - h), Free(Span(hdrs[h]) - (t - h)));
    CutSum(hdrs, h, Free(t - h), Free(Span(hdrs[h]) - (t - h)));
    SplitLists(hdrs, now, lists, lists', h, t, i, k);
    SplitCounts(hdrs, now, lists, lists', counts, counts', h, t, i, k);
  }

  lemma SplitLists(hdrs: Hdrs, now: Hdrs, lists: seq<seq<nat>>, lists': seq<seq<nat>>, h: nat, t: nat, i: nat, k: nat)
    requires OnLists(hdrs, lists, 0, 0) && SplitAt(hdrs, now, lists, h, t, i, k)
    requires lists' == PushOn(lists[i := ReplaceAt(lists[i], k, t)], ListFor(t - h), h)
    ensures OnLists(now, lists', t, i)
  {
    var l1 := lists[i := ReplaceAt(lists[i], k, t)];
    ReplaceAtMembers(lists[i], k, t);
    assert h != 0 && Home(hdrs, 0, 0, h) == i;
    assert forall x: nat :: x != h && x != t ==> Home(now, t, i, x) == Home(hdrs, 0, 0, x);
    assert Home(now, t, i, h) == ListFor(t - h) && Home(now, t, i, t) == i && Home(hdrs, 0, 0, t) == NoList;
    assert forall m: nat, x: nat {:trigger x in l1[m]} :: m < |l1| && x in l1[m] ==> x != h && Home(now, t, i, x) == m;
  }

  lemma ReplaceAtMembers(q: seq<nat>, k: nat, t: nat)
    requires k < |q| && Distinct(q)
    ensures forall h: nat :: h in ReplaceAt(q, k, t) <==> (h in q && h != q[k]) || h == t
  {
    var r := ReplaceAt(q, k, t);
    assert r[k] == t;
    forall h: nat | h in q && h != q[k] ensures h in r {
      var j :| 0 <= j < |q| && q[j] == h;
      assert r[j] == h;
    }
  }

  lemma SplitCounts(hdrs: Hdrs, now: Hdrs, lists: seq<seq<nat>>, lists': seq<seq<nat>>, counts: seq<int>,
      counts': seq<int>, h: nat, t: nat, i: nat, k: nat)
    requires OnLists(hdrs, lists, 0, 0) && Counted(hdrs, lists, counts) && SplitAt(hdrs, now, lists, h, t, i, k)
    requires lists' == PushOn(lists[i := ReplaceAt(lists[i], k, t)], ListFor(t - h), h)
    requires counts' == Bump(Bump(counts, i, 0 - (t - h)), ListFor(t - h), t - h)
    ensures Counted(now, lists', counts') && Total(counts') == Total(counts)
  {
    var a, j, b := t - h, ListFor(t - h), Span(hdrs[h]) - (t - h);
    var both := hdrs[t := Free(b)];
    var l1, c1 := lists[i := ReplaceAt(lists[i], k, t)], Bump(counts, i, 0 - a);
    assert forall x: nat :: x != h && x in both ==> x in now && now[x] == both[x];
    ReplaceCounts(hdrs, both, lists, l1, counts, h, t, i, k, b);
    CountsKept(both, now, l1, c1);
    assert ([h] + l1[j])[1..] == l1[j];
    CountsChanged(now, l1, c1, j, [h] + l1[j], a);
  }

  lemma ReplaceCounts(hdrs: Hdrs, both: Hdrs, lists: seq<seq<nat>>, l1: seq<seq<nat>>, counts: seq<int>, h: nat,
      t: nat, i: nat, k: nat, b: nat)
    requires OnLists(hdrs, lists, 0, 0) && Counted(hdrs, lists, counts) && FreeAt(hdrs, h) && b <= Span(hdrs[h])
    requires t !in hdrs && both == hdrs[t := Free(b)]
    requires i == ListFor(Span(hdrs[h])) && k < |lists[i]| && lists[i][k] == h && Distinct(lists[i])
    requires l1 == lists[i := ReplaceAt(lists[i], k, t)]
    ensures var c1 := Bump(counts, i, b - Span(hdrs[h]));
      Counted(both, l1, c1) && Total(c1) == Total(counts) + b - Span(hdrs[h])
    ensures forall m, x: nat {:trigger x in l1[m]} :: 0 <= m < |l1| && x in l1[m] ==> x != h && x in both
  {
    var q := lists[i];
    assert h != 0 && Home(hdrs, 0, 0, h) == i;
    ReplaceAtMembers(q, k, t);
    CountsKept(hdrs, both, lists, counts);
    ListSumExchange(both, q, k, [t]);
    assert q[..k] + [t] + q[k + 1..] == ReplaceAt(q, k, t);
    assert ListSum(both, [t]) == b;
    CountsChanged(both, lists, counts, i, ReplaceAt(q, k, t), b - Span(hdrs[h]));
  }
}

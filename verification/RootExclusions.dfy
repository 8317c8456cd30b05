/** Ranges of addresses that are left out when root sets are pushed. */
module RootExclusions {

  /** The addresses start, ..., end - 1. */
  datatype Range = Range(start: nat, end: nat) {
    predicate Has(a: nat) { start <= a < end }
  }

  ghost predicate InSome(ranges: seq<Range>, a: nat) {
    exists i :: 0 <= i < |ranges| && ranges[i].Has(a)
  }

  /** In ascending order, and none overlaps another. */
  ghost predicate Disjoint(ranges: seq<Range>) {
    && (forall i :: 0 <= i < |ranges| ==> ranges[i].start <= ranges[i].end)
    && (forall i, j :: 0 <= i < j < |ranges| ==> ranges[i].end <= ranges[j].start)
  }

  /** i is the first range that ends after a. */
  ghost predicate FirstAfter(ranges: seq<Range>, a: nat, i: nat) {
    && i <= |ranges| && (forall k :: 0 <= k < i ==> ranges[k].end <= a)
    && (i < |ranges| ==> ranges[i].end > a)
  }

  function Inserted(ranges: seq<Range>, i: nat, r: Range): seq<Range>
    requires i <= |ranges|
  {
    ranges[..i] + [r] + ranges[i..]
  }

  lemma InsertedDisjoint(ranges: seq<Range>, i: nat, r: Range)
    requires Disjoint(ranges) && FirstAfter(ranges, r.start, i) && r.start <= r.end
    requires i < |ranges| ==> r.end <= ranges[i].start
    ensures Disjoint(Inserted(ranges, i, r))
    ensures forall a: nat :: InSome(Inserted(ranges, i, r), a) <==> InSome(ranges, a) || r.Has(a)
  {
    var now := Inserted(ranges, i, r);
    InsertedAt(ranges, i, r);
    forall a: nat ensures InSome(now, a) <==> InSome(ranges, a) || r.Has(a) {
      InsertedHas(ranges, i, r, a);
    }
  }

  lemma InsertedAt(ranges: seq<Range>, i: nat, r: Range)
    requires i <= |ranges|
    ensures var now := Inserted(ranges, i, r);
      && |now| == |ranges| + 1 && now[i] == r
      && forall k :: 0 <= k < |now| && k != i ==> now[k] == ranges[if k < i then k else k - 1]
  {
  }

  lemma InsertedHas(ranges: seq<Range>, i: nat, r: Range, a: nat)
    requires i <= |ranges|
    ensures InSome(Inserted(ranges, i, r), a) <==> InSome(ranges, a) || r.Has(a)
  {
    var now := Inserted(ranges, i, r);
    InsertedAt(ranges, i, r);
    if InSome(ranges, a) {
      var k :| 0 <= k < |ranges| && ranges[k].Has(a);
      assert now[if k < i then k else k + 1].Has(a);
    }
    assert r.Has(a) ==> now[i].Has(a);
  }

  lemma ExtendedDisjoint(ranges: seq<Range>, i: nat, start: nat)
    requires Disjoint(ranges) && FirstAfter(ranges, start, i) && i < |ranges| && start <= ranges[i].start
    ensures var now := ranges[i := Range(start, ranges[i].end)];
      Disjoint(now) && forall a: nat :: InSome(now, a) <==> InSome(ranges, a) || start <= a < ranges[i].start
  {
    var now := ranges[i := Range(start, ranges[i].end)];
    forall a: nat ensures InSome(now, a) <==> InSome(ranges, a) || start <= a < ranges[i].start {
      if InSome(ranges, a) {
        var k :| 0 <= k < |ranges| && ranges[k].Has(a);
        assert now[k].Has(a);
      }
      assert start <= a < ranges[i].start ==> now[i].Has(a);
      if InSome(now, a) {
        var k :| 0 <= k < |now| && now[k].Has(a);
        assert k != i ==> ranges[k].Has(a);
        assert k == i && ranges[i].start <= a ==> ranges[i].Has(a);
      }
    }
  }

  class ExclusionTable {
    const table: array<Range>
    var entries: nat

    ghost predicate Valid()
      reads this, table
    {
      entries <= table.Length && Disjoint(table[..entries])
    }

    constructor (most: nat)
      ensures Valid() && entries == 0 && fresh(table) && table.Length == most
    {
      table := new Range[most](i => Range(0, 0));
      entries := 0;
    }

    /** GC_next_exclusion, a binary search; `entries` stands for the null pointer. */
    method NextExclusion(a: nat) returns (i: nat)
      requires Valid() && entries > 0
      ensures FirstAfter(table[..entries], a, i)
    {
      var low, high := 0, entries - 1;
      ghost var t := table[..entries];
      while high > low
        invariant 0 <= low <= high < entries && t == table[..entries]
        invariant forall k :: 0 <= k < low ==> t[k].end <= a
        invariant forall k :: high < k < entries ==> t[k].end > a
        invariant high < entries - 1 ==> t[high].end > a
      {
        var mid := (low + high) / 2;
        assert table[mid] == t[mid];
        if table[mid].end <= a {
          assert forall k :: 0 <= k < mid ==> t[k].end <= t[mid].start <= t[mid].end;
          low := mid + 1;
        } else {
          assert forall k :: mid < k < entries ==> t[mid].end <= t[k].start <= t[k].end;
          high := mid;
        }
      }
      assert table[low] == t[low];
      return if table[low].end <= a then entries else low;
    }

    /** GC_exclude_static_roots.  It aborts exactly if the range overlaps an excluded one,
        or if a new entry is needed and the table is full.  Otherwise the addresses of the
        range are excluded in addition.  Entries are moved up before the test for room, so
        with a full table the last one is written past the end; `overran` says so. */
    method Exclude(start: nat, finish: nat) returns (aborted: bool, overran: bool)
      requires Valid() && start <= finish
      modifies this`entries, table
      ensures !overran ==> Valid()
      ensures var before := old(table[..entries]);
        && (aborted <==>
          Clash(before, start, finish) || (!Touches(before, start, finish) && old(entries) == table.Length))
        && (overran <==> Overruns(before, table.Length, start, finish))
        && (aborted && !overran ==> table[..entries] == before)
        && (!aborted ==> forall a: nat :: InSome(table[..entries], a) <==> InSome(before, a) || start <= a < finish)
    {
      ghost var was := table[..entries];
      overran := false;
      var next := 0;
      if entries != 0 {
        next := NextExclusion(start);
      }
      FirstDecides(was, start, finish, next);
      if next < entries {
        if table[next].start < finish {
          return true, false;
        }
        if table[next].start == finish {
          ExtendedDisjoint(was, next, start);
          table[next] := Range(start, table[next].end);
          assert table[..entries] == was[next := Range(start, was[next].end)];
          return false, false;
        }
        overran := Shift(next);
      }
      if entries == table.Length {
        return true, overran;
      }
      InsertedDisjoint(was, next, Range(start, finish));
      Enter(next, Range(start, finish), was);
      return false, false;
    }

    /** Write the new entry to its place, from which the others have been moved up. */
    method Enter(next: nat, r: Range, ghost was: seq<Range>)
      requires next <= entries == |was| < table.Length
      requires forall k :: 0 <= k < next ==> table[k] == was[k]
      requires forall k :: next < k <= entries ==> table[k] == was[k - 1]
      modifies this`entries, table
      ensures entries == old(entries) + 1 && table[..entries] == Inserted(was, next, r)
    {
      table[next] := r;
      entries := entries + 1;
    }

    /** Move the entries from next on up by one; whether the last one did not fit. */
    method Shift(next: nat) returns (overran: bool)
      requires next < entries <= table.Length
      modifies table
      ensures overran <==> entries == table.Length
      ensures forall k :: 0 <= k < table.Length ==>
        table[k] == if next < k <= entries then old(table[k - 1]) else old(table[k])
    {
      overran := false;
      var i := entries;
      while i > next
        invariant next <= i <= entries && (overran <==> entries == table.Length && i < entries)
        invariant forall k :: 0 <= k < table.Length ==>
          table[k] == if i < k <= entries then old(table[k - 1]) else old(table[k])
      {
        if i < table.Length {
          table[i] := table[i - 1];
        } else {
          overran := true;
        }
        i := i - 1;
      }
    }

    /** GC_push_conditional_with_exclusions: the ranges pushed are in order and disjoint, and
        make up what is between bottom and top and not excluded. */
    method PushWithExclusions(bottom: nat, top: nat) returns (pushed: seq<Range>)
      requires Valid() && entries > 0
      ensures Disjoint(pushed)
      ensures forall a: nat :: InSome(pushed, a) <==> bottom <= a < top && !InSome(table[..entries], a)
    {
      pushed := [];
      var at := bottom;
      ghost var t := table[..entries];
      while at < top
        invariant t == table[..entries] && Disjoint(pushed) && bottom <= at
        invariant forall i :: 0 <= i < |pushed| ==> pushed[i].end <= at
        invariant forall a: nat :: InSome(pushed, a) <==> bottom <= a < at && a < top && !InSome(t, a)
        decreases top - at
      {
        var next := NextExclusion(at);
        if next == entries || table[next].start >= top {
          PushedMore(t, next, pushed, bottom, at, top, top, top);
          return pushed + [Range(at, top)];
        }
        var stop, end := table[next].start, table[next].end;
        assert t[next] == Range(stop, end);
        PushedMore(t, next, pushed, bottom, at, stop, end, top);
        if stop > at {
          pushed := pushed + [Range(at, stop)];
        }
        at := end;
      }
    }
  }

  /** The new range overlaps an excluded one, or lies within its bounds. */
  ghost predicate Clash(ranges: seq<Range>, start: nat, finish: nat) {
    exists i :: 0 <= i < |ranges| && ranges[i].end > start && ranges[i].start < finish
  }

  /** An excluded range starts where the new one ends. */
  ghost predicate Touches(ranges: seq<Range>, start: nat, finish: nat) {
    exists i :: 0 <= i < |ranges| && ranges[i].end > start && ranges[i].start == finish
  }

  /** The table is full, the range neither overlaps an excluded one nor ends where one starts,
      and some excluded range lies after it. */
  ghost predicate Overruns(ranges: seq<Range>, most: nat, start: nat, finish: nat) {
    && |ranges| == most && !Clash(ranges, start, finish) && !Touches(ranges, start, finish)
    && exists i :: 0 <= i < |ranges| && ranges[i].end > start
  }

  /** Ranges of ten addresses, with ten addresses before each. */
  function Spread(n: nat): seq<Range> { seq(n, i requires 0 <= i < n => Range(20 * i + 10, 20 * i + 20)) }

  /** For a table of any size: full of such ranges, a range before the first overruns it,
      and neither one that touches the first nor one after the last does. */
  lemma OverrunExample(most: nat)
    requires most > 0
    ensures Disjoint(Spread(most)) && Overruns(Spread(most), most, 0, 5)
    ensures !Overruns(Spread(most), most, 0, 10) && !Overruns(Spread(most), most, 20 * most, 20 * most + 5)
  {
    var ranges := Spread(most);
    assert ranges[0].end > 0;
    assert Touches(ranges, 0, 10);
  }

  lemma FirstDecides(ranges: seq<Range>, start: nat, finish: nat, i: nat)
    requires Disjoint(ranges) && FirstAfter(ranges, start, i)
    ensures Clash(ranges, start, finish) <==> i < |ranges| && ranges[i].start < finish
    ensures i < |ranges| && ranges[i].start >= finish ==>
      (Touches(ranges, start, finish) <==> ranges[i].start == finish)
    ensures i == |ranges| ==> !Touches(ranges, start, finish)
    ensures i < |ranges| <==> exists k :: 0 <= k < |ranges| && ranges[k].end > start
  {
  }

  lemma PushedMore(t: seq<Range>, next: nat, pushed: seq<Range>, bottom: nat, at: nat, stop: nat, end: nat, top: nat)
    requires Disjoint(t) && FirstAfter(t, at, next) && Disjoint(pushed) && bottom <= at < top
    requires forall i :: 0 <= i < |pushed| ==> pushed[i].end <= at
    requires forall a: nat :: InSome(pushed, a) <==> bottom <= a < at && a < top && !InSome(t, a)
    requires if next == |t| || t[next].start >= top then stop == end == top
      else stop == t[next].start && end == t[next].end
    ensures var now := if stop > at then pushed + [Range(at, stop)] else pushed;
      && Disjoint(now) && at < end && (forall i :: 0 <= i < |now| ==> now[i].end <= end)
      && forall a: nat :: InSome(now, a) <==> bottom <= a < end && a < top && !InSome(t, a)
  {
    var now := if stop > at then pushed + [Range(at, stop)] else pushed;
    forall a: nat ensures InSome(now, a) <==> bottom <= a < end && a < top && !InSome(t, a) {
      if InSome(pushed, a) {
        var k :| 0 <= k < |pushed| && pushed[k].Has(a);
        assert now[k].Has(a);
      }
      assert at <= a < stop ==> now[|pushed|].Has(a);
      if InSome(now, a) {
        var k :| 0 <= k < |now| && now[k].Has(a);
        assert k < |pushed| ==> pushed[k].Has(a);
      }
    }
  }
}

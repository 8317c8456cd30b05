/** Black lists: blocks that something looks like pointing into, kept in hashed bit tables.

    Heap blocks are numbered by their address divided by the block size.  Block number 0
    stands for the null pointer. */
module BlackList {
  import opened BlockLayout

  const TableEntries: nat := 0x40000
  const WordBits: nat := 64

  /** Two tables for pointers found outside the stacks, two for those found on a stack;
      each pair holds the finished and the growing list.  If interior pointers count
      everywhere, the first two are not used. */
  datatype Tables = Tables(allInterior: bool, oldNormal: seq<bv64>, newNormal: seq<bv64>,
    oldStack: seq<bv64>, newStack: seq<bv64>) {
    ghost predicate WellFormed() {
      && |oldStack| == |newStack| == TableEntries / WordBits
      && (!allInterior ==> |oldNormal| == |newNormal| == TableEntries / WordBits)
    }
  }

  function Hash(h: nat): (i: nat) { h % TableEntries }

  predicate Bit(table: seq<bv64>, i: nat)
    requires |table| == TableEntries / WordBits && i < TableEntries
  {
    (table[i / WordBits] >> (i % WordBits)) & 1 == 1
  }

  predicate StackListed(t: Tables, h: nat)
    requires t.WellFormed()
  {
    Bit(t.oldStack, Hash(h)) || Bit(t.newStack, Hash(h))
  }

  predicate NormalListed(t: Tables, h: nat)
    requires t.WellFormed()
  {
    !t.allInterior && (Bit(t.oldNormal, Hash(h)) || Bit(t.newNormal, Hash(h)))
  }

  /** Some of the blocks h, ..., h + n - 1 is listed, or the first one for any pointer. */
  predicate Listed(t: Tables, h: nat, n: nat)
    requires t.WellFormed()
  {
    NormalListed(t, h) || exists b :: h <= b < h + n && StackListed(t, b)
  }

  /** The block after the first one listed for stack pointers, or 0; bit by bit. */
  function AfterFirst(t: Tables, h: nat, n: nat): nat
    requires t.WellFormed()
    decreases n
  {
    if n == 0 then 0 else if StackListed(t, h) then h + 1 else AfterFirst(t, h + 1, n - 1)
  }

  /** The next start worth trying for n blocks if h is not usable, otherwise 0. */
  function NextStart(t: Tables, h: nat, n: nat): nat
    requires t.WellFormed()
  {
    if NormalListed(t, h) then h + 1 else AfterFirst(t, h, n)
  }

  lemma {:induction false} AfterFirstMeaning(t: Tables, h: nat, n: nat)
    requires t.WellFormed()
    ensures var r := AfterFirst(t, h, n);
      if r == 0 then forall b :: h <= b < h + n ==> !StackListed(t, b)
      else h < r <= h + n && StackListed(t, r - 1)
    decreases n
  {
    if n > 0 && !StackListed(t, h) {
      AfterFirstMeaning(t, h + 1, n - 1);
    }
  }

  /** NextStart is 0 exactly for usable starts, and otherwise skips only unusable ones. */
  lemma NextStartMeaning(t: Tables, h: nat, n: nat)
    requires t.WellFormed()
    ensures var r := NextStart(t, h, n);
      && (r == 0 <==> !Listed(t, h, n))
      && (r != 0 ==> h < r <= h + (if n == 0 then 1 else n) && forall s :: h <= s < r ==> Listed(t, s, n))
  {
    AfterFirstMeaning(t, h, n);
    var r := NextStart(t, h, n);
    if r != 0 && !NormalListed(t, h) {
      forall s | h <= s < r ensures Listed(t, s, n) {
        assert StackListed(t, r - 1) && s <= r - 1 < s + n;
      }
    }
  }

  lemma {:induction false} SkipUnlisted(t: Tables, h: nat, n: nat, k: nat)
    requires t.WellFormed() && forall b :: h <= b < h + k ==> !StackListed(t, b)
    ensures AfterFirst(t, h, n) == if k <= n then AfterFirst(t, h + k, n - k) else 0
    decreases n
  {
    if k > 0 && n > 0 {
      assert !StackListed(t, h);
      SkipUnlisted(t, h + 1, n - 1, k - 1);
    }
  }

  lemma HashWithinWord(h: nat, k: nat)
    requires k < WordBits - Hash(h) % WordBits
    ensures Hash(h + k) == Hash(h) + k && Hash(h + k) / WordBits == Hash(h) / WordBits
  {
    assert h == TableEntries * (h / TableEntries) + Hash(h);
  }

  /** The search from h on has come to block h + i, or to the end. */
  ghost predicate SameFrom(t: Tables, h: nat, n: nat, i: nat)
    requires t.WellFormed()
  {
    AfterFirst(t, h, n) == if i <= n then AfterFirst(t, h + i, n - i) else 0
  }

  lemma SkipOne(t: Tables, h: nat, n: nat, i: nat)
    requires t.WellFormed() && i < n && SameFrom(t, h, n, i) && !StackListed(t, h + i)
    ensures SameFrom(t, h, n, i + 1)
  {
  }

  /** A zero word lists none of its blocks, so that all of them can be skipped. */
  lemma SkipWord(t: Tables, h: nat, n: nat, i: nat)
    requires t.WellFormed() && i < n && SameFrom(t, h, n, i)
    requires t.oldStack[Hash(h + i) / WordBits] == 0 && t.newStack[Hash(h + i) / WordBits] == 0
    ensures SameFrom(t, h, n, i + (WordBits - Hash(h + i) % WordBits))
  {
    var k := WordBits - Hash(h + i) % WordBits;
    forall b | h + i <= b < h + i + k ensures !StackListed(t, b) {
      HashWithinWord(h + i, b - (h + i));
    }
    SkipUnlisted(t, h + i, n - i, k);
  }

  /** GC_is_black_listed, which looks at whole words first.  It looks at one block even
      for lengths under a block. */
  method IsBlackListed(t: Tables, h: nat, len: nat) returns (r: nat)
    requires t.WellFormed()
    ensures r == NextStart(t, h, if len < BlockBytes then 1 else len / BlockBytes)
  {
    var index, i, nblocks := Hash(h), 0, len / BlockBytes;
    ghost var n := if len < BlockBytes then 1 else nblocks;
    if !t.allInterior && (Bit(t.oldNormal, index) || Bit(t.newNormal, index)) {
      return h + 1;
    }
    while true
      invariant i < n && index == Hash(h + i)
      invariant SameFrom(t, h, n, i)
      decreases n - i
    {
      if t.oldStack[index / WordBits] == 0 && t.newStack[index / WordBits] == 0 {
        SkipWord(t, h, n, i);
        i := i + (WordBits - index % WordBits);
      } else {
        if Bit(t.oldStack, index) || Bit(t.newStack, index) {
          return h + i + 1;
        }
        SkipOne(t, h, n, i);
        i := i + 1;
      }
      if i >= nblocks {
        break;
      }
      index := Hash(h + i);
    }
    return 0;
  }

  /** Every table is all zero. */
  ghost predicate Empty(t: Tables)
    requires t.WellFormed()
  {
    && (forall i :: 0 <= i < |t.oldStack| ==> t.oldStack[i] == 0 && t.newStack[i] == 0)
    && (!t.allInterior ==> forall i :: 0 <= i < |t.oldNormal| ==> t.oldNormal[i] == 0 && t.newNormal[i] == 0)
  }
}

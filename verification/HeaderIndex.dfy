/** The two-level index from block numbers to headers.

    A bottom index covers BottomSize block numbers; its key is the block number divided by
    that.  The indices there are are found through hash chains and also listed by key: the
    ascending and descending links of an index are its neighbours in `all`.  One more index,
    without any entry, stands for all that do not exist. */
module HeaderIndex {
  import opened Locks
  import opened BlockLayout

  const BottomSize: nat := 1024
  const TopSize: nat := 2048
  const MaxJump: nat := BlockBytes - 1

  /** An entry: nothing, the way back towards the start of a block in use, or a header. */
  datatype Cell = Nil | Forward(n: nat) | Header

  function Key(a: nat): nat { a / BottomSize }
  function Slot(a: nat): (j: nat) ensures j < BottomSize { a % BottomSize }
  function Address(key: nat, j: nat): nat { key * BottomSize + j }

  lemma KeySlot(key: nat, j: nat)
    requires j < BottomSize
    ensures Key(Address(key, j)) == key && Slot(Address(key, j)) == j
  {
  }

  lemma AddressOf(a: nat)
    ensures a == Address(Key(a), Slot(a))
  {
  }

  // What the index should hold

  /** Block number a lies in block h, which is in use, and is not its first. */
  ghost predicate Inside(hdrs: Hdrs, h: nat, a: nat) {
    h in hdrs && hdrs[h].Used? && h < a < h + Span(hdrs[h])
  }

  ghost predicate CellOk(hdrs: Hdrs, a: nat, c: Cell) {
    match c
    case Header => a in hdrs
    case Forward(n) => a !in hdrs && exists h: nat :: Inside(hdrs, h, a) && n == Jump(a - h)
    case Nil => a !in hdrs && forall h: nat :: !Inside(hdrs, h, a)
  }

  function Jump(d: nat): nat { if d > MaxJump then MaxJump else d }

  function CellAt(bottoms: map<nat, seq<Cell>>, a: nat): Cell {
    if Key(a) in bottoms && Slot(a) < |bottoms[Key(a)]| then bottoms[Key(a)][Slot(a)] else Nil
  }

  /** The index refines the plain block map. */
  ghost predicate Refines(bottoms: map<nat, seq<Cell>>, hdrs: Hdrs) {
    forall k: nat :: Open(k) ==> AllCellsOk(bottoms, hdrs)
  }

  ghost predicate AllCellsOk(bottoms: map<nat, seq<Cell>>, hdrs: Hdrs) {
    forall a: nat :: CellOk(hdrs, a, CellAt(bottoms, a))
  }

  /** Following a forwarding count stays within the block. */
  lemma Forwarded(bottoms: map<nat, seq<Cell>>, hdrs: Hdrs, a: nat) returns (h: nat)
    requires Refines(bottoms, hdrs) && Ordered(hdrs) && CellAt(bottoms, a).Forward?
    ensures var n := CellAt(bottoms, a).n; 0 < n && h <= a - n && Inside(hdrs, h, a)
    ensures forall x: nat :: h < x <= a ==> x !in hdrs
  {
    assert Open(0) && CellOk(hdrs, a, CellAt(bottoms, a));
    h :| Inside(hdrs, h, a) && CellAt(bottoms, a).n == Jump(a - h);
  }

  lemma HeaderIff(bottoms: map<nat, seq<Cell>>, hdrs: Hdrs, a: nat)
    requires Refines(bottoms, hdrs)
    ensures CellAt(bottoms, a).Header? <==> a in hdrs
  {
    assert Open(0) && CellOk(hdrs, a, CellAt(bottoms, a));
  }

  lemma NoIndexNoHeader(bottoms: map<nat, seq<Cell>>, hdrs: Hdrs, a: nat)
    requires Refines(bottoms, hdrs) && Key(a) !in bottoms
    ensures a !in hdrs
  {
    HeaderIff(bottoms, hdrs, a);
  }

  // The links

  ghost predicate Sorted(all: seq<nat>) {
    forall i, j :: 0 <= i < j < |all| ==> all[i] < all[j]
  }

  /** The chains and the list both hold exactly the keys there are. */
  ghost predicate Keyed(bottoms: map<nat, seq<Cell>>, chains: seq<seq<nat>>, all: seq<nat>) {
    && |chains| == TopSize && Sorted(all)
    && (forall k: nat :: k in all <==> k in bottoms)
    && (forall k: nat :: k in chains[k % TopSize] <==> k in bottoms)
    && (forall k: nat :: k in bottoms ==> |bottoms[k]| == BottomSize)
  }

  ghost predicate Structure(bottoms: map<nat, seq<Cell>>, chains: seq<seq<nat>>, all: seq<nat>, nils: seq<Cell>) {
    forall k: nat :: Open(k) ==> Keyed(bottoms, chains, all) && nils == NoCells()
  }

  function NoCells(): (r: seq<Cell>)
    ensures |r| == BottomSize && forall j :: 0 <= j < |r| ==> r[j] == Nil
  {
    seq(BottomSize, i => Nil)
  }

  /** The keys below `key`, then `key`, then the others. */
  lemma InsertedSorted(all: seq<nat>, i: nat, key: nat)
    requires Sorted(all) && i <= |all| && (forall j :: 0 <= j < i ==> all[j] < key) && (i < |all| ==> key < all[i])
    ensures Sorted(all[..i] + [key] + all[i..])
    ensures forall k: nat :: k in all[..i] + [key] + all[i..] <==> k in all || k == key
  {
    var r := all[..i] + [key] + all[i..];
    assert forall j :: 0 <= j < |r| ==> r[j] == if j < i then all[j] else if j == i then key else all[j - 1];
    assert all == all[..i] + all[i..];
  }

  /** A new index is entered in its hash chain and in the list. */
  lemma IndexAdded(bottoms: map<nat, seq<Cell>>, chains: seq<seq<nat>>, all: seq<nat>, nils: seq<Cell>, hi: nat, i: nat)
    requires Structure(bottoms, chains, all, nils) && |chains| == TopSize && hi !in bottoms
    requires i <= |all| && (i < |all| ==> hi <= all[i]) && forall j :: 0 <= j < i ==> all[j] < hi
    ensures var chains' := chains[hi % TopSize := [hi] + chains[hi % TopSize]];
      Structure(bottoms[hi := NoCells()], chains', all[..i] + [hi] + all[i..], nils)
    ensures SameCells(bottoms, bottoms[hi := NoCells()])
  {
    assert Keyed(bottoms, chains, all) && nils == NoCells() by { assert Open(0); }
    assert i < |all| ==> all[i] in all;
    InsertedSorted(all, i, hi);
    ChainAdded(bottoms, chains, hi);
  }

  lemma ChainAdded(bottoms: map<nat, seq<Cell>>, chains: seq<seq<nat>>, hi: nat)
    requires |chains| == TopSize && forall k: nat :: k in chains[k % TopSize] <==> k in bottoms
    ensures var chains' := chains[hi % TopSize := [hi] + chains[hi % TopSize]];
      forall k: nat :: k in chains'[k % TopSize] <==> k in bottoms || k == hi
  {
  }

  class Index {
    var bottoms: map<nat, seq<Cell>>
    var chains: seq<seq<nat>>
    var all: seq<nat>
    /** GC_all_nils */
    var nils: seq<Cell>

    ghost predicate Valid()
      reads this
    {
      |chains| == TopSize && |nils| == BottomSize && Structure(bottoms, chains, all, nils)
    }

    /** GC_init_headers */
    constructor ()
      ensures Valid() && bottoms == map[] && Refines(bottoms, map[])
    {
      bottoms, chains, all, nils := map[], seq(TopSize, i => []), [], NoCells();
    }

    /** GET_BI: whether there is a bottom index for a block number. */
    method GetBi(a: nat) returns (found: bool)
      requires Valid()
      ensures found <==> Key(a) in bottoms
    {
      assert Open(0);
      var hi := Key(a);
      var chain := chains[hi % TopSize];
      var i := 0;
      while i < |chain| && chain[i] != hi
        invariant i <= |chain| && forall j :: 0 <= j < i ==> chain[j] != hi
      {
        i := i + 1;
      }
      return i < |chain|;
    }

    /** HDR */
    method GetHdr(a: nat) returns (c: Cell)
      requires Valid()
      ensures c == CellAt(bottoms, a)
    {
      assert Open(0);
      var found := GetBi(a);
      c := if found then bottoms[Key(a)][Slot(a)] else nils[Slot(a)];
    }

    /** SET_HDR.  Where there is no index, it is the common one that gets written. */
    method SetHdr(a: nat, c: Cell)
      requires Valid() && (Key(a) in bottoms || c == Nil)
      modifies this`bottoms, this`nils
      ensures Valid() && bottoms.Keys == old(bottoms).Keys && Changed(old(bottoms), bottoms, a, c)
    {
      assert Open(0);
      var found := GetBi(a);
      if found {
        bottoms := bottoms[Key(a) := bottoms[Key(a)][Slot(a) := c]];
      } else {
        nils := nils[Slot(a) := c];
      }
      CellChanged(old(bottoms), bottoms, a, c);
    }

    /** get_index: make sure that there is an index for a block number. */
    method GetIndex(a: nat)
      requires Valid()
      modifies this`bottoms, this`chains, this`all
      ensures Valid() && bottoms.Keys == old(bottoms).Keys + {Key(a)} && SameCells(old(bottoms), bottoms)
    {
      var hi := Key(a);
      var found := GetBi(a);
      if found {
        return;
      }
      AddIndex(hi);
    }

    method AddIndex(hi: nat)
      requires Valid() && hi !in bottoms
      modifies this`bottoms, this`chains, this`all
      ensures Valid() && bottoms.Keys == old(bottoms).Keys + {hi} && SameCells(old(bottoms), bottoms)
    {
      var i := FirstAtLeast(hi);
      IndexAdded(bottoms, chains, all, nils, hi, i);
      all := all[..i] + [hi] + all[i..];
      chains := chains[hi % TopSize := [hi] + chains[hi % TopSize]];
      bottoms := bottoms[hi := NoCells()];
    }

    /** GC_install_header, without the header itself. */
    method InstallHeader(h: nat)
      requires Valid()
      modifies this`bottoms, this`chains, this`all, this`nils
      ensures Valid() && Changed(old(bottoms), bottoms, h, Header)
    {
      GetIndex(h);
      SetHdr(h, Header);
    }

    /** GC_remove_header */
    method RemoveHeader(h: nat)
      requires Valid()
      modifies this`bottoms, this`nils
      ensures Valid() && Changed(old(bottoms), bottoms, h, Nil)
    {
      SetHdr(h, Nil);
    }

    /** GC_install_counts for a block of n blocks. */
    method InstallCounts(h: nat, n: nat)
      requires Valid() && n > 0
      modifies this`bottoms, this`chains, this`all, this`nils
      ensures Valid() && CountsSet(old(bottoms), bottoms, h, h + n)
      ensures forall x: nat :: h < x < h + n ==>
        CellAt(bottoms, x) == Forward(if x - h < BlockBytes - 1 then x - h else BlockBytes - 1)
    {
      GetIndices(h, n);
      ghost var was := bottoms;
      var hbp := h + 1;
      while hbp < h + n
        invariant h < hbp <= h + n && Valid() && bottoms.Keys == was.Keys
        invariant CountsSet(was, bottoms, h, hbp)
      {
        assert Key(h) <= Key(hbp) <= Key(h + n - 1);
        ghost var before := bottoms;
        SetHdr(hbp, Forward(Jump(hbp - h)));
        CountsStep(was, before, bottoms, h, hbp);
        hbp := hbp + 1;
      }
    }

    /** Indices for all of the block. */
    method GetIndices(h: nat, n: nat)
      requires Valid() && n > 0
      modifies this`bottoms, this`chains, this`all
      ensures Valid() && SameCells(old(bottoms), bottoms)
      ensures forall k: nat :: Key(h) <= k <= Key(h + n - 1) ==> k in bottoms
    {
      var hbp := h;
      while hbp < h + n
        invariant Valid() && SameCells(old(bottoms), bottoms) && Slot(hbp) == Slot(h) && h <= hbp < h + n + BottomSize
        invariant forall k: nat :: Key(h) <= k < Key(hbp) ==> k in bottoms
      {
        GetIndex(hbp);
        hbp := hbp + BottomSize;
      }
      GetIndex(h + n - 1);
    }

    /** GC_remove_counts */
    method RemoveCounts(h: nat, n: nat)
      requires Valid()
      modifies this`bottoms, this`nils
      ensures Valid() && CountsCleared(old(bottoms), bottoms, h, h + n)
    {
      var hbp := h + 1;
      while hbp < h + n
        invariant h < hbp && (hbp <= h + n || hbp == h + 1) && Valid()
        invariant CountsCleared(old(bottoms), bottoms, h, hbp)
      {
        SetHdr(hbp, Nil);
        hbp := hbp + 1;
      }
    }

    /** The first listed index with a key of at least hi: the index for hi if it exists. */
    method FirstAtLeast(hi: nat) returns (i: nat)
      requires Valid()
      ensures i <= |all| && (i < |all| ==> hi <= all[i]) && forall j :: 0 <= j < i ==> all[j] < hi
    {
      assert Open(0);
      i := 0;
      while i < |all| && all[i] < hi
        invariant i <= |all| && forall j :: 0 <= j < i ==> all[j] < hi
      {
        i := i + 1;
      }
    }

    /** GC_next_used_block: the lowest block in use that starts at h or later, or 0. */
    method NextUsedBlock(h: nat, hdrs: Hdrs) returns (r: nat)
      requires Valid() && Refines(bottoms, hdrs) && Ordered(hdrs)
      ensures r != 0 ==> h <= r && r in hdrs && hdrs[r].Used? && NoUsed(hdrs, h, r)
      ensures r == 0 ==> NoUsedFrom(hdrs, h)
    {
      var found := GetBi(h);
      var i := FirstAtLeast(Key(h));
      var j: nat := if found then Slot(h) else 0;
      StartUp(bottoms, chains, all, hdrs, h, i, j, found, nils);
      while i < |all|
        invariant i < |all| ==> h <= Address(all[i], j) && NoUsed(hdrs, h, Address(all[i], j))
        invariant i <= |all| && (i < |all| ==> Key(h) <= all[i]) && (i == |all| ==> NoUsedFrom(hdrs, h))
        decreases |all| - i
      {
        var key := all[i];
        while j < BottomSize
          invariant h <= Address(key, j) && NoUsed(hdrs, h, Address(key, j))
          decreases BottomSize - j
        {
          var b := Address(key, j);
          var c := CellIn(key, j);
          HeaderIff(bottoms, hdrs, b);
          if !c.Header? {
            j := j + 1;
          } else if hdrs[b].Used? {
            return b;
          } else {
            j := j + Span(hdrs[b]);
          }
        }
        NextIndex(bottoms, chains, all, hdrs, h, i, j, nils);
        i, j := i + 1, 0;
      }
      return 0;
    }

    /** GC_prev_block: the highest block that starts at h or before, or 0. */
    method PrevBlock(h: nat, ghost hdrs: Hdrs) returns (r: nat)
      requires Valid() && Refines(bottoms, hdrs) && Ordered(hdrs)
      ensures r != 0 ==> r <= h && r in hdrs && NoBlock(hdrs, r + 1, h)
      ensures r == 0 ==> NoBlock(hdrs, 0, h)
    {
      var found := GetBi(h);
      var i: int := FirstAtLeast(Key(h));
      var j: int := Slot(h);
      if !found {
        i, j := i - 1, BottomSize - 1;
      }
      StartDown(bottoms, chains, all, hdrs, h, i, j, found, nils);
      while i >= 0
        invariant -1 <= i < |all| && j < BottomSize
        invariant i >= 0 ==>
          all[i] <= Key(h) && NoBlock(hdrs, all[i] * BottomSize + j + 1, h) && all[i] * BottomSize + j <= h
        invariant i == -1 ==> NoBlock(hdrs, 0, h)
        decreases i
      {
        var key := all[i];
        while j >= 0
          invariant j < BottomSize && NoBlock(hdrs, key * BottomSize + j + 1, h) && key * BottomSize + j <= h
          decreases j
        {
          var b := Address(key, j);
          var c := CellIn(key, j);
          HeaderIff(bottoms, hdrs, b);
          match c {
            case Nil =>
              j := j - 1;
            case Forward(n) =>
              ghost var start := Forwarded(bottoms, hdrs, b);
              j := j - n;
            case Header =>
              return b;
          }
        }
        PrevIndex(bottoms, chains, all, hdrs, h, i, j, nils);
        i, j := i - 1, BottomSize - 1;
      }
      return 0;
    }

    /** GC_apply_to_all_blocks: the blocks in use, each once. */
    method AllBlocks(hdrs: Hdrs) returns (visited: seq<nat>)
      requires Valid() && Refines(bottoms, hdrs) && Ordered(hdrs)
      ensures forall x: nat :: x in visited <==> x in hdrs && hdrs[x].Used?
      ensures forall a, b :: 0 <= a < b < |visited| ==> visited[a] != visited[b]
    {
      visited := [];
      for i := 0 to |all|
        invariant Visited(hdrs, visited, all, i)
      {
        visited := IndexBlocks(hdrs, visited, i);
      }
      AllVisited(bottoms, chains, all, hdrs, visited, nils);
    }

    /** The blocks of one index, from high to low. */
    method IndexBlocks(hdrs: Hdrs, seen: seq<nat>, i: nat) returns (visited: seq<nat>)
      requires Valid() && Refines(bottoms, hdrs) && Ordered(hdrs) && i < |all| && Visited(hdrs, seen, all, i)
      ensures Visited(hdrs, visited, all, i + 1)
    {
      visited := seen;
      var key := all[i];
      var j: int := BottomSize - 1;
      assert Sorted(all) by { assert Open(0); }
      while j >= 0
        invariant j < BottomSize && VisitedTo(hdrs, visited, all, i, key * BottomSize + j)
        decreases j
      {
        var b := Address(key, j);
        var c := CellIn(key, j);
        HeaderIff(bottoms, hdrs, b);
        match c {
          case Nil =>
            j := j - 1;
          case Forward(n) =>
            ghost var start := Forwarded(bottoms, hdrs, b);
            j := j - n;
          case Header =>
            if hdrs[b].Used? {
              visited := visited + [b];
            }
            j := j - 1;
        }
      }
      IndexDone(bottoms, chains, all, hdrs, visited, i, key * BottomSize + j, nils);
    }

    /** The walk back along forwarding counts, as in GC_free_block_ending_at: the block in
        use that a lies in, or a itself. */
    method FindStart(a: nat, ghost hdrs: Hdrs) returns (h: nat, c: Cell)
      requires Valid() && Refines(bottoms, hdrs) && Ordered(hdrs)
      ensures c == CellAt(bottoms, h) && !c.Forward?
      ensures if CellAt(bottoms, a).Forward? then Inside(hdrs, h, a) && c == Header else h == a
    {
      h := a;
      c := GetHdr(h);
      ghost var owner := a;
      if c.Forward? {
        owner := Forwarded(bottoms, hdrs, a);
      }
      while c.Forward?
        invariant c == CellAt(bottoms, h) && owner <= h <= a
        invariant if CellAt(bottoms, a).Forward? then Inside(hdrs, owner, a) else h == owner == a
        decreases h
      {
        ghost var same := Forwarded(bottoms, hdrs, h);
        assert same == owner;
        h := h - c.n;
        c := GetHdr(h);
      }
      FoundStart(bottoms, hdrs, a, h, owner);
    }

    /** GC_free_block_ending_at: the free block that ends where block h starts, or 0. */
    method FreeBlockEndingAt(h: nat, hdrs: Hdrs) returns (p: nat)
      requires Valid() && Refines(bottoms, hdrs) && Ordered(hdrs) && h in hdrs
      ensures p == 0 ==> NoPrev(hdrs, h)
      ensures p != 0 ==> FreeAt(hdrs, p) && p + hdrs[p].blocks == h
    {
      var c;
      p, c := FindStart(h - 1, hdrs);
      if c.Header? {
        HeaderIff(bottoms, hdrs, p);
        OnlyEndingAt(hdrs, h, p);
        return if hdrs[p].Free? then p else 0;
      }
      p := PrevBlock(h - 1, hdrs);
      if p != 0 {
        OnlyEndingAt(hdrs, h, p);
      }
      if p != 0 && !(hdrs[p].Free? && p + Span(hdrs[p]) == h) {
        p := 0;
      }
    }

    /** The entry of an index. */
    method CellIn(key: nat, j: nat) returns (c: Cell)
      requires Valid() && key in all && j < BottomSize
      ensures c == CellAt(bottoms, Address(key, j))
    {
      assert Open(0);
      KeySlot(key, j);
      c := bottoms[key][j];
    }
  }

  // Searching

  ghost predicate NoUsed(hdrs: Hdrs, lo: nat, hi: nat) {
    forall x: nat :: lo <= x < hi && x in hdrs ==> hdrs[x].Free?
  }

  ghost predicate NoUsedFrom(hdrs: Hdrs, lo: nat) {
    forall x: nat :: lo <= x && x in hdrs ==> hdrs[x].Free?
  }

  ghost predicate NoBlock(hdrs: Hdrs, lo: int, hi: nat) {
    forall x: nat :: lo <= x <= hi ==> x !in hdrs
  }

  /** No header between two indices. */
  lemma Between(bottoms: map<nat, seq<Cell>>, chains: seq<seq<nat>>, all: seq<nat>, hdrs: Hdrs, i: nat, x: nat)
    requires Keyed(bottoms, chains, all) && Refines(bottoms, hdrs) && i <= |all|
    requires (i > 0 ==> all[i - 1] < Key(x)) && (i < |all| ==> Key(x) < all[i])
    ensures x !in hdrs
  {
    forall k | 0 <= k < |all| ensures all[k] != Key(x) {
      assert if k < i then all[k] <= all[i - 1] else all[i] <= all[k];
    }
    NoIndexNoHeader(bottoms, hdrs, x);
  }

  /** Where the search upwards starts. */
  lemma StartUp(bottoms: map<nat, seq<Cell>>, chains: seq<seq<nat>>, all: seq<nat>, hdrs: Hdrs, h: nat, i: nat,
      j: nat, found: bool, nils: seq<Cell>)
    requires Structure(bottoms, chains, all, nils) && Refines(bottoms, hdrs)
    requires i <= |all| && (i < |all| ==> Key(h) <= all[i]) && forall k :: 0 <= k < i ==> all[k] < Key(h)
    requires (found <==> Key(h) in bottoms) && j == if found then Slot(h) else 0
    ensures i < |all| ==> h <= Address(all[i], j) && NoUsed(hdrs, h, Address(all[i], j))
    ensures i == |all| ==> NoUsedFrom(hdrs, h)
  {
    assert Open(0);
    AddressOf(h);
    if found {
      FoundAt(all, i, Key(h));
    } else {
      assert i < |all| ==> all[i] in all;
      forall x: nat | h <= x && (i < |all| ==> x < Address(all[i], 0)) ensures x !in hdrs {
        Between(bottoms, chains, all, hdrs, i, x);
      }
    }
  }

  lemma FoundAt(all: seq<nat>, i: nat, key: nat)
    requires Sorted(all) && i <= |all| && (i < |all| ==> key <= all[i]) && (forall k :: 0 <= k < i ==> all[k] < key)
    requires key in all
    ensures i < |all| && all[i] == key
  {
    var k :| 0 <= k < |all| && all[k] == key;
    assert k >= i;
  }

  /** From the end of one index to the next one up. */
  lemma NextIndex(bottoms: map<nat, seq<Cell>>, chains: seq<seq<nat>>, all: seq<nat>, hdrs: Hdrs, h: nat, i: nat,
      j: nat, nils: seq<Cell>)
    requires Structure(bottoms, chains, all, nils) && Refines(bottoms, hdrs)
    requires i < |all| && j >= BottomSize && Key(h) <= all[i] && NoUsed(hdrs, h, Address(all[i], j))
    ensures i + 1 < |all| ==>
      Key(h) <= all[i + 1] && h <= Address(all[i + 1], 0) && NoUsed(hdrs, h, Address(all[i + 1], 0))
    ensures i + 1 == |all| ==> NoUsedFrom(hdrs, h)
  {
    assert Open(0);
    forall x: nat | h <= x && x in hdrs && (i + 1 < |all| ==> x < Address(all[i + 1], 0)) ensures hdrs[x].Free? {
      if x >= Address(all[i], j) {
        Between(bottoms, chains, all, hdrs, i + 1, x);
      }
    }
  }

  /** Where the search downwards starts. */
  lemma StartDown(bottoms: map<nat, seq<Cell>>, chains: seq<seq<nat>>, all: seq<nat>, hdrs: Hdrs, h: nat, i: int,
      j: int, found: bool, nils: seq<Cell>)
    requires Structure(bottoms, chains, all, nils) && Refines(bottoms, hdrs) && (found <==> Key(h) in bottoms)
    requires var f := if found then i else i + 1;
      0 <= f <= |all| && (f < |all| ==> Key(h) <= all[f]) && forall k :: 0 <= k < f ==> all[k] < Key(h)
    requires j == if found then Slot(h) else BottomSize - 1
    ensures i < |all|
    ensures i >= 0 ==> all[i] <= Key(h) && NoBlock(hdrs, all[i] * BottomSize + j + 1, h) && all[i] * BottomSize + j <= h
    ensures i == -1 ==> NoBlock(hdrs, 0, h)
  {
    assert Open(0);
    AddressOf(h);
    if found {
      FoundAt(all, i, Key(h));
    } else {
      assert i + 1 < |all| ==> all[i + 1] in all;
      forall x: nat | x <= h && (i >= 0 ==> all[i] * BottomSize + j < x) ensures x !in hdrs {
        Between(bottoms, chains, all, hdrs, i + 1, x);
      }
    }
  }

  /** From the start of one index to the next one down. */
  lemma PrevIndex(bottoms: map<nat, seq<Cell>>, chains: seq<seq<nat>>, all: seq<nat>, hdrs: Hdrs, h: nat, i: nat,
      j: int, nils: seq<Cell>)
    requires Structure(bottoms, chains, all, nils) && Refines(bottoms, hdrs)
    requires i < |all| && j < 0 && NoBlock(hdrs, all[i] * BottomSize + j + 1, h) && all[i] <= Key(h)
    ensures i > 0 ==>
      && all[i - 1] <= Key(h) && NoBlock(hdrs, all[i - 1] * BottomSize + BottomSize, h)
      && all[i - 1] * BottomSize + BottomSize - 1 <= h
    ensures i == 0 ==> NoBlock(hdrs, 0, h)
  {
    assert Open(0);
    forall x: nat | x <= h && (i > 0 ==> all[i - 1] * BottomSize + BottomSize <= x) ensures x !in hdrs {
      if x < all[i] * BottomSize {
        Between(bottoms, chains, all, hdrs, i, x);
      }
    }
  }

  lemma FoundStart(bottoms: map<nat, seq<Cell>>, hdrs: Hdrs, a: nat, h: nat, owner: nat)
    requires Refines(bottoms, hdrs) && Ordered(hdrs) && owner <= h <= a && !CellAt(bottoms, h).Forward?
    requires if CellAt(bottoms, a).Forward? then Inside(hdrs, owner, a) else h == owner == a
    ensures CellAt(bottoms, a).Forward? ==> h == owner && CellAt(bottoms, h).Header?
  {
    assert Open(0) && CellOk(hdrs, h, CellAt(bottoms, h));
    if CellAt(bottoms, a).Forward? && owner < h {
      assert Inside(hdrs, owner, h);
    }
  }

  /** A block that covers the place before h, or is the last one before it, is the only one
      that can end at h. */
  lemma OnlyEndingAt(hdrs: Hdrs, h: nat, p: nat)
    requires Ordered(hdrs) && h in hdrs && p in hdrs && p < h
    requires (h - 1 < p + Span(hdrs[p]) || NoBlock(hdrs, p + 1, h - 1))
    ensures forall a: nat :: FreeAt(hdrs, a) && a + hdrs[a].blocks == h ==> a == p
    ensures h - 1 < p + Span(hdrs[p]) ==> p + Span(hdrs[p]) == h
  {
    assert p + Span(hdrs[p]) <= h;
    forall a: nat | FreeAt(hdrs, a) && a != p ensures a + hdrs[a].blocks != h {
      assert (a < p ==> a + Span(hdrs[a]) <= p) && (p < a ==> p + Span(hdrs[p]) <= a) && 0 < Span(hdrs[a]);
    }
  }

  // Visiting

  ghost predicate DistinctUsed(hdrs: Hdrs, visited: seq<nat>) {
    && (forall x: nat :: x in visited ==> x in hdrs && hdrs[x].Used?)
    && (forall a, b :: 0 <= a < b < |visited| ==> visited[a] != visited[b])
  }

  /** The blocks in use of the first i indices. */
  ghost predicate Visited(hdrs: Hdrs, visited: seq<nat>, all: seq<nat>, i: nat) {
    && i <= |all| && DistinctUsed(hdrs, visited)
    && forall x: nat :: x in hdrs && hdrs[x].Used? ==> (x in visited <==> i > 0 && Key(x) <= all[i - 1])
  }

  lemma IndexDone(bottoms: map<nat, seq<Cell>>, chains: seq<seq<nat>>, all: seq<nat>, hdrs: Hdrs, visited: seq<nat>,
      i: nat, cur: int, nils: seq<Cell>)
    requires Structure(bottoms, chains, all, nils) && Refines(bottoms, hdrs) && VisitedTo(hdrs, visited, all, i, cur)
        && cur < all[i] * BottomSize
    ensures Visited(hdrs, visited, all, i + 1)
  {
    assert Open(0);
    forall x: nat | x in hdrs ensures Key(x) <= all[i] ==>
      (i > 0 && Key(x) <= all[i - 1]) || (Key(x) == all[i] && x > cur) {
      if Key(x) < all[i] && (i > 0 ==> all[i - 1] < Key(x)) {
        Between(bottoms, chains, all, hdrs, i, x);
      }
    }
  }

  lemma AllVisited(bottoms: map<nat, seq<Cell>>, chains: seq<seq<nat>>, all: seq<nat>, hdrs: Hdrs,
      visited: seq<nat>, nils: seq<Cell>)
    requires Structure(bottoms, chains, all, nils) && Refines(bottoms, hdrs) && Visited(hdrs, visited, all, |all|)
    ensures forall x: nat :: x in visited <==> x in hdrs && hdrs[x].Used?
  {
    assert Open(0);
    forall x: nat | x in hdrs ensures |all| > 0 && Key(x) <= all[|all| - 1] {
      HeaderIff(bottoms, hdrs, x);
      assert Key(x) in all;
    }
  }

  /** The same, and the blocks of index i after `cur`. */
  ghost predicate VisitedTo(hdrs: Hdrs, visited: seq<nat>, all: seq<nat>, i: nat, cur: int) {
    && i < |all| && DistinctUsed(hdrs, visited)
    && forall x: nat :: x in hdrs && hdrs[x].Used? ==>
        (x in visited <==> (i > 0 && Key(x) <= all[i - 1]) || (Key(x) == all[i] && x > cur))
  }

  /** The entries between h and end lead back to h. */
  ghost predicate CountsSet(was: map<nat, seq<Cell>>, now: map<nat, seq<Cell>>, h: nat, end: nat) {
    forall x: nat :: CellAt(now, x) == if h < x < end then Forward(Jump(x - h)) else CellAt(was, x)
  }

  ghost predicate CountsCleared(was: map<nat, seq<Cell>>, now: map<nat, seq<Cell>>, h: nat, end: nat) {
    forall x: nat :: CellAt(now, x) == if h < x < end then Nil else CellAt(was, x)
  }

  lemma CountsStep(was: map<nat, seq<Cell>>, before: map<nat, seq<Cell>>, now: map<nat, seq<Cell>>, h: nat, end: nat)
    requires h < end && CountsSet(was, before, h, end) && Changed(before, now, end, Forward(Jump(end - h)))
    ensures CountsSet(was, now, h, end + 1)
  {
  }

  // How the operations of the allocator show in the index

  /** A free block is cut in two: only the second part's header is new. */
  lemma CellsCut(was: map<nat, seq<Cell>>, now: map<nat, seq<Cell>>, hdrs: Hdrs, h: nat, a: nat, b: nat, t: nat)
    requires Refines(was, hdrs) && Ordered(hdrs) && FreeAt(hdrs, h) && 0 < a && 0 < b && a + b == Span(hdrs[h])
    requires t == h + a && Changed(was, now, t, Header)
    ensures Refines(now, CutHdrs(hdrs, h, Free(a), Free(b)))
  {
    assert Open(0);
    var hdrs' := CutHdrs(hdrs, h, Free(a), Free(b));
    forall x: nat ensures CellOk(hdrs', x, CellAt(now, x)) {
      assert CellOk(hdrs, x, CellAt(was, x));
      assert forall o: nat :: Inside(hdrs', o, x) <==> Inside(hdrs, o, x);
    }
  }

  /** A free block is put to use as a whole. */
  lemma CellsUse(was: map<nat, seq<Cell>>, now: map<nat, seq<Cell>>, hdrs: Hdrs, h: nat, sz: nat)
    requires Refines(was, hdrs) && Ordered(hdrs) && FreeAt(hdrs, h) && CountsSet(was, now, h, h + Span(hdrs[h]))
    ensures Refines(now, hdrs[h := Used(Span(hdrs[h]), sz)])
  {
    assert Open(0);
    var hdrs' := hdrs[h := Used(Span(hdrs[h]), sz)];
    forall x: nat ensures CellOk(hdrs', x, CellAt(now, x)) {
      assert CellOk(hdrs, x, CellAt(was, x));
      assert forall o: nat :: o != h ==> (Inside(hdrs', o, x) <==> Inside(hdrs, o, x));
      assert Inside(hdrs', h, x) <==> h < x < h + Span(hdrs[h]);
      assert h < x < h + Span(hdrs[h]) ==> x !in hdrs;
    }
  }

  /** A block in use becomes free. */
  lemma CellsFree(was: map<nat, seq<Cell>>, now: map<nat, seq<Cell>>, hdrs: Hdrs, h: nat)
    requires Refines(was, hdrs) && Ordered(hdrs) && h in hdrs && hdrs[h].Used?
    requires CountsCleared(was, now, h, h + Span(hdrs[h]))
    ensures Refines(now, hdrs[h := Free(Span(hdrs[h]))])
  {
    assert Open(0);
    var hdrs' := hdrs[h := Free(Span(hdrs[h]))];
    forall x: nat ensures CellOk(hdrs', x, CellAt(now, x)) {
      assert CellOk(hdrs, x, CellAt(was, x));
      assert forall o: nat :: o != h ==> (Inside(hdrs', o, x) <==> Inside(hdrs, o, x));
      assert forall o: nat :: h < x < h + Span(hdrs[h]) && o != h ==> !Inside(hdrs, o, x);
    }
  }

  /** A free block has no counts to remove. */
  lemma CellsStillFree(was: map<nat, seq<Cell>>, now: map<nat, seq<Cell>>, hdrs: Hdrs, h: nat)
    requires Refines(was, hdrs) && Ordered(hdrs) && FreeAt(hdrs, h) && CountsCleared(was, now, h, h + Span(hdrs[h]))
    ensures Refines(now, hdrs)
  {
    assert Open(0);
    forall x: nat ensures CellOk(hdrs, x, CellAt(now, x)) {
      assert CellOk(hdrs, x, CellAt(was, x));
      assert h < x < h + Span(hdrs[h]) ==> x !in hdrs && forall o: nat :: !Inside(hdrs, o, x);
    }
  }

  /** A block of one heap block is put to use where no block in use lies. */
  lemma CellsChop(was: map<nat, seq<Cell>>, now: map<nat, seq<Cell>>, hdrs: Hdrs, b: nat, sz: nat)
    requires Refines(was, hdrs) && Changed(was, now, b, Header) && (forall o: nat :: !Inside(hdrs, o, b))
    requires b in hdrs ==> hdrs[b].Free?
    ensures Refines(now, hdrs[b := Used(1, sz)])
  {
    assert Open(0);
    var hdrs' := hdrs[b := Used(1, sz)];
    forall x: nat ensures CellOk(hdrs', x, CellAt(now, x)) {
      assert CellOk(hdrs, x, CellAt(was, x));
      assert forall o: nat :: Inside(hdrs', o, x) <==> Inside(hdrs, o, x);
    }
  }

  /** Two free blocks are made one: the second header goes. */
  lemma CellsJoin(was: map<nat, seq<Cell>>, now: map<nat, seq<Cell>>, hdrs: Hdrs, a: nat, b: nat)
    requires Refines(was, hdrs) && Ordered(hdrs) && FreeAt(hdrs, a) && FreeAt(hdrs, b) && b == a + Span(hdrs[a])
        && Changed(was, now, b, Nil)
    ensures Refines(now, JoinHdrs(hdrs, a, b))
  {
    assert Open(0);
    var hdrs' := JoinHdrs(hdrs, a, b);
    forall x: nat ensures CellOk(hdrs', x, CellAt(now, x)) {
      assert CellOk(hdrs, x, CellAt(was, x));
      assert forall o: nat :: Inside(hdrs', o, x) <==> Inside(hdrs, o, x);
      assert forall o: nat :: !Inside(hdrs, o, b);
    }
  }

  /** A new free block, away from the others. */
  lemma CellsGrow(was: map<nat, seq<Cell>>, now: map<nat, seq<Cell>>, hdrs: Hdrs, p: nat, n: nat)
    requires Refines(was, hdrs) && Changed(was, now, p, Header)
    requires p !in hdrs && forall a :: a in hdrs ==> a + Span(hdrs[a]) <= p || p + n <= a
    ensures Refines(now, hdrs[p := Free(n)])
  {
    assert Open(0);
    var hdrs' := hdrs[p := Free(n)];
    forall x: nat ensures CellOk(hdrs', x, CellAt(now, x)) {
      assert CellOk(hdrs, x, CellAt(was, x));
      assert forall o: nat :: Inside(hdrs', o, x) <==> Inside(hdrs, o, x);
      assert forall o: nat :: n > 0 ==> !Inside(hdrs, o, p);
    }
  }

  /** Only the entry for a is different. */
  ghost predicate Changed(was: map<nat, seq<Cell>>, now: map<nat, seq<Cell>>, a: nat, c: Cell) {
    forall x: nat :: CellAt(now, x) == if x == a then c else CellAt(was, x)
  }

  ghost predicate SameCells(was: map<nat, seq<Cell>>, now: map<nat, seq<Cell>>) {
    forall x: nat :: CellAt(now, x) == CellAt(was, x)
  }

  lemma CellChanged(was: map<nat, seq<Cell>>, now: map<nat, seq<Cell>>, a: nat, c: Cell)
    requires Key(a) in was ==> |was[Key(a)]| == BottomSize && now == was[Key(a) := was[Key(a)][Slot(a) := c]]
    requires Key(a) !in was ==> c == Nil && now == was
    ensures Changed(was, now, a, c)
  {
    forall x: nat ensures CellAt(now, x) == if x == a then c else CellAt(was, x) {
      AddressOf(x);
      AddressOf(a);
    }
  }
}

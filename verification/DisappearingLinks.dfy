/** Disappearing links: the table of registered cells, registering and unregistering, and
    what the three walks of a finalization do to it. */
module DisappearingLinks {
  import opened Locks
  import opened Basics
  import opened HashChains

  /** A link cell, the object that holds the cell (if it lies in one) and the object the
      cell refers to. */
  datatype Dl = Dl(link: nat, holder: Option<nat>, target: nat, late: bool)

  function Link(d: Dl): nat { d.link }

  /** The three walks over the link table. */
  datatype Pass = ClearNormal | DropDangling | ClearLate

  predicate Drops(pass: Pass, m: set<nat>, d: Dl) {
    match pass
    case ClearNormal => !d.late && d.target !in m
    case DropDangling => d.holder.Some? && d.holder.value !in m
    case ClearLate => d.late && d.target !in m
  }

  /** One entry per link cell. */
  ghost predicate DistinctLinks(chain: seq<Dl>) {
    forall a, b :: 0 <= a < b < |chain| ==> chain[a].link != chain[b].link
  }

  ghost function DlSet(table: seq<seq<Dl>>): set<Dl> {
    set i, d | 0 <= i < |table| && d in table[i] :: d
  }

  ghost function Total(table: seq<seq<Dl>>): nat {
    if table == [] then 0 else Total(table[..|table| - 1]) + |table[|table| - 1]|
  }

  lemma {:induction false} TotalUpdate(table: seq<seq<Dl>>, i: nat, chain: seq<Dl>)
    requires i < |table|
    ensures Total(table[i := chain]) == Total(table) - |table[i]| + |chain|
  {
    var n := |table| - 1;
    if i == n {
      assert table[i := chain][..n] == table[..n];
    } else {
      assert table[i := chain][..n] == table[..n][i := chain];
      TotalUpdate(table[..n], i, chain);
    }
  }

  predicate CellAlive(d: Dl, m: set<nat>) { d.holder.Some? ==> d.holder.value in m }

  /** What a finalization does to the links, given the marks before and after it. */
  ghost predicate LinkOutcome(was: set<Dl>, now: set<Dl>, zeroed: set<nat>, before: set<nat>, after: set<nat>) {
    forall k: nat :: Open(k) ==> EachLink(was, now, zeroed, before, after)
  }

  ghost predicate EachLink(was: set<Dl>, now: set<Dl>, zeroed: set<nat>, before: set<nat>, after: set<nat>) {
    && (forall d :: d in was && !d.late ==> (d.link in zeroed <==> d.target !in before))
    && (forall d :: d in was && d.late ==> (d.link in zeroed <==> CellAlive(d, after) && d.target !in after))
    && (forall d :: d in now <==> d in was && CellAlive(d, after) && d.target in (if d.late then after else before))
    && (forall d :: d in now ==> d.target in after)
  }

  /** What one walk over the links does: it drops some and clears their cells. */
  ghost predicate Swept(was: set<Dl>, now: set<Dl>, pass: Pass, m: set<nat>, cleared: set<nat>) {
    forall k: nat :: Open(k) ==> SweptEach(was, now, pass, m, cleared)
  }

  ghost predicate SweptEach(was: set<Dl>, now: set<Dl>, pass: Pass, m: set<nat>, cleared: set<nat>) {
    && (forall d :: d in now <==> d in was && !Drops(pass, m, d))
    && (forall l :: l in cleared <==> pass != DropDangling && exists d :: d in was && Drops(pass, m, d) && d.link == l)
  }

  /** No cell is registered twice. */
  ghost predicate OneEntryEach(dls: set<Dl>) {
    forall k: nat :: Open(k) ==> forall c, d :: c in dls && d in dls && c.link == d.link ==> c == d
  }

  /** One entry per link cell in the whole table. */
  lemma LinksUnique(table: seq<seq<Dl>>, hash: Hash)
    requires Hashed(table, Link, hash) && forall i :: 0 <= i < |table| ==> DistinctLinks(table[i])
    ensures OneEntryEach(DlSet(table))
  {
    forall c, d | c in DlSet(table) && d in DlSet(table) && c.link == d.link ensures c == d {
      var i :| 0 <= i < |table| && c in table[i];
      var j :| 0 <= j < |table| && d in table[j];
      assert hash(Link(c), |table|) == i && hash(Link(d), |table|) == j;
      var a :| 0 <= a < |table[i]| && table[i][a] == c;
      var b :| 0 <= b < |table[i]| && table[i][b] == d;
    }
  }

  lemma LinkPasses(was: set<Dl>, one: set<Dl>, two: set<Dl>, now: set<Dl>, normal: set<nat>, late: set<nat>,
      before: set<nat>, after: set<nat>)
    requires before <= after && OneEntryEach(was) && Swept(was, one, ClearNormal, before, normal)
    requires Swept(one, two, DropDangling, after, {}) && Swept(two, now, ClearLate, after, late)
    ensures LinkOutcome(was, now, normal + late, before, after)
  {
    assert Open(0);
    forall d | d in was ensures d.link in normal <==> Drops(ClearNormal, before, d) {
      if d.link in normal {
        var c :| c in was && Drops(ClearNormal, before, c) && c.link == d.link;
        assert c == d;
      }
    }
    forall d | d in was ensures d.link in late <==> d in two && Drops(ClearLate, after, d) {
      if d.link in late {
        var c :| c in two && Drops(ClearLate, after, c) && c.link == d.link;
        assert c in one && c in was;
        assert c == d;
      }
    }
  }

  lemma SweepEnd(was: seq<seq<Dl>>, now: seq<seq<Dl>>, pass: Pass, m: set<nat>, cleared: set<nat>)
    requires |was| == |now|
    requires forall k, d :: 0 <= k < |was| && d in was[k] ==> (d in now[k] <==> !Drops(pass, m, d))
    requires forall k, d :: 0 <= k < |now| && d in now[k] ==> d in was[k]
    requires forall l :: l in cleared <==>
      pass != DropDangling && exists k, d :: 0 <= k < |was| && d in was[k] && Drops(pass, m, d) && d.link == l
    ensures Swept(DlSet(was), DlSet(now), pass, m, cleared)
  {
    forall d ensures d in DlSet(now) <==> d in DlSet(was) && !Drops(pass, m, d) {
      if d in DlSet(now) {
        var k :| 0 <= k < |now| && d in now[k];
        assert d in was[k];
      }
      if d in DlSet(was) && !Drops(pass, m, d) {
        var k :| 0 <= k < |was| && d in was[k];
        assert d in now[k];
      }
    }
    forall l ensures l in cleared <==>
      pass != DropDangling && exists d :: d in DlSet(was) && Drops(pass, m, d) && d.link == l {
      if l in cleared {
        var k, d :| 0 <= k < |was| && d in was[k] && Drops(pass, m, d) && d.link == l;
        assert d in DlSet(was);
      }
      if pass != DropDangling && exists d :: d in DlSet(was) && Drops(pass, m, d) && d.link == l {
        var d :| d in DlSet(was) && Drops(pass, m, d) && d.link == l;
        var k :| 0 <= k < |was| && d in was[k];
      }
    }
  }

  // Registering and unregistering

  /** Every entry is in its chain, and a cell has one entry at most. */
  ghost predicate LinkTableOk(table: seq<seq<Dl>>, hash: Hash) {
    && HashOk(hash) && Hashed(table, Link, hash)
    && (forall i :: 0 <= i < |table| ==> DistinctLinks(table[i]))
  }

  ghost predicate HasLink(dls: set<Dl>, link: nat) { exists d :: d in dls && d.link == link }

  lemma OnceInChain(chain: seq<Dl>, d: Dl)
    requires DistinctLinks(chain)
    ensures multiset(chain)[d] <= 1
  {
    if d in chain {
      var a :| 0 <= a < |chain| && chain[a] == d;
      assert chain == chain[..a] + [d] + chain[a + 1..];
      assert d !in chain[..a] && d !in chain[a + 1..];
    }
  }

  lemma {:induction false} OnceInTable(table: seq<seq<Dl>>, d: Dl, home: nat)
    requires forall i :: 0 <= i < |table| ==> DistinctLinks(table[i])
    requires forall i :: 0 <= i < |table| && d in table[i] ==> i == home
    ensures Entries(table)[d] <= 1 && (home >= |table| ==> Entries(table)[d] == 0)
  {
    if table != [] {
      var n := |table| - 1;
      OnceInTable(table[..n], d, home);
      OnceInChain(table[n], d);
    }
  }

  lemma {:induction false} TotalIs(table: seq<seq<Dl>>)
    ensures Total(table) == |Entries(table)|
  {
    if table != [] {
      TotalIs(table[..|table| - 1]);
    }
  }

  lemma SetOfEntries(table: seq<seq<Dl>>)
    ensures forall d :: d in DlSet(table) <==> d in Entries(table)
  {
    forall d ensures d in DlSet(table) <==> d in Entries(table) {
      if d in DlSet(table) {
        var i: nat :| i < |table| && d in table[i];
        ChainInEntries(table, i, d);
      }
      if d in Entries(table) {
        var i := EntryInChain(table, d);
      }
    }
  }

  lemma SameLink(table: seq<seq<Dl>>, hash: Hash, c: Dl, d: Dl)
    requires LinkTableOk(table, hash) && c in DlSet(table) && d in DlSet(table) && c.link == d.link
    ensures c == d
  {
    LinksUnique(table, hash);
    assert Open(0);
  }

  /** Growing changes neither the entries nor their number. */
  lemma GrownLinks(was: seq<seq<Dl>>, now: seq<seq<Dl>>, hash: Hash)
    requires LinkTableOk(was, hash) && Hashed(now, Link, hash) && Entries(now) == Entries(was)
    ensures LinkTableOk(now, hash) && DlSet(now) == DlSet(was) && Total(now) == Total(was)
  {
    TotalIs(was);
    TotalIs(now);
    SetOfEntries(was);
    SetOfEntries(now);
    forall i: nat | i < |now| ensures DistinctLinks(now[i]) {
      forall a: nat, b: nat | a < b < |now[i]| ensures now[i][a].link != now[i][b].link {
        StillDistinct(was, now, hash, i, a, b);
      }
    }
  }

  lemma StillDistinct(was: seq<seq<Dl>>, now: seq<seq<Dl>>, hash: Hash, i: nat, a: nat, b: nat)
    requires LinkTableOk(was, hash) && Entries(now) == Entries(was) && i < |now| && a < b < |now[i]|
    requires DlSet(now) == DlSet(was)
    ensures now[i][a].link != now[i][b].link
  {
    var c, d := now[i][a], now[i][b];
    if c.link == d.link {
      InSet(now, i, a);
      InSet(now, i, b);
      SameLink(was, hash, c, d);
      TwoPlaces(now[i], a, b);
      ChainWithinEntries(now, i);
      OnceInTable(was, c, hash(Link(c), |was|));
    }
  }

  lemma InSet(table: seq<seq<Dl>>, i: nat, j: nat)
    requires i < |table| && j < |table[i]|
    ensures table[i][j] in DlSet(table)
  {
    assert table[i][j] in table[i];
  }

  /** Where the entry of a cell is in the table, or would go. */
  method FindLink(table: seq<seq<Dl>>, hash: Hash, link: nat) returns (i: nat, j: nat)
    requires LinkTableOk(table, hash) && |table| > 0
    ensures i < |table| && i == hash(link, |table|) && j <= |table[i]|
    ensures forall k :: 0 <= k < j ==> table[i][k].link != link
    ensures j < |table[i]| ==> table[i][j].link == link
    ensures j < |table[i]| <==> HasLink(DlSet(table), link)
  {
    i, j := hash(link, |table|), 0;
    while j < |table[i]| && table[i][j].link != link
      invariant j <= |table[i]| && forall k :: 0 <= k < j ==> table[i][k].link != link
    {
      j := j + 1;
    }
    if j < |table[i]| {
      InSet(table, i, j);
    }
    if HasLink(DlSet(table), link) {
      ghost var d :| d in DlSet(table) && d.link == link;
      ghost var k :| 0 <= k < |table| && d in table[k];
      assert hash(Link(d), |table|) == k;
    }
  }

  /** The entries after one chain was exchanged. */
  lemma ChainPut(table: seq<seq<Dl>>, i: nat, chain: seq<Dl>, hash: Hash)
    requires LinkTableOk(table, hash) && i < |table| && DistinctLinks(chain)
    requires forall d :: d in chain ==> hash(Link(d), |table|) == i
    ensures LinkTableOk(table[i := chain], hash)
    ensures forall d :: d in DlSet(table[i := chain]) <==> d in chain || (d in DlSet(table) && d !in table[i])
    ensures Total(table[i := chain]) == Total(table) - |table[i]| + |chain|
  {
    TotalUpdate(table, i, chain);
    var now := table[i := chain];
    forall d ensures d in DlSet(now) <==> d in chain || (d in DlSet(table) && d !in table[i]) {
      if d in DlSet(now) {
        var k :| 0 <= k < |now| && d in now[k];
        assert k != i ==> d in table[k] && hash(Link(d), |table|) == k;
      }
      if d in chain {
        assert d in now[i];
      }
      if d in DlSet(table) && d !in table[i] {
        var k :| 0 <= k < |table| && d in table[k];
        assert d in now[k];
      }
    }
  }

  /** What GC_general_register_disappearing_link returns. */
  datatype LinkCode = Entered | Duplicate | NoMemory

  /** The entries after a registration.  A cell that is registered already gets the new
      target, and keeps its old kind. */
  ghost function Retargeted(dls: set<Dl>, link: nat, target: nat): set<Dl> {
    set d | d in dls :: if d.link == link then d.(target := target) else d
  }

  /** The part of a registration that concerns the table. */
  method PutLink(table: seq<seq<Dl>>, hash: Hash, d: Dl, memory: bool) returns (table': seq<seq<Dl>>, code: LinkCode)
    requires LinkTableOk(table, hash) && |table| > 0
    ensures LinkTableOk(table', hash) && |table'| == |table|
    ensures code == Duplicate <==> HasLink(DlSet(table), d.link)
    ensures code == NoMemory <==> !HasLink(DlSet(table), d.link) && !memory
    ensures code == Entered ==> DlSet(table') == DlSet(table) + {d} && Total(table') == Total(table) + 1
    ensures code == Duplicate ==> DlSet(table') == Retargeted(DlSet(table), d.link, d.target)
    ensures code != Entered ==> Total(table') == Total(table)
    ensures code == NoMemory ==> table' == table
  {
    var i, j := FindLink(table, hash, d.link);
    if j < |table[i]| {
      table' := Retarget(table, hash, i, j, d.link, d.target);
      return table', Duplicate;
    }
    if !memory {
      return table, NoMemory;
    }
    ChainPut(table, i, [d] + table[i], hash);
    table' := table[i := [d] + table[i]];
    return table', Entered;
  }

  method Retarget(table: seq<seq<Dl>>, hash: Hash, i: nat, j: nat, link: nat, target: nat)
    returns (table': seq<seq<Dl>>)
    requires LinkTableOk(table, hash) && i < |table| && j < |table[i]| && table[i][j].link == link
    ensures LinkTableOk(table', hash) && |table'| == |table| && Total(table') == Total(table)
    ensures DlSet(table') == Retargeted(DlSet(table), link, target)
  {
    var chain := table[i];
    var e := chain[j];
    var chain' := chain[j := e.(target := target)];
    assert e in chain && hash(Link(e), |table|) == i;
    ChainPut(table, i, chain', hash);
    table' := table[i := chain'];
    InSet(table, i, j);
    forall d ensures d in DlSet(table') <==> d in Retargeted(DlSet(table), link, target) {
      if d in chain' {
        var k :| 0 <= k < |chain| && chain'[k] == d;
        InSet(table, i, k);
        assert k != j ==> chain[k].link != link;
      }
      if d in Retargeted(DlSet(table), link, target) {
        var c :| c in DlSet(table) && d == if c.link == link then c.(target := target) else c;
        if c.link == link {
          SameLink(table, hash, c, e);
          assert chain'[j] == d;
        } else if c in chain {
          var k :| 0 <= k < |chain| && chain[k] == c;
          assert chain'[k] == c;
        }
      }
      if d in DlSet(table) && d !in chain && d.link == link {
        SameLink(table, hash, d, e);
      }
    }
  }

  /** The part of unregistering that concerns the table. */
  method RemoveLink(table: seq<seq<Dl>>, hash: Hash, link: nat) returns (table': seq<seq<Dl>>, found: bool)
    requires LinkTableOk(table, hash) && |table| > 0
    ensures LinkTableOk(table', hash) && |table'| == |table|
    ensures found <==> HasLink(DlSet(table), link)
    ensures DlSet(table') == set d | d in DlSet(table) && d.link != link
    ensures Total(table') == Total(table) - if found then 1 else 0
  {
    var i, j := FindLink(table, hash, link);
    found := j < |table[i]|;
    table' := table;
    if found {
      var chain := table[i][..j] + table[i][j + 1..];
      Without(table[i], j, chain);
      ChainPut(table, i, chain, hash);
      table' := table[i := chain];
      var e := table[i][j];
      InSet(table, i, j);
      forall d | d in DlSet(table) && d.link == link ensures d == e {
        SameLink(table, hash, d, e);
      }
    }
  }

  lemma Without(chain: seq<Dl>, j: nat, rest: seq<Dl>)
    requires DistinctLinks(chain) && j < |chain| && rest == chain[..j] + chain[j + 1..]
    ensures DistinctLinks(rest) && |rest| == |chain| - 1
    ensures forall d :: d in rest <==> d in chain && d.link != chain[j].link
  {
    assert forall k :: 0 <= k < |rest| ==> rest[k] == chain[if k < j then k else k + 1];
    forall d ensures d in rest <==> d in chain && d.link != chain[j].link {
      if d in chain && d.link != chain[j].link {
        var k :| 0 <= k < |chain| && chain[k] == d;
        assert rest[if k < j then k else k - 1] == d;
      }
    }
  }
}

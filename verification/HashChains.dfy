/** Chained hash tables as the finalization code keeps them: a table is a sequence of
    chains, none of them before the first use, and its size is a power of two. */
module HashChains {

  type Hash = (nat, nat) -> nat

  ghost predicate HashOk(hash: Hash) {
    forall key: nat, size: nat :: size > 0 ==> hash(key, size) < size
  }

  /** All entries, with their multiplicities. */
  ghost function Entries<T>(table: seq<seq<T>>): multiset<T> {
    if table == [] then multiset{} else Entries(table[..|table| - 1]) + multiset(table[|table| - 1])
  }

  /** Every entry is in the chain its key hashes to. */
  ghost predicate Hashed<T>(table: seq<seq<T>>, key: T -> nat, hash: Hash) {
    forall i, e :: 0 <= i < |table| && e in table[i] ==> hash(key(e), |table|) == i
  }

  lemma {:induction false} EntriesUpdate<T>(table: seq<seq<T>>, i: nat, chain: seq<T>)
    requires i < |table|
    ensures Entries(table[i := chain]) + multiset(table[i]) == Entries(table) + multiset(chain)
  {
    var n := |table| - 1;
    var table' := table[i := chain];
    if i == n {
      assert table'[..n] == table[..n] && table'[n] == chain;
      assert Entries(table') == Entries(table[..n]) + multiset(chain);
      assert Entries(table) == Entries(table[..n]) + multiset(table[n]);
    } else {
      assert table'[..n] == table[..n][i := chain] && table'[n] == table[n] && table[..n][i] == table[i];
      EntriesUpdate(table[..n], i, chain);
      calc {
        Entries(table') + multiset(table[i]);
        (Entries(table[..n][i := chain]) + multiset(table[i])) + multiset(table[n]);
        (Entries(table[..n]) + multiset(chain)) + multiset(table[n]);
        Entries(table) + multiset(chain);
      }
    }
  }

  lemma {:induction false} EntryInChain<T>(table: seq<seq<T>>, e: T) returns (i: nat)
    requires e in Entries(table)
    ensures i < |table| && e in table[i]
  {
    if e in multiset(table[|table| - 1]) {
      i := |table| - 1;
    } else {
      i := EntryInChain(table[..|table| - 1], e);
    }
  }

  lemma {:induction false} ChainInEntries<T>(table: seq<seq<T>>, i: nat, e: T)
    requires i < |table| && e in table[i]
    ensures e in Entries(table)
  {
    if i < |table| - 1 {
      ChainInEntries(table[..|table| - 1], i, e);
    }
  }

  lemma {:induction false} ChainWithinEntries<T>(table: seq<seq<T>>, i: nat)
    requires i < |table|
    ensures multiset(table[i]) <= Entries(table)
  {
    if i < |table| - 1 {
      ChainWithinEntries(table[..|table| - 1], i);
    }
  }

  lemma {:induction false} NoEntries<T>(n: nat)
    ensures Entries<T>(seq(n, (i: nat) => [])) == multiset{}
  {
    if n > 0 {
      assert seq<seq<T>>(n, (i: nat) => [])[..n - 1] == seq(n - 1, (i: nat) => []);
      NoEntries<T>(n - 1);
    }
  }

  lemma TwoPlaces<T>(chain: seq<T>, a: nat, b: nat)
    requires a < b < |chain| && chain[a] == chain[b]
    ensures multiset(chain)[chain[a]] >= 2
  {
    assert chain == chain[..b] + [chain[b]] + chain[b + 1..];
    assert chain[a] in chain[..b];
  }

  lemma MultisetCancel<T>(a: multiset<T>, b: multiset<T>, c: multiset<T>)
    requires a + c == b + c
    ensures a == b
  {
    assert a == (a + c) - c;
    assert b == (b + c) - c;
  }

  /** Move one entry to the front of the chain it hashes to. */
  method Insert<T>(table: seq<seq<T>>, e: T, key: T -> nat, hash: Hash) returns (table': seq<seq<T>>)
    requires HashOk(hash) && |table| > 0 && Hashed(table, key, hash)
    ensures |table'| == |table| && Hashed(table', key, hash)
    ensures Entries(table') == Entries(table) + multiset{e}
  {
    var h := hash(key(e), |table|);
    table' := table[h := [e] + table[h]];
    EntriesUpdate(table, h, [e] + table[h]);
    calc {
      Entries(table') + multiset(table[h]);
      Entries(table) + multiset([e] + table[h]);
      (Entries(table) + multiset{e}) + multiset(table[h]);
    }
    MultisetCancel(Entries(table'), Entries(table) + multiset{e}, multiset(table[h]));
  }

  /** The inner loop of GC_grow_table: move a whole chain. */
  method InsertAll<T>(table: seq<seq<T>>, chain: seq<T>, key: T -> nat, hash: Hash) returns (table': seq<seq<T>>)
    requires HashOk(hash) && |table| > 0 && Hashed(table, key, hash)
    ensures |table'| == |table| && Hashed(table', key, hash)
    ensures Entries(table') == Entries(table) + multiset(chain)
  {
    table' := table;
    for j := 0 to |chain|
      invariant |table'| == |table| && Hashed(table', key, hash)
      invariant Entries(table') == Entries(table) + multiset(chain[..j])
    {
      table' := Insert(table', chain[j], key, hash);
      assert chain[..j + 1] == chain[..j] + [chain[j]];
    }
    assert chain[..|chain|] == chain;
  }

  /** The size of a table before an entry is looked up: it doubles if there are more entries
      than chains and memory for it. */
  function SizeFor(size: nat, entries: int, memory: bool): nat {
    if memory && size == 0 then 1 else if memory && entries > size then 2 * size else size
  }

  /** GC_grow_table with memory available: every entry moves to the front of its chain in
      a table of twice the size. */
  method GrowTable<T>(table: seq<seq<T>>, key: T -> nat, hash: Hash) returns (grown: seq<seq<T>>)
    requires HashOk(hash)
    ensures |grown| == if |table| == 0 then 1 else 2 * |table|
    ensures Hashed(grown, key, hash) && Entries(grown) == Entries(table)
  {
    var size := if |table| == 0 then 1 else 2 * |table|;
    grown := seq(size, (i: nat) => []);
    NoEntries<T>(size);
    for i := 0 to |table|
      invariant |grown| == size && Hashed(grown, key, hash)
      invariant Entries(grown) == Entries(table[..i])
    {
      assert table[..i + 1][..i] == table[..i];
      grown := InsertAll(grown, table[i], key, hash);
    }
    assert table[..|table|] == table;
  }
}

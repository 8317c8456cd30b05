/** Division of offsets within a heap block by an object size, by multiplication. */
module Reciprocal {
  import opened BlockLayout

  const Word32: nat := 0x1_0000_0000
  /** Larger objects have blocks of their own. */
  const MaxObjectBytes: nat := 2048

  /** The smallest inv with inv * sz of at least 2^32. */
  ghost predicate IsInverse(inv: nat, sz: nat) {
    Word32 <= inv * sz < Word32 + sz
  }

  lemma InOrder(a: nat, b: nat, sz: nat)
    ensures a <= b ==> a * sz <= b * sz
  {
    if a <= b {
      assert b * sz == a * sz + (b - a) * sz;
    }
  }

  lemma InverseUnique(a: nat, b: nat, sz: nat)
    requires IsInverse(a, sz) && IsInverse(b, sz)
    ensures a == b
  {
    InOrder(a + 1, b, sz);
    InOrder(b + 1, a, sz);
    assert (a + 1) * sz == a * sz + sz && (b + 1) * sz == b * sz + sz;
  }

  /** setup_header on 64-bit machines. */
  method Inverse64(sz: nat) returns (inv: nat)
    requires 0 < sz <= MaxObjectBytes
    ensures IsInverse(inv, sz)
  {
    inv := Word32 / sz;
    assert inv * sz + Word32 % sz == Word32;
    if inv * sz / Word32 == 0 {
      assert inv * sz < Word32 && (inv + 1) * sz == inv * sz + sz;
      inv := inv + 1;
    }
  }

  /** setup_header on 32-bit machines, where products wrap around. */
  method Inverse32(sz: nat) returns (inv: nat)
    requires 4 <= sz <= MaxObjectBytes
    ensures IsInverse(inv, sz) && inv < Word32
  {
    inv := 0x8000_0000 / sz;
    assert inv * sz + 0x8000_0000 % sz == 0x8000_0000;
    assert (2 * inv) * sz == 2 * (inv * sz);
    inv := inv * 2;
    Wraps(inv, sz);
    while (inv * sz) % Word32 > sz
      invariant 3 * sz < inv * sz <= Word32 + sz - 1 && inv * 4 <= inv * sz
      decreases Word32 + sz - inv * sz
    {
      Wraps(inv, sz);
      assert (inv + 1) * sz == inv * sz + sz;
      inv := inv + 1;
    }
    Wraps(inv, sz);
  }

  /** Both formulas give the same number. */
  method SameInverse(sz: nat) returns (inv64: nat, inv32: nat)
    requires 4 <= sz <= MaxObjectBytes
    ensures inv64 == inv32 && IsInverse(inv64, sz)
  {
    inv64 := Inverse64(sz);
    inv32 := Inverse32(sz);
    InverseUnique(inv64, inv32, sz);
  }

  lemma Wraps(inv: nat, sz: nat)
    requires 0 < sz <= MaxObjectBytes && inv * sz < Word32 + sz
    ensures (inv * sz) % Word32 == if inv * sz < Word32 then inv * sz else inv * sz - Word32
  {
  }

  /** Multiplying by the inverse and dropping 32 bits divides, for every offset in a block. */
  lemma Divides(offset: nat, sz: nat, inv: nat)
    requires offset < BlockBytes && 0 < sz <= MaxObjectBytes && IsInverse(inv, sz)
    ensures offset * inv / Word32 == offset / sz
  {
    var q, r := offset / sz, offset % sz;
    DividesBy(offset, sz, inv, q, r, inv * sz - Word32);
  }

  lemma DividesBy(offset: nat, sz: nat, inv: nat, q: nat, r: nat, e: nat)
    requires offset < BlockBytes && r < sz <= MaxObjectBytes && offset == q * sz + r
    requires inv * sz == Word32 + e && e < sz
    ensures offset * inv / Word32 == q
  {
    Distribute(q, sz, r, inv);
    DistributeWord(q, e, inv * sz);
    Remainder(q, r, e, sz, inv);
    Quotient(q, q * e + r * inv);
  }

  lemma DistributeWord(q: nat, e: nat, product: nat)
    requires product == Word32 + e
    ensures q * product == q * Word32 + q * e
  {
  }

  lemma Distribute(q: nat, sz: nat, r: nat, inv: nat)
    ensures (q * sz + r) * inv == q * (inv * sz) + r * inv
  {
    assert (q * sz) * inv == q * (sz * inv);
  }

  lemma Remainder(q: nat, r: nat, e: nat, sz: nat, inv: nat)
    requires r < sz <= MaxObjectBytes && e < sz && inv * sz == Word32 + e && q * sz < BlockBytes
    ensures 0 <= q * e + r * inv < Word32
  {
    assert q * e <= q * sz by { InOrder(e, sz, q); }
    assert r * inv + inv <= inv * sz by {
      InOrder(r + 1, sz, inv);
      assert (r + 1) * inv == r * inv + inv;
    }
    LargeInverse(inv, sz, inv * sz);
    Small(q * e, q * sz, r * inv, inv, e);
  }

  lemma LargeInverse(inv: nat, sz: nat, product: nat)
    requires 0 < sz <= MaxObjectBytes && product == inv * sz && product >= Word32
    ensures inv > 2 * BlockBytes
  {
    InOrder(inv, 2 * BlockBytes, sz);
  }

  lemma Small(qe: nat, qsz: nat, rinv: nat, inv: nat, e: nat)
    requires qe <= qsz < BlockBytes && rinv + inv <= Word32 + e && e < MaxObjectBytes && inv > 2 * BlockBytes
    ensures qe + rinv < Word32
  {
  }

  lemma Quotient(q: nat, rest: nat)
    requires rest < Word32
    ensures (q * Word32 + rest) / Word32 == q
  {
  }
}

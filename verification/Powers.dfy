/** Powers of two, alignment, and the bit flip behind the buddy address computation.

    `Aligned` is defined by halving rather than by `%` so that the proofs stay linear;
    `AlignedIsDivisible` gives its usual meaning. */
module Powers {

  function Pow2(k: nat): (r: nat)
    ensures r >= 1
  {
    if k == 0 then 1 else 2 * Pow2(k - 1)
  }

  /** `x` is a multiple of `2^k`. */
  predicate Aligned(x: nat, k: nat) {
    k == 0 || (x % 2 == 0 && Aligned(x / 2, k - 1))
  }

  /** Bit `k` of `x`. */
  function Bit(x: nat, k: nat): nat {
    if k == 0 then x % 2 else Bit(x / 2, k - 1)
  }

  /** `x ^ (1 << k)`. */
  function FlipBit(x: nat, k: nat): nat {
    if k == 0 then (if x % 2 == 0 then x + 1 else x - 1)
    else 2 * FlipBit(x / 2, k - 1) + x % 2
  }

  /** `FlipBit` is the exclusive or with a one in position `k`: it inverts that bit and no other. */
  lemma {:induction false} FlipBitIsXor(x: nat, k: nat, j: nat)
    ensures Bit(FlipBit(x, k), j) == if j == k then 1 - Bit(x, j) else Bit(x, j)
  {
    if k > 0 {
      assert FlipBit(x, k) / 2 == FlipBit(x / 2, k - 1);
      if j > 0 { FlipBitIsXor(x / 2, k - 1, j - 1); }
    } else if j > 0 {
      assert FlipBit(x, 0) / 2 == x / 2;
    }
  }

  lemma {:induction false} AlignedIsDivisible(x: nat, k: nat)
    ensures Aligned(x, k) <==> x % Pow2(k) == 0
  {
    if k > 0 {
      AlignedIsDivisible(x / 2, k - 1);
      HalfDivides(x, Pow2(k - 1));
    }
  }

  lemma HalfDivides(x: nat, d: nat)
    requires d > 0
    ensures x % (2 * d) == 0 <==> x % 2 == 0 && (x / 2) % d == 0
  {
    if x % (2 * d) == 0 {
      var q := x / (2 * d);
      assert x == (2 * d) * q == 2 * (d * q);
      assert x / 2 == d * q;
      MultipleMod(q, d);
    }
    if x % 2 == 0 && (x / 2) % d == 0 {
      var q := (x / 2) / d;
      assert x / 2 == d * q;
      assert x == 2 * (d * q) == (2 * d) * q;
      MultipleMod(q, 2 * d);
    }
  }

  lemma MultipleMod(q: nat, d: nat)
    requires d > 0
    ensures (d * q) % d == 0
  {
    var n := d * q;
    var e := q - n / d;
    assert n % d == n - d * (n / d) == d * e;
    if e >= 1 {
      MulMonotone(d, 1, e);
    } else if e <= -1 {
      MulMonotone(d, e, -1);
    }
  }

  lemma MulMonotone(d: nat, x: int, y: int)
    requires x <= y
    ensures d * x <= d * y
  {
  }

  /** Zero is aligned to everything. */
  lemma {:induction false} ZeroAligned(k: nat)
    ensures Aligned(0, k)
  {
    if k > 0 { ZeroAligned(k - 1); }
  }

  /** The two halves of an aligned region are aligned, and are each other's buddy. */
  lemma {:induction false} Halves(x: nat, k: nat)
    requires Aligned(x, k + 1)
    ensures Aligned(x, k) && Aligned(x + Pow2(k), k)
    ensures FlipBit(x, k) == x + Pow2(k)
    ensures FlipBit(x + Pow2(k), k) == x
  {
    if k > 0 {
      Halves(x / 2, k - 1);
      assert (x + Pow2(k)) / 2 == x / 2 + Pow2(k - 1);
      assert (x + Pow2(k)) % 2 == 0;
    }
  }

  lemma {:induction false} AlignedDown(x: nat, j: nat, k: nat)
    requires j <= k && Aligned(x, k)
    ensures Aligned(x, j)
  {
    if j > 0 { AlignedDown(x / 2, j - 1, k - 1); }
  }

  /** Distinct aligned positions are at least one region apart. */
  lemma {:induction false} NoStraddle(x: nat, y: nat, k: nat)
    requires Aligned(x, k) && Aligned(y, k) && x < y
    ensures x + Pow2(k) <= y
  {
    if k > 0 { NoStraddle(x / 2, y / 2, k - 1); }
  }

  /** The byte-level computation agrees with the page-level one: flipping bit `m + k` of the byte
      offset of page `p` gives the byte offset of the page whose index is `p` with bit `k` flipped. */
  lemma {:induction false} FlipBitScales(p: nat, m: nat, k: nat)
    ensures FlipBit(p * Pow2(m), m + k) == FlipBit(p, k) * Pow2(m)
  {
    if m > 0 {
      var d := Pow2(m - 1);
      FlipBitScales(p, m - 1, k);
      DoubleFactor(p, d);
      DoubleFactor(FlipBit(p, k), d);
      assert (2 * (p * d)) / 2 == p * d;
    }
  }

  lemma DoubleFactor(p: nat, d: nat)
    ensures p * (2 * d) == 2 * (p * d)
  {
  }
}

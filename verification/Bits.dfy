/** Bitwise operations on unsigned machine words, written on natural numbers. */
module Bits {
  const U64: nat := 0x1_0000_0000_0000_0000

  type Word = x: nat | x < U64

  function Pow2(k: nat): (p: nat)
    ensures p >= 1
  {
    if k == 0 then 1 else 2 * Pow2(k - 1)
  }

  lemma Pow2At64()
    ensures Pow2(64) == U64
  {
    assert Pow2(8) == 0x100;
    Pow2Up8(8);
    Pow2Up8(16);
    Pow2Up8(24);
    Pow2Up8(32);
    Pow2Up8(40);
    Pow2Up8(48);
    Pow2Up8(56);
  }

  lemma Pow2Up8(k: nat)
    ensures Pow2(k + 8) == 0x100 * Pow2(k)
  {
    assert Pow2(k + 2) == 4 * Pow2(k);
    assert Pow2(k + 4) == 4 * Pow2(k + 2);
    assert Pow2(k + 6) == 4 * Pow2(k + 4);
  }

  lemma {:induction false} Pow2Grows(j: nat, k: nat)
    requires j <= k
    ensures Pow2(j) <= Pow2(k)
  {
    if j < k {
      Pow2Grows(j, k - 1);
    }
  }

  /** Bit `i` of `x`. */
  predicate Bit(x: nat, i: nat) {
    if i == 0 then x % 2 == 1 else Bit(x / 2, i - 1)
  }

  function And(x: nat, y: nat): nat {
    if x == 0 || y == 0 then 0
    else 2 * And(x / 2, y / 2) + (if x % 2 == 1 && y % 2 == 1 then 1 else 0)
  }

  function Or(x: nat, y: nat): nat {
    if x == 0 then y
    else if y == 0 then x
    else 2 * Or(x / 2, y / 2) + (if x % 2 == 1 || y % 2 == 1 then 1 else 0)
  }

  /** The complement of a 64-bit word. */
  function Not(x: Word): Word {
    U64 - 1 - x
  }

  lemma {:induction false} ZeroHasNoBits(i: nat)
    ensures !Bit(0, i)
  {
    if i > 0 {
      ZeroHasNoBits(i - 1);
    }
  }

  lemma {:induction false} OrBit(x: nat, y: nat, i: nat)
    ensures Bit(Or(x, y), i) <==> Bit(x, i) || Bit(y, i)
    decreases i
  {
    ZeroHasNoBits(i);
    if x != 0 && y != 0 && i > 0 {
      OrBit(x / 2, y / 2, i - 1);
    }
  }

  lemma {:induction false} OrBound(x: nat, y: nat, k: nat)
    requires x < Pow2(k) && y < Pow2(k)
    ensures Or(x, y) < Pow2(k)
    decreases k
  {
    if x != 0 && y != 0 {
      OrBound(x / 2, y / 2, k - 1);
    }
  }

  lemma {:induction false} Pow2Bit(k: nat, i: nat)
    ensures Bit(Pow2(k), i) <==> i == k
    decreases i
  {
    if i > 0 {
      if k == 0 {
        ZeroHasNoBits(i - 1);
      } else {
        Pow2Bit(k - 1, i - 1);
      }
    }
  }

  /** Testing a word against a one-bit mask tests that bit. */
  lemma {:induction false} AndPow2(x: nat, k: nat)
    ensures And(x, Pow2(k)) != 0 <==> Bit(x, k)
    decreases k
  {
    if x == 0 {
      ZeroHasNoBits(k);
    } else if k > 0 {
      AndPow2(x / 2, k - 1);
    } else {
      assert And(x / 2, 0) == 0;
    }
  }

  /** Masking with m = 2^k - 1 is the remainder. */
  lemma {:induction false} AndLowMask(x: nat, m: nat, k: nat)
    requires m + 1 == Pow2(k)
    ensures And(x, m) == x % (m + 1)
    decreases k
  {
    if k == 0 || x == 0 {
      ModUnique(x, m + 1, if k == 0 then x else 0, 0);
    } else {
      LowMaskHalves(m, k);
      AndLowMask(x / 2, m / 2, k - 1);
      HalveMod(x, m / 2 + 1);
      AndOdd(x, m);
    }
  }

  lemma AndOdd(x: nat, m: nat)
    requires m % 2 == 1
    ensures And(x, m) == 2 * And(x / 2, m / 2) + x % 2
  {
  }

  lemma LowMaskHalves(m: nat, k: nat)
    requires 0 < k && m + 1 == Pow2(k)
    ensures m % 2 == 1 && m / 2 + 1 == Pow2(k - 1)
  {
  }

  lemma HalveMod(x: nat, p: nat)
    requires p >= 1
    ensures x % (2 * p) == 2 * ((x / 2) % p) + x % 2
  {
    var q, r := (x / 2) / p, (x / 2) % p;
    assert x / 2 == q * p + r;
    assert x == 2 * (q * p + r) + x % 2;
    assert 2 * (q * p) == q * (2 * p);
    ModUnique(x, 2 * p, q, 2 * r + x % 2);
  }

  lemma MulMono(a: nat, b: nat, p: nat)
    requires a <= b
    ensures a * p <= b * p
  {
  }

  lemma ModUnique(x: nat, p: nat, q: nat, r: nat)
    requires p >= 1 && x == q * p + r && r < p
    ensures x % p == r && x / p == q
  {
    var q2, r2 := x / p, x % p;
    assert x == q2 * p + r2 && 0 <= r2 < p;
    assert (q + 1) * p == q * p + p && (q2 + 1) * p == q2 * p + p;
    if q < q2 {
      MulMono(q + 1, q2, p);
    } else if q > q2 {
      MulMono(q2 + 1, q, p);
    }
  }

  lemma RoundDownFrom(base: nat, x: nat, size: nat)
    requires size >= 1 && base % size == 0 && base <= x
    ensures x - x % size == base + (x - base) / size * size
  {
    var b, q, r := base / size, (x - base) / size, (x - base) % size;
    assert base == b * size;
    assert x - base == q * size + r;
    assert (b + q) * size == b * size + q * size;
    ModUnique(x, size, b + q, r);
  }

  /** Masking with all ones of width `w` above the lowest `k` bits rounds down to a multiple of 2^k. */
  lemma {:induction false} AndHighMask(x: nat, m: nat, k: nat, w: nat)
    requires k <= w && x < Pow2(w) && m + Pow2(k) == Pow2(w)
    ensures And(x, m) == x - x % Pow2(k)
    decreases w
  {
    if k == 0 {
      AndLowMask(x, m, w);
      ModUnique(x, Pow2(w), 0, x);
    } else if x == 0 || m == 0 {
      ModUnique(x, Pow2(k), 0, x);
    } else {
      HighMaskHalves(m, k, w);
      AndHighMask(x / 2, m / 2, k - 1, w - 1);
      HalveMod(x, Pow2(k - 1));
    }
  }

  lemma HighMaskHalves(m: nat, k: nat, w: nat)
    requires 0 < k <= w && m + Pow2(k) == Pow2(w)
    ensures m % 2 == 0 && m / 2 + Pow2(k - 1) == Pow2(w - 1)
  {
  }

  /** `x & !(a - 1)` for a power-of-two `a`. */
  lemma AlignDown(x: Word, k: nat)
    requires k < 64
    ensures Pow2(k) < U64
    ensures And(x, Not(Pow2(k) - 1)) == x - x % Pow2(k)
  {
    Pow2At64();
    Pow2Grows(k, 63);
    AndHighMask(x, Not(Pow2(k) - 1), k, 64);
  }
}

/**
The bits of a number, and what shifts, masks and `|` do to them.
*/
module Bits {
  import opened Basics

  predicate Bit(x: nat, k: nat) {
    if k == 0 then x % 2 == 1 else Bit(x / 2, k - 1)
  }

  /** `x >> n` */
  function Shifted(x: nat, n: nat): nat {
    if n == 0 then x else Shifted(x / 2, n - 1)
  }

  /** `x & ((1 << m) - 1)` */
  function Masked(x: nat, m: nat): nat {
    if m == 0 then 0 else 2 * Masked(x / 2, m - 1) + x % 2
  }

  /** Both together take a number apart. */
  lemma {:induction false} Apart(x: nat, n: nat)
    ensures x == Shifted(x, n) * Pow2(n) + Masked(x, n) && Masked(x, n) < Pow2(n)
    decreases n
  {
    if n > 0 {
      Apart(x / 2, n - 1);
      var q := Shifted(x, n);
      assert q * (2 * Pow2(n - 1)) == 2 * (q * Pow2(n - 1));
    }
  }

  lemma {:induction false} Divided(x: nat, n: nat, d: nat)
    requires d == Pow2(n)
    ensures x == Shifted(x, n) * d + Masked(x, n) && Masked(x, n) < d
  {
    Apart(x, n);
  }

  lemma {:induction false} ShiftedTwice(x: nat, n: nat, m: nat)
    ensures Shifted(Shifted(x, n), m) == Shifted(x, n + m)
    decreases n
  {
    if n > 0 { ShiftedTwice(x / 2, n - 1, m); }
  }

  lemma {:induction false} BitShifted(x: nat, n: nat, k: nat)
    ensures Bit(Shifted(x, n), k) == Bit(x, n + k)
    decreases n
  {
    if n > 0 {
      BitShifted(x / 2, n - 1, k);
    }
  }

  lemma {:induction false} BitMasked(x: nat, m: nat, k: nat)
    ensures Bit(Masked(x, m), k) <==> k < m && Bit(x, k)
    decreases m
  {
    if m == 0 {
      ZeroBits(k);
    } else if k > 0 {
      BitMasked(x / 2, m - 1, k - 1);
    }
  }

  lemma {:induction false} ZeroBits(k: nat)
    ensures !Bit(0, k)
    decreases k
  {
    if k > 0 { ZeroBits(k - 1); }
  }

  /** A field of `m` bits from bit `n` on. */
  lemma {:induction false} BitField(x: nat, n: nat, m: nat, k: nat)
    ensures Bit(Masked(Shifted(x, n), m), k) <==> k < m && Bit(x, n + k)
  {
    BitMasked(Shifted(x, n), m, k);
    BitShifted(x, n, k);
  }

  /** `x << m | low` */
  lemma {:induction false} BitJoined(x: nat, m: nat, low: nat, k: nat)
    requires low < Pow2(m)
    ensures Bit(x * Pow2(m) + low, k) == if k < m then Bit(low, k) else Bit(x, k - m)
    decreases m
  {
    if m > 0 {
      var y := x * Pow2(m) + low;
      assert y == 2 * (x * Pow2(m - 1)) + low by { assert x * (2 * Pow2(m - 1)) == 2 * (x * Pow2(m - 1)); }
      assert y / 2 == x * Pow2(m - 1) + low / 2 && y % 2 == low % 2;
      if k > 0 { BitJoined(x, m - 1, low / 2, k - 1); }
    }
  }

  /** No number is less than a power of two and has a bit at or above it. */
  lemma {:induction false} BitsBelow(x: nat, m: nat, k: nat)
    requires x < Pow2(m) && k >= m
    ensures !Bit(x, k)
    decreases m
  {
    if m == 0 { ZeroBits(k); } else { BitsBelow(x / 2, m - 1, k - 1); }
  }
}

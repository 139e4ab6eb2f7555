/** Bitwise OR and bit fields of non-negative machine words, as arithmetic. */
module Bits {

  function Pow2(n: nat): (r: int)
    ensures r >= 1
  {
    if n == 0 then 1 else 2 * Pow2(n - 1)
  }

  /** Bitwise inclusive OR. */
  function BitOr(a: nat, b: nat): nat
    decreases a + b
  {
    if a == 0 then b
    else if b == 0 then a
    else (if a % 2 == 1 || b % 2 == 1 then 1 else 0) + 2 * BitOr(a / 2, b / 2)
  }

  /** Bit k of a number. */
  predicate Bit(a: nat, k: nat)
    decreases k
  {
    if k == 0 then a % 2 == 1 else Bit(a / 2, k - 1)
  }

  lemma {:induction false} NoBits(k: nat)
    ensures !Bit(0, k)
    decreases k
  {
    if k > 0 { NoBits(k - 1); }
  }

  /** Bit by bit: the OR has exactly the bits of either side. */
  lemma {:induction false} BitOrBits(a: nat, b: nat, k: nat)
    ensures Bit(BitOr(a, b), k) <==> Bit(a, k) || Bit(b, k)
    decreases k
  {
    NoBits(k);
    if a > 0 && b > 0 && k > 0 {
      var rest := BitOr(a / 2, b / 2);
      assert BitOr(a, b) / 2 == rest;
      BitOrBits(a / 2, b / 2, k - 1);
    }
  }

  /**
   * FIELD_PREP() and FIELD_GET() of a field of `span` values whose lowest bit is worth `unit`,
   * both powers of two: shift and mask.
   */
  function FieldPrep(v: nat, unit: nat, span: nat): nat
    requires 0 < span
  {
    (v % span) * unit
  }

  function FieldGet(w: nat, unit: nat, span: nat): nat
    requires 0 < span && 0 < unit
  {
    w / unit % span
  }

  /** Left shift. */
  function Shl(a: nat, k: nat): nat
    decreases k
  {
    if k == 0 then a else 2 * Shl(a, k - 1)
  }

  lemma {:induction false} ShlIsProduct(a: nat, k: nat)
    ensures Shl(a, k) == a * Pow2(k)
    decreases k
  {
    if k > 0 {
      ShlIsProduct(a, k - 1);
      assert a * (2 * Pow2(k - 1)) == 2 * (a * Pow2(k - 1));
    }
  }

  lemma {:induction false} OrDouble(x: nat, y: nat, bit: nat)
    requires bit < 2
    ensures BitOr(2 * x + bit, 2 * y) == 2 * BitOr(x, y) + bit
    ensures BitOr(2 * y, 2 * x + bit) == 2 * BitOr(y, x) + bit
  {
  }

  /** An OR without common bits stays one when both sides are shifted and low bits join one of them. */
  lemma {:induction false} OrShifted(a: nat, b: nat, k: nat, lo: nat)
    requires BitOr(a, b) == a + b && lo < Pow2(k)
    ensures BitOr(Shl(a, k) + lo, Shl(b, k)) == Shl(a, k) + lo + Shl(b, k)
    decreases k
  {
    if k > 0 {
      OrShifted(a, b, k - 1, lo / 2);
      OrDouble(Shl(a, k - 1) + lo / 2, Shl(b, k - 1), lo % 2);
      hide BitOr;
    }
  }

  /** OR of a value below 2^k and a multiple of 2^k is their sum, in either order. */
  lemma {:induction false} BitOrDisjoint(hi: nat, k: nat, lo: nat)
    requires lo < Pow2(k)
    ensures BitOr(lo, Shl(hi, k)) == lo + Shl(hi, k)
    ensures BitOr(Shl(hi, k), lo) == lo + Shl(hi, k)
    decreases k
  {
    if k > 0 {
      BitOrDisjoint(hi, k - 1, lo / 2);
      OrDouble(lo / 2, Shl(hi, k - 1), lo % 2);
      hide BitOr;
    }
  }

  lemma Powers()
    ensures Pow2(2) == 4 && Pow2(6) == 0x40 && Pow2(8) == 0x100 && Pow2(10) == 0x400
    ensures Pow2(16) == 0x1_0000 && Pow2(24) == 0x100_0000 && Pow2(25) == 0x200_0000
    ensures Pow2(26) == 0x400_0000 && Pow2(29) == 0x2000_0000
  {
    assert Pow2(8) == 0x100;
    assert Pow2(16) == 0x1_0000;
    assert Pow2(24) == 0x100_0000;
    assert Pow2(26) == 0x400_0000;
    assert Pow2(29) == 0x2000_0000;
  }

  /** The shifts the register words use, as multiplications by constants. */
  lemma {:induction false} OrAt(hi: nat, k: nat, unit: nat, lo: nat)
    requires (k == 2 && unit == 4) || (k == 6 && unit == 0x40) || (k == 8 && unit == 0x100)
          || (k == 10 && unit == 0x400) || (k == 16 && unit == 0x1_0000)
          || (k == 24 && unit == 0x100_0000) || (k == 25 && unit == 0x200_0000)
          || (k == 26 && unit == 0x400_0000) || (k == 29 && unit == 0x2000_0000)
    requires lo < unit
    ensures BitOr(lo, hi * unit) == lo + hi * unit
    ensures BitOr(hi * unit, lo) == lo + hi * unit
  {
    hide BitOr, Pow2, Shl;
    Powers();
    BitOrDisjoint(hi, k, lo);
    ShlIsProduct(hi, k);
  }
}

/** Machine arithmetic of the kernel drivers, written out over unbounded integers. */
module Arith {

  const U32_SPAN := 0x1_0000_0000
  const U64_SPAN := 0x1_0000_0000_0000_0000

  type u32 = x: int | 0 <= x < 0x1_0000_0000

  /** Conversion of a C integer to `u32`. */
  function ToU32(x: int): u32 { x % U32_SPAN }

  /** Conversion of a C integer to a 32-bit `int`. */
  function ToInt(x: int): int {
    var u := x % U32_SPAN;
    if u < 0x8000_0000 then u else u - U32_SPAN
  }

  lemma FitsUnchanged(x: int)
    ensures 0 <= x < U32_SPAN ==> ToU32(x) == x
    ensures 0 <= x < 0x8000_0000 ==> ToInt(x) == x
  {
  }

  /** C division: the quotient is truncated toward zero. */
  function TruncDiv(a: int, b: int): int
    requires 0 < b
  {
    if 0 <= a then a / b else -((-a) / b)
  }

  function Min(a: int, b: int): int { if a <= b then a else b }

  function Max(a: int, b: int): int { if a <= b then b else a }

  /** The kernel's clamp(): the upper bound is tested first. */
  function Clamp(v: int, lo: int, hi: int): int {
    if v >= hi then hi else if v <= lo then lo else v
  }

  function Distance(a: int, b: int): nat { if a <= b then b - a else a - b }

  /** The kernel's roundup() on signed integers. */
  function RoundUp(x: int, step: int): int
    requires 0 < step
  {
    TruncDiv(x + (step - 1), step) * step
  }

  predicate Aligned(x: int, step: int)
    requires 0 < step
  {
    x % step == 0
  }

  lemma MulMono(a: int, b: int, c: int)
    requires a <= b && 0 <= c
    ensures a * c <= b * c
  {
    assert 0 <= (b - a) * c;
  }

  /** Quotient and remainder are unique. */
  lemma DivModUnique(x: int, d: int, q: int, r: int)
    requires 0 < d && 0 <= r < d && x == q * d + r
    ensures x / d == q && x % d == r
  {
    var dq := x / d - q;
    assert dq * d == r - x % d;
    assert dq >= 1 ==> dq * d >= d;
    assert dq <= -1 ==> dq * d <= -d;
  }

  lemma MulMod(q: int, step: int)
    requires 0 < step
    ensures (q * step) % step == 0
    ensures (q * step) / step == q
  {
    DivModUnique(q * step, step, q, 0);
  }

  lemma DivMono(a: int, b: int, d: int)
    requires 0 < d && a <= b
    ensures a / d <= b / d
  {
    var k := a / d - b / d;
    assert k * d == a - b - a % d + b % d;
    assert k >= 1 ==> k * d >= d;
  }

  /** roundup() never rounds down, whatever the sign, and lands on a multiple of the step. */
  lemma RoundUpNeverDown(x: int, step: int)
    requires 0 < step
    ensures x <= RoundUp(x, step) && Aligned(RoundUp(x, step), step)
  {
    var q := TruncDiv(x + (step - 1), step);
    MulMod(q, step);
    if x + (step - 1) < 0 {
      var n := -(x + (step - 1));
      assert n / step * step <= n;
    }
  }

  /** roundup() of a non-negative value is the least multiple of the step at or above it. */
  lemma RoundUpNonNegative(x: int, step: int)
    requires 0 < step && 0 <= x
    ensures Aligned(RoundUp(x, step), step)
    ensures x <= RoundUp(x, step) < x + step
  {
    MulMod((x + (step - 1)) / step, step);
  }

  lemma RoundUpLeast(x: int, step: int, y: int)
    requires 0 < step && 0 <= x <= y && Aligned(y, step)
    ensures RoundUp(x, step) <= y
  {
    RoundUpNonNegative(x, step);
    var k := RoundUp(x, step) / step - y / step;
    assert k * step == RoundUp(x, step) - y;
    assert k >= 1 ==> k * step >= step;
  }

  lemma RoundUpMono(x: int, y: int, step: int)
    requires 0 < step && 0 <= x <= y
    ensures RoundUp(x, step) <= RoundUp(y, step)
  {
    RoundUpNonNegative(y, step);
    RoundUpLeast(x, step, RoundUp(y, step));
  }

  lemma RoundUpAligned(x: int, step: int)
    requires 0 < step && 0 <= x && Aligned(x, step)
    ensures RoundUp(x, step) == x
  {
    RoundUpNonNegative(x, step);
    RoundUpLeast(x, step, x);
  }
}

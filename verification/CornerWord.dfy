/** The word of one row of the CPRh corner table (the packing loop of cpr3_corner_init()). */
module CornerWord {
  import opened Arith
  import opened Bits

  /** DIV_ROUND_UP() on `u32` operands. */
  function DivRoundUp32(n: u32, d: u32): u32
    requires 0 < d
    ensures DivRoundUp32(n, d) == ToU32(n + d - 1) / d
  {
    var q := ToU32(n + d - 1) / d;
    QuotientFits(ToU32(n + d - 1), d);
    q
  }

  lemma QuotientFits(x: u32, d: u32)
    requires 0 < d
    ensures 0 <= x / d <= x
  {
    assert x / d * d <= x;
    MulMono(1, d, x / d);
  }

  /** Regulator steps above the base voltage, as the C `int` they are stored in. */
  function VoltageSteps(uV: int, baseUV: u32, step: u32): int
    requires 0 < step
  {
    ToInt(DivRoundUp32(ToU32(uV - baseUV), step))
  }

  /** Quarter-quotient steps above the smallest quotient of the thread. */
  function DeltaSteps(quot: int, quotAdjust: int, minQuotient: u32): int {
    ToInt(DivRoundUp32(ToU32(ToU32(quot - quotAdjust) - minQuotient), 4))
  }

  predicate FieldsAccepted(oloop: int, floor: int, delta: int) {
    !(oloop > 255 || floor > 255 || delta > 511)
  }

  /** The packed word; every field is converted to u32, shifted and masked. */
  function Word(oloop: int, floor: int, delta: int, ro: nat, openLoop: bool): nat {
    var w1 := BitOr(FieldPrep(ToU32(oloop), 1, 0x100), FieldPrep(ToU32(floor), 0x100, 0x100));
    var w2 := BitOr(w1, FieldPrep(ToU32(delta), 0x1_0000, 0x200));
    var w3 := BitOr(w2, FieldPrep(ro, 0x200_0000, 16));
    if openLoop then BitOr(w3, 0x2000_0000) else w3
  }

  function InitVoltageOf(w: nat): nat { FieldGet(w, 1, 0x100) }
  function FloorVoltageOf(w: nat): nat { FieldGet(w, 0x100, 0x100) }
  function QuotDeltaOf(w: nat): nat { FieldGet(w, 0x1_0000, 0x200) }
  function RoSelectOf(w: nat): nat { FieldGet(w, 0x200_0000, 16) }
  predicate ClosedLoopDisabledIn(w: nat) { FieldGet(w, 0x2000_0000, 2) == 1 }

  /** The fields occupy disjoint bits: their OR is their weighted sum, whatever was masked away. */
  lemma {:induction false} WordIsSum(oloop: int, floor: int, delta: int, ro: nat, openLoop: bool)
    ensures Word(oloop, floor, delta, ro, openLoop)
         == ToU32(oloop) % 0x100 + ToU32(floor) % 0x100 * 0x100 + ToU32(delta) % 0x200 * 0x1_0000
            + ro % 16 * 0x200_0000 + (if openLoop then 0x2000_0000 else 0)
  {
    hide BitOr;
    OrOfFields(ToU32(oloop) % 0x100, ToU32(floor) % 0x100, ToU32(delta) % 0x200, ro % 16);
  }

  lemma {:induction false} OrOfFields(a: nat, b: nat, c: nat, d: nat)
    requires a <= 255 && b <= 255 && c <= 511 && d < 16
    ensures var o2, o3 := a + b * 0x100, a + b * 0x100 + c * 0x1_0000;
            var o4 := o3 + d * 0x200_0000;
            && BitOr(a, b * 0x100) == o2 && BitOr(o2, c * 0x1_0000) == o3
            && BitOr(o3, d * 0x200_0000) == o4 && BitOr(o4, 0x2000_0000) == o4 + 0x2000_0000
  {
    hide BitOr;
    var o2, o3 := a + b * 0x100, a + b * 0x100 + c * 0x1_0000;
    OrAt(b, 8, 0x100, a);
    OrAt(c, 16, 0x1_0000, o2);
    OrAt(d, 25, 0x200_0000, o3);
    OrAt(1, 29, 0x2000_0000, o3 + d * 0x200_0000);
  }

  /** A word whose fields fit decodes to exactly those five fields, and uses no other bit. */
  lemma WordDecodes(oloop: int, floor: int, delta: int, ro: nat, openLoop: bool)
    requires 0 <= oloop <= 255 && 0 <= floor <= 255 && 0 <= delta <= 511 && ro < 16
    ensures var w := Word(oloop, floor, delta, ro, openLoop);
            && InitVoltageOf(w) == oloop && FloorVoltageOf(w) == floor && QuotDeltaOf(w) == delta
            && RoSelectOf(w) == ro && ClosedLoopDisabledIn(w) == openLoop && w < 0x4000_0000
  {
    hide BitOr, Word;
    WordIsSum(oloop, floor, delta, ro, openLoop);
    assert ToU32(oloop) % 0x100 == oloop && ToU32(floor) % 0x100 == floor && ToU32(delta) % 0x200 == delta by {
      FitsUnchanged(oloop);
      FitsUnchanged(floor);
      FitsUnchanged(delta);
    }
    FiveFields(Word(oloop, floor, delta, ro, openLoop), oloop, floor, delta, ro, if openLoop then 1 else 0);
  }

  lemma FiveFields(w: nat, a: int, b: int, c: int, d: int, e: int)
    requires 0 <= a < 0x100 && 0 <= b < 0x100 && 0 <= c < 0x200 && 0 <= d < 16 && 0 <= e < 2
    requires w == a + b * 0x100 + c * 0x1_0000 + d * 0x200_0000 + e * 0x2000_0000
    ensures w % 0x100 == a && w / 0x100 % 0x100 == b && w / 0x1_0000 % 0x200 == c
    ensures w / 0x200_0000 % 16 == d && w / 0x2000_0000 % 2 == e
  {
    var q1, q2, q3 := b + c * 0x100 + d * 0x2_0000 + e * 0x20_0000, c + d * 0x200 + e * 0x2000, d + e * 16;
    DivModUnique(w, 0x100, q1, a);
    DivModUnique(q1, 0x100, q2, b);
    DivModUnique(w, 0x1_0000, q2, a + b * 0x100);
    DivModUnique(q2, 0x200, q3, c);
    DivModUnique(w, 0x200_0000, q3, a + b * 0x100 + c * 0x1_0000);
    DivModUnique(q3, 16, e, d);
    DivModUnique(w, 0x2000_0000, e, a + b * 0x100 + c * 0x1_0000 + d * 0x200_0000);
  }

  /** Base voltage in regulator steps, rounded up. */
  function BaseSteps(baseUV: u32, step: u32): int
    requires 0 < step
  {
    (baseUV + step - 1) / step
  }

  /** The control register's base field: those steps, masked to ten bits. */
  function BaseField(baseUV: u32, step: u32): nat
    requires 0 < step
  {
    DivRoundUp32(baseUV, step) % 0x400
  }

  /** The control register's multiplier: the step in whole millivolts, rounded up and masked to four bits. */
  function MultiplierField(step: u32): nat
    requires 0 < step
  {
    DivRoundUp32(step, 1000) % 16
  }

  /** Voltage the controller takes a corner field for, from the two control fields. */
  function DecodedUV(field: nat, baseUV: u32, step: u32): int
    requires 0 < step
  {
    (BaseField(baseUV, step) + field) * (MultiplierField(step) * 1000)
  }

  /** The step is a whole number of millivolts, and both control fields hold what is written to them. */
  predicate ControlFits(baseUV: u32, step: u32)
    requires 0 < step
  {
    step % 1000 == 0 && step <= 15000 && BaseSteps(baseUV, step) <= 1023
  }

  lemma MultiplierIs(step: u32)
    requires 0 < step < 0x1_0000
    ensures step <= 15000 ==> step <= MultiplierField(step) * 1000
    ensures step <= 15000 && step % 1000 == 0 <==> MultiplierField(step) * 1000 == step
  {
    FitsUnchanged(step + 999);
    var q := (step + 999) / 1000;
    assert q <= 66;
  }

  lemma BaseFieldIs(baseUV: u32, step: u32)
    requires 0 < step < 0x1_0000 && baseUV < 0x8000_0000
    ensures 0 <= BaseField(baseUV, step) <= 1023
    ensures BaseSteps(baseUV, step) <= 1023 <==> BaseField(baseUV, step) == BaseSteps(baseUV, step)
  {
    FitsUnchanged(baseUV + step - 1);
    QuotientFits(baseUV + step - 1, step);
    var q := BaseSteps(baseUV, step);
    assert BaseField(baseUV, step) == q % 0x400 by { hide BaseSteps; }
  }

  /**
   * The controller counts in the driver's regulator steps, for every field, exactly when the step is a
   * whole number of millivolts up to 15 and the base takes at most 1023 steps.
   */
  lemma ControlExactIff(baseUV: u32, step: u32)
    requires 0 < step < 0x1_0000 && baseUV < 0x8000_0000
    ensures (forall field: nat :: field <= 255 ==>
               DecodedUV(field, baseUV, step) == (BaseSteps(baseUV, step) + field) * step)
            <==> ControlFits(baseUV, step)
  {
    MultiplierIs(step);
    BaseFieldIs(baseUV, step);
    hide MultiplierField, BaseField, BaseSteps;
    var b, m, s := BaseField(baseUV, step), MultiplierField(step) * 1000, BaseSteps(baseUV, step);
    assert ControlFits(baseUV, step) <==> b == s && m == step;
    hide ControlFits;
    if forall field: nat :: field <= 255 ==> DecodedUV(field, baseUV, step) == (s + field) * step {
      assert DecodedUV(0, baseUV, step) == b * m && DecodedUV(1, baseUV, step) == (b + 1) * m;
      assert b * m == s * step && b * m + m == s * step + step;
      SameFactor(b, s, step);
    }
  }

  lemma SameFactor(a: int, b: int, c: int)
    requires 0 < c
    ensures a * c == b * c ==> a == b
  {
    MulMod(a, c);
    MulMod(b, c);
  }

  /**
   * When the field of a voltage is accepted. It goes negative exactly for a 1 uV step and a request
   * (no more than 2^31 below) under the base. Up to 255 steps over the base are accepted; below the
   * base, requests within a step of it and whatever went negative, while others wrap to huge numbers.
   */
  lemma AcceptedVoltages(uV: int, baseUV: u32, step: u32)
    requires 1 <= step < 0x1_0000 && baseUV < 0x8000_0000 && -0x4000_0000 <= uV < 0x8000_0000 - step
    ensures 0 <= VoltageSteps(uV, baseUV, step)
            <==> step >= 2 || baseUV <= uV || uV < baseUV - 0x8000_0000
    ensures VoltageSteps(uV, baseUV, step) <= 255
            <==> uV <= baseUV + 255 * step
                 && if step == 1 then baseUV - 0x8000_0000 <= uV else baseUV - step < uV
    ensures uV >= baseUV ==> VoltageSteps(uV, baseUV, step) == (uV - baseUV + step - 1) / step
    ensures step >= 2 && baseUV - step < uV <= baseUV ==> VoltageSteps(uV, baseUV, step) == 0
    ensures step == 1 && baseUV - 0x8000_0000 <= uV ==> VoltageSteps(uV, baseUV, step) == uV - baseUV
  {
    if uV >= baseUV {
      StepsAtOrAbove(uV - baseUV, step);
      CeilUpTo(uV - baseUV, step, 255);
      if uV == baseUV { DivModUnique(step - 1, step, 0, step - 1); }
    } else if step == 1 {
      StepsOfOne(uV - baseUV);
    } else {
      StepsBelow(uV - baseUV, step);
    }
  }

  /** A difference below zero, in steps of 1 uV: the quotient is the wrapped difference itself. */
  lemma StepsOfOne(d: int)
    requires -0xC000_0000 <= d < 0
    ensures ToInt(DivRoundUp32(ToU32(d), 1)) == if -0x8000_0000 <= d then d else d + U32_SPAN
  {
    assert ToU32(d) == d + U32_SPAN by { DivModUnique(d, U32_SPAN, -1, d + U32_SPAN); }
    FitsUnchanged(d + U32_SPAN);
    assert DivRoundUp32(ToU32(d), 1) == d + U32_SPAN;
  }

  lemma StepsAtOrAbove(d: int, step: u32)
    requires 1 <= step < 0x1_0000 && 0 <= d < 0x8000_0000 - step
    ensures ToInt(DivRoundUp32(ToU32(d), step)) == (d + step - 1) / step
  {
    FitsUnchanged(d);
    FitsUnchanged(d + step - 1);
    QuotientFits(d + step - 1, step);
    FitsUnchanged((d + step - 1) / step);
  }

  lemma StepsBelow(d: int, step: u32)
    requires 2 <= step < 0x1_0000 && -0xC000_0000 <= d < 0
    ensures 0 - step < d ==> ToInt(DivRoundUp32(ToU32(d), step)) == 0
    ensures d <= 0 - step ==> 255 < ToInt(DivRoundUp32(ToU32(d), step))
  {
    assert ToU32(d) == d + U32_SPAN by { DivModUnique(d, U32_SPAN, -1, d + U32_SPAN); }
    var n := d + U32_SPAN + step - 1;
    if 0 - step < d {
      assert ToU32(n) == n - U32_SPAN by { DivModUnique(n, U32_SPAN, 1, n - U32_SPAN); }
      DivModUnique(n - U32_SPAN, step, 0, n - U32_SPAN);
      FitsUnchanged(0);
    } else {
      FitsUnchanged(n);
      HugeQuotient(n, step);
      FitsUnchanged(n / step);
    }
  }

  lemma CeilUpTo(d: int, step: int, k: int)
    requires 0 < step && 0 <= d && 0 <= k
    ensures 0 <= (d + step - 1) / step
    ensures (d + step - 1) / step <= k <==> d <= k * step
    ensures d <= (d + step - 1) / step * step < d + step
  {
    var q := (d + step - 1) / step;
    assert q * step <= d + step - 1 < q * step + step;
    if q <= k { MulMono(q, k, step); }
    if k + 1 <= q { MulMono(k + 1, q, step); }
    if q < 0 { MulMono(q, -1, step); }
  }

  lemma HugeQuotient(n: int, step: int)
    requires 2 <= step < 0x1_0000 && 0x4000_0000 <= n < U32_SPAN
    ensures 255 < n / step < 0x8000_0000
  {
    var q := n / step;
    assert q * step <= n < q * step + step;
    if q <= 255 { MulMono(q, 255, step); }
    if q >= 0x8000_0000 { MulMono(2, step, q); }
  }

  /**
   * The voltage the controller takes an accepted field for is never below the requested one, as long as the
   * control fields hold step and base; with a step of whole millivolts and a step-aligned base it is less
   * than one step above any request at or above the base.
   */
  lemma DecodedNeverBelow(uV: int, baseUV: u32, step: u32)
    requires 2 <= step <= 15000 && BaseSteps(baseUV, step) <= 1023
    requires baseUV < 0x8000_0000 && -0x4000_0000 <= uV < 0x8000_0000 - step
    requires VoltageSteps(uV, baseUV, step) <= 255
    ensures 0 <= VoltageSteps(uV, baseUV, step)
    ensures uV <= DecodedUV(VoltageSteps(uV, baseUV, step), baseUV, step)
    ensures ControlFits(baseUV, step) && Aligned(baseUV, step) && baseUV <= uV
            ==> DecodedUV(VoltageSteps(uV, baseUV, step), baseUV, step) < uV + step
  {
    hide *;
    BaseStepsCover(baseUV, step);
    FieldCovers(uV, baseUV, step);
    var b, f, mult := BaseSteps(baseUV, step), VoltageSteps(uV, baseUV, step), MultiplierField(step) * 1000;
    DecodedIs(f, baseUV, step);
    Combined(uV, baseUV, b, f, step, mult);
  }

  lemma DecodedIs(field: nat, baseUV: u32, step: u32)
    requires 0 < step <= 15000 && baseUV < 0x8000_0000 && BaseSteps(baseUV, step) <= 1023
    ensures DecodedUV(field, baseUV, step) == (BaseSteps(baseUV, step) + field) * (MultiplierField(step) * 1000)
    ensures step <= MultiplierField(step) * 1000
    ensures ControlFits(baseUV, step) ==> MultiplierField(step) * 1000 == step
  {
    MultiplierIs(step);
    BaseFieldIs(baseUV, step);
    hide MultiplierField, BaseField, BaseSteps;
  }

  lemma Combined(uV: int, base: int, b: int, f: int, step: int, mult: int)
    requires 0 <= b && 0 <= f && 0 < step <= mult && base <= b * step && uV - base <= f * step
    ensures uV <= (b + f) * mult
    ensures mult == step && b * step == base && f * step < uV - base + step ==> (b + f) * mult < uV + step
  {
    var n := b + f;
    assert n * step == b * step + f * step;
    MulMono(step, mult, n);
    assert n * mult == mult * n && n * step == step * n;
  }

  lemma BaseStepsCover(baseUV: u32, step: u32)
    requires 0 < step
    ensures 0 <= BaseSteps(baseUV, step) && baseUV <= BaseSteps(baseUV, step) * step
    ensures Aligned(baseUV, step) ==> BaseSteps(baseUV, step) * step == baseUV
  {
    CeilUpTo(baseUV, step, 0);
    if Aligned(baseUV, step) {
      DivModUnique(baseUV + step - 1, step, baseUV / step, step - 1);
    }
  }

  lemma FieldCovers(uV: int, baseUV: u32, step: u32)
    requires 2 <= step < 0x1_0000 && baseUV < 0x8000_0000 && -0x4000_0000 <= uV < 0x8000_0000 - step
    requires VoltageSteps(uV, baseUV, step) <= 255
    ensures var f := VoltageSteps(uV, baseUV, step);
            && 0 <= f && uV - baseUV <= f * step
            && (baseUV <= uV ==> f * step < uV - baseUV + step)
  {
    AcceptedVoltages(uV, baseUV, step);
    hide VoltageSteps;
    if uV >= baseUV { CeilUpTo(uV - baseUV, step, 0); }
  }

  /** With a 1 uV step every request under the base, however far, is accepted and packed modulo 256. */
  lemma PackedBelowBase(uV: int, baseUV: u32)
    requires 0 <= uV < baseUV < 0x8000_0000
    ensures var f := VoltageSteps(uV, baseUV, 1);
            && f == uV - baseUV && FieldsAccepted(f, 0, 0)
            && InitVoltageOf(Word(f, 0, 0, 0, false)) == (uV - baseUV) % 0x100
  {
    AcceptedVoltages(uV, baseUV, 1);
    hide Word, VoltageSteps;
    LowByte(uV - baseUV);
  }

  lemma LowByte(f: int)
    requires -0x8000_0000 <= f < 0
    ensures InitVoltageOf(Word(f, 0, 0, 0, false)) == f % 0x100
  {
    WordIsSum(f, 0, 0, 0, false);
    hide Word;
    assert ToU32(f) == f + U32_SPAN by { DivModUnique(f, U32_SPAN, -1, f + U32_SPAN); }
    var q, r := f / 0x100, f % 0x100;
    assert f + U32_SPAN == (q + 0x100_0000) * 0x100 + r;
    DivModUnique(f + U32_SPAN, 0x100, q + 0x100_0000, r);
    assert ToU32(0) == 0;
  }

  /** One microvolt below the base is packed as the highest voltage. */
  lemma OneMicrovoltStepWraps()
    ensures VoltageSteps(399999, 400000, 1) == -1
    ensures FieldsAccepted(VoltageSteps(399999, 400000, 1), 0, 0)
    ensures InitVoltageOf(Word(VoltageSteps(399999, 400000, 1), 0, 0, 0, false)) == 255
  {
    PackedBelowBase(399999, 400000);
  }

  /** The delta field: against a minimum it never goes below, it decodes into [quotient, quotient + 4). */
  lemma DeltaCovers(quot: int, quotAdjust: int, minQuotient: u32)
    requires minQuotient <= quot - quotAdjust < 0x8000_0000
    ensures 0 <= DeltaSteps(quot, quotAdjust, minQuotient)
    ensures var decoded := minQuotient + 4 * DeltaSteps(quot, quotAdjust, minQuotient);
            quot - quotAdjust <= decoded < quot - quotAdjust + 4
  {
    var d := quot - quotAdjust - minQuotient;
    FitsUnchanged(quot - quotAdjust);
    FitsUnchanged(d);
    FitsUnchanged(d + 3);
    QuotientFits(d + 3, 4);
    FitsUnchanged((d + 3) / 4);
  }
}

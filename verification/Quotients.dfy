/**
 * Target quotients of the corners (cpr3_corner_init()): when the forced increase makes them rise with the
 * corners, when it makes them fall, and when it never acts.
 */
module Quotients {
  import opened Arith
  import opened Wrappers
  import opened FuseVoltage
  import opened CornerTable

  /** Every corner has an adjustment, and quotients and adjustments are far from the ends of `int`. */
  ghost predicate QuotientsDefined(cdata: seq<CornerData>, fuses: seq<FuseCorner>, qs: seq<QuotScale>) {
    && InFuses(cdata, fuses, qs)
    && (forall f :: 0 <= f < |fuses| ==> 0 <= fuses[f].quot < 0x2000_0000)
    && forall i :: 0 <= i < |cdata| ==>
         OwnAdjust(cdata[i], fuses, qs).Some? && -0x4000_0000 < OwnAdjust(cdata[i], fuses, qs).value < 0x4000_0000
  }

  lemma {:induction false} AdjustInRange(cdata: seq<CornerData>, i: nat, fuses: seq<FuseCorner>, qs: seq<QuotScale>)
    requires QuotientsDefined(cdata, fuses, qs) && i < |cdata|
    ensures AdjustAt(cdata, i, fuses, qs).Some? && -0x4000_0000 < AdjustAt(cdata, i, fuses, qs).value < 0x4000_0000
  {
    hide OwnAdjust, Falls;
    if i > 0 {
      AdjustInRange(cdata, i - 1, fuses, qs);
      Difference(fuses[cdata[i - 1].fuse].quot, fuses[cdata[i].fuse].quot);
    }
  }

  /** A small difference is itself. */
  lemma Difference(a: int, b: int)
    requires 0 <= a < 0x2000_0000 && -0x4000_0000 < b < 0x4000_0000
    ensures ToInt(a - b) == a - b
  {
  }

  /** What the closed loop of corner i aims at. */
  function TargetQuot(cdata: seq<CornerData>, i: nat, fuses: seq<FuseCorner>, qs: seq<QuotScale>): int
    requires i < |cdata| && InFuses(cdata, fuses, qs) && AdjustAt(cdata, i, fuses, qs).Some?
  {
    fuses[cdata[i].fuse].quot - AdjustAt(cdata, i, fuses, qs).value
  }

  /** The forced increase acts on corner i. */
  ghost predicate ForcedAt(cdata: seq<CornerData>, i: nat, fuses: seq<FuseCorner>, qs: seq<QuotScale>)
    requires QuotientsDefined(cdata, fuses, qs) && 0 < i < |cdata| && AdjustAt(cdata, i - 1, fuses, qs).Some?
  {
    && cdata[i].fuse > 0
    && Falls(OwnAdjust(cdata[i], fuses, qs).value, fuses[cdata[i].fuse].quot,
             AdjustAt(cdata, i - 1, fuses, qs).value, fuses[cdata[i - 1].fuse].quot)
  }

  /** The corner before is adjusted up by no more than twice the step between the two fused quotients. */
  ghost predicate WithinTwice(cdata: seq<CornerData>, i: nat, fuses: seq<FuseCorner>, qs: seq<QuotScale>)
    requires QuotientsDefined(cdata, fuses, qs) && 0 < i < |cdata| && AdjustAt(cdata, i - 1, fuses, qs).Some?
  {
    -AdjustAt(cdata, i - 1, fuses, qs).value <= 2 * (fuses[cdata[i].fuse].quot - fuses[cdata[i - 1].fuse].quot)
  }

  /** The forced increase over plain numbers. */
  lemma RaisedRisesIff(own: int, quot: int, prevAdj: int, before: int)
    requires 0 <= quot < 0x2000_0000 && 0 <= before < 0x2000_0000
    requires -0x4000_0000 < own < 0x4000_0000 && -0x4000_0000 < prevAdj < 0x4000_0000
    ensures before - prevAdj <= quot - Raised(own, quot, prevAdj, before)
            <==> (Falls(own, quot, prevAdj, before) ==> -prevAdj <= 2 * (quot - before))
  {
    Difference(quot, own);
    Difference(before, prevAdj);
    Difference(before, quot);
    hide ToInt;
  }

  lemma AdjustUnfolds(cdata: seq<CornerData>, i: nat, fuses: seq<FuseCorner>, qs: seq<QuotScale>)
    requires QuotientsDefined(cdata, fuses, qs) && 0 < i < |cdata| && AdjustAt(cdata, i - 1, fuses, qs).Some?
    requires cdata[i].fuse > 0
    ensures AdjustAt(cdata, i, fuses, qs)
         == Some(Raised(OwnAdjust(cdata[i], fuses, qs).value, fuses[cdata[i].fuse].quot,
                        AdjustAt(cdata, i - 1, fuses, qs).value, fuses[cdata[i - 1].fuse].quot))
  {
    hide OwnAdjust, Raised;
  }

  lemma StepRisesIff(cdata: seq<CornerData>, i: nat, fuses: seq<FuseCorner>, qs: seq<QuotScale>)
    requires QuotientsDefined(cdata, fuses, qs) && LevelsOrdered(cdata) && 0 < i < |cdata|
    ensures AdjustAt(cdata, i - 1, fuses, qs).Some? && AdjustAt(cdata, i, fuses, qs).Some?
    ensures TargetQuot(cdata, i - 1, fuses, qs) <= TargetQuot(cdata, i, fuses, qs)
            <==> (ForcedAt(cdata, i, fuses, qs) ==> WithinTwice(cdata, i, fuses, qs))
  {
    AdjustInRange(cdata, i - 1, fuses, qs);
    AdjustInRange(cdata, i, fuses, qs);
    InRange(cdata, i, fuses, qs);
    InRange(cdata, i - 1, fuses, qs);
    if cdata[i].fuse > 0 {
      AdjustUnfolds(cdata, i, fuses, qs);
      RaisedRisesIff(OwnAdjust(cdata[i], fuses, qs).value, fuses[cdata[i].fuse].quot,
                     AdjustAt(cdata, i - 1, fuses, qs).value, fuses[cdata[i - 1].fuse].quot);
    } else {
      FirstFuse(cdata, i - 1, fuses, qs);
    }
    hide OwnAdjust, AdjustAt, QuotientsDefined, Raised, Falls;
  }

  lemma InRange(cdata: seq<CornerData>, i: nat, fuses: seq<FuseCorner>, qs: seq<QuotScale>)
    requires QuotientsDefined(cdata, fuses, qs) && i < |cdata|
    ensures 0 <= fuses[cdata[i].fuse].quot < 0x2000_0000
    ensures -0x4000_0000 < OwnAdjust(cdata[i], fuses, qs).value < 0x4000_0000
  {
  }

  lemma FirstFuse(cdata: seq<CornerData>, i: nat, fuses: seq<FuseCorner>, qs: seq<QuotScale>)
    requires InFuses(cdata, fuses, qs) && LevelsOrdered(cdata) && i + 1 < |cdata| && cdata[i + 1].fuse == 0
    ensures cdata[i].fuse == 0
    ensures AdjustAt(cdata, i, fuses, qs) == Some(0) && AdjustAt(cdata, i + 1, fuses, qs) == Some(0)
  {
  }

  /** The targets of the corners. */
  ghost function TargetQuots(cdata: seq<CornerData>, fuses: seq<FuseCorner>, qs: seq<QuotScale>): (ts: seq<int>)
    requires QuotientsDefined(cdata, fuses, qs)
    requires forall i :: 0 <= i < |cdata| ==> AdjustAt(cdata, i, fuses, qs).Some?
    ensures |ts| == |cdata| && forall i :: 0 <= i < |cdata| ==> ts[i] == TargetQuot(cdata, i, fuses, qs)
  {
    seq(|cdata|, i requires 0 <= i < |cdata| => TargetQuot(cdata, i, fuses, qs))
  }

  predicate Rising(ts: seq<int>) {
    forall i, j :: 0 <= i <= j < |ts| ==> ts[i] <= ts[j]
  }

  predicate StepsUp(ts: seq<int>, i: nat)
    requires 0 < i < |ts|
  {
    ts[i - 1] <= ts[i]
  }

  lemma {:induction false} RisingByStep(ts: seq<int>)
    ensures Rising(ts) <==> forall i :: 0 < i < |ts| ==> StepsUp(ts, i)
  {
    if |ts| > 1 {
      var init, m := ts[..|ts| - 1], |ts| - 1;
      RisingByStep(init);
      assert ts[m - 1] == init[m - 1];
      forall i | 0 < i < m ensures StepsUp(init, i) == StepsUp(ts, i) {
      }
      assert StepsUp(ts, m) <==> ts[m - 1] <= ts[m];
      hide StepsUp;
      if Rising(init) && ts[m - 1] <= ts[m] {
        forall i, j | 0 <= i <= j < |ts| ensures ts[i] <= ts[j] {
          assert i < m ==> init[i] <= init[m - 1];
          assert j < m ==> init[i] <= init[j];
        }
      }
      if Rising(ts) { assert Rising(init); }
    }
  }

  lemma AllAdjusted(cdata: seq<CornerData>, fuses: seq<FuseCorner>, qs: seq<QuotScale>)
    requires QuotientsDefined(cdata, fuses, qs)
    ensures forall i :: 0 <= i < |cdata| ==> AdjustAt(cdata, i, fuses, qs).Some?
  {
    forall i | 0 <= i < |cdata| ensures AdjustAt(cdata, i, fuses, qs).Some? {
      AdjustInRange(cdata, i, fuses, qs);
    }
  }

  /**
   * The forced increase is there to make the quotients scale up with the corners. They do exactly when, wherever
   * it acts, the corner before was adjusted up by no more than twice the step between the two fused quotients:
   * it puts the fused quotients' difference in place of the targets'.
   */
  lemma QuotientsRiseIff(cdata: seq<CornerData>, fuses: seq<FuseCorner>, qs: seq<QuotScale>)
    requires QuotientsDefined(cdata, fuses, qs) && LevelsOrdered(cdata)
    ensures forall i :: 0 <= i < |cdata| ==> AdjustAt(cdata, i, fuses, qs).Some?
    ensures Rising(TargetQuots(cdata, fuses, qs))
            <==> forall i :: 0 < i < |cdata| && ForcedAt(cdata, i, fuses, qs) ==> WithinTwice(cdata, i, fuses, qs)
  {
    AllAdjusted(cdata, fuses, qs);
    var ts := TargetQuots(cdata, fuses, qs);
    hide *;
    RisingByStep(ts);
    forall i | 0 < i < |cdata|
      ensures StepsUp(ts, i) <==> (ForcedAt(cdata, i, fuses, qs) ==> WithinTwice(cdata, i, fuses, qs))
    {
      StepRisesIff(cdata, i, fuses, qs);
      StepIs(ts, i);
      assert ts[i - 1] == TargetQuot(cdata, i - 1, fuses, qs);
    }
  }

  lemma StepIs(ts: seq<int>, i: nat)
    requires 0 < i < |ts|
    ensures StepsUp(ts, i) <==> ts[i - 1] <= ts[i]
  {
  }

  /** Two fuse corners with an oscillator each, and four corners, three of them in the second fuse corner. */
  const TWO_FUSES := [FuseCorner(0, 0, 0, 500, 600_000_000, 1), FuseCorner(0, 0, 0, 600, 1_000_000_000, 2)]
  const TWO_SCALES := [QuotScale(None, 0, 0, 0, 0), QuotScale(Some(60), 5, 0, 868, 0)]
  const FOUR_CORNERS := [
    CornerData(0, 600_000_000, 0, 0, None), CornerData(1, 700_000_000, 0, 0, None),
    CornerData(1, 900_000_000, 0, 0, None), CornerData(1, 1_000_000_000, 0, 0, None)]

  lemma FourOwn()
    ensures OwnAdjust(FOUR_CORNERS[0], TWO_FUSES, TWO_SCALES) == Some(0)
    ensures OwnAdjust(FOUR_CORNERS[1], TWO_FUSES, TWO_SCALES) == Some(225)
    ensures OwnAdjust(FOUR_CORNERS[2], TWO_FUSES, TWO_SCALES) == Some(75)
  {
    assert Megahertz(1_000_000_000, 600_000_000) == 400;
    assert Megahertz(1_000_000_000, 700_000_000) == 300 && Megahertz(1_000_000_000, 900_000_000) == 100;
    assert DoDiv(300000, 400) == 750 && DoDiv(225000, 1000) == 225 && DoDiv(75000, 1000) == 75;
    assert QuotDiff(1, TWO_FUSES, TWO_SCALES) == Some(300);
    assert ToInt(300000) == 300000 && ToInt(225000) == 225000 && ToInt(75000) == 75000;
    assert AdjustQuot(0, 0) == 0 && ToInt(225) == 225 && ToInt(75) == 75;
    hide Megahertz, DoDiv, QuotDiff, ToInt, AdjustQuot;
    assert Scaling(1, TWO_FUSES, TWO_SCALES) == Some(750);
  }

  /**
   * A table on which they fall: the first corner of the second fuse corner is forced up past its own fused
   * quotient, to 700, and the next one is forced down to it, to 600.
   */
  lemma QuotientsFall()
    ensures InFuses(FOUR_CORNERS, TWO_FUSES, TWO_SCALES) && LevelsOrdered(FOUR_CORNERS)
    ensures AdjustAt(FOUR_CORNERS, 1, TWO_FUSES, TWO_SCALES) == Some(-100)
    ensures AdjustAt(FOUR_CORNERS, 2, TWO_FUSES, TWO_SCALES) == Some(0)
    ensures TargetQuot(FOUR_CORNERS, 1, TWO_FUSES, TWO_SCALES) == 700
    ensures TargetQuot(FOUR_CORNERS, 2, TWO_FUSES, TWO_SCALES) == 600
  {
    FourOwn();
    assert Raised(225, 600, 0, 500) == -100 && Raised(75, 600, -100, 600) == 0;
    hide OwnAdjust, Raised;
    assert AdjustAt(FOUR_CORNERS, 0, TWO_FUSES, TWO_SCALES) == Some(0);
  }

  // ------------------------------------------------------------ one corner on its own

  /** Whole megahertz between two frequencies. */
  lemma MegahertzIs(high: nat, low: nat)
    requires low <= high < U64_SPAN
    ensures 1000000 * Megahertz(high, low) <= high - low < 1000000 * (Megahertz(high, low) + 1)
  {
    DivModUnique(high - low, U64_SPAN, 0, high - low);
  }

  /** What the scaling of a fuse corner is taken from, without wrap: the quotients of one oscillator, else the fused offset. */
  function RiseOf(f: nat, fuses: seq<FuseCorner>, qs: seq<QuotScale>): int
    requires 0 < f < |fuses| == |qs|
    requires fuses[f - 1].ro != fuses[f].ro ==> qs[f].offset.Some?
  {
    if fuses[f - 1].ro == fuses[f].ro then fuses[f].quot - fuses[f - 1].quot
    else qs[f].offset.value * qs[f].offsetScale + qs[f].offsetAdjust
  }

  /** The scaling is a thousand times the rise per megahertz, cut to a whole number and at the highest one allowed. */
  lemma ScalingIs(f: nat, fuses: seq<FuseCorner>, qs: seq<QuotScale>) returns (s: int)
    requires 0 < f < |fuses| == |qs| && (fuses[f - 1].ro != fuses[f].ro ==> qs[f].offset.Some?)
    requires 0 <= RiseOf(f, fuses, qs) < 0x20_0000 && 0 <= qs[f].maxScale
    requires 0 < Megahertz(fuses[f].maxFreq, fuses[f - 1].maxFreq) < U32_SPAN
    ensures Scaling(f, fuses, qs) == Some(s) && 0 <= s <= qs[f].maxScale
    ensures var mhz, rise := Megahertz(fuses[f].maxFreq, fuses[f - 1].maxFreq), 1000 * RiseOf(f, fuses, qs);
            s * mhz <= rise && (s < qs[f].maxScale ==> rise < (s + 1) * mhz)
  {
    var rise, mhz := RiseOf(f, fuses, qs), Megahertz(fuses[f].maxFreq, fuses[f - 1].maxFreq);
    FitsUnchanged(rise);
    assert QuotDiff(f, fuses, qs) == Some(rise);
    Divided(1000 * rise, mhz);
    s := if 1000 * rise / mhz <= qs[f].maxScale then 1000 * rise / mhz else qs[f].maxScale;
    assert Scaling(f, fuses, qs) == Some(s) by { hide Megahertz, DoDiv, ToInt, QuotDiff, RiseOf; }
    hide *;
    CutAt(1000 * rise, mhz, qs[f].maxScale, s);
  }

  lemma CutAt(rise: nat, mhz: nat, most: nat, s: int)
    requires 0 < mhz && s == (if rise / mhz <= most then rise / mhz else most)
    ensures 0 <= s <= most && s * mhz <= rise && (s < most ==> rise < (s + 1) * mhz)
  {
    var q := rise / mhz;
    assert rise == q * mhz + rise % mhz;
    MulMono(s, q, mhz);
    assert (q + 1) * mhz == q * mhz + mhz;
  }

  /**
   * What a corner past fuse corner 0 aims at on its own: its fused quotient, less the scaled distance from its fuse
   * corner's top, plus the closed-loop adjustment, which moves it up when positive and down when negative.
   */
  lemma OwnTargetIs(cd: CornerData, fuses: seq<FuseCorner>, qs: seq<QuotScale>, s: int)
    requires 0 < cd.fuse < |fuses| == |qs| && Scaling(cd.fuse, fuses, qs) == Some(s)
    requires 0 <= s * Megahertz(fuses[cd.fuse].maxFreq, cd.freq) < 0x7000_0000
    requires -0x8000_0000 <= qs[cd.fuse].factor * cd.cloopVadj < 0x8000_0000
    ensures OwnAdjust(cd, fuses, qs).Some?
    ensures var p, below := qs[cd.fuse].factor * cd.cloopVadj, s * Megahertz(fuses[cd.fuse].maxFreq, cd.freq) / 1000;
            var up := below - OwnAdjust(cd, fuses, qs).value;
            && (0 <= p ==> 1000000 * up <= p < 1000000 * (up + 1))
            && (p <= 0 ==> 1000000 * (up - 1) < p <= 1000000 * up)
  {
    var n := s * Megahertz(fuses[cd.fuse].maxFreq, cd.freq);
    Divided(n, 1000);
    AdjustQuotBounds(qs[cd.fuse].factor, cd.cloopVadj);
    var up := AdjustQuot(qs[cd.fuse].factor, cd.cloopVadj);
    assert ToInt(n / 1000 - up) == n / 1000 - up by {
      hide AdjustQuot;
      SmallInt(n / 1000 - up);
    }
    assert OwnAdjust(cd, fuses, qs) == Some(n / 1000 - up) by { hide Scaling, Megahertz, AdjustQuot; }
    hide *;
  }

  lemma SmallInt(x: int)
    requires -0x4000_0000 < x < 0x4000_0000
    ensures ToInt(x) == x
  {
  }

  // -------------------------------------------------- one oscillator, no closed-loop adjustment

  /**
   * A corner without a closed-loop adjustment, between two fuse points that share an oscillator, are a megahertz
   * or more apart and rise.
   */
  predicate SharedOscillator(cd: CornerData, fuses: seq<FuseCorner>, qs: seq<QuotScale>) {
    && cd.fuse < |fuses| == |qs|
    && (cd.fuse > 0 ==>
          var fuse, prev := fuses[cd.fuse], fuses[cd.fuse - 1];
          && prev.ro == fuse.ro && (cd.cloopVadj == 0 || qs[cd.fuse].factor == 0) && 0 <= qs[cd.fuse].maxScale
          && 0 <= fuse.quot - prev.quot < 0x20_0000
          && prev.maxFreq <= cd.freq <= fuse.maxFreq < U64_SPAN
          && 0 < Megahertz(fuse.maxFreq, prev.maxFreq) < U32_SPAN)
  }

  /** Division in range is division. */
  lemma Divided(n: int, base: int)
    requires 0 <= n < 0x8000_0000 && 0 < base < U32_SPAN
    ensures DoDiv(ToInt(n), base) == n / base && 0 <= n / base <= n && n / base * base <= n
  {
    DivModUnique(n, U64_SPAN, 0, n);
    DivModUnique(base, U32_SPAN, 0, base);
    FitsUnchanged(n);
    Quotiented(n, base);
    FitsUnchanged(n / base);
  }

  lemma Quotiented(n: int, base: int)
    requires 0 <= n && 0 < base
    ensures 0 <= n / base <= n && n / base * base <= n
  {
    var q := n / base;
    assert n == q * base + n % base;
    assert q >= 0 by { DivMono(0, n, base); }
    MulMono(1, base, q);
  }

  /** The scaling of such a fuse corner times its span never exceeds a thousand times its quotient step. */
  lemma SharedScaling(cd: CornerData, fuses: seq<FuseCorner>, qs: seq<QuotScale>) returns (s: int)
    requires SharedOscillator(cd, fuses, qs) && cd.fuse > 0
    ensures Scaling(cd.fuse, fuses, qs) == Some(s) && 0 <= s
    ensures s * Megahertz(fuses[cd.fuse].maxFreq, fuses[cd.fuse - 1].maxFreq)
            <= 1000 * (fuses[cd.fuse].quot - fuses[cd.fuse - 1].quot)
  {
    var f := cd.fuse;
    var diff := fuses[f].quot - fuses[f - 1].quot;
    var mhz := Megahertz(fuses[f].maxFreq, fuses[f - 1].maxFreq);
    FitsUnchanged(diff);
    Divided(1000 * diff, mhz);
    s := Min(1000 * diff / mhz, qs[f].maxScale);
    MulMono(s, 1000 * diff / mhz, mhz);
    hide Megahertz, DoDiv, ToInt, ToU32;
  }

  /** Its adjustment: the scaled distance from the top, cut to whole quotients. */
  lemma SharedAdjust(cd: CornerData, fuses: seq<FuseCorner>, qs: seq<QuotScale>, s: int)
    requires SharedOscillator(cd, fuses, qs) && cd.fuse > 0 && Scaling(cd.fuse, fuses, qs) == Some(s) && 0 <= s
    requires s * Megahertz(fuses[cd.fuse].maxFreq, fuses[cd.fuse - 1].maxFreq)
             <= 1000 * (fuses[cd.fuse].quot - fuses[cd.fuse - 1].quot)
    ensures OwnAdjust(cd, fuses, qs) == Some(s * Megahertz(fuses[cd.fuse].maxFreq, cd.freq) / 1000)
    ensures 0 <= OwnAdjust(cd, fuses, qs).value <= fuses[cd.fuse].quot - fuses[cd.fuse - 1].quot
  {
    var fuse, prev := fuses[cd.fuse], fuses[cd.fuse - 1];
    var m, span := Megahertz(fuse.maxFreq, cd.freq), Megahertz(fuse.maxFreq, prev.maxFreq);
    CloserIsLess(fuse.maxFreq, cd.freq, prev.maxFreq);
    MulMono(m, span, s);
    MulMono(0, m, s);
    Divided(s * m, 1000);
    assert AdjustQuot(qs[cd.fuse].factor, cd.cloopVadj) == 0;
    Quotiented(s * m, 1000);
    hide Megahertz, DoDiv, Scaling, AdjustQuot, ToInt;
    var a := s * m / 1000;
    assert a <= fuse.quot - prev.quot;
    FitsUnchanged(a);
  }

  lemma CloserIsLess(top: nat, near: nat, far: nat)
    requires far <= near <= top < U64_SPAN
    ensures 0 <= Megahertz(top, near) <= Megahertz(top, far)
  {
    DivModUnique(top - near, U64_SPAN, 0, top - near);
    DivModUnique(top - far, U64_SPAN, 0, top - far);
    DivMono(top - near, top - far, 1000000);
  }

  lemma SharedOwn(cd: CornerData, fuses: seq<FuseCorner>, qs: seq<QuotScale>)
    requires SharedOscillator(cd, fuses, qs)
    ensures OwnAdjust(cd, fuses, qs).Some? && 0 <= OwnAdjust(cd, fuses, qs).value < 0x20_0000
    ensures cd.fuse == 0 ==> OwnAdjust(cd, fuses, qs) == Some(0)
    ensures cd.fuse > 0 ==> OwnAdjust(cd, fuses, qs).value <= fuses[cd.fuse].quot - fuses[cd.fuse - 1].quot < 0x20_0000
  {
    hide Scaling, Megahertz, DoDiv;
    if cd.fuse > 0 {
      var s := SharedScaling(cd, fuses, qs);
      SharedAdjust(cd, fuses, qs, s);
      hide OwnAdjust;
    }
  }

  lemma SameFuseRises(a: CornerData, b: CornerData, fuses: seq<FuseCorner>, qs: seq<QuotScale>)
    requires SharedOscillator(a, fuses, qs) && SharedOscillator(b, fuses, qs)
    requires 0 < a.fuse == b.fuse && a.freq <= b.freq
    ensures OwnAdjust(a, fuses, qs).Some? && OwnAdjust(b, fuses, qs).Some?
    ensures OwnAdjust(b, fuses, qs).value <= OwnAdjust(a, fuses, qs).value
  {
    var s := SharedScaling(a, fuses, qs);
    SharedAdjust(a, fuses, qs, s);
    SharedAdjust(b, fuses, qs, s);
    var top := fuses[a.fuse].maxFreq;
    CloserIsLess(top, b.freq, a.freq);
    hide *;
    MulMono(Megahertz(top, b.freq), Megahertz(top, a.freq), s);
    DivMono(s * Megahertz(top, b.freq), s * Megahertz(top, a.freq), 1000);
  }

  /** Of two such corners in table order the later one aims no lower. */
  lemma OwnRises(a: CornerData, b: CornerData, fuses: seq<FuseCorner>, qs: seq<QuotScale>)
    requires SharedOscillator(a, fuses, qs) && SharedOscillator(b, fuses, qs)
    requires a.fuse <= b.fuse && a.freq <= b.freq
    requires forall f, g :: 0 <= f <= g < |fuses| ==> fuses[f].quot <= fuses[g].quot
    ensures OwnAdjust(a, fuses, qs).Some? && OwnAdjust(b, fuses, qs).Some?
    ensures 0 <= OwnAdjust(a, fuses, qs).value < 0x20_0000 && 0 <= OwnAdjust(b, fuses, qs).value < 0x20_0000
    ensures fuses[a.fuse].quot - OwnAdjust(a, fuses, qs).value <= fuses[b.fuse].quot - OwnAdjust(b, fuses, qs).value
  {
    assert a.fuse < |fuses| && b.fuse < |fuses|;
    hide *;
    SharedOwn(a, fuses, qs);
    SharedOwn(b, fuses, qs);
    if a.fuse == b.fuse {
      if a.fuse > 0 { SameFuseRises(a, b, fuses, qs); }
    } else {
      assert fuses[a.fuse].quot <= fuses[b.fuse - 1].quot;
    }
  }

  lemma {:induction false} SharedStep(cdata: seq<CornerData>, i: nat, fuses: seq<FuseCorner>, qs: seq<QuotScale>)
    requires InFuses(cdata, fuses, qs) && CornersOrdered(cdata) && i < |cdata|
    requires forall k :: 0 <= k < |cdata| ==> SharedOscillator(cdata[k], fuses, qs)
    requires forall f, g :: 0 <= f <= g < |fuses| ==> fuses[f].quot <= fuses[g].quot
    requires forall f :: 0 <= f < |fuses| ==> 0 <= fuses[f].quot < 0x2000_0000
    ensures AdjustAt(cdata, i, fuses, qs) == OwnAdjust(cdata[i], fuses, qs)
    ensures AdjustAt(cdata, i, fuses, qs).Some?
    ensures i > 0 ==> AdjustAt(cdata, i - 1, fuses, qs).Some?
                      && TargetQuot(cdata, i - 1, fuses, qs) <= TargetQuot(cdata, i, fuses, qs)
  {
    hide OwnAdjust, SharedOscillator, ToInt;
    if i == 0 {
      OwnRises(cdata[0], cdata[0], fuses, qs);
    } else {
      SharedStep(cdata, i - 1, fuses, qs);
      OwnRises(cdata[i - 1], cdata[i], fuses, qs);
      Difference(fuses[cdata[i].fuse].quot, OwnAdjust(cdata[i], fuses, qs).value);
      Difference(fuses[cdata[i - 1].fuse].quot, OwnAdjust(cdata[i - 1], fuses, qs).value);
    }
  }

  /**
   * With one oscillator throughout and no closed-loop adjustments the forced increase never acts: over ordered
   * corners every adjustment is the corner's own, and the targets never fall.
   */
  lemma SharedNeverForced(cdata: seq<CornerData>, fuses: seq<FuseCorner>, qs: seq<QuotScale>)
    requires InFuses(cdata, fuses, qs) && CornersOrdered(cdata)
    requires forall k :: 0 <= k < |cdata| ==> SharedOscillator(cdata[k], fuses, qs)
    requires forall f, g :: 0 <= f <= g < |fuses| ==> fuses[f].quot <= fuses[g].quot
    requires forall f :: 0 <= f < |fuses| ==> 0 <= fuses[f].quot < 0x2000_0000
    ensures QuotientsDefined(cdata, fuses, qs)
    ensures forall i :: 0 <= i < |cdata| ==>
              AdjustAt(cdata, i, fuses, qs) == OwnAdjust(cdata[i], fuses, qs) && AdjustAt(cdata, i, fuses, qs).Some?
    ensures Rising(TargetQuots(cdata, fuses, qs))
  {
    hide OwnAdjust, AdjustAt, SharedOscillator, TargetQuot, Rising, StepsUp;
    forall i | 0 <= i < |cdata|
      ensures AdjustAt(cdata, i, fuses, qs) == OwnAdjust(cdata[i], fuses, qs) && AdjustAt(cdata, i, fuses, qs).Some?
      ensures 0 <= OwnAdjust(cdata[i], fuses, qs).value < 0x20_0000
    {
      SharedStep(cdata, i, fuses, qs);
      OwnRises(cdata[i], cdata[i], fuses, qs);
    }
    var ts := TargetQuots(cdata, fuses, qs);
    RisingByStep(ts);
    forall i | 0 < i < |ts| ensures StepsUp(ts, i) {
      SharedStep(cdata, i, fuses, qs);
      StepIs(ts, i);
      assert ts[i - 1] == TargetQuot(cdata, i - 1, fuses, qs);
    }
  }
}

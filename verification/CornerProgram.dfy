/**
 * Crossover corners and the words written to the corner registers (the second half of
 * cpr3_corner_init()), for one CPRh thread.
 */
module CornerProgram {
  import opened Arith
  import opened Wrappers
  import opened FuseVoltage
  import opened CornerTable
  import opened CornerWord

  /** Corner rows the controller reserves for crossovers when it probes. */
  function ReservedRows(desc: Desc): nat {
    (if desc.apmCrossover != 0 && 0 <= desc.apmHysteresis then 1 else 0)
    + (if desc.memAccThreshold != 0 then 1 else 0)
  }

  /** An open-loop corner pinned to one voltage. */
  function Crossover(uV: int): Corner {
    Blank.(minUV := uV, maxUV := uV, uV := uV, openLoop := true)
  }

  function ApmRow(desc: Desc, extra: nat): seq<Corner> {
    if desc.apmCrossover != 0 && desc.apmThreshold != 0 && extra > 0 then [Crossover(desc.apmCrossover)] else []
  }

  /** The crossover corners appended to the table: APM first, then MEM-ACC, while reserved rows last. */
  function ExtraCorners(desc: Desc, extra: nat): seq<Corner> {
    var apm := ApmRow(desc, extra);
    apm + (if desc.memAccThreshold != 0 && extra > |apm| then [Crossover(desc.memAccThreshold)] else [])
  }

  /** Word of a row, or None where a field is out of range. Crossover rows use oscillator 0 and no quotient. */
  function RowWord(c: Corner, dcvs: bool, fuse: FuseCorner, desc: Desc, step: u32, minQuotient: u32): Option<nat>
    requires step > 0
  {
    var oloop := VoltageSteps(c.uV, desc.baseUV, step);
    var floor := VoltageSteps(c.minUV, desc.baseUV, step);
    var delta := if dcvs then DeltaSteps(fuse.quot, c.quotAdjust, minQuotient) else 0;
    if FieldsAccepted(oloop, floor, delta)
    then Some(Word(oloop, floor, delta, if dcvs then fuse.ro else 0, c.openLoop))
    else None
  }

  /** Row i of the table; rows past the DCVS corners look up the zeroed corner data, that is fuse corner 0. */
  function RowAt(corners: seq<Corner>, n: nat, i: nat, fuses: seq<FuseCorner>,
                 desc: Desc, step: u32, minQuotient: u32): Option<nat>
    requires step > 0 && i < |corners| && 0 < |fuses| && (i < n ==> corners[i].fuse < |fuses|)
  {
    RowWord(corners[i], i < n, fuses[if i < n then corners[i].fuse else 0], desc, step, minQuotient)
  }

  predicate RowsDefined(corners: seq<Corner>, n: nat, fuses: seq<FuseCorner>) {
    0 < |fuses| && forall i :: 0 <= i < n && i < |corners| ==> corners[i].fuse < |fuses|
  }

  /** Words of the leading rows that are all in range. */
  function RowWords(corners: seq<Corner>, n: nat, total: nat, fuses: seq<FuseCorner>,
                    desc: Desc, step: u32, minQuotient: u32): (ws: seq<nat>)
    requires step > 0 && total <= |corners| && RowsDefined(corners, n, fuses)
    ensures |ws| <= total
  {
    if total == 0 then [] else
      var ws := RowWords(corners, n, total - 1, fuses, desc, step, minQuotient);
      var w := RowAt(corners, n, total - 1, fuses, desc, step, minQuotient);
      if |ws| < total - 1 || w.None? then ws else ws + [w.value]
  }

  lemma {:induction false} RowWordsAt(corners: seq<Corner>, n: nat, total: nat, fuses: seq<FuseCorner>,
                                      desc: Desc, step: u32, minQuotient: u32, i: nat)
    requires step > 0 && total <= |corners| && RowsDefined(corners, n, fuses)
    requires i < |RowWords(corners, n, total, fuses, desc, step, minQuotient)|
    ensures RowAt(corners, n, i, fuses, desc, step, minQuotient)
         == Some(RowWords(corners, n, total, fuses, desc, step, minQuotient)[i])
  {
    hide RowAt;
    if i < |RowWords(corners, n, total - 1, fuses, desc, step, minQuotient)| {
      RowWordsAt(corners, n, total - 1, fuses, desc, step, minQuotient, i);
    }
  }

  /** The state of one CPRh thread that the crossover and programming phases change. */
  class CprThread {
    const desc: Desc
    const step: u32
    const fuses: seq<FuseCorner>
    var corners: array<Corner>
    var numCorners: nat
    var apmThresholdUV: int
    var memAccThresholdUV: int
    /** Words written to the corner registers, row 0 first. */
    var rows: seq<nat>

    constructor (desc: Desc, step: u32, fuses: seq<FuseCorner>, corners: array<Corner>, numCorners: nat)
      ensures this.desc == desc && this.step == step && this.fuses == fuses
      ensures this.corners == corners && this.numCorners == numCorners
      ensures apmThresholdUV == -1 && memAccThresholdUV == -1 && rows == []
    {
      this.desc, this.step, this.fuses, this.corners, this.numCorners := desc, step, fuses, corners, numCorners;
      apmThresholdUV, memAccThresholdUV, rows := -1, -1, [];
    }

    /** An open-loop row whose whole window is one voltage. */
    method FillRow(at: nat, uV: int)
      requires at < corners.Length
      modifies corners
      ensures corners[..] == old(corners[..])[at := old(corners[at]).(uV := uV, minUV := uV, maxUV := uV, openLoop := true)]
    {
      corners[at] := corners[at].(uV := uV);
      corners[at] := corners[at].(minUV := uV);
      corners[at] := corners[at].(maxUV := uV);
      corners[at] := corners[at].(openLoop := true);
    }

    /**
     * Append the crossover corners and export their thresholds. Accepted exactly when every
     * reserved row was filled; writes no array element but the appended ones.
     */
    method AddCrossovers(reserved: nat) returns (total: Option<nat>)
      requires numCorners + reserved <= corners.Length
      requires forall i :: numCorners <= i < corners.Length ==> corners[i] == Blank
      modifies this`apmThresholdUV, this`memAccThresholdUV, corners
      ensures var extra := ExtraCorners(desc, reserved);
              && (total.Some? <==> |extra| == reserved)
              && (total.Some? ==> total.value == numCorners + reserved)
              && corners[..] == old(corners[..numCorners]) + extra + old(corners[numCorners + |extra|..])
      ensures apmThresholdUV == if ApmRow(desc, reserved) != [] then desc.apmThreshold else old(apmThresholdUV)
      ensures memAccThresholdUV == if |ExtraCorners(desc, reserved)| > |ApmRow(desc, reserved)|
                                   then desc.memAccThreshold else old(memAccThresholdUV)
    {
      var at, left := numCorners, reserved;
      if desc.apmCrossover != 0 && desc.apmThreshold != 0 && left != 0 {
        FillRow(at, desc.apmCrossover);
        apmThresholdUV := desc.apmThreshold;
        at, left := at + 1, left - 1;
      }
      if desc.memAccThreshold != 0 && left != 0 {
        FillRow(at, desc.memAccThreshold);
        memAccThresholdUV := desc.memAccThreshold;
        at, left := at + 1, left - 1;
      }
      if left != 0 { return None; }
      return Some(at);
    }

    /** Pack and write the rows in order; the first row that does not fit stops the walk. */
    method WriteRows(total: nat, minQuotient: u32) returns (ok: bool)
      requires step > 0 && numCorners <= total <= corners.Length && RowsDefined(corners[..], numCorners, fuses)
      modifies this`rows
      ensures var ws := RowWords(corners[..], numCorners, total, fuses, desc, step, minQuotient);
              rows == old(rows) + ws && (ok <==> |ws| == total)
    {
      hide RowAt;
      for i := 0 to total
        invariant |RowWords(corners[..], numCorners, i, fuses, desc, step, minQuotient)| == i
        invariant rows == old(rows) + RowWords(corners[..], numCorners, i, fuses, desc, step, minQuotient)
      {
        var w := Pack(i, minQuotient);
        if w.None? {
          ShortFrom(corners[..], numCorners, i + 1, total, fuses, desc, step, minQuotient);
          return false;
        }
        rows := rows + [w.value];
      }
      return true;
    }

    /** One pass of the packing loop. */
    method Pack(i: nat, minQuotient: u32) returns (w: Option<nat>)
      requires step > 0 && i < corners.Length && RowsDefined(corners[..], numCorners, fuses)
      ensures w == RowAt(corners[..], numCorners, i, fuses, desc, step, minQuotient)
    {
      hide VoltageSteps, DeltaSteps, Word;
      var c := corners[i];
      assert c == corners[..][i];
      var ringOsc, delta := 0, 0;
      var oloop := VoltageSteps(c.uV, desc.baseUV, step);
      var floor := VoltageSteps(c.minUV, desc.baseUV, step);
      if i < numCorners {
        var fuse := fuses[c.fuse];
        ringOsc := fuse.ro;
        delta := DeltaSteps(fuse.quot, c.quotAdjust, minQuotient);
      }
      if oloop > 255 || floor > 255 || delta > 511 { return None; }
      return Some(Word(oloop, floor, delta, ringOsc, c.openLoop));
    }
  }

  /** A walk that stopped short stays as it is when more rows follow. */
  lemma {:induction false} ShortFrom(corners: seq<Corner>, n: nat, k: nat, total: nat, fuses: seq<FuseCorner>,
                                     desc: Desc, step: u32, minQuotient: u32)
    requires step > 0 && 0 < k <= total <= |corners| && RowsDefined(corners, n, fuses)
    requires |RowWords(corners, n, k, fuses, desc, step, minQuotient)| < k
    ensures RowWords(corners, n, total, fuses, desc, step, minQuotient)
         == RowWords(corners, n, k, fuses, desc, step, minQuotient)
    decreases total
  {
    hide RowAt;
    if k < total { ShortFrom(corners, n, k, total - 1, fuses, desc, step, minQuotient); }
  }

  // ------------------------------------------------------------------ guarantees

  /** Voltages a C int holds with room for one step, and a step and base the two control fields hold. */
  predicate Packable(c: Corner, desc: Desc, step: u32) {
    && 2 <= step <= 15000 && desc.baseUV < 0x8000_0000 && BaseSteps(desc.baseUV, step) <= 1023
    && 0 <= c.minUV <= c.uV < 0x8000_0000 - step
  }

  /**
   * Every written word decodes to its five fields; the voltage and floor the controller takes it for are
   * never below the corner's, and with an aligned base and whole millivolts exceed them by less than a step.
   */
  lemma WrittenRowDecodes(c: Corner, dcvs: bool, fuse: FuseCorner, desc: Desc, step: u32, minQuotient: u32)
    requires Packable(c, desc, step) && fuse.ro < 16
    requires dcvs ==> minQuotient <= fuse.quot - c.quotAdjust < 0x8000_0000
    requires RowWord(c, dcvs, fuse, desc, step, minQuotient).Some?
    ensures var w := RowWord(c, dcvs, fuse, desc, step, minQuotient).value;
            && w < 0x4000_0000
            && (ClosedLoopDisabledIn(w) <==> c.openLoop)
            && RoSelectOf(w) == (if dcvs then fuse.ro else 0)
            && c.uV <= DecodedUV(InitVoltageOf(w), desc.baseUV, step)
            && c.minUV <= DecodedUV(FloorVoltageOf(w), desc.baseUV, step)
            && (ControlFits(desc.baseUV, step) && Aligned(desc.baseUV, step) && desc.baseUV <= c.minUV ==>
                 && DecodedUV(InitVoltageOf(w), desc.baseUV, step) < c.uV + step
                 && DecodedUV(FloorVoltageOf(w), desc.baseUV, step) < c.minUV + step)
            && (dcvs ==> fuse.quot - c.quotAdjust <= minQuotient + 4 * QuotDeltaOf(w)
                         < fuse.quot - c.quotAdjust + 4)
  {
    hide VoltageSteps, DeltaSteps, Word, DecodedUV, Aligned, ControlFits, BaseSteps,
         InitVoltageOf, FloorVoltageOf, QuotDeltaOf, RoSelectOf, ClosedLoopDisabledIn;
    DecodedNeverBelow(c.uV, desc.baseUV, step);
    DecodedNeverBelow(c.minUV, desc.baseUV, step);
    if dcvs { DeltaCovers(fuse.quot, c.quotAdjust, minQuotient); }
    WordDecodes(VoltageSteps(c.uV, desc.baseUV, step), VoltageSteps(c.minUV, desc.baseUV, step),
                if dcvs then DeltaSteps(fuse.quot, c.quotAdjust, minQuotient) else 0,
                if dcvs then fuse.ro else 0, c.openLoop);
  }

  /**
   * Row i of the table: a corner's row carries the oscillator of its own fuse corner and a quotient that covers its own
   * target; a row past the corners selects oscillator 0 and no quotient.
   */
  lemma TableRowDecodes(corners: seq<Corner>, n: nat, i: nat, fuses: seq<FuseCorner>, desc: Desc, step: u32, minQuotient: u32)
    requires step > 0 && i < |corners| && RowsDefined(corners, n, fuses) && Packable(corners[i], desc, step)
    requires forall f :: 0 <= f < |fuses| ==> fuses[f].ro < 16
    requires i < n ==> minQuotient <= fuses[corners[i].fuse].quot - corners[i].quotAdjust < 0x8000_0000
    requires RowAt(corners, n, i, fuses, desc, step, minQuotient).Some?
    ensures var w := RowAt(corners, n, i, fuses, desc, step, minQuotient).value;
            && (i < n ==>
                  var target := fuses[corners[i].fuse].quot - corners[i].quotAdjust;
                  && RoSelectOf(w) == fuses[corners[i].fuse].ro
                  && target <= minQuotient + 4 * QuotDeltaOf(w) < target + 4)
            && (i >= n ==> RoSelectOf(w) == 0 && QuotDeltaOf(w) == 0)
  {
    var fuse := fuses[if i < n then corners[i].fuse else 0];
    WrittenRowDecodes(corners[i], i < n, fuse, desc, step, minQuotient);
    if i >= n { NoDelta(corners[i], fuse, desc, step, minQuotient); }
    hide RowWord, RoSelectOf, QuotDeltaOf, Packable;
  }

  lemma NoDelta(c: Corner, fuse: FuseCorner, desc: Desc, step: u32, minQuotient: u32)
    requires Packable(c, desc, step) && RowWord(c, false, fuse, desc, step, minQuotient).Some?
    ensures QuotDeltaOf(RowWord(c, false, fuse, desc, step, minQuotient).value) == 0
  {
    AcceptedVoltages(c.uV, desc.baseUV, step);
    AcceptedVoltages(c.minUV, desc.baseUV, step);
    hide VoltageSteps, Word, QuotDeltaOf;
    WordDecodes(VoltageSteps(c.uV, desc.baseUV, step), VoltageSteps(c.minUV, desc.baseUV, step), 0, 0, c.openLoop);
  }

  /** The running minimum is at most every quotient: no corner has a negative delta. */
  lemma {:induction false} MinQuotientBelow(cdata: seq<CornerData>, n: nat, fuses: seq<FuseCorner>, i: nat)
    requires i < n <= |cdata| && forall k :: 0 <= k < n ==> cdata[k].fuse < |fuses|
    requires Quotient(cdata[i], fuses).Some? && fuses[cdata[i].fuse].quot - Adjust(cdata[i]).value < U32_SPAN
    ensures MinQuotient(cdata, n, fuses) <= Quotient(cdata[i], fuses).value
  {
    if i < n - 1 { MinQuotientBelow(cdata, n - 1, fuses, i); }
    else { FitsUnchanged(Quotient(cdata[i], fuses).value); }
  }

  /** ... and it is the quotient of one of them. */
  lemma {:induction false} MinQuotientAttained(cdata: seq<CornerData>, n: nat, fuses: seq<FuseCorner>) returns (i: nat)
    requires 0 < n <= |cdata| && forall k :: 0 <= k < n ==> cdata[k].fuse < |fuses|
    requires forall k :: 0 <= k < n ==> Quotient(cdata[k], fuses).Some? && Quotient(cdata[k], fuses).value < U32_SPAN
    ensures i < n && MinQuotient(cdata, n, fuses) == Quotient(cdata[i], fuses).value
  {
    hide ToU32;
    i := n - 1;
    FitsUnchanged(Quotient(cdata[i], fuses).value);
    if n > 1 {
      var j := MinQuotientAttained(cdata, n - 1, fuses);
      if MinQuotient(cdata, n - 1, fuses) < Quotient(cdata[i], fuses).value { i := j; }
    }
  }

  /**
   * Acceptance for the rows the controller reserved: every row is filled unless an APM crossover
   * voltage is given without an APM threshold (or with a negative hysteresis that MEM-ACC's row then serves).
   */
  lemma ReservedRowsFilled(desc: Desc)
    ensures |ExtraCorners(desc, ReservedRows(desc))| == ReservedRows(desc)
            <==> !(desc.apmCrossover != 0 && 0 <= desc.apmHysteresis && desc.apmThreshold == 0)
  {
  }
}

/** The SDM660 instance: its descriptor data meets every hypothesis of the corner computation, whatever is fused. */
module Sdm660 {
  import opened Arith
  import opened Bits
  import opened Wrappers
  import opened FuseVoltage
  import opened CornerTable
  import opened CornerWord
  import opened CornerProgram
  import opened OsmParams
  import opened EndToEnd

  /** Regulator step, fuse step and fuse width of both threads. */
  const STEP := 4000
  const FUSE_STEP := 10000
  const WIDTH := 6

  const SDM660_DESC := Desc(
    apmThreshold := 872000, apmCrossover := 872000, apmHysteresis := 20000, memAccThreshold := 0,
    baseUV := 400000, reduceToFuse := false, reduceToCorner := true)

  /** Reference, ceiling, floor, range, open-loop adjustment and slope limit of the power cluster's fuse corners. */
  const PWRCL := [
    FuseData(644000, 724000, 588000, 32000, -4000, 10),
    FuseData(724000, 724000, 596000, 32000, 4000, 320),
    FuseData(788000, 788000, 652000, 40000, 7000, 350),
    FuseData(868000, 868000, 712000, 44000, 19000, 868),
    FuseData(1068000, 1068000, 844000, 40000, -8000, 868)]

  /** ... and of the performance cluster's. */
  const PERFCL := [
    FuseData(724000, 724000, 596000, 40000, 16000, 10),
    FuseData(788000, 788000, 652000, 40000, 27000, 320),
    FuseData(868000, 868000, 712000, 40000, 39000, 350),
    FuseData(988000, 988000, 784000, 66000, 39000, 868),
    FuseData(1068000, 1068000, 844000, 40000, 20000, 868)]

  predicate Sdm660Thread(fds: seq<FuseData>) { fds == PWRCL || fds == PERFCL }

  predicate DataOk(fd: FuseData) {
    && 588000 <= fd.minUV <= fd.maxUV <= 1068000 && 0 <= fd.rangeUV
    && fd.minUV % STEP == 0 && fd.maxUV % STEP == 0
    && 320000 <= fd.refUV + fd.oloopAdjust && 0 <= fd.maxVoltScale <= 868
  }

  /** What both threads' data have in common. */
  lemma ThreadData(fds: seq<FuseData>)
    requires Sdm660Thread(fds)
    ensures |fds| == 5 && RoundedAll(fds, STEP) == fds
    ensures forall f :: 0 <= f < 5 ==> DataOk(fds[f])
    ensures forall f, g :: 0 <= f <= g < 5 ==> fds[f].maxUV <= fds[g].maxUV && fds[f].minUV <= fds[g].minUV
  {
    assert DataOk(fds[0]) && DataOk(fds[1]) && DataOk(fds[2]) && DataOk(fds[3]) && DataOk(fds[4]);
    DataOrdered(fds);
    AlreadyRounded(fds);
  }

  lemma AlreadyRounded(fds: seq<FuseData>)
    requires forall f :: 0 <= f < |fds| ==> DataOk(fds[f])
    ensures RoundedAll(fds, STEP) == fds
  {
    forall f | 0 <= f < |fds| ensures Rounded(fds[f], STEP) == fds[f] {
      hide RoundUp;
      RoundUpAligned(fds[f].minUV, STEP);
      RoundUpAligned(fds[f].maxUV, STEP);
    }
  }

  lemma DataOrdered(fds: seq<FuseData>)
    requires Sdm660Thread(fds)
    ensures forall f, g :: 0 <= f <= g < 5 ==> fds[f].maxUV <= fds[g].maxUV && fds[f].minUV <= fds[g].minUV
  {
    assert fds[0].maxUV <= fds[1].maxUV <= fds[2].maxUV <= fds[3].maxUV <= fds[4].maxUV;
    assert fds[0].minUV <= fds[1].minUV <= fds[2].minUV <= fds[3].minUV <= fds[4].minUV;
  }

  /** Both fuse cells of every fuse corner could be read; the voltage cell is 6 bits wide. */
  predicate FusesRead(bits: seq<FuseBits>) {
    |bits| == 5 && forall f :: 0 <= f < 5 ==> bits[f].voltage.Some? && bits[f].voltage.value < 64 && bits[f].quotient.Some?
  }

  /** Whatever the voltage fuses hold, the fuse corner set-up accepts them. */
  lemma AnyFusesAccepted(fds: seq<FuseData>, bits: seq<FuseBits>)
    requires Sdm660Thread(fds) && FusesRead(bits)
    ensures |fds| == 5
    ensures var vs := StoredUVs(bits, fds, WIDTH, FUSE_STEP, STEP);
            forall f :: 0 <= f < 5 ==> FuseVoltage.Accepted(bits, fds, vs, WIDTH, FUSE_STEP, STEP, f)
  {
    ThreadData(fds);
    var vs := StoredUVs(bits, fds, WIDTH, FUSE_STEP, STEP);
    hide Fits;
    OrderedCeilingsFit(bits, fds, WIDTH, FUSE_STEP, STEP);
    forall f | 0 <= f < 5 ensures Readable(bits[f], fds[f], WIDTH, FUSE_STEP, STEP) {
      LowestFuse(bits[f].voltage.value, fds[f]);
    }
  }

  /** The first fuse corner of the power cluster: fuse 3 raises 640 mV by three steps, fuse 35 lowers it by three. */
  lemma FuseThree()
    ensures ReadFuseUV(3, WIDTH, FUSE_STEP, PWRCL[0].refUV, PWRCL[0].oloopAdjust, STEP) == 672000
    ensures ReadFuseUV(35, WIDTH, FUSE_STEP, PWRCL[0].refUV, PWRCL[0].oloopAdjust, STEP) == 612000
  {
    assert Pow2(5) == 32;
    FuseMovesVoltage(3, WIDTH, FUSE_STEP, 644000, -4000, STEP);
    assert RoundUp(670000, STEP) == 672000 && RoundUp(610000, STEP) == 612000;
    hide RoundUp, ReadFuseUV;
  }

  lemma LowestFuse(v: nat, fd: FuseData)
    requires v < 64 && 320000 <= fd.refUV + fd.oloopAdjust
    ensures 0 <= ReadFuseUV(v, WIDTH, FUSE_STEP, fd.refUV, fd.oloopAdjust, STEP)
  {
    assert Pow2(5) == 32;
    SignMagnitudeRange(v, WIDTH);
    RoundUpNeverDown(fd.refUV + SignMagnitude(v, WIDTH) * FUSE_STEP + fd.oloopAdjust, STEP);
  }

  /** Fuse corners as the set-up leaves them (their frequencies come from the level walk). */
  ghost predicate FromFuses(fuses: seq<FuseCorner>, fds: seq<FuseData>, bits: seq<FuseBits>)
    requires |fds| == |bits| == 5
  {
    var vs := StoredUVs(bits, fds, WIDTH, FUSE_STEP, STEP);
    |fuses| == 5 && forall f :: 0 <= f < 5 ==>
      fuses[f].minUV == fds[f].minUV && fuses[f].maxUV == fds[f].maxUV && fuses[f].uV == RunningMax(vs, f)
  }

  /** They are as every lemma about the corner table asks. */
  lemma FuseCornersGood(fuses: seq<FuseCorner>, fds: seq<FuseData>, bits: seq<FuseBits>)
    requires Sdm660Thread(fds) && FusesRead(bits) && |fds| == 5 && FromFuses(fuses, fds, bits)
    ensures GoodFuseTable(fuses, STEP) && DescriptorOk(fuses, fds, SDM660_DESC)
    ensures forall f, g :: 0 <= f <= g < 5 ==> fuses[f].minUV <= fuses[g].minUV
  {
    ThreadData(fds);
    OrderedCeilingsFit(bits, fds, WIDTH, FUSE_STEP, STEP);
    hide RunningMax, Readable, GoodFuseTable, Fits, RoundedAll, StoredUV;
    AcceptedTableIsGood(fuses, bits, fds, WIDTH, FUSE_STEP, STEP);
  }

  /** Corners of a thread in table order, with the highest frequency of each fuse corner as the level walk finds it. */
  ghost predicate Walked(cdata: seq<CornerData>, fuses: seq<FuseCorner>) {
    && |fuses| == 5 && CornersOrdered(cdata)
    && (forall i :: 0 <= i < |cdata| ==> cdata[i].fuse < 5 && cdata[i].freq < 0x1_0000_0000)
    && forall f :: 0 <= f < 5 ==> fuses[f].maxFreq == CornerTable.TopFreq(cdata, |cdata|, f, 0)
  }

  lemma WalkedInterpolable(cdata: seq<CornerData>, fuses: seq<FuseCorner>, fds: seq<FuseData>, bits: seq<FuseBits>, i: nat)
    requires Sdm660Thread(fds) && FusesRead(bits) && |fds| == 5 && FromFuses(fuses, fds, bits)
    requires Walked(cdata, fuses) && i < |cdata|
    ensures Interpolable(cdata[i], fuses, fds, STEP)
  {
    ThreadData(fds);
    FuseCornersGood(fuses, fds, bits);
    var cd := cdata[i];
    WalkedCornersInterpolable(cdata, fuses, i);
    if cd.fuse > 0 {
      FreqBound(cdata, |cdata|, cd.fuse);
      var a, dv := fuses[cd.fuse].maxFreq - cd.freq, fuses[cd.fuse].uV - fuses[cd.fuse - 1].uV;
      hide CornerTable.TopFreq, RunningMax, StoredUVs, Aligned;
      assert fuses[cd.fuse - 1].uV <= fuses[cd.fuse].uV;
      ProductFits(a, dv);
      ProductFits(a, fds[cd.fuse].maxVoltScale);
    }
  }

  lemma {:induction false} FreqBound(cdata: seq<CornerData>, n: nat, f: nat)
    requires n <= |cdata| && forall i :: 0 <= i < n ==> cdata[i].freq < 0x1_0000_0000
    ensures CornerTable.TopFreq(cdata, n, f, 0) < 0x1_0000_0000
  {
    if n > 0 { FreqBound(cdata, n - 1, f); }
  }

  /** Without the second reduction no corner is loose. */
  lemma NoneLoose(t: seq<Corner>, fuses: seq<FuseCorner>)
    requires CornersOk(t, fuses, SDM660_DESC)
    ensures forall i :: 0 <= i < |t| ==> t[i].fuse < |fuses| && CornerOk(t[i], fuses[t[i].fuse], SDM660_DESC)
  {
    hide CornerOk;
  }

  /**
   * For any contents of the voltage fuses and any corners in table order, an SDM660 thread gets a corner
   * table in which every voltage is the clamped target of its own corner and every window is as the corner
   * table invariant says; every voltage and floor fits its 8-bit field, and every operating point passes the
   * OSM's millivolt check.
   */
  lemma AnyFusesGiveGoodTable(cdata: seq<CornerData>, fuses: seq<FuseCorner>, fds: seq<FuseData>, bits: seq<FuseBits>)
    requires Sdm660Thread(fds) && FusesRead(bits) && |fds| == 5 && FromFuses(fuses, fds, bits) && Walked(cdata, fuses)
    ensures var t := Table(cdata, |cdata|, fuses, fds, SDM660_DESC, STEP);
            && CornersOk(t, fuses, SDM660_DESC)
            && (forall i :: 0 <= i < |t| ==> t[i].fuse < |fuses| && CornerOk(t[i], fuses[t[i].fuse], SDM660_DESC))
            && (forall i :: 0 <= i < |t| ==> t[i].uV == ClampedUV(cdata[i], fuses, fds, STEP))
            && (forall i :: 0 <= i < |t| ==>
                  && 0 <= VoltageSteps(t[i].uV, SDM660_DESC.baseUV, STEP) <= 255
                  && 0 <= VoltageSteps(t[i].minUV, SDM660_DESC.baseUV, STEP) <= 255
                  && 150 <= t[i].uV / 1000 <= 1400)
  {
    ThreadData(fds);
    FuseCornersGood(fuses, fds, bits);
    forall i | 0 <= i < |cdata| ensures Interpolable(cdata[i], fuses, fds, STEP) {
      WalkedInterpolable(cdata, fuses, fds, bits, i);
    }
    hide Table, ClampedUV, CornerOk, CornersOk, CornerTable.TopFreq, Interpolable, GoodFuseTable, RunningMax, StoredUVs, VoltageSteps;
    TableIsPointwise(cdata, |cdata|, fuses, fds, SDM660_DESC, STEP);
    TableCornersOk(cdata, fuses, fds, SDM660_DESC, STEP);
    NoneLoose(Table(cdata, |cdata|, fuses, fds, SDM660_DESC, STEP), fuses);
    TableFits(cdata, fuses, fds, SDM660_DESC, STEP);
    var t := Table(cdata, |cdata|, fuses, fds, SDM660_DESC, STEP);
    forall i | 0 <= i < |t|
      ensures 0 <= VoltageSteps(t[i].uV, SDM660_DESC.baseUV, STEP) <= 255
      ensures 0 <= VoltageSteps(t[i].minUV, SDM660_DESC.baseUV, STEP) <= 255
      ensures 150 <= t[i].uV / 1000 <= 1400
    {
      InField(t[i].uV);
      InField(t[i].minUV);
    }
  }

  /** Voltages between the lowest floor and the highest ceiling fit the field. */
  lemma InField(uV: int)
    requires 588000 <= uV <= 1068000
    ensures 0 <= VoltageSteps(uV, SDM660_DESC.baseUV, STEP) <= 255
  {
    AcceptedVoltages(uV, SDM660_DESC.baseUV, STEP);
  }

  /**
   * The one reserved row of SDM660 is always filled, and its word stands for exactly the APM crossover
   * voltage, open-loop.
   */
  lemma CrossoverRow(fuse: FuseCorner, minQuotient: u32)
    requires fuse.ro < 16
    ensures RowsAccepted(SDM660_DESC) && ExtraCorners(SDM660_DESC, ReservedRows(SDM660_DESC)) == [Crossover(872000)]
    ensures var w := RowWord(Crossover(872000), false, fuse, SDM660_DESC, STEP, minQuotient);
            && w.Some? && ClosedLoopDisabledIn(w.value)
            && ControlFits(SDM660_DESC.baseUV, STEP)
            && DecodedUV(InitVoltageOf(w.value), SDM660_DESC.baseUV, STEP) == 872000
  {
    ReservedRowsFilled(SDM660_DESC);
    DecodedCrossover();
    CrossoverField(fuse, minQuotient);
    WordDecodes(118, 118, 0, 0, true);
    hide Word, RowWord, ClosedLoopDisabledIn, InitVoltageOf, DecodedUV;
  }

  /** The regulator step and the voltage base of every descriptor fit the control fields: SDM660's, SDM630's and MSM8998's. */
  lemma DescriptorsFit()
    ensures ControlFits(400000, STEP) && ControlFits(352000, STEP)
  {
    ControlExactIff(400000, STEP);
    ControlExactIff(352000, STEP);
    assert BaseSteps(400000, STEP) == 100 && BaseSteps(352000, STEP) == 88;
  }

  /** Field 118 is 472 mV over the base. */
  lemma DecodedCrossover()
    ensures ControlFits(SDM660_DESC.baseUV, STEP) && DecodedUV(118, SDM660_DESC.baseUV, STEP) == 872000
  {
    ControlExactIff(400000, STEP);
    assert BaseSteps(400000, STEP) == 100;
    hide DecodedUV;
  }

  lemma CrossoverField(fuse: FuseCorner, minQuotient: u32)
    requires fuse.ro < 16
    ensures RowWord(Crossover(872000), false, fuse, SDM660_DESC, STEP, minQuotient) == Some(Word(118, 118, 0, 0, true))
  {
    CrossoverSteps();
    hide Word, VoltageSteps, DeltaSteps;
    var c := Crossover(872000);
    assert c.uV == c.minUV == 872000 && c.openLoop;
  }

  lemma CrossoverSteps()
    ensures VoltageSteps(872000, 400000, STEP) == 118
  {
    AcceptedVoltages(872000, 400000, STEP);
    hide VoltageSteps;
    assert (872000 - 400000 + STEP - 1) / STEP == 118;
  }

  /** The crossover row of SDM660 is accepted, and its threshold exported. */
  lemma CrossoverAccepted()
    ensures RowsAccepted(SDM660_DESC) && ExportedApm(SDM660_DESC) == 872000
    ensures ExtraCorners(SDM660_DESC, ReservedRows(SDM660_DESC)) == [Crossover(872000)]
  {
    ReservedRowsFilled(SDM660_DESC);
  }

  /** Every window before the split is under 872 mV, and every other is at it or over but for 20 mV of its floor. */
  predicate SplitsWholly(t: seq<Corner>, split: nat) {
    && split <= |t|
    && (forall i :: 0 <= i < split ==> WhollyBelow(t[i], 872000))
    && (forall i :: split <= i < |t| ==> AtOrAbove(t[i], 872000, 20000))
  }

  lemma SplitIsWhole(t: seq<Corner>, split: nat, fuses: seq<FuseCorner>)
    requires SplitsAt(t, split, fuses, SDM660_DESC)
    ensures SplitsWholly(t, split)
  {
  }

  lemma RowAfterCorners(t: seq<Corner>)
    ensures CprRows(t, SDM660_DESC) == t + [Crossover(872000)]
  {
    CrossoverAccepted();
  }

  /**
   * What an SDM660 thread with corner table `t` ends with: points that hold its voltages, an APM corner that
   * splits it at 872 mV and, with fewer than 256 corners, the number of the crossover row.
   */
  ghost predicate GoodOutcome(opps: seq<Opp>, t: seq<Corner>, p: Params) {
    && Matched(opps, t)
    && SplitsWholly(t, if p.apmVc < 0 then |t| else p.apmVc)
    && (|t| < 256 ==> p.numEntries < |CprRows(t, SDM660_DESC)|
                      && CprRows(t, SDM660_DESC)[p.numEntries] == Crossover(872000) && p.numEntries == |t|)
  }

  lemma OutcomeIsGood(opps: seq<Opp>, t: seq<Corner>, p: Params, fuses: seq<FuseCorner>)
    requires Matched(opps, t) && p.numEntries == |t| % 256
    requires SplitsAt(t, if p.apmVc < 0 then |t| else p.apmVc, fuses, SDM660_DESC)
    ensures GoodOutcome(opps, t, p)
  {
    SplitIsWhole(t, if p.apmVc < 0 then |t| else p.apmVc, fuses);
    RowAfterCorners(t);
    hide SplitsAt, SplitsWholly, Matched, CprRows;
  }

  /** The table's frequencies are the corners', and its millivolts pass the OSM's check. */
  lemma ChainInputs(cdata: seq<CornerData>, fuses: seq<FuseCorner>, fds: seq<FuseData>, bits: seq<FuseBits>)
    requires Sdm660Thread(fds) && FusesRead(bits) && |fds| == 5 && FromFuses(fuses, fds, bits) && Walked(cdata, fuses)
    ensures InTable(cdata, fuses, fds) && DescriptorOk(fuses, fds, SDM660_DESC) && LevelsOrdered(cdata)
    ensures forall f :: 0 <= f < |fuses| ==> 0 <= fuses[f].minUV && fuses[f].maxUV < U32_SPAN
    ensures var t := Table(cdata, |cdata|, fuses, fds, SDM660_DESC, STEP);
            MillivoltsOk(t) && forall i :: 0 <= i < |t| ==> t[i].freq == cdata[i].freq
  {
    ThreadData(fds);
    FuseCornersGood(fuses, fds, bits);
    hide Table, GoodFuseTable, RunningMax, StoredUVs, VoltageSteps, ClampedUV, CornersOk, CornerOk;
    AnyFusesGiveGoodTable(cdata, fuses, fds, bits);
    TableFits(cdata, fuses, fds, SDM660_DESC, STEP);
  }

  /**
   * The whole chain on SDM660: for any contents of the voltage fuses, corners in table order and operating
   * points that match them, the parameters are accepted; the APM corner splits the table at 872 mV, and with
   * fewer than 256 corners the row after them is the one the OSM is given for the crossover.
   */
  method SplitsTable(opps: array<Opp>, cdata: seq<CornerData>, fuses: seq<FuseCorner>, fds: seq<FuseData>,
                     ghost bits: seq<FuseBits>, cores: nat, xoRate: nat)
    returns (p: Params)
    requires Sdm660Thread(fds) && FusesRead(bits) && |fds| == 5 && FromFuses(fuses, fds, bits) && Walked(cdata, fuses)
    requires forall i, j :: 0 <= i < j < |cdata| ==> cdata[i].freq < cdata[j].freq
    requires forall i :: 0 <= i < |cdata| ==> 1000 <= cdata[i].freq && HasFreq(opps[..], cdata[i].freq)
    requires opps.Length == |cdata| >= 2 && DistinctFreqs(opps[..]) && NodesOk(opps[..]) && 0 < xoRate
    modifies opps
    ensures GoodOutcome(opps[..], Table(cdata, |cdata|, fuses, fds, SDM660_DESC, STEP), p)
  {
    ghost var t := Table(cdata, |cdata|, fuses, fds, SDM660_DESC, STEP);
    hide *;
    ChainInputs(cdata, fuses, fds, bits);
    CrossoverAccepted();
    var r := ApmCornerOf(opps, cdata, fuses, fds, SDM660_DESC, STEP, cores, xoRate);
    p := r.value;
    OutcomeIsGood(opps[..], t, p, fuses);
  }
}

/**
 * From the CPRh corner table through the operating points to the OSM: the voltage hand-over
 * (cprh_corner_adjust_opps()), the APM split, and the rows both chips call the crossovers.
 */
module EndToEnd {
  import opened Arith
  import opened Wrappers
  import opened Script
  import opened FuseVoltage
  import opened CornerTable
  import opened CornerWord
  import opened CornerProgram
  import opened OsmParams
  import opened OsmScript

  // ------------------------------------------------------------------ hand-over

  /** Voltage an operating point ends with: that of the last of the first n corners at its frequency. */
  function HandedOver(o: Opp, corners: seq<Corner>, n: nat): u32
    requires n <= |corners|
  {
    if n == 0 then o.uV
    else if corners[n - 1].freq == o.freq then ToU32(corners[n - 1].uV)
    else HandedOver(o, corners, n - 1)
  }

  predicate HasFreq(opps: seq<Opp>, freq: nat) {
    exists k :: 0 <= k < |opps| && opps[k].freq == freq
  }

  /** Position of the point at a frequency. */
  method FindExact(opps: array<Opp>, freq: nat) returns (r: Option<nat>)
    ensures r.Some? <==> HasFreq(opps[..], freq)
    ensures r.Some? ==> r.value < opps.Length && opps[r.value].freq == freq
  {
    for k := 0 to opps.Length
      invariant forall l :: 0 <= l < k ==> opps[l].freq != freq
    {
      if opps[k].freq == freq {
        assert opps[..][k].freq == freq;
        return Some(k);
      }
    }
    return None;
  }

  /**
   * cprh_corner_adjust_opps(): each corner's voltage goes to the operating point at exactly its
   * frequency. It fails on the first corner without one.
   */
  method AdjustOpps(opps: array<Opp>, corners: seq<Corner>) returns (ok: bool)
    requires DistinctFreqs(opps[..])
    modifies opps
    ensures ok <==> forall i :: 0 <= i < |corners| ==> HasFreq(old(opps[..]), corners[i].freq)
    ensures ok ==> forall k :: 0 <= k < opps.Length ==>
              opps[k] == old(opps[k]).(uV := HandedOver(old(opps[k]), corners, |corners|))
  {
    hide ToU32;
    for i := 0 to |corners|
      invariant forall l :: 0 <= l < i ==> HasFreq(old(opps[..]), corners[l].freq)
      invariant forall k :: 0 <= k < opps.Length ==>
        opps[k] == old(opps[k]).(uV := HandedOver(old(opps[k]), corners, i))
    {
      SameFreqs(old(opps[..]), opps[..], corners[i].freq);
      var at := FindExact(opps, corners[i].freq);
      if at.None? { return false; }
      opps[at.value] := opps[at.value].(uV := ToU32(corners[i].uV));
    }
    ok := true;
  }

  lemma SameFreqs(a: seq<Opp>, b: seq<Opp>, freq: nat)
    requires |a| == |b| && forall k :: 0 <= k < |a| ==> a[k].freq == b[k].freq
    ensures HasFreq(a, freq) == HasFreq(b, freq)
  {
    if HasFreq(a, freq) {
      var k :| 0 <= k < |a| && a[k].freq == freq;
      assert b[k].freq == freq;
    }
  }

  /** With ascending corner frequencies each corner's own point gets its voltage. */
  lemma {:induction false} HandedOverIs(o: Opp, corners: seq<Corner>, n: nat, i: nat)
    requires i < n <= |corners| && o.freq == corners[i].freq
    requires forall k, l :: 0 <= k < l < |corners| ==> corners[k].freq < corners[l].freq
    ensures HandedOver(o, corners, n) == ToU32(corners[i].uV)
  {
    if i < n - 1 { HandedOverIs(o, corners, n - 1, i); }
  }

  // -------------------------------------------------------- the corner order is the row order

  predicate HasCorner(t: seq<Corner>, freq: nat) {
    exists j :: 0 <= j < |t| && t[j].freq == freq
  }

  /** The operating points match the corners one to one, and hold their voltages. */
  ghost predicate Matched(opps: seq<Opp>, t: seq<Corner>) {
    && |opps| == |t| && DistinctFreqs(opps)
    && (forall i, j :: 0 <= i < j < |t| ==> t[i].freq < t[j].freq)
    && (forall i :: 0 <= i < |t| ==> 1000 <= t[i].freq && 0 <= t[i].uV < U32_SPAN)
    && (forall i :: 0 <= i < |t| ==> HasFreq(opps, t[i].freq))
    && (forall k :: 0 <= k < |opps| ==> HasCorner(t, opps[k].freq))
    && forall k, i :: 0 <= k < |opps| && 0 <= i < |t| && opps[k].freq == t[i].freq ==> opps[k].uV == t[i].uV
  }

  /** The ceil-then-increment loop emits exactly one row for every corner, in corner order. */
  lemma RowsAreCorners(opps: seq<Opp>, t: seq<Corner>)
    requires Matched(opps, t)
    ensures |Visit(opps, 1000)| == |t|
    ensures forall i :: 0 <= i < |t| ==> Visit(opps, 1000)[i].freq == t[i].freq && Visit(opps, 1000)[i].uV == t[i].uV
  {
    VisitsCorners(opps, t, 0, 1000);
    hide Visit, Matched;
  }

  lemma {:induction false} VisitsCorners(opps: seq<Opp>, t: seq<Corner>, i: nat, rate: nat)
    requires Matched(opps, t) && i <= |t|
    requires forall k :: 0 <= k < i ==> t[k].freq < rate
    requires forall k :: i <= k < |t| ==> rate <= t[k].freq
    ensures Emits(Visit(opps, rate), t, i)
    decreases |t| - i
  {
    hide FindCeil, OsmParams.TopFreq, Matched;
    NextCorner(opps, t, i, rate);
    if i < |t| {
      assert 0 <= i < i + 1 && t[i].freq + 1 >= 0;
      Ascending(opps, t, i);
      VisitsCorners(opps, t, i + 1, t[i].freq + 1);
    }
  }

  /** The visiting order is the corner order from i on. */
  predicate Emits(v: seq<Opp>, t: seq<Corner>, i: nat)
    requires i <= |t|
  {
    |v| == |t| - i && forall k :: 0 <= k < |v| ==> v[k].freq == t[i + k].freq && v[k].uV == t[i + k].uV
  }

  lemma Ascending(opps: seq<Opp>, t: seq<Corner>, i: nat)
    requires Matched(opps, t) && i < |t|
    ensures forall k :: 0 <= k <= i ==> t[k].freq < t[i].freq + 1
    ensures forall k :: i < k < |t| ==> t[i].freq + 1 <= t[k].freq
  {
  }

  /** The next point found is corner i's. */
  lemma NextCorner(opps: seq<Opp>, t: seq<Corner>, i: nat, rate: nat)
    requires Matched(opps, t) && i <= |t|
    requires forall k :: 0 <= k < i ==> t[k].freq < rate
    requires forall k :: i <= k < |t| ==> rate <= t[k].freq
    ensures var r := FindCeil(opps, rate);
            && (r.Some? <==> i < |t|)
            && (r.Some? ==> opps[r.value].freq == t[i].freq && opps[r.value].uV == t[i].uV)
  {
    var r := FindCeil(opps, rate);
    assert i < |t| ==> HasFreq(opps, t[i].freq);
    if r.Some? {
      assert HasCorner(t, opps[r.value].freq);
      var j :| 0 <= j < |t| && t[j].freq == opps[r.value].freq;
      assert i <= j;
      var k :| 0 <= k < |opps| && opps[k].freq == t[i].freq;
      assert opps[r.value].freq <= t[i].freq;
    }
  }

  /** After a successful hand-over to points at the corners' own frequencies, the two tables match. */
  lemma {:induction false} HandOverMatches(opps: seq<Opp>, after: seq<Opp>, t: seq<Corner>)
    requires |opps| == |after| == |t| && DistinctFreqs(opps)
    requires forall i, j :: 0 <= i < j < |t| ==> t[i].freq < t[j].freq
    requires forall i :: 0 <= i < |t| ==> 1000 <= t[i].freq && 0 <= t[i].uV < U32_SPAN && HasFreq(opps, t[i].freq)
    requires forall k :: 0 <= k < |opps| ==>
               HasCorner(t, opps[k].freq) && after[k] == opps[k].(uV := HandedOver(opps[k], t, |t|))
    ensures Matched(after, t)
  {
    forall i | 0 <= i < |t| ensures HasFreq(after, t[i].freq) {
      SameFreqs(opps, after, t[i].freq);
    }
    forall k, i | 0 <= k < |after| && 0 <= i < |t| && after[k].freq == t[i].freq ensures after[k].uV == t[i].uV {
      HandedOverIs(opps[k], t, |t|, i);
      FitsUnchanged(t[i].uV);
    }
  }

  // ------------------------------------------------------------------- APM split

  /** A corner all of whose window is under the threshold. */
  predicate WhollyBelow(c: Corner, threshold: int) {
    c.minUV <= c.uV <= c.maxUV < threshold
  }

  /** A corner at or over the threshold, whose floor may reach below it by the hysteresis only. */
  predicate AtOrAbove(c: Corner, threshold: int, hysteresis: int) {
    threshold <= c.uV && threshold - hysteresis <= c.minUV
  }

  /** Corners in ascending voltage order, all but the loose ones as they should be (the corner table invariant). */
  predicate CornersOk(t: seq<Corner>, fuses: seq<FuseCorner>, desc: Desc) {
    && (forall i :: 0 <= i < |t| ==> t[i].fuse < |fuses|)
    && (forall i :: 0 <= i < |t| ==>
          (CornerOk(t[i], fuses[t[i].fuse], desc) <==> !Loose(t[i].uV, fuses[t[i].fuse], desc)))
    && forall i, j :: 0 <= i <= j < |t| ==> t[i].uV <= t[j].uV
  }

  /** The corners before the split are below the APM threshold and the others at it or over, with their windows. */
  predicate SplitsAt(t: seq<Corner>, split: nat, fuses: seq<FuseCorner>, desc: Desc) {
    && split <= |t| && (forall i :: 0 <= i < |t| ==> t[i].fuse < |fuses|)
    && (forall i :: 0 <= i < split ==>
          && t[i].uV < desc.apmThreshold
          && (!Loose(t[i].uV, fuses[t[i].fuse], desc) ==> WhollyBelow(t[i], desc.apmThreshold)))
    && (forall i :: split <= i < |t| ==>
          && desc.apmThreshold <= t[i].uV
          && (!Loose(t[i].uV, fuses[t[i].fuse], desc) ==> AtOrAbove(t[i], desc.apmThreshold, desc.apmHysteresis)))
  }

  /**
   * The APM split: the corner the OSM is given divides the CPRh table exactly at the APM threshold. Every row
   * below it is under the threshold, with its whole window unless its corner is loose, and every row from it up
   * is at it or over, with a floor no lower than threshold minus hysteresis unless its corner is loose. There is none exactly when the whole table
   * is below.
   */
  lemma ApmSplits(opps: seq<Opp>, t: seq<Corner>, fuses: seq<FuseCorner>, desc: Desc)
    requires Matched(opps, t) && CornersOk(t, fuses, desc) && 0 < desc.apmThreshold && 0 <= desc.apmHysteresis
    ensures var v := Visit(opps, 1000);
            var apmVc := FirstAt(v, |v|, desc.apmThreshold);
            var split := if apmVc < 0 then |t| else apmVc;
            SplitsAt(t, split, fuses, desc)
  {
    RowsAreCorners(opps, t);
    hide Visit, Matched;
    var v := Visit(opps, 1000);
    var apmVc := FirstAt(v, |v|, desc.apmThreshold);
    hide *;
    var split := if apmVc < 0 then |t| else apmVc;
    forall i | 0 <= i < split ensures t[i].uV < desc.apmThreshold {
      assert v[i].uV < desc.apmThreshold;
    }
    forall i | split <= i < |t| ensures desc.apmThreshold <= t[i].uV {
      RisesFrom(t, split, i, fuses, desc);
      assert t[split].uV == v[split].uV >= desc.apmThreshold;
    }
    SplitByVoltage(t, split, fuses, desc);
  }

  lemma RisesFrom(t: seq<Corner>, i: nat, j: nat, fuses: seq<FuseCorner>, desc: Desc)
    requires CornersOk(t, fuses, desc) && i <= j < |t|
    ensures t[i].uV <= t[j].uV
  {
  }

  lemma SplitByVoltage(t: seq<Corner>, split: nat, fuses: seq<FuseCorner>, desc: Desc)
    requires CornersOk(t, fuses, desc) && 0 <= desc.apmHysteresis && 0 < desc.apmThreshold
    requires split <= |t| && forall i :: 0 <= i < split ==> t[i].uV < desc.apmThreshold
    requires forall i :: split <= i < |t| ==> desc.apmThreshold <= t[i].uV
    ensures SplitsAt(t, split, fuses, desc)
  {
    hide Loose;
  }

  // ---------------------------------------------------------- row-number agreement

  /** The rows of the CPRh controller: the corners, then the reserved extra ones. */
  function CprRows(t: seq<Corner>, desc: Desc): seq<Corner> {
    t + ExtraCorners(desc, ReservedRows(desc))
  }

  /** Every reserved row was filled, which is when the driver accepts the table. */
  predicate RowsAccepted(desc: Desc) {
    |ExtraCorners(desc, ReservedRows(desc))| == ReservedRows(desc)
  }

  /** The thresholds the CPRh driver exports: those whose crossover rows it filled, or -1. */
  function ExportedApm(desc: Desc): int {
    if ApmRow(desc, ReservedRows(desc)) != [] then desc.apmThreshold else -1
  }

  function ExportedAcc(desc: Desc): int {
    var extra := ExtraCorners(desc, ReservedRows(desc));
    if |extra| > |ApmRow(desc, ReservedRows(desc))| then desc.memAccThreshold else -1
  }

  /**
   * Row-number agreement between the chips: whenever the CPRh driver accepts its table and the OSM driver its
   * parameters, from the thresholds the one exports to the other, the row number the OSM gets for the APM
   * crossover names the CPRh row holding that voltage, open-loop, and the MEM-ACC row number, where the OSM gets
   * one, names the row of that threshold. These are all the rows there are.
   */
  lemma CrossoverRowsAgree(opps: seq<Opp>, t: seq<Corner>, desc: Desc, cores: nat, xoRate: nat, p: Params)
    requires 0 < xoRate && |opps| == |t| < 256 && DistinctFreqs(opps) && RowsAccepted(desc)
    requires ParamsSpec(opps, ExportedApm(desc), ExportedAcc(desc), cores, xoRate) == Some(p)
    ensures var rows := CprRows(t, desc);
            && |rows| == |t| + ReservedRows(desc)
            && p.numEntries < |rows| && rows[p.numEntries] == Crossover(desc.apmCrossover)
            && (Custom(p) ==> p.numEntries + 1 < |rows| && rows[p.numEntries + 1] == Crossover(desc.memAccThreshold))
  {
    ParamsFacts(opps, ExportedApm(desc), ExportedAcc(desc), cores, xoRate, p);
    hide ParamsSpec, DistinctFreqs;
  }

  lemma ParamsFacts(opps: seq<Opp>, apmUV: int, accUV: int, cores: nat, xoRate: nat, p: Params)
    requires 0 < xoRate && |opps| < 256 && DistinctFreqs(opps)
    requires ParamsSpec(opps, apmUV, accUV, cores, xoRate) == Some(p)
    ensures p.numEntries == |opps| && 0 < apmUV && (Custom(p) ==> 0 < accUV)
  {
    hide Visit, TableOf, FirstAt, Usable;
  }

  /** Without an APM crossover voltage no row number reaches the OSM at all. */
  lemma NoCrossoverNoParams(opps: seq<Opp>, desc: Desc, cores: nat, xoRate: nat)
    requires 0 < xoRate && DistinctFreqs(opps) && desc.apmCrossover == 0
    ensures ParamsSpec(opps, ExportedApm(desc), ExportedAcc(desc), cores, xoRate).None?
  {
    hide Visit, TableOf, FirstAt, Usable;
  }

  /** The word of a crossover row runs open-loop at the crossover voltage, rounded up to a regulator step. */
  lemma CrossoverWord(uV: int, fuse: FuseCorner, desc: Desc, step: u32, minQuotient: u32)
    requires Packable(Crossover(uV), desc, step) && ControlFits(desc.baseUV, step) && fuse.ro < 16
    requires Aligned(desc.baseUV, step) && desc.baseUV <= uV
    requires RowWord(Crossover(uV), false, fuse, desc, step, minQuotient).Some?
    ensures var w := RowWord(Crossover(uV), false, fuse, desc, step, minQuotient).value;
            && ClosedLoopDisabledIn(w)
            && uV <= DecodedUV(InitVoltageOf(w), desc.baseUV, step) < uV + step
            && DecodedUV(FloorVoltageOf(w), desc.baseUV, step) == DecodedUV(InitVoltageOf(w), desc.baseUV, step)
  {
    hide RowWord, DecodedUV, InitVoltageOf, FloorVoltageOf, Aligned, ClosedLoopDisabledIn, ControlFits, BaseSteps;
    WrittenRowDecodes(Crossover(uV), false, fuse, desc, step, minQuotient);
    SameFields(uV, fuse, desc, step, minQuotient);
  }

  lemma SameFields(uV: int, fuse: FuseCorner, desc: Desc, step: u32, minQuotient: u32)
    requires Packable(Crossover(uV), desc, step) && RowWord(Crossover(uV), false, fuse, desc, step, minQuotient).Some?
    ensures var w := RowWord(Crossover(uV), false, fuse, desc, step, minQuotient).value;
            InitVoltageOf(w) == FloorVoltageOf(w)
  {
    AcceptedVoltages(uV, desc.baseUV, step);
    hide Word, VoltageSteps, InitVoltageOf, FloorVoltageOf;
    var s := VoltageSteps(uV, desc.baseUV, step);
    WordDecodes(s, s, 0, 0, true);
  }

  // ------------------------------------------------------- a pass, from its corner table

  lemma WordIsSmall(c: Corner, dcvs: bool, fuse: FuseCorner, desc: Desc, step: u32, minQuotient: u32)
    requires step > 0 && RowWord(c, dcvs, fuse, desc, step, minQuotient).Some?
    ensures RowWord(c, dcvs, fuse, desc, step, minQuotient).value < 0x4000_0000
  {
    var oloop, floor := VoltageSteps(c.uV, desc.baseUV, step), VoltageSteps(c.minUV, desc.baseUV, step);
    var delta := if dcvs then DeltaSteps(fuse.quot, c.quotAdjust, minQuotient) else 0;
    WordIsSum(oloop, floor, delta, if dcvs then fuse.ro else 0, c.openLoop);
    hide Word, VoltageSteps, DeltaSteps;
  }

  /** The rows of a table that are in range, as 32-bit words. */
  function RowsWritten(t: seq<Corner>, desc: Desc, fuses: seq<FuseCorner>, step: u32, minQuotient: u32): (ws: seq<u32>)
    requires step > 0 && RowsDefined(CprRows(t, desc), |t|, fuses)
  {
    var rows := CprRows(t, desc);
    var words := RowWords(rows, |t|, |rows|, fuses, desc, step, minQuotient);
    seq(|words|, i requires 0 <= i < |words| => ToU32(words[i]))
  }

  /**
   * The set-up pass of a thread whose corner table is `t`: its calls before the arithmetic, whether every
   * corner found its operating point, the smallest quotient if none was refused, and its register set-up.
   */
  function AttemptOf(t: seq<Corner>, desc: Desc, fuses: seq<FuseCorner>, step: u32, adjusted: bool, minQuotient: Option<u32>,
                     lookup: bool, alloc: bool, addTable: bool, setup: seq<Write>): Attempt
    requires step > 0 && RowsDefined(CprRows(t, desc), |t|, fuses)
  {
    Attempt(lookup, alloc, addTable, adjusted && minQuotient.Some? && RowsAccepted(desc), ExportedApm(desc), ExportedAcc(desc),
            setup, RowsWritten(t, desc, fuses, step, minQuotient.GetOr(0)), |t| + ReservedRows(desc))
  }

  /**
   * A pass built from a corner table: when its crossover rows are accepted, its rows are the words of the
   * corners and crossovers in order, its total is all of them, and it gets past its range check exactly when
   * every row is in range.
   */
  lemma ComputedPass(t: seq<Corner>, desc: Desc, fuses: seq<FuseCorner>, step: u32, adjusted: bool, minQuotient: u32,
                     lookup: bool, alloc: bool, addTable: bool, setup: seq<Write>)
    requires step > 0 && RowsDefined(CprRows(t, desc), |t|, fuses) && RowsAccepted(desc)
    ensures var a := AttemptOf(t, desc, fuses, step, adjusted, Some(minQuotient), lookup, alloc, addTable, setup);
            var rows := CprRows(t, desc);
            && a.total == |rows| && |a.rows| <= |rows|
            && (forall i :: 0 <= i < |a.rows| ==> RowAt(rows, |t|, i, fuses, desc, step, minQuotient) == Some(a.rows[i]))
            && (|a.rows| == a.total
                <==> forall i :: 0 <= i < |rows| ==> RowAt(rows, |t|, i, fuses, desc, step, minQuotient).Some?)
            && (AttemptSucceeds(a) <==> lookup && alloc && addTable && adjusted && |a.rows| == a.total)
  {
    var rows := CprRows(t, desc);
    var words := RowWords(rows, |t|, |rows|, fuses, desc, step, minQuotient);
    hide RowAt, CprRows, RowsDefined;
    forall i | 0 <= i < |words|
      ensures RowAt(rows, |t|, i, fuses, desc, step, minQuotient) == Some(words[i]) && ToU32(words[i]) == words[i]
    {
      RowWordsAt(rows, |t|, |rows|, fuses, desc, step, minQuotient, i);
      SmallAt(rows, |t|, i, fuses, desc, step, minQuotient);
      FitsUnchanged(words[i]);
    }
    AllInRange(rows, |t|, |rows|, fuses, desc, step, minQuotient);
  }

  lemma SmallAt(corners: seq<Corner>, n: nat, i: nat, fuses: seq<FuseCorner>, desc: Desc, step: u32, minQuotient: u32)
    requires step > 0 && i < |corners| && RowsDefined(corners, n, fuses)
    requires RowAt(corners, n, i, fuses, desc, step, minQuotient).Some?
    ensures RowAt(corners, n, i, fuses, desc, step, minQuotient).value < 0x4000_0000
  {
    WordIsSmall(corners[i], i < n, fuses[if i < n then corners[i].fuse else 0], desc, step, minQuotient);
    hide RowWord;
  }

  lemma {:induction false} AllInRange(corners: seq<Corner>, n: nat, total: nat, fuses: seq<FuseCorner>,
                                      desc: Desc, step: u32, minQuotient: u32)
    requires step > 0 && total <= |corners| && RowsDefined(corners, n, fuses)
    ensures |RowWords(corners, n, total, fuses, desc, step, minQuotient)| == total
            <==> forall i :: 0 <= i < total ==> RowAt(corners, n, i, fuses, desc, step, minQuotient).Some?
  {
    hide RowAt;
    if total > 0 { AllInRange(corners, n, total - 1, fuses, desc, step, minQuotient); }
  }

  // -------------------------------------------------------------------- the whole chain

  /** The corner table of a thread meets what the split needs. */
  lemma TableCornersOk(cdata: seq<CornerData>, fuses: seq<FuseCorner>, fds: seq<FuseData>, desc: Desc, step: int)
    requires step > 0 && InTable(cdata, fuses, fds) && DescriptorOk(fuses, fds, desc) && LevelsOrdered(cdata)
    ensures var t := Table(cdata, |cdata|, fuses, fds, desc, step);
            CornersOk(t, fuses, desc)
  {
    hide Table, CornerOk, ClampedUV, DescriptorOk, Loose, Targets, RunningMax;
    TableInvariant(cdata, |cdata|, fuses, fds, desc, step);
  }

  /** Every node is there with its override. */
  predicate NodesOk(opps: seq<Opp>) {
    forall k :: 0 <= k < |opps| ==> opps[k].node.Some? && opps[k].node.value.pllOverride.Some?
  }

  predicate MillivoltsOk(t: seq<Corner>) {
    forall i :: 0 <= i < |t| ==> 150 <= t[i].uV / 1000 <= 1400
  }

  /** Over matched tables, when the OSM driver accepts the operating points. */
  lemma AcceptedWhen(opps: seq<Opp>, t: seq<Corner>, apmUV: int)
    requires Matched(opps, t)
    ensures OsmParams.Accepted(opps, apmUV) <==> 2 <= |t| && 0 < apmUV && NodesOk(opps) && MillivoltsOk(t)
  {
    RowsAreCorners(opps, t);
    VisitAscends(opps, 1000);
    forall k | 0 <= k < |opps| ensures 1000 <= opps[k].freq && opps[k] in Visit(opps, 1000) {
      assert HasCorner(t, opps[k].freq);
      VisitCovers(opps, 1000, opps[k]);
    }
    hide Visit, NodesOk, MillivoltsOk, Usable;
    assert |opps| == |t|;
    hide Matched;
    UsableWhen(opps, Visit(opps, 1000), t);
  }

  lemma UsableWhen(opps: seq<Opp>, v: seq<Opp>, t: seq<Corner>)
    requires |v| == |t| && forall i :: 0 <= i < |v| ==> v[i].uV == t[i].uV
    requires (forall k :: 0 <= k < |opps| ==> opps[k] in v) && forall o :: o in v ==> o in opps
    ensures (forall i :: 0 <= i < |v| ==> Usable(v[i])) <==> NodesOk(opps) && MillivoltsOk(t)
  {
    if NodesOk(opps) && MillivoltsOk(t) {
      forall i | 0 <= i < |v| ensures Usable(v[i]) {
        assert v[i] in opps && v[i].uV == t[i].uV;
      }
    }
    if forall i :: 0 <= i < |v| ==> Usable(v[i]) {
      forall k | 0 <= k < |opps| ensures opps[k].node.Some? && opps[k].node.value.pllOverride.Some? {
        var i :| 0 <= i < |v| && v[i] == opps[k];
        assert Usable(v[i]);
      }
      forall i | 0 <= i < |t| ensures 150 <= t[i].uV / 1000 <= 1400 {
        assert Usable(v[i]) && v[i].uV == t[i].uV;
      }
    }
  }

  function Values(s: seq<nat>): set<nat> { set x | x in s }

  lemma {:induction false} AsManyValues(s: seq<nat>)
    requires forall i, j :: 0 <= i < j < |s| ==> s[i] != s[j]
    ensures |Values(s)| == |s|
  {
    if |s| > 0 {
      var last := |s| - 1;
      AsManyValues(s[..last]);
      assert Values(s) == Values(s[..last]) + {s[last]};
      assert s[last] !in s[..last];
    }
  }

  /** As many points as corners, and a point for every corner: then there is a corner for every point. */
  lemma EveryPointHasCorner(opps: seq<Opp>, t: seq<Corner>, k: nat)
    requires |opps| == |t| && DistinctFreqs(opps) && k < |opps|
    requires forall i, j :: 0 <= i < j < |t| ==> t[i].freq < t[j].freq
    requires forall i :: 0 <= i < |t| ==> HasFreq(opps, t[i].freq)
    ensures HasCorner(t, opps[k].freq)
  {
    var os := seq(|opps|, i requires 0 <= i < |opps| => opps[i].freq);
    var ts := seq(|t|, i requires 0 <= i < |t| => t[i].freq);
    AsManyValues(os);
    AsManyValues(ts);
    forall x | x in Values(ts) ensures x in Values(os) {
      var i :| 0 <= i < |ts| && ts[i] == x;
      assert HasFreq(opps, t[i].freq);
      var l :| 0 <= l < |opps| && opps[l].freq == t[i].freq;
      assert os[l] == x;
    }
    EqualSets(Values(ts), Values(os));
    assert os[k] in Values(os);
    var i :| 0 <= i < |ts| && ts[i] == os[k];
    assert t[i].freq == opps[k].freq;
  }

  lemma EqualSets(a: set<nat>, b: set<nat>)
    requires a <= b && |a| == |b|
    ensures a == b
  {
    assert b == a + (b - a);
    assert |b - a| == 0;
  }

  /**
   * The whole chain, from the inputs of the corner computation to the corner number the OSM is given: the
   * corner table's voltages go to the operating points, the crossover rows are filled and their thresholds
   * exported, and the parameters are generated from those. It succeeds exactly when every corner has a point,
   * the crossover rows are accepted with an APM threshold above 0, there are two corners or more, and every
   * point is usable; the APM corner that results splits the corner table exactly, loose corners apart.
   */
  method ApmCornerOf(opps: array<Opp>, cdata: seq<CornerData>, fuses: seq<FuseCorner>, fds: seq<FuseData>,
                     desc: Desc, step: int, cores: nat, xoRate: nat)
    returns (p: Option<Params>)
    requires step > 0 && InTable(cdata, fuses, fds) && DescriptorOk(fuses, fds, desc) && LevelsOrdered(cdata)
    requires forall i, j :: 0 <= i < j < |cdata| ==> cdata[i].freq < cdata[j].freq
    requires forall i :: 0 <= i < |cdata| ==> 1000 <= cdata[i].freq && 0 <= fuses[cdata[i].fuse].minUV
    requires forall f :: 0 <= f < |fuses| ==> fuses[f].maxUV < U32_SPAN
    requires opps.Length == |cdata| && DistinctFreqs(opps[..]) && 0 < xoRate && desc.memAccThreshold < INT_MAX
    modifies opps
    ensures var t := Table(cdata, |cdata|, fuses, fds, desc, step);
            p.Some? <==>
              && (forall i :: 0 <= i < |t| ==> HasFreq(old(opps[..]), t[i].freq))
              && RowsAccepted(desc) && 0 < ExportedApm(desc)
              && 2 <= |t| && NodesOk(old(opps[..])) && MillivoltsOk(t)
    ensures p.Some? ==>
      var t := Table(cdata, |cdata|, fuses, fds, desc, step);
      var split := if p.value.apmVc < 0 then |t| else p.value.apmVc;
      && Matched(opps[..], t) && ParamsSpec(opps[..], ExportedApm(desc), ExportedAcc(desc), cores, xoRate) == p
      && SplitsAt(t, split, fuses, desc) && p.value.numEntries == |t| % 256
  {
    ghost var was := opps[..];
    var t := Table(cdata, |cdata|, fuses, fds, desc, step);
    hide Table, DescriptorOk, CornersOk, SplitsAt, Matched, Visit, FirstAt, HandedOver, RowsOf, OsmParams.Accepted;
    hide NodesOk, MillivoltsOk, ParamsSpec, RowsAccepted;
    TableCornersOk(cdata, fuses, fds, desc, step);
    TableFits(cdata, fuses, fds, desc, step);
    var ok := AdjustOpps(opps, t);
    if !ok { return None; }
    forall k | 0 <= k < opps.Length ensures HasCorner(t, was[k].freq) {
      EveryPointHasCorner(was, t, k);
    }
    HandOverMatches(was, opps[..], t);
    SameNodes(was, opps[..]);
    if !RowsAccepted(desc) { return None; }
    var apmUV, accUV := ExportedApm(desc), ExportedAcc(desc);
    AcceptedWhen(opps[..], t, apmUV);
    var r := GenParams(opps[..], apmUV, accUV, cores, xoRate);
    if r.Err? { return None; }
    assert 0 <= desc.apmHysteresis by { HysteresisOf(fuses, fds, desc); }
    ApmSplits(opps[..], t, fuses, desc);
    SpecOf(opps[..], apmUV, accUV, cores, xoRate, r.value);
    return Some(r.value);
  }

  lemma SameNodes(a: seq<Opp>, b: seq<Opp>)
    requires |a| == |b| && forall k :: 0 <= k < |a| ==> a[k].node == b[k].node
    ensures NodesOk(a) <==> NodesOk(b)
  {
  }

  lemma HysteresisOf(fuses: seq<FuseCorner>, fds: seq<FuseData>, desc: Desc)
    requires DescriptorOk(fuses, fds, desc)
    ensures 0 <= desc.apmHysteresis
  {
  }

  /** Frequencies are the corners' own, and voltages stay in their fuse windows. */
  lemma TableFits(cdata: seq<CornerData>, fuses: seq<FuseCorner>, fds: seq<FuseData>, desc: Desc, step: int)
    requires step > 0 && InTable(cdata, fuses, fds) && DescriptorOk(fuses, fds, desc) && LevelsOrdered(cdata)
    ensures var t := Table(cdata, |cdata|, fuses, fds, desc, step);
            forall i :: 0 <= i < |t| ==>
              && t[i].freq == cdata[i].freq && t[i].fuse == cdata[i].fuse
              && fuses[cdata[i].fuse].minUV <= t[i].minUV <= t[i].uV <= fuses[cdata[i].fuse].maxUV
  {
    hide Table, ClampedUV, DescriptorOk, CornerOk, Loose, Targets, RunningMax;
    TableInvariant(cdata, |cdata|, fuses, fds, desc, step);
  }
}

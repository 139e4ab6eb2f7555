/** Generation of the OSM table from a CPU's operating points (qcom_cpufreq_gen_params()). */
module OsmParams {
  import opened Arith
  import opened Bits
  import opened Wrappers

  /** Device-tree properties of one operating point; the last two are optional. */
  datatype OppNode = OppNode(pllOverride: Option<u32>, spare: Option<u32>, pllDiv: Option<u32>)

  datatype Opp = Opp(freq: nat, uV: u32, node: Option<OppNode>)

  /** Parameters of one virtual corner. */
  datatype HwParams = HwParams(volt: nat, freq: nat, override: u32, spare: u32)

  datatype Params = Params(table: seq<HwParams>, apmVc: int, accVc: int, numEntries: nat)

  datatype Error = EINVAL | ENOENT | ECANCELED | EIO(code: int)

  const INT_MAX := 0x7FFF_FFFF
  const U8_MAX := 255

  predicate DistinctFreqs(opps: seq<Opp>) {
    forall i, j :: 0 <= i < j < |opps| ==> opps[i].freq != opps[j].freq
  }

  /** Index of the operating point with the least frequency at or above `rate`. */
  function FindCeil(opps: seq<Opp>, rate: nat): (r: Option<nat>)
    ensures r.Some? ==> r.value < |opps| && rate <= opps[r.value].freq
    ensures r.Some? ==> forall i :: 0 <= i < |opps| && rate <= opps[i].freq ==> opps[r.value].freq <= opps[i].freq
    ensures r.None? ==> forall i :: 0 <= i < |opps| ==> opps[i].freq < rate
  {
    if |opps| == 0 then None else
      var last := |opps| - 1;
      var r := FindCeil(opps[..last], rate);
      if rate <= opps[last].freq && (r.None? || opps[last].freq < opps[r.value].freq) then Some(last) else r
  }

  function TopFreq(opps: seq<Opp>): (m: nat)
    ensures forall i :: 0 <= i < |opps| ==> opps[i].freq <= m
  {
    if |opps| == 0 then 0 else Max(TopFreq(opps[..|opps| - 1]), opps[|opps| - 1].freq)
  }

  /** The operating points in the order the ceil-then-increment loop visits them, from `rate` up. */
  function Visit(opps: seq<Opp>, rate: nat): seq<Opp>
    decreases TopFreq(opps) + 1 - rate
  {
    match FindCeil(opps, rate)
    case None => []
    case Some(k) => [opps[k]] + Visit(opps, opps[k].freq + 1)
  }

  /** Number of operating points at or above `rate`. */
  function CountFrom(opps: seq<Opp>, rate: nat): (c: nat)
    ensures c <= |opps|
  {
    if |opps| == 0 then 0 else
      var last := |opps| - 1;
      CountFrom(opps[..last], rate) + if rate <= opps[last].freq then 1 else 0
  }

  lemma {:induction false} CountAllIff(opps: seq<Opp>, rate: nat)
    ensures CountFrom(opps, rate) == |opps| <==> forall i :: 0 <= i < |opps| ==> rate <= opps[i].freq
  {
    if |opps| > 0 {
      var last := |opps| - 1;
      CountAllIff(opps[..last], rate);
      assert forall i :: 0 <= i < last ==> opps[..last][i] == opps[i];
    }
  }

  lemma {:induction false} CountStep(opps: seq<Opp>, rate: nat, k: nat)
    requires DistinctFreqs(opps) && k < |opps| && rate <= opps[k].freq
    requires forall i :: 0 <= i < |opps| && rate <= opps[i].freq ==> opps[k].freq <= opps[i].freq
    ensures CountFrom(opps, rate) == 1 + CountFrom(opps, opps[k].freq + 1)
  {
    var last := |opps| - 1;
    assert forall i :: 0 <= i < last ==> opps[..last][i] == opps[i];
    if k < last {
      CountStep(opps[..last], rate, k);
    } else {
      CountAgree(opps[..last], rate, opps[k].freq + 1);
    }
  }

  lemma {:induction false} CountAgree(opps: seq<Opp>, a: nat, b: nat)
    requires forall i :: 0 <= i < |opps| ==> (a <= opps[i].freq <==> b <= opps[i].freq)
    ensures CountFrom(opps, a) == CountFrom(opps, b)
  {
    if |opps| > 0 { CountAgree(opps[..|opps| - 1], a, b); }
  }

  /** The loop visits frequencies strictly upwards, and only points of the table. */
  lemma {:induction false} VisitAscends(opps: seq<Opp>, rate: nat)
    ensures forall o :: o in Visit(opps, rate) ==> o in opps && rate <= o.freq
    ensures forall i, j :: 0 <= i < j < |Visit(opps, rate)| ==> Visit(opps, rate)[i].freq < Visit(opps, rate)[j].freq
    decreases TopFreq(opps) + 1 - rate
  {
    hide FindCeil, TopFreq;
    match FindCeil(opps, rate)
    case None =>
    case Some(k) =>
      var rest := Visit(opps, opps[k].freq + 1);
      VisitAscends(opps, opps[k].freq + 1);
      assert Visit(opps, rate) == [opps[k]] + rest;
      assert forall j :: 0 <= j < |rest| ==> rest[j] in rest;
  }

  /** Over distinct frequencies it visits every point from `rate` up. */
  lemma {:induction false} VisitCovers(opps: seq<Opp>, rate: nat, o: Opp)
    requires DistinctFreqs(opps) && o in opps && rate <= o.freq
    ensures o in Visit(opps, rate)
    decreases TopFreq(opps) + 1 - rate
  {
    hide FindCeil, TopFreq;
    var i :| 0 <= i < |opps| && opps[i] == o;
    var k := FindCeil(opps, rate).value;
    assert i != k ==> opps[i].freq != opps[k].freq;
    if i != k { VisitCovers(opps, opps[k].freq + 1, o); }
  }

  /** ... and as many points as there are. */
  lemma {:induction false} VisitCount(opps: seq<Opp>, rate: nat)
    requires DistinctFreqs(opps)
    ensures |Visit(opps, rate)| == CountFrom(opps, rate)
    decreases TopFreq(opps) + 1 - rate
  {
    hide FindCeil, TopFreq, CountFrom;
    match FindCeil(opps, rate)
    case None =>
      NothingFrom(opps, rate);
    case Some(k) =>
      CountStep(opps, rate, k);
      VisitCount(opps, opps[k].freq + 1);
  }

  lemma {:induction false} NothingFrom(opps: seq<Opp>, rate: nat)
    requires forall i :: 0 <= i < |opps| ==> opps[i].freq < rate
    ensures CountFrom(opps, rate) == 0
  {
    if |opps| > 0 { NothingFrom(opps[..|opps| - 1], rate); }
  }

  /** A table already in ascending order is visited in its own order. */
  lemma {:induction false} VisitAscending(opps: seq<Opp>, k: nat, rate: nat)
    requires k <= |opps|
    requires forall i, j :: 0 <= i < j < |opps| ==> opps[i].freq < opps[j].freq
    requires forall i :: 0 <= i < k ==> opps[i].freq < rate
    requires forall i :: k <= i < |opps| ==> rate <= opps[i].freq
    ensures Visit(opps, rate) == opps[k..]
    decreases |opps| - k
  {
    if k < |opps| {
      var r := FindCeil(opps, rate);
      assert r.Some? && k <= r.value && opps[r.value].freq <= opps[k].freq;
      VisitAscending(opps, k + 1, opps[k].freq + 1);
    }
  }

  // ------------------------------------------------------------------- entries

  /** Virtual corner and millivolts. */
  function VoltWord(vc: nat, mV: nat): nat {
    BitOr(FieldPrep(vc, 0x1_0000, 64), FieldPrep(mV, 1, 0x1000))
  }

  /** Clock source, multiplier, core count and PLL divider. */
  function FreqWord(src: nat, lval: nat, cores: nat, pllDiv: nat): nat {
    BitOr(BitOr(BitOr(src * 0x400_0000, lval), FieldPrep(cores, 0x1_0000, 8)), FieldPrep(pllDiv, 0x100_0000, 4))
  }

  function LValOf(w: nat): nat { FieldGet(w, 1, 0x100) }
  function CoreCountOf(w: nat): nat { FieldGet(w, 0x1_0000, 8) }
  function PllDivOf(w: nat): nat { FieldGet(w, 0x100_0000, 4) }
  function SourceOf(w: nat): nat { FieldGet(w, 0x400_0000, 4) }
  function MillivoltsOf(w: nat): nat { FieldGet(w, 1, 0x1000) }
  function VcOf(w: nat): nat { FieldGet(w, 0x1_0000, 64) }

  predicate Usable(o: Opp) {
    && o.node.Some? && o.node.value.pllOverride.Some?
    && 150 <= o.uV / 1000 <= 1400
  }

  /** Only the first virtual corner runs from the alternate source. */
  function EntryOf(o: Opp, i: nat, cores: nat, xoRate: nat): HwParams
    requires Usable(o) && xoRate > 0
  {
    HwParams(VoltWord(i, o.uV / 1000),
             FreqWord(if i == 0 then 0 else 1, o.freq / xoRate, cores, o.node.value.pllDiv.GetOr(0)),
             o.node.value.pllOverride.value, o.node.value.spare.GetOr(0))
  }

  /** First of v[0..n] whose voltage reaches the threshold, or -1. */
  function FirstAt(v: seq<Opp>, n: nat, threshold: int): (r: int)
    requires n <= |v|
    ensures -1 <= r < n
    ensures r == -1 ==> forall i :: 0 <= i < n ==> v[i].uV < threshold
    ensures r >= 0 ==> v[r].uV >= threshold && forall i :: 0 <= i < r ==> v[i].uV < threshold
  {
    if n == 0 then -1 else
      var r := FirstAt(v, n - 1, threshold);
      if r < 0 && v[n - 1].uV >= threshold then n - 1 else r
  }

  /** MEM-ACC corner handed to the sequencer code: 255 stands for none, or for one too low to use. */
  function AccVcOf(v: seq<Opp>, accUV: int): int {
    if accUV <= 0 then U8_MAX else
      var first := FirstAt(v, |v|, accUV);
      if first < 3 then U8_MAX else first
  }

  ghost predicate Accepted(opps: seq<Opp>, apmUV: int)
  {
    && |opps| >= 2 && apmUV > 0
    && (forall i :: 0 <= i < |opps| ==> 1000 <= opps[i].freq)
    && (forall i :: 0 <= i < |Visit(opps, 1000)| ==> Usable(Visit(opps, 1000)[i]))
  }

  /** One step of the visiting order. */
  lemma VisitNext(opps: seq<Opp>, v: seq<Opp>, i: nat, rate: nat)
    requires i <= |v| && v[i..] == Visit(opps, rate)
    ensures FindCeil(opps, rate).None? ==> i == |v|
    ensures FindCeil(opps, rate).Some? ==>
      var o := opps[FindCeil(opps, rate).value];
      i < |v| && v[i] == o && v[i + 1..] == Visit(opps, o.freq + 1)
  {
    hide FindCeil, TopFreq;
    if FindCeil(opps, rate).Some? {
      assert v[i..][0] == v[i] && v[i..][1..] == v[i + 1..];
    }
  }

  /** The body of the parameter loop that reads one operating point and fills its row. */
  method FillEntry(hwTbl: array<HwParams>, i: nat, o: Opp, cores: nat, xoRate: nat) returns (err: Option<Error>)
    requires i < hwTbl.Length && xoRate > 0
    modifies hwTbl
    ensures err.None? <==> Usable(o)
    ensures hwTbl[..] == if err.None? then old(hwTbl[..])[i := EntryOf(o, i, cores, xoRate)] else old(hwTbl[..])
  {
    hide VoltWord, FreqWord;
    if o.node.None? { return Some(ENOENT); }
    if o.node.value.pllOverride.None? { return Some(EINVAL); }
    var spare := if o.node.value.spare.Some? then o.node.value.spare.value else 0;
    var pllDiv := if o.node.value.pllDiv.Some? then o.node.value.pllDiv.value else 0;
    var mV := o.uV / 1000;
    if mV < 150 || mV > 1400 { return Some(EINVAL); }
    var source := if i != 0 then 1 else 0;
    hwTbl[i] := HwParams(VoltWord(i, mV), FreqWord(source, o.freq / xoRate, cores, pllDiv),
                         o.node.value.pllOverride.value, spare);
    return None;
  }

  /** Rows of the visited points. */
  ghost predicate RowsOf(table: seq<HwParams>, v: seq<Opp>, n: nat, cores: nat, xoRate: nat)
    requires xoRate > 0
  {
    n <= |table| && n <= |v| && forall k :: 0 <= k < n ==> Usable(v[k]) && table[k] == EntryOf(v[k], k, cores, xoRate)
  }

  /**
   * The ceil-then-increment loop. It writes only inside the table of |opps| rows, stops at the first
   * unusable point, and otherwise emits every point from 1 kHz up exactly once, lowest first.
   */
  method ReadPoints(opps: seq<Opp>, apmUV: int, accUV: int, accStart: int, cores: nat, xoRate: nat)
    returns (ok: bool, table: seq<HwParams>, i: nat, apmVc: int, accVc: int)
    requires DistinctFreqs(opps) && xoRate > 0
    ensures ok <==> forall k :: 0 <= k < |Visit(opps, 1000)| ==> Usable(Visit(opps, 1000)[k])
    ensures ok ==>
      var v := Visit(opps, 1000);
      && i == |v| && |table| == |opps| && RowsOf(table, v, i, cores, xoRate)
      && apmVc == FirstAt(v, i, apmUV)
      && accVc == if accStart < 0 then FirstAt(v, i, accUV) else accStart
  {
    hide EntryOf, Usable, FindCeil, TopFreq, CountFrom, Visit;
    var count := |opps|;
    var hwTbl := new HwParams[count](_ => HwParams(0, 0, 0, 0));
    ghost var v := Visit(opps, 1000);
    VisitCount(opps, 1000);
    var rate: nat := 1000;
    i, apmVc, accVc := 0, -1, if accStart < 0 then -1 else accStart;
    while i <= count
      invariant 0 <= i <= |v| <= count && v[i..] == Visit(opps, rate)
      invariant RowsOf(hwTbl[..], v, i, cores, xoRate)
      invariant apmVc == FirstAt(v, i, apmUV)
      invariant accVc == if accStart < 0 then FirstAt(v, i, accUV) else accStart
      decreases count + 1 - i
    {
      VisitNext(opps, v, i, rate);
      var found := FindCeil(opps, rate);
      if found.None? { break; }
      var o := opps[found.value];
      rate := o.freq;
      if o.uV >= apmUV && apmVc < 0 { apmVc := i; }
      if o.uV >= accUV && accVc < 0 { accVc := i; }
      var err := FillEntry(hwTbl, i, o, cores, xoRate);
      if err.Some? {
        assert !Usable(v[i]);
        return false, [], i, apmVc, accVc;
      }
      rate, i := rate + 1, i + 1;
    }
    ok, table := true, hwTbl[..];
  }

  /**
   * qcom_cpufreq_gen_params() once the CPRh driver has installed and adjusted the operating points
   * and handed back its two thresholds. It succeeds exactly when there are at least two points, an
   * APM threshold, no point below 1 kHz and every point is usable; row i then describes the point
   * with the i-th lowest frequency.
   */
  method GenParams(opps: seq<Opp>, apmUV: int, accThresholdUV: int, cores: nat, xoRate: nat)
    returns (r: Result<Params, Error>)
    requires DistinctFreqs(opps) && xoRate > 0 && accThresholdUV < INT_MAX
    ensures r.Ok? <==> Accepted(opps, apmUV)
    ensures r.Ok? ==>
      var v := Visit(opps, 1000);
      && |v| == |opps| == |r.value.table| && r.value.numEntries == |opps| % 256
      && RowsOf(r.value.table, v, |v|, cores, xoRate)
      && r.value.apmVc == FirstAt(v, |v|, apmUV)
      && r.value.accVc == AccVcOf(v, accThresholdUV)
  {
    hide RowsOf, Usable, Visit;
    if |opps| < 2 { return Err(EINVAL); }
    if apmUV <= 0 { return Err(EINVAL); }
    var accUV: int, accStart: int := INT_MAX, U8_MAX;
    if accThresholdUV > 0 {
      accUV, accStart := accThresholdUV, -1;
    }
    var ok, table, n, apmVc, accVc := ReadPoints(opps, apmUV, accUV, accStart, cores, xoRate);
    if !ok { return Err(EINVAL); }
    VisitCount(opps, 1000);
    CountAllIff(opps, 1000);
    if accUV != INT_MAX && accVc < 3 { accVc := U8_MAX; }
    if n < |opps| { return Err(EINVAL); }
    return Ok(Params(table, apmVc, accVc, n % 256));
  }

  // --------------------------------------------------------------- field round trips

  lemma {:induction false} VoltWordIsSum(vc: nat, mV: nat)
    ensures VoltWord(vc, mV) == vc % 64 * 0x1_0000 + mV % 0x1000
  {
    hide BitOr;
    OrAt(vc % 64, 16, 0x1_0000, mV % 0x1000);
  }

  /** With a multiplier below 2^16 the four fields of a frequency word do not overlap. */
  lemma {:induction false} FreqWordIsSum(src: nat, lval: nat, cores: nat, pllDiv: nat)
    requires src < 2 && lval < 0x1_0000
    ensures FreqWord(src, lval, cores, pllDiv)
         == src * 0x400_0000 + pllDiv % 4 * 0x100_0000 + cores % 8 * 0x1_0000 + lval
  {
    hide BitOr;
    OrAt(src, 26, 0x400_0000, lval);
    OrIntoGap(src, cores % 8, 16, 0x1_0000, lval);
    OrIntoGap(src, pllDiv % 4, 24, 0x100_0000, cores % 8 * 0x1_0000 + lval);
  }

  /** OR of a field into the free bits between the clock source and a lower part. */
  lemma {:induction false} OrIntoGap(src: nat, field: nat, k: nat, unit: nat, lo: nat)
    requires (k == 16 && unit == 0x1_0000 && field < 0x400) || (k == 24 && unit == 0x100_0000 && field < 4)
    requires lo < unit
    ensures BitOr(src * 0x400_0000 + lo, field * unit) == src * 0x400_0000 + field * unit + lo
  {
    hide BitOr, Pow2, Shl;
    Powers();
    var width, top := if k == 16 then 10 else 2, if k == 16 then 0x400 else 4;
    OrAt(src, width, top, field);
    OrShifted(src * top, field, k, lo);
    ShlIsProduct(src * top, k);
    ShlIsProduct(field, k);
  }

  lemma FourFields(w: nat, lval: nat, cores: nat, div: nat, src: nat)
    requires lval < 0x100 && cores < 8 && div < 4 && src < 2
    requires w == src * 0x400_0000 + div * 0x100_0000 + cores * 0x1_0000 + lval
    ensures w % 0x100 == lval && w / 0x1_0000 % 8 == cores && w / 0x100_0000 % 4 == div && w / 0x400_0000 == src
  {
    DivModUnique(w, 0x400_0000, src, w - src * 0x400_0000);
    DivModUnique(w, 0x100_0000, src * 4 + div, cores * 0x1_0000 + lval);
    DivModUnique(w, 0x1_0000, src * 0x400 + div * 0x100 + cores, lval);
    DivModUnique(w, 0x100, src * 0x4_0000 + div * 0x1_0000 + cores * 0x100, lval);
  }

  /** Reading a row back gives every field that was written (read_lut's extraction, and the vendor's). */
  lemma {:induction false} FreqWordFields(src: nat, lval: nat, cores: nat, pllDiv: nat)
    requires src < 2 && lval < 0x100 && cores < 8 && pllDiv < 4
    ensures var w := FreqWord(src, lval, cores, pllDiv);
            SourceOf(w) == src && LValOf(w) == lval && CoreCountOf(w) == cores && PllDivOf(w) == pllDiv
            && w < 0x1_0000_0000
  {
    hide FreqWord;
    FreqWordIsSum(src, lval, cores, pllDiv);
    FourFields(FreqWord(src, lval, cores, pllDiv), lval, cores, pllDiv, src);
  }

  lemma {:induction false} VoltWordFields(vc: nat, mV: nat)
    requires vc < 64 && mV < 0x1000
    ensures VcOf(VoltWord(vc, mV)) == vc && MillivoltsOf(VoltWord(vc, mV)) == mV
  {
    hide VoltWord;
    VoltWordIsSum(vc, mV);
  }

  /** Row i of the table: corner i at the point's millivolts, its multiplier, the core count, and its own override and spare. */
  lemma EntryDecodes(o: Opp, i: nat, cores: nat, xoRate: nat)
    requires Usable(o) && xoRate > 0 && i < 64 && cores < 8 && o.freq / xoRate < 0x100
    ensures var e := EntryOf(o, i, cores, xoRate);
            && VcOf(e.volt) == i && MillivoltsOf(e.volt) == o.uV / 1000
            && SourceOf(e.freq) == (if i == 0 then 0 else 1) && LValOf(e.freq) == o.freq / xoRate
            && CoreCountOf(e.freq) == cores
            && PllDivOf(e.freq) == (match o.node.value.pllDiv case None => 0 case Some(div) => div % 4)
            && o.node.value.pllOverride == Some(e.override)
            && e.spare == (match o.node.value.spare case None => 0 case Some(spare) => spare)
  {
    var div: nat := match o.node.value.pllDiv case None => 0 case Some(d) => d;
    VoltWordFields(i, o.uV / 1000);
    FreqWordFields(if i == 0 then 0 else 1, o.freq / xoRate, cores, div % 4);
    DivMasked(if i == 0 then 0 else 1, o.freq / xoRate, cores, div);
    hide VoltWord, FreqWord, VcOf, MillivoltsOf, SourceOf, LValOf, CoreCountOf, PllDivOf;
  }

  lemma DivMasked(src: nat, lval: nat, cores: nat, div: nat)
    ensures FreqWord(src, lval, cores, div) == FreqWord(src, lval, cores, div % 4)
  {
    hide BitOr;
    assert div % 4 % 4 == div % 4;
  }
}

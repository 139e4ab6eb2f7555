/** What programming the OSM of one frequency domain writes, as scripts. */
module OsmScript {
  import opened Arith
  import opened Bits
  import opened Wrappers
  import opened Script
  import opened MemAcc
  import opened OsmParams

  const LUT_ROWS := 40

  /** Parameters of a SoC: FSMs to enable, and the cluster power-collapse override. */
  datatype Soc = Soc(pdnFsmEn: u32, ccZeroBehav: u32)

  const MSM8998 := Soc(0x7, 0x1)
  const SDM660 := Soc(0x3F, 0x0)

  /** How the hardware answers: secure writes per sequencer register, ACD transfers, and the registers read back. */
  datatype Hardware = Hardware(
    scm: nat -> bool,
    acdRegion: bool, acdMapped: bool, autoTransfer: bool, transfer: nat -> bool,
    droopCtrl: u32, pdnFsmCtrl: u32)

  // ---------------------------------------------------------------- parameters

  /** What qcom_cpufreq_gen_params() produces, or None where it fails. */
  ghost function ParamsSpec(opps: seq<Opp>, apmUV: int, accUV: int, cores: nat, xoRate: nat): (p: Option<Params>)
    requires xoRate > 0 && DistinctFreqs(opps)
    ensures p.Some? ==> p.value.numEntries <= |p.value.table| == |opps|
    ensures p.Some? ==> p.value.accVc == U8_MAX || 3 <= p.value.accVc
  {
    if Accepted(opps, apmUV) then
      var v := Visit(opps, 1000);
      AllVisited(opps);
      Some(Params(TableOf(v, cores, xoRate), FirstAt(v, |v|, apmUV), AccVcOf(v, accUV), |opps| % 256))
    else None
  }

  lemma AllVisited(opps: seq<Opp>)
    requires DistinctFreqs(opps) && forall i :: 0 <= i < |opps| ==> 1000 <= opps[i].freq
    ensures |Visit(opps, 1000)| == |opps|
  {
    hide Visit;
    VisitCount(opps, 1000);
    CountAllIff(opps, 1000);
  }

  ghost function TableOf(v: seq<Opp>, cores: nat, xoRate: nat): (t: seq<HwParams>)
    requires xoRate > 0 && forall i :: 0 <= i < |v| ==> Usable(v[i])
    ensures RowsOf(t, v, |v|, cores, xoRate) && |t| == |v|
  {
    seq(|v|, i requires 0 <= i < |v| => EntryOf(v[i], i, cores, xoRate))
  }

  /** What the generator returns is what its specification says. */
  lemma SpecOf(opps: seq<Opp>, apmUV: int, accUV: int, cores: nat, xoRate: nat, p: Params)
    requires 0 < xoRate && DistinctFreqs(opps) && Accepted(opps, apmUV)
    requires var v := Visit(opps, 1000);
             && |v| == |opps| == |p.table| && p.numEntries == |opps| % 256
             && RowsOf(p.table, v, |v|, cores, xoRate)
             && p.apmVc == FirstAt(v, |v|, apmUV) && p.accVc == AccVcOf(v, accUV)
    ensures ParamsSpec(opps, apmUV, accUV, cores, xoRate) == Some(p)
  {
    hide Visit, FirstAt, AccVcOf, Usable;
    var v := Visit(opps, 1000);
    assert p.table == TableOf(v, cores, xoRate);
  }

  /** Parameters the table writer accepts to work on. */
  predicate Writable(p: Params) {
    2 <= p.numEntries <= |p.table| && (p.accVc == U8_MAX || 3 <= p.accVc)
  }

  // -------------------------------------------------------------- lookup table

  /** Row i of the hardware table; the last valid entry repeats to the end. */
  function Padded(p: Params, i: nat): HwParams
    requires Writable(p)
  {
    p.table[if i < p.numEntries then i else p.numEntries - 1]
  }

  function RowWrites(i: nat, e: HwParams): seq<Write> {
    [ Write(Index(i), ToU32(i)), Write(Volt(i), ToU32(e.volt)), Write(Freq(i), ToU32(e.freq)),
      Write(Override(i), e.override), Write(Spare(i), e.spare) ]
  }

  function LutWrites(p: Params, k: nat): seq<Write>
    requires Writable(p)
  {
    if k == 0 then [] else LutWrites(p, k - 1) + RowWrites(k - 1, Padded(p, k - 1))
  }

  /** Spare column of the 40 hardware rows. */
  function SparesOf(p: Params): (s: seq<nat>)
    requires Writable(p)
    ensures |s| == LUT_ROWS && forall i :: 0 <= i < LUT_ROWS ==> s[i] == Padded(p, i).spare
  {
    seq(LUT_ROWS, i requires 0 <= i < LUT_ROWS => Padded(p, i).spare)
  }

  function Detected(p: Params): (vals: seq<int>)
    requires Writable(p)
    ensures |vals| in {0, 2, 4}
  {
    AccRun(SparesOf(p), LUT_ROWS).vals
  }

  predicate Custom(p: Params) { p.accVc > 0 && p.accVc != U8_MAX }

  function MemAccCorners(p: Params): (c: seq<int>)
    requires Writable(p) && |Detected(p)| == 4
    ensures |c| == 4
  {
    if Custom(p) then Customise(Detected(p), p.accVc) else Detected(p)
  }

  /** Detected rises are rows of the parameter table, padding notwithstanding. */
  lemma DetectedInTable(p: Params)
    requires Writable(p) && |Detected(p)| == 4
    ensures var d := Detected(p);
            && 0 <= d[1] < d[3] < p.numEntries && d[0] == d[1] - 1 && d[2] == d[3] - 1
            && 0 <= MemAccCorners(p)[3] <= d[3]
  {
    var s := SparesOf(p);
    AccBrackets(s, LUT_ROWS);
    if p.numEntries < LUT_ROWS {
      PaddingInert(s, p.numEntries, LUT_ROWS);
      AccBrackets(s, p.numEntries);
    }
  }

  // ----------------------------------------------------------------- sequencer

  function ApmCorner(p: Params): int {
    if p.apmVc == INT_MAX then LUT_ROWS - 1 else p.apmVc
  }

  function SecureSeq(n: nat, val: int, hw: Hardware): Action {
    Secure(Write(Sequencer(n), ToU32(val)), hw.scm(n))
  }

  function AccWrites(c: seq<int>, hw: Hardware): seq<Action>
    requires |c| == 4
  {
    [SecureSeq(55, c[0], hw), SecureSeq(56, c[1], hw), SecureSeq(57, c[2], hw), SecureSeq(58, c[3], hw)]
  }

  /** Value of the APM parameter register: the corner above six constant bits. */
  function ApmParam(apmVc: int): nat {
    BitOr(ToU32(apmVc * 0x40), 0x39)
  }

  function ApmWrites(p: Params, hw: Hardware): seq<Action> {
    var apm := ApmCorner(p);
    [ Put(Write(Seq1, ToU32(apm))), SecureSeq(72, p.numEntries, hw), SecureSeq(15, apm, hw),
      SecureSeq(31, apm - 1, hw), SecureSeq(76, ApmParam(apm), hw) ]
  }

  function CrossoverWrite(p: Params, hw: Hardware): seq<Action> {
    if Custom(p) then [SecureSeq(88, p.numEntries + 1, hw)] else []
  }

  function LvalWrite(p: Params, c: seq<int>, hw: Hardware): seq<Action>
    requires |c| == 4 && 0 <= c[3] < |p.table|
  {
    [SecureSeq(32, LValOf(p.table[c[3]].freq), hw)]
  }

  function SequencerActions(p: Params, hw: Hardware): seq<Action>
    requires Writable(p) && |Detected(p)| == 4
  {
    DetectedInTable(p);
    var c := MemAccCorners(p);
    CrossoverWrite(p, hw) + (AccWrites(c, hw) + (LvalWrite(p, c, hw) + (ApmWrites(p, hw) + [Gate(3)])))
  }

  /** qcom_cpufreq_hw_write_lut() after its parameters were generated. */
  function LutActions(p: Params, hw: Hardware): seq<Action>
    requires p.numEntries <= |p.table| && (p.accVc == U8_MAX || 3 <= p.accVc)
  {
    if p.numEntries < 2 then [Call(false)] else
      [Gate(1)] + (Puts(LutWrites(p, LUT_ROWS)) +
        if |Detected(p)| < 3 then [Call(false)] else [Gate(2)] + SequencerActions(p, hw))
  }

  // ---------------------------------------------------------- remaining set-up

  function Timer(lo: nat, hi: nat): u32
    requires lo < 0x1_0000 && hi < 0x1_0000
  {
    hi * 0x1_0000 + lo
  }

  /** The lower half is the first delay, the upper half the second. */
  lemma TimerHalves(lo: nat, hi: nat)
    requires lo < 0x1_0000 && hi < 0x1_0000
    ensures Timer(lo, hi) % 0x1_0000 == lo && Timer(lo, hi) / 0x1_0000 == hi
  {
    DivModUnique(Timer(lo, hi), 0x1_0000, hi, lo);
  }

  function DcvsWrites(soc: Soc): seq<Write> {
    [ Write(Tunable(0xF00), 275), Write(Tunable(0x1C), Timer(200, 200)), Write(Tunable(0x0C), soc.ccZeroBehav),
      Write(Tunable(0x24), 0), Write(Tunable(0x20), 0), Write(Tunable(0x2C), Timer(65535, 65535)),
      Write(Tunable(0x30), Timer(65535, 65535)), Write(Tunable(0x34), 0) ]
  }

  function BoostTimer(base: nat): seq<Write> {
    [ Write(Tunable(base), Timer(2000, 1000)), Write(Tunable(base + 4), Timer(2000, 2000)),
      Write(Tunable(base + 8), Timer(200, 0)) ]
  }

  function BoostWrites(): seq<Write> {
    BoostTimer(0x74) + (BoostTimer(0x84) + (BoostTimer(0x94) + [Write(Tunable(0xA0), 5)]))
  }

  const DROOP_CTRL := 0x8002_0008

  function DroopWrites(hw: Hardware): seq<Write> {
    [ Write(Tunable(0xAC), Timer(100, 100)), Write(Tunable(0xB0), Timer(50, 50)), Write(Tunable(0xBC), 1),
      Write(Tunable(0xA8), 1), Write(Tunable(0xB8), 100),
      Write(Tunable(0xA4), ToU32(BitOr(hw.droopCtrl, DROOP_CTRL))) ]
  }

  function FsmWrites(soc: Soc, hw: Hardware): seq<Write> {
    [ Write(Tunable(0x70), ToU32(BitOr(hw.pdnFsmCtrl, soc.pdnFsmEn))), Write(Tunable(0xC0), 1) ]
  }

  function AcdRegWrites(): seq<Write> {
    [ Write(Acd(0x8), 38417), Write(Acd(0x4), 0x2b5ffd), Write(Acd(0x28), 0x501), Write(Acd(0x30), 0x2cf9ae8),
      Write(Acd(0x88), 0x15) ]
  }

  /** Registers of the automatic transfer, by bit: the delay, control, soft start and interface registers. */
  const ACD_MASK := 0x1406

  function AutoTransfer(hw: Hardware): seq<Action> {
    Puts([Write(Acd(0x80), ACD_MASK), Write(Acd(0x84), 0), Write(Acd(0x84), 1)]) + [Call(hw.autoTransfer)]
  }

  /** One manual transfer of `val` to ACD register `reg`; k counts the transfers of the sequence. */
  function Transfer(k: nat, reg: nat, val: u32, hw: Hardware): seq<Action>
    requires reg < 0x100
  {
    Puts([Write(Acd(reg), val), Write(Acd(0x90), 0), Write(Acd(0x90), reg / 4 * 2 + 1)]) + [Call(hw.transfer(k))]
  }

  function AcdFinish(hw: Hardware): seq<Action> {
    Transfer(1, 0x34, 1, hw) + (Transfer(2, 0x34, 0, hw) + (Transfer(3, 0x30, 0x2cf9afe, hw)
      + [Put(Write(Acd(0x80), ACD_MASK + 0x8000)), Gate(10)]))
  }

  /** qcom_cpufreq_hw_acd_init(); `gated` says whether a SoC without ACD still honours step 10. */
  function AcdActions(hw: Hardware, gated: bool): seq<Action> {
    if !hw.acdRegion then (if gated then [Gate(10)] else [])
    else if !hw.acdMapped then [Call(false)]
    else Puts(AcdRegWrites()) + (AutoTransfer(hw) + ([Gate(8)] + (Transfer(0, 0x3C, 1, hw) + ([Gate(9)] + AcdFinish(hw)))))
  }

  const ENABLE_WRITE := Write(OsmEnable, 1)
  const REQUEST_WRITE := Write(PerfState, 0)
  const LOOP_WRITE := Write(LoopEnable, 1)
  const INTERFACE_WRITE := Write(OsmInterface, 1)

  function StartActions(): seq<Action> {
    [Put(REQUEST_WRITE), Put(ENABLE_WRITE), Gate(11)]
  }

  /** qcom_cpr3_cprh_enable(): refuses a thread without a corner table. */
  function ArmActions(inited: bool, lookup: bool): seq<Action> {
    if lookup && inited then [Put(LOOP_WRITE), Put(INTERFACE_WRITE)] else [Call(false)]
  }

  function TuningActions(soc: Soc, hw: Hardware): seq<Action> {
    (Puts(DcvsWrites(soc)) + [Gate(4)]) + ((Puts(BoostWrites()) + [Gate(5)])
      + ((Puts(DroopWrites(hw)) + [Gate(6)]) + (Puts(FsmWrites(soc, hw)) + [Gate(7)])))
  }

  // --------------------------------------------------------------------- CPRh

  /**
   * One pass of qcom_cpr3_cprh_init() over a thread, as its environment answers: the lookups and
   * calls before any write, the thresholds exported with the corner arithmetic, the register
   * set-up writes, and the corner words (fewer than `total` when a row does not fit).
   */
  datatype Attempt = Attempt(
    lookup: bool, alloc: bool, addTable: bool, computed: bool,
    apmUV: int, accUV: int, setup: seq<Write>, rows: seq<u32>, total: nat)

  function CornerWrites(rows: seq<u32>): (ws: seq<Write>)
    ensures |ws| == |rows| && forall i :: 0 <= i < |rows| ==> ws[i] == Write(CornerRow(i), rows[i])
  {
    seq(|rows|, i requires 0 <= i < |rows| => Write(CornerRow(i), rows[i]))
  }

  /** The corner rows, the range check of the row after them, and the latch. */
  function CornerPhase(a: Attempt, stop: int): seq<Action> {
    Puts(CornerWrites(a.rows)) + ([Call(|a.rows| == a.total)] +
      if 4 >= stop then [] else [Latch(a.apmUV, a.accUV, a.rows, a.total)])
  }

  /** Everything a pass does that was not cut by `cprh_init_stop`. A cut pass still reports success. */
  function CprhActions(a: Attempt, stop: int): seq<Action> {
    [Call(a.lookup)] + ([Call(a.alloc)] + if 0 >= stop then [] else
      [Call(a.addTable)] + if 1 >= stop then [] else
        [Call(a.computed)] + if 2 >= stop then [] else
          [Put(Write(OsmInterface, 0))] + (Puts(a.setup) + if 3 >= stop then [] else CornerPhase(a, stop)))
  }

  predicate AttemptSucceeds(a: Attempt) {
    a.lookup && a.alloc && a.addTable && a.computed && |a.rows| == a.total
  }

  /** Does the pass, if every call succeeds, latch the thread as initialised? */
  predicate Latches(stop: int) { stop >= 5 }

  /** Thresholds the caller receives. */
  function ThresholdsAfter(a: Attempt, stop: int): (int, int) {
    if stop >= 2 then (a.apmUV, a.accUV) else (-1, -1)
  }

  // ------------------------------------------------------------- whole sequence

  /** One call of qcom_cpufreq_hw_osm_setup() for one CPU of a cluster, as its environment answers. */
  datatype Env = Env(
    attempt: Attempt, opps: seq<Opp>, cores: nat, xoRate: nat,
    soc: Soc, hw: Hardware, acdGated: bool, enableLookup: bool)

  /** What the CPRh driver remembers of a cluster's thread. */
  datatype Thread = Thread(inited: bool, apmUV: int, accUV: int)

  const FRESH := Thread(false, -1, -1)

  predicate EnvOk(e: Env) {
    && DistinctFreqs(e.opps) && e.xoRate > 0 && e.attempt.accUV < INT_MAX
    && forall i :: 0 <= i < |e.attempt.setup| ==> e.attempt.setup[i].reg.CprReg?
  }

  function CprhPart(e: Env, t: Thread, cprhStop: int): seq<Action> {
    if t.inited then [Call(e.attempt.lookup)] else CprhActions(e.attempt, cprhStop)
  }

  /** Thread state after a CPRh part in which every call succeeded. */
  function ThreadAfter(e: Env, t: Thread, cprhStop: int): Thread {
    if t.inited then t
    else var (apm, acc) := ThresholdsAfter(e.attempt, cprhStop);
      Thread(Latches(cprhStop), apm, acc)
  }

  ghost function LutPart(e: Env, t: Thread): seq<Action>
    requires EnvOk(e)
  {
    match ParamsSpec(e.opps, t.apmUV, t.accUV, e.cores, e.xoRate)
    case None => [Call(false)]
    case Some(p) => LutActions(p, e.hw)
  }

  ghost function OsmPart(e: Env, t: Thread): seq<Action>
    requires EnvOk(e)
  {
    LutPart(e, t) + (TuningActions(e.soc, e.hw) + (AcdActions(e.hw, e.acdGated)
      + (StartActions() + ArmActions(t.inited, e.enableLookup))))
  }

  /** The whole script of one set-up call. */
  ghost function SetupScript(e: Env, t: Thread, cprhStop: int): seq<Action>
    requires EnvOk(e)
  {
    [Gate(0)] + (CprhPart(e, t, cprhStop) + OsmPart(e, ThreadAfter(e, t, cprhStop)))
  }
}

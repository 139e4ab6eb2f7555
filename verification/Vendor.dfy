/**
 * The vendor driver for one cluster (clk-cpu-osm-660.c): the table it reads from the device tree,
 * the table and sequencer registers it writes, and its clock operations.
 */
module Vendor {
  import opened Arith
  import opened Bits
  import opened Wrappers
  import opened Script
  import opened MemAcc
  import opened OsmParams

  const TABLE_SIZE := 40
  const NUM_FIELDS := 5
  const MAX_CORES := 4
  const MINUS_ONE := 0xff

  /** Row r of the device-tree property: frequency, frequency word, PLL override, spare word, corner. */
  datatype Row = Row(hz: u32, freqData: u32, override: u32, spare: u32, corner: u32)

  function RowOf(elems: seq<u32>, r: nat): Row
    requires 5 * r + 5 <= |elems|
  {
    Row(elems[5 * r], elems[5 * r + 1], elems[5 * r + 2], elems[5 * r + 3], elems[5 * r + 4])
  }

  /** struct osm_entry: corner and millivolts are 16 bits wide. */
  datatype Entry = Entry(vc: nat, mV: nat, freqData: u32, override: u32, spare: u32, frequency: nat)

  function ToU16(x: int): (r: nat)
    ensures r < 0x1_0000
  {
    x % 0x1_0000
  }

  /** Corners are 0-based in the table. The voltage is filled in later. */
  function FromRow(r: Row, mV: nat): Entry {
    Entry(ToU16(r.corner - 1), mV, r.freqData, r.override, r.spare, r.hz)
  }

  /** Frequencies of the first n rows that run all cores. */
  function QuadRates(elems: seq<u32>, n: nat): (s: seq<u32>)
    requires 5 * n <= |elems|
    ensures |s| <= n && (n == 0 ==> s == [])
  {
    if n == 0 then [] else
      var row := RowOf(elems, n - 1);
      QuadRates(elems, n - 1) + if CoreCountOf(row.freqData) == MAX_CORES then [row.hz] else []
  }

  /** The first k entries hold the rows, the last row repeating; their voltages are those of `was`. */
  predicate Filled(t: seq<Entry>, was: seq<Entry>, elems: seq<u32>, k: nat)
    requires k <= |t| == |was| && 5 <= |elems|
  {
    var n := |elems| / 5;
    forall q :: 0 <= q < k ==> t[q] == FromRow(RowOf(elems, if q < n then q else n - 1), was[q].mV)
  }

  /** How a step ends: done, refused, or with an access outside an array, where the model stops. */
  datatype Status = Success | Refused | OutOfBounds

  // ------------------------------------------------------------- hardware table

  /** The same corner twice in a row, other than corner 0, with different spare words. */
  predicate Conflict(t: seq<Entry>, i: nat)
    requires i < |t|
  {
    0 < i && t[i - 1].vc != 0 && t[i - 1].vc == t[i].vc && t[i - 1].spare != t[i].spare
  }

  predicate NoConflict(t: seq<Entry>, n: nat)
    requires n <= |t|
  {
    forall i :: 0 <= i < n ==> !Conflict(t, i)
  }

  /** A run of rows at the same corner, other than corner 0. */
  predicate SameCorner(t: seq<Entry>, i: nat, j: nat)
    requires i <= j < |t|
  {
    t[i].vc != 0 && forall k :: i <= k <= j ==> t[k].vc == t[i].vc
  }

  /** Without a conflict, rows in a run at one corner all have the same spare word, and only then. */
  lemma NoConflictIff(t: seq<Entry>, n: nat)
    requires n <= |t|
    ensures NoConflict(t, n) <==> forall i, j :: 0 <= i <= j < n && SameCorner(t, i, j) ==> t[i].spare == t[j].spare
  {
    if NoConflict(t, n) {
      forall i, j | 0 <= i <= j < n && SameCorner(t, i, j) ensures t[i].spare == t[j].spare {
        SpareInRun(t, n, i, j);
      }
    }
    if forall i, j :: 0 <= i <= j < n && SameCorner(t, i, j) ==> t[i].spare == t[j].spare {
      forall i | 0 <= i < n ensures !Conflict(t, i) {
        if Conflict(t, i) { assert SameCorner(t, i - 1, i); }
      }
    }
  }

  lemma {:induction false} SpareInRun(t: seq<Entry>, n: nat, i: nat, j: nat)
    requires i <= j < n <= |t| && NoConflict(t, n) && SameCorner(t, i, j)
    ensures t[i].spare == t[j].spare
  {
    if i < j {
      assert !Conflict(t, j);
      SpareInRun(t, n, i, j - 1);
    }
  }

  function VoltOf(e: Entry): nat { VoltWord(e.vc, e.mV) }

  /** Row i as written: past the table the last values are still in the variables. */
  function VendorRow(i: nat, e: Entry): seq<Write> {
    [ Write(Index(i), ToU32(i)), Write(Freq(i), e.freqData), Write(Volt(i), ToU32(VoltOf(e))),
      Write(Override(i), e.override), Write(Spare(i), e.spare) ]
  }

  function VendorLut(t: seq<Entry>, n: nat, k: nat): seq<Write>
    requires 0 < n <= |t|
  {
    if k == 0 then [] else VendorLut(t, n, k - 1) + VendorRow(k - 1, t[if k - 1 < n then k - 1 else n - 1])
  }

  // ------------------------------------------------------------------ corners

  /** Corners where the sequencer acts; zero until resolved. */
  datatype Corners = Corners(apmVc: u32, apmPre: u32, apmCross: u32, accVc: u32, accPre: u32, accCross: u32)

  const UNRESOLVED := Corners(0, 0, 0, 0, 0, 0)

  /** Voltage the regulator lists for the corner of an entry. */
  predicate Reaches(e: Entry, threshold: int, volt: nat -> int) {
    ToU32(volt(e.vc + 1)) >= ToU32(threshold)
  }

  /** First of t[0..n] that reaches the threshold, or -1. */
  function FirstReach(t: seq<Entry>, n: nat, threshold: int, volt: nat -> int): (r: int)
    requires n <= |t|
    ensures -1 <= r < n
    ensures r == -1 ==> forall i :: 0 <= i < n ==> !Reaches(t[i], threshold, volt)
    ensures r >= 0 ==> Reaches(t[r], threshold, volt) && forall i :: 0 <= i < r ==> !Reaches(t[i], threshold, volt)
  {
    if n == 0 then -1 else
      var r := FirstReach(t, n - 1, threshold, volt);
      if r < 0 && Reaches(t[n - 1], threshold, volt) then n - 1 else r
  }

  /** Threshold corner and the one before it. */
  function ThresholdCorners(t: seq<Entry>, first: int): (r: (nat, nat))
    requires first < |t|
  {
    if first < 0 then (TABLE_SIZE - 1, TABLE_SIZE - 2)
    else (t[first].vc, if t[first].vc != 0 then t[first].vc - 1 else MINUS_ONE)
  }

  predicate TableOk(t: seq<Entry>) {
    |t| == TABLE_SIZE && forall i :: 0 <= i < TABLE_SIZE ==> t[i].vc < 0x1_0000 && t[i].mV < 0x1_0000
  }

  /** Corners resolved for a cluster; the MEM-ACC ones stay zero without a threshold. */
  function Resolve(t: seq<Entry>, apmUV: int, accUV: int, count: nat, volt: nat -> int): Corners
    requires TableOk(t)
  {
    var (apm, pre) := ThresholdCorners(t, FirstReach(t, TABLE_SIZE, apmUV, volt));
    if accUV != 0 then
      var (acc, accPre) := ThresholdCorners(t, FirstReach(t, TABLE_SIZE, accUV, volt));
      Corners(apm, pre, ToU32(count - 2), acc, accPre, ToU32(count - 1))
    else Corners(apm, pre, ToU32(count - 1), 0, 0, 0)
  }

  // ------------------------------------------------------------------ sequencer

  /** Level last seen, and the corner before each change. */
  datatype VendorAcc = VendorAcc(level: nat, corners: seq<int>)

  function LevelMap(t: seq<Entry>, n: nat): VendorAcc
    requires 0 < |t| && n <= |t|
  {
    if n == 0 then VendorAcc(t[0].spare, []) else
      var a := LevelMap(t, n - 1);
      if a.level == 3 || t[n - 1].spare == a.level then a
      else VendorAcc(t[n - 1].spare, a.corners + [t[n - 1].vc - 1])
  }

  function FixedThresholds(corners: seq<int>): (s: seq<int>)
    ensures |s| == 4
  {
    var c0, c1 := if |corners| > 0 then corners[0] else 0, if |corners| > 1 then corners[1] else 0;
    [c0, c0 + 1, c1, c1 + 1]
  }

  predicate Dynamic(x: Corners) { x.accVc != 0 || x.accPre == MINUS_ONE }

  function DynamicThresholds(s: seq<int>, x: Corners): (r: seq<int>)
    requires |s| == 4
    ensures |r| == 4
  {
    if !Dynamic(x) then s
    else if x.accPre == MINUS_ONE then [MINUS_ONE, MINUS_ONE, MINUS_ONE, x.accVc]
    else
      var t1 := if s[1] >= x.accPre then x.accPre - 1 else s[1];
      var t0 := if s[0] >= t1 then t1 - 1 else s[0];
      [t0, t1, x.accPre, x.accVc]
  }

  /**
   * With a resolved MEM-ACC corner and the one before it, the lower two are the highest ones below that rise and lie
   * nowhere above the fixed ones; where there is none before it, all three below are 255.
   */
  lemma DynamicIs(s: seq<int>, x: Corners, a: int, b: int)
    requires |s| == 4 && s[0] < s[1]
    ensures !Dynamic(x) ==> DynamicThresholds(s, x) == s
    ensures x.accPre == 0xff ==> DynamicThresholds(s, x) == [0xff, 0xff, 0xff, x.accVc]
    ensures Dynamic(x) && x.accPre != 0xff ==>
      var r := DynamicThresholds(s, x);
      && r[3] == x.accVc && r[2] == x.accPre && r[0] < r[1] < r[2] && r[0] <= s[0] && r[1] <= s[1]
      && (a < b < x.accPre && a <= s[0] && b <= s[1] ==> a <= r[0] && b <= r[1])
  {
  }

  /** One write of the multiplier for every row at the corner. */
  function LvalWrites(t: seq<Entry>, n: nat, corner: int): seq<Write>
    requires n <= |t|
  {
    if n == 0 then [] else
      LvalWrites(t, n - 1, corner) +
        if corner == t[n - 1].vc then [Write(Sequencer(32), ToU32(LValOf(t[n - 1].freqData)))] else []
  }

  function SeqWrite(n: nat, v: int): Write { Write(Sequencer(n), ToU32(v)) }

  function Thresholds(t: seq<Entry>, n: nat, x: Corners): (s: seq<int>)
    requires 0 < n <= |t|
    ensures |s| == 4
  {
    DynamicThresholds(FixedThresholds(LevelMap(t, n).corners), x)
  }

  function VendorAccWrites(t: seq<Entry>, n: nat, x: Corners): seq<Write>
    requires 0 < n <= |t|
  {
    var s := Thresholds(t, n, x);
    (if x.accCross != 0 then [SeqWrite(88, x.accCross)] else [])
    + ([SeqWrite(55, s[0]), SeqWrite(56, s[1]), SeqWrite(57, s[2]), SeqWrite(58, s[3])]
    + LvalWrites(t, n, s[3]))
  }

  function VendorApmWrites(x: Corners): seq<Write> {
    (if x.apmVc != 0 then [Write(Seq1, x.apmVc)] else [])
    + [ SeqWrite(72, x.apmCross), SeqWrite(15, x.apmVc), SeqWrite(31, x.apmPre),
        SeqWrite(76, BitOr(0x39, ToU32(x.apmVc * 0x40))) ]
  }

  // ------------------------------------------------------------------------ rates

  /** is_better_rate(): error values are never better. */
  predicate Better(req: nat, best: nat, rate: nat) {
    rate < U64_SPAN - 4095 && ((req <= rate && rate < best) || (best < req && best < rate))
  }

  /** Row r runs all cores at the rate. */
  predicate QuadRow(e: Entry, rate: nat) {
    e.frequency == rate && CoreCountOf(e.freqData) == MAX_CORES
  }

  predicate SingleRow(e: Entry, rate: nat) {
    e.frequency == rate && CoreCountOf(e.freqData) == 1
  }

  /** The rate table is that of the hardware table: one entry for every row that runs all cores. */
  predicate Collected(t: seq<Entry>, n: nat, rates: seq<u32>) {
    && 0 < n <= |t| == TABLE_SIZE && n < U32_SPAN
    && (forall r :: 0 <= r < n && CoreCountOf(t[r].freqData) == MAX_CORES ==> t[r].frequency in rates)
    && forall x :: x in rates ==> exists r :: 0 <= r < n && QuadRow(t[r], x)
  }

  /** What clk_osm_search_table() answers: the first row that runs all cores, else the last single-core row. */
  predicate Found(t: seq<Entry>, n: nat, rate: nat, index: int)
    requires n <= |t|
  {
    if exists r :: 0 <= r < n && QuadRow(t[r], rate) then
      && 0 <= index < n && QuadRow(t[index], rate)
      && forall r :: 0 <= r < index ==> !QuadRow(t[r], rate)
    else if exists r :: 0 < r < n && SingleRow(t[r], rate) then
      && 0 < index < n && SingleRow(t[index], rate)
      && forall r :: index < r < n ==> !SingleRow(t[r], rate)
    else index == -1
  }

  /** A property of 1 to 40 whole rows. */
  predicate ValidElems(elems: seq<u32>) {
    5 <= |elems| && |elems| % 5 == 0 && |elems| / 5 <= TABLE_SIZE
  }

  /** An entry with the voltage the regulator lists for its corner. */
  function WithVolts(e: Entry, volt: nat -> int): Entry {
    e.(mV := ToU16(TruncDiv(volt(e.vc + 1), 1000)))
  }

  /** Entry q once its row was read and its voltage resolved. */
  function VendorEntry(elems: seq<u32>, q: nat, volt: nat -> int): (e: Entry)
    requires ValidElems(elems)
    ensures e.vc < 0x1_0000 && e.mV < 0x1_0000
  {
    var n := |elems| / 5;
    WithVolts(FromRow(RowOf(elems, if q < n then q else n - 1), 0), volt)
  }

  function VendorTable(elems: seq<u32>, volt: nat -> int): (t: seq<Entry>)
    requires ValidElems(elems)
    ensures |t| == TABLE_SIZE && forall q :: 0 <= q < TABLE_SIZE ==> t[q] == VendorEntry(elems, q, volt)
  {
    seq(TABLE_SIZE, q requires 0 <= q < TABLE_SIZE => VendorEntry(elems, q, volt))
  }

  function VendorSequencer(t: seq<Entry>, n: nat, x: Corners): seq<Write>
    requires 0 < n <= |t|
  {
    VendorAccWrites(t, n, x) + VendorApmWrites(x)
  }

  class ClkOsm {
    const osmTable: array<Entry>
    var numEntries: nat
    var rateMax: seq<u32>
    var corners: Corners
    /** Override words for the limits hardware; none when the first is zero. */
    const llm: seq<u32>
    /** Every register write of the cluster, oldest first, and the performance state register. */
    var log: seq<Write>
    var perfState: u32

    constructor (llm: seq<u32>, reset: u32)
      requires |llm| == 3
      ensures osmTable.Length == TABLE_SIZE && fresh(osmTable) && TableOk(osmTable[..])
      ensures numEntries == 0 && rateMax == [] && corners == UNRESOLVED && log == [] && perfState == reset
      ensures this.llm == llm
    {
      osmTable := new Entry[TABLE_SIZE](_ => Entry(0, 0, 0, 0, 0, 0));
      numEntries, rateMax, corners, log := 0, [], UNRESOLVED, [];
      perfState := reset;
      this.llm := llm;
    }

    method WriteReg(reg: Reg, val: u32)
      modifies this`log, this`perfState
      ensures log == old(log) + [Write(reg, val)]
      ensures perfState == if reg.PerfState? then val else old(perfState)
    {
      log := log + [Write(reg, val)];
      if reg.PerfState? { perfState := val; }
    }

    method ReadRow(j: nat, elems: seq<u32>, i: nat)
      requires osmTable.Length == TABLE_SIZE && TableOk(osmTable[..]) && j < TABLE_SIZE && i + 5 <= |elems| && i % 5 == 0
      modifies osmTable
      ensures osmTable[..] == old(osmTable[..])[j := FromRow(RowOf(elems, i / 5), old(osmTable[j].mV))]
      ensures TableOk(osmTable[..])
    {
      var corner: int := elems[i + 4];
      osmTable[j] := Entry(ToU16(corner - 1), osmTable[j].mV, elems[i + 1], elems[i + 2], elems[i + 3], elems[i]);
    }

    method CollectRate(fmax: array<u32>, k: nat, elems: seq<u32>, i: nat) returns (next: nat)
      requires i % 5 == 0 && i + 5 <= |elems| && k < fmax.Length && fmax[..k] == QuadRates(elems, i / 5)
      modifies fmax
      ensures next <= k + 1 && next <= fmax.Length && fmax[..next] == QuadRates(elems, i / 5 + 1)
    {
      next := k;
      if CoreCountOf(elems[i + 1]) == MAX_CORES {
        fmax[k] := elems[i];
        next := k + 1;
      }
    }

    /**
     * clk_osm_get_lut(): fills all 40 entries, repeating the last row, and collects the rates of the
     * rows that run all cores. An empty property passes the length test, and its first row is then read from an
     * array without elements.
     */
    method GetLut(elems: seq<u32>) returns (end: Status)
      requires osmTable.Length == TABLE_SIZE && TableOk(osmTable[..])
      modifies osmTable, this`numEntries, this`rateMax
      ensures end.OutOfBounds? <==> elems == []
      ensures end.Success? <==> ValidElems(elems)
      ensures end.Success? ==>
        && numEntries == |elems| / 5 && rateMax == QuadRates(elems, numEntries) && TableOk(osmTable[..])
        && Filled(osmTable[..], old(osmTable[..]), elems, TABLE_SIZE)
      ensures !end.Success? ==> osmTable[..] == old(osmTable[..]) && rateMax == old(rateMax)
    {
      hide ToU16, CoreCountOf, FromRow, TableOk, RowOf, Filled, QuadRates;
      var total := |elems|;
      if total % NUM_FIELDS != 0 { return Refused; }
      var n := total / NUM_FIELDS;
      numEntries := n;
      if n > TABLE_SIZE { return Refused; }
      if n == 0 { return OutOfBounds; }
      ghost var was := osmTable[..];
      FilledNone(was, elems);
      var fmax := new u32[2 * n](_ => 0);
      var i, k, lastEntry, absFmax := 0, 0, false, 0;
      for j := 0 to TABLE_SIZE
        invariant i == 5 * (if j < n then j else n - 1) && lastEntry == (j >= n)
        invariant 0 <= k <= n && fmax[..k] == QuadRates(elems, if j < n then j else n)
        invariant TableOk(osmTable[..]) && Filled(osmTable[..], was, elems, j) && numEntries == n
        invariant forall q :: j <= q < TABLE_SIZE ==> osmTable[q] == was[q]
      {
        ghost var before := osmTable[..];
        ReadRow(j, elems, i);
        FilledStep(before, was, elems, j);
        if !lastEntry { k := CollectRate(fmax, k, elems, i); }
        if i < total - NUM_FIELDS { i := i + NUM_FIELDS; } else { absFmax, lastEntry := elems[i], true; }
      }
      fmax[k] := absFmax;
      rateMax := fmax[..k];
      end := Success;
    }

    /** clk_osm_resolve_open_loop_voltages(). */
    method ResolveOpenLoop(volt: nat -> int)
      requires osmTable.Length == TABLE_SIZE && TableOk(osmTable[..])
      modifies osmTable
      ensures TableOk(osmTable[..])
      ensures forall q :: 0 <= q < TABLE_SIZE ==> osmTable[q] == WithVolts(old(osmTable[q]), volt)
    {
      for i := 0 to TABLE_SIZE
        invariant TableOk(osmTable[..])
        invariant forall q :: 0 <= q < i ==> osmTable[q] == WithVolts(old(osmTable[q]), volt)
        invariant forall q :: i <= q < TABLE_SIZE ==> osmTable[q] == old(osmTable[q])
      {
        osmTable[i] := osmTable[i].(mV := ToU16(TruncDiv(volt(osmTable[i].vc + 1), 1000)));
      }
    }

    method WriteRow(i: nat, freqVal: u32, voltVal: u32, overrideVal: u32, spareVal: u32)
      modifies this`log, this`perfState
      ensures log == old(log) + [ Write(Index(i), ToU32(i)), Write(Freq(i), freqVal), Write(Volt(i), voltVal),
                                  Write(Override(i), overrideVal), Write(Spare(i), spareVal) ]
      ensures perfState == old(perfState)
    {
      hide ToU32;
      WriteReg(Index(i), ToU32(i));
      WriteReg(Freq(i), freqVal);
      WriteReg(Volt(i), voltVal);
      WriteReg(Override(i), overrideVal);
      WriteReg(Spare(i), spareVal);
    }

    /** clk_osm_setup_hw_table(): all 40 rows, unless two adjacent rows conflict. */
    method SetupHwTable() returns (ok: bool, rows: nat)
      requires osmTable.Length == TABLE_SIZE && 0 < numEntries <= TABLE_SIZE
      modifies this`log, this`perfState
      ensures ok <==> NoConflict(osmTable[..], numEntries)
      ensures rows <= TABLE_SIZE && log == old(log) + VendorLut(osmTable[..], numEntries, rows)
      ensures ok ==> rows == TABLE_SIZE
      ensures !ok ==> rows < numEntries && Conflict(osmTable[..], rows) && NoConflict(osmTable[..], rows)
      ensures perfState == old(perfState)
    {
      hide ToU32, VoltOf;
      var freqVal: u32, voltVal: u32, overrideVal: u32, spareVal: u32 := 0, 0, 0, 0;
      var lastSpare: u32, lastVc := 0, 0;
      ghost var t := osmTable[..];
      for i := 0 to TABLE_SIZE
        invariant log == old(log) + VendorLut(t, numEntries, i) && perfState == old(perfState)
        invariant NoConflict(t, if i < numEntries then i else numEntries)
        invariant i > 0 ==>
          var e := t[if i < numEntries then i - 1 else numEntries - 1];
          freqVal == e.freqData && voltVal == ToU32(VoltOf(e)) && overrideVal == e.override && spareVal == e.spare
          && lastVc == e.vc && lastSpare == e.spare
        invariant i == 0 ==> lastVc == 0
      {
        if i < numEntries {
          var e := osmTable[i];
          freqVal, voltVal, overrideVal, spareVal := e.freqData, ToU32(VoltOf(e)), e.override, e.spare;
          assert t[i] == e;
          if lastVc != 0 && lastVc == e.vc && lastSpare != e.spare {
            assert Conflict(t, i);
            return false, i;
          }
          lastVc, lastSpare := e.vc, e.spare;
        }
        WriteRow(i, freqVal, voltVal, overrideVal, spareVal);
      }
      return true, TABLE_SIZE;
    }

    /** The threshold loop of clk_osm_resolve_crossover_corners(), for a pair of still unresolved corners. */
    method ResolveThreshold(threshold: int, volt: nat -> int) returns (vc: u32, pre: u32)
      requires osmTable.Length == TABLE_SIZE && TableOk(osmTable[..])
      ensures (vc, pre) == ThresholdCorners(osmTable[..], FirstReach(osmTable[..], TABLE_SIZE, threshold, volt))
    {
      vc, pre := 0, 0;
      ghost var t := osmTable[..];
      var i := 0;
      while i < TABLE_SIZE
        invariant 0 <= i <= TABLE_SIZE && vc == pre == 0
        invariant FirstReach(t, i, threshold, volt) == -1
      {
        if ToU32(volt(osmTable[i].vc + 1)) >= ToU32(threshold) {
          vc := osmTable[i].vc;
          pre := if vc != 0 then vc - 1 else MINUS_ONE;
          FirstStays(t, i, TABLE_SIZE, threshold, volt);
          break;
        }
        i := i + 1;
      }
      if vc == 0 && pre != MINUS_ONE {
        vc, pre := TABLE_SIZE - 1, TABLE_SIZE - 2;
      }
    }

    /** clk_osm_resolve_crossover_corners(): nothing without an APM threshold or a corner count. */
    method ResolveCrossover(apmUV: Option<int>, accUV: int, count: int, volt: nat -> int) returns (ok: bool)
      requires osmTable.Length == TABLE_SIZE && TableOk(osmTable[..]) && corners == UNRESOLVED
      modifies this`corners
      ensures ok == (apmUV.Some? && 0 <= count)
      ensures ok ==> corners == Resolve(osmTable[..], apmUV.value, accUV, count, volt)
      ensures !ok ==> corners == UNRESOLVED
    {
      if apmUV.None? || count < 0 { return false; }
      if accUV != 0 {
        corners := corners.(apmCross := ToU32(count - 2), accCross := ToU32(count - 1));
      } else {
        corners := corners.(apmCross := ToU32(count - 1));
      }
      var vc, pre := ResolveThreshold(apmUV.value, volt);
      corners := corners.(apmVc := vc, apmPre := pre);
      if accUV != 0 {
        vc, pre := ResolveThreshold(accUV, volt);
        corners := corners.(accVc := vc, accPre := pre);
      }
      ok := true;
    }

    /** Corners before the level changes of the spare column; the map has room for three, and a fourth is out of it. */
    method FindLevels() returns (levelMap: array<int>, end: Status)
      requires osmTable.Length == TABLE_SIZE && 0 < numEntries <= TABLE_SIZE
      ensures levelMap.Length == 3 && fresh(levelMap)
      ensures end == if |LevelMap(osmTable[..], numEntries).corners| <= 3 then Success else OutOfBounds
      ensures end.Success? ==>
        [levelMap[0], levelMap[0] + 1, levelMap[1], levelMap[1] + 1]
        == FixedThresholds(LevelMap(osmTable[..], numEntries).corners)
    {
      levelMap := new int[3](_ => 0);
      ghost var t := osmTable[..];
      hide *;
      LevelStep(t, 0);
      var level, j, i := osmTable[0].spare, 0, 0;
      while i < numEntries
        invariant 0 <= i <= numEntries
        invariant level == LevelMap(t, i).level && j == |LevelMap(t, i).corners| <= 3
        invariant levelMap[..j] == LevelMap(t, i).corners
        invariant forall q :: j <= q < 3 ==> levelMap[q] == 0
      {
        LevelsGrow(t, i, numEntries);
        if level == 3 {
          break;
        }
        LevelsGrow(t, i + 1, numEntries);
        LevelStep(t, i);
        if osmTable[i].spare != level {
          if j == levelMap.Length { return levelMap, OutOfBounds; }
          levelMap[j] := osmTable[i].vc - 1;
          j := j + 1;
          level := osmTable[i].spare;
        }
        i := i + 1;
      }
      FixedFrom(levelMap[..], LevelMap(t, numEntries).corners);
      end := Success;
    }

    /** The four MEM-ACC corners: from the levels, or from the MEM-ACC threshold if there is one. */
    method PickThresholds() returns (thresholdVc: array<int>, end: Status)
      requires osmTable.Length == TABLE_SIZE && 0 < numEntries <= TABLE_SIZE
      ensures end == if |LevelMap(osmTable[..], numEntries).corners| <= 3 then Success else OutOfBounds
      ensures thresholdVc.Length == 4
      ensures end.Success? ==> thresholdVc[..] == Thresholds(osmTable[..], numEntries, corners)
    {
      hide LevelMap;
      var levelMap;
      levelMap, end := FindLevels();
      thresholdVc := new int[4];
      if end.OutOfBounds? { return; }
      thresholdVc[0], thresholdVc[1] := levelMap[0], levelMap[0] + 1;
      thresholdVc[2], thresholdVc[3] := levelMap[1], levelMap[1] + 1;
      if corners.accVc != 0 || corners.accPre == MINUS_ONE {
        thresholdVc[2], thresholdVc[3] := corners.accPre, corners.accVc;
        if corners.accPre == MINUS_ONE {
          thresholdVc[0], thresholdVc[1] := corners.accPre, corners.accPre;
        } else {
          if thresholdVc[1] >= thresholdVc[2] { thresholdVc[1] := thresholdVc[2] - 1; }
          if thresholdVc[0] >= thresholdVc[1] { thresholdVc[0] := thresholdVc[1] - 1; }
        }
      }
      assert thresholdVc[..] == [thresholdVc[0], thresholdVc[1], thresholdVc[2], thresholdVc[3]];
    }

    method WriteFour(thresholdVc: array<int>)
      requires thresholdVc.Length == 4
      modifies this`log, this`perfState
      ensures log == old(log) + [ SeqWrite(55, thresholdVc[0]), SeqWrite(56, thresholdVc[1]),
                                  SeqWrite(57, thresholdVc[2]), SeqWrite(58, thresholdVc[3]) ]
      ensures perfState == old(perfState)
    {
      hide ToU32;
      WriteReg(Sequencer(55), ToU32(thresholdVc[0]));
      WriteReg(Sequencer(56), ToU32(thresholdVc[1]));
      WriteReg(Sequencer(57), ToU32(thresholdVc[2]));
      WriteReg(Sequencer(58), ToU32(thresholdVc[3]));
    }

    /** The multiplier of every row at the highest MEM-ACC corner. */
    method WriteLvals(corner: int)
      requires osmTable.Length == TABLE_SIZE && numEntries <= TABLE_SIZE
      modifies this`log, this`perfState
      ensures log == old(log) + LvalWrites(osmTable[..], numEntries, corner) && perfState == old(perfState)
    {
      hide ToU32, LValOf;
      for i := 0 to numEntries
        invariant log == old(log) + LvalWrites(osmTable[..], i, corner) && perfState == old(perfState)
      {
        if corner == osmTable[i].vc { WriteReg(Sequencer(32), ToU32(LValOf(osmTable[i].freqData))); }
      }
    }

    /** clk_osm_program_mem_acc_regs() behind a secure monitor. */
    method ProgramMemAcc() returns (end: Status)
      requires osmTable.Length == TABLE_SIZE && 0 < numEntries <= TABLE_SIZE
      modifies this`log, this`perfState
      ensures end == if |LevelMap(osmTable[..], numEntries).corners| <= 3 then Success else OutOfBounds
      ensures log == old(log) + (if end.Success? then VendorAccWrites(osmTable[..], numEntries, corners) else [])
      ensures perfState == old(perfState)
    {
      hide LevelMap, ToU32, LValOf, Thresholds, LvalWrites;
      ghost var t := osmTable[..];
      ghost var was := log;
      var thresholdVc;
      thresholdVc, end := PickThresholds();
      if end.OutOfBounds? { return; }
      var s := thresholdVc[..];
      if corners.accCross != 0 { WriteReg(Sequencer(88), ToU32(corners.accCross)); }
      ghost var crossed := if corners.accCross != 0 then [SeqWrite(88, corners.accCross)] else [];
      assert log == was + crossed;
      WriteFour(thresholdVc);
      ghost var four := [SeqWrite(55, s[0]), SeqWrite(56, s[1]), SeqWrite(57, s[2]), SeqWrite(58, s[3])];
      WriteLvals(thresholdVc[3]);
      assert log == was + (crossed + (four + LvalWrites(t, numEntries, s[3])));
    }

    /** clk_osm_apm_vc_setup() behind a secure monitor. */
    method ApmVcSetup()
      modifies this`log, this`perfState
      ensures log == old(log) + VendorApmWrites(corners) && perfState == old(perfState)
    {
      hide ToU32, BitOr;
      if corners.apmVc != 0 { WriteReg(Seq1, corners.apmVc); }
      WriteReg(Sequencer(72), ToU32(corners.apmCross));
      WriteReg(Sequencer(15), ToU32(corners.apmVc));
      WriteReg(Sequencer(31), ToU32(corners.apmPre));
      WriteReg(Sequencer(76), ToU32(BitOr(0x39, ToU32(corners.apmVc * 0x40))));
    }

    /** clk_osm_determine_rate(): the least supported rate at or above a request, else the highest one. */
    method DetermineRate(rate: nat) returns (r: nat)
      requires rate == 0 ==> 0 < |rateMax|
      ensures rate == 0 ==> r == rateMax[0]
      ensures rate > 0 ==> r in rateMax || (r == 0 && forall x :: x in rateMax ==> x == 0)
      ensures rate > 0 && (exists x :: x in rateMax && rate <= x) ==>
                rate <= r && forall x :: x in rateMax && rate <= x ==> r <= x
      ensures rate > 0 && (forall x :: x in rateMax ==> x < rate) ==> forall x :: x in rateMax ==> x <= r
    {
      if rate == 0 { return rateMax[0]; }
      r := 0;
      for i := 0 to |rateMax|
        invariant r == 0 || r in rateMax[..i]
        invariant r >= rate ==> forall k :: 0 <= k < i && rate <= rateMax[k] ==> r <= rateMax[k]
        invariant r < rate ==> forall k :: 0 <= k < i ==> rateMax[k] <= r
      {
        if Better(rate, r, rateMax[i]) {
          r := rateMax[i];
          if rate == r { break; }
        }
      }
    }

    /** clk_osm_search_table(). A single-core row 0 is not found: index 0 also stands for none. */
    method SearchTable(entries: nat, rate: nat) returns (index: int)
      requires osmTable.Length == TABLE_SIZE && entries <= TABLE_SIZE
      ensures Found(osmTable[..], entries, rate, index)
    {
      hide CoreCountOf;
      ghost var t := osmTable[..];
      var single, quad := 0, 0;
      while quad < entries
        invariant 0 <= quad <= entries
        invariant forall r :: 0 <= r < quad ==> !QuadRow(t[r], rate)
        invariant single == 0 ==> forall r :: 0 < r < quad ==> !SingleRow(t[r], rate)
        invariant single != 0 ==>
          0 < single < quad && SingleRow(t[single], rate) && forall r :: single < r < quad ==> !SingleRow(t[r], rate)
      {
        var e := osmTable[quad];
        var cores := CoreCountOf(e.freqData);
        if rate == e.frequency && cores == 1 {
          single := quad;
          quad := quad + 1;
          continue;
        }
        if rate == e.frequency && cores == MAX_CORES { return quad; }
        quad := quad + 1;
      }
      if single != 0 { return single; }
      return -1;
    }

    /**
     * clk_osm_set_rate(): a non-zero request succeeds exactly for the collected rates; it then selects the
     * first row of that rate that runs all cores, and a rejected request writes nothing.
     */
    method SetRate(rate: nat) returns (ok: bool)
      requires osmTable.Length == TABLE_SIZE && Collected(osmTable[..], numEntries, rateMax) && |llm| == 3
      requires rate == 0 ==> 0 < |rateMax|
      modifies this`log, this`perfState
      ensures rate > 0 ==> (ok <==> rate in rateMax)
      ensures rate == 0 ==> (ok <==> rateMax[0] == 0)
      ensures ok ==>
        && 0 <= perfState < numEntries && QuadRow(osmTable[perfState], rate)
        && (forall r :: 0 <= r < perfState ==> !QuadRow(osmTable[r], rate))
        && log == old(log) + (if llm[0] == 0 then [Write(PerfState, perfState)]
                              else [Write(Tunable(0x38), llm[0]), Write(Tunable(0x38), llm[1]),
                                    Write(PerfState, perfState), Write(Tunable(0x38), llm[2])])
      ensures !ok ==> log == old(log) && perfState == old(perfState)
    {
      hide CoreCountOf;
      var r := DetermineRate(rate);
      if rate != r { return false; }
      ghost var t := osmTable[..];
      assert rate in rateMax ==> exists q :: 0 <= q < numEntries && QuadRow(t[q], rate);
      var index := SearchTable(numEntries, r);
      if index < 0 { return false; }
      if llm[0] != 0 {
        WriteReg(Tunable(0x38), llm[0]);
        WriteReg(Tunable(0x38), llm[1]);
      }
      WriteReg(PerfState, index);
      if llm[0] != 0 { WriteReg(Tunable(0x38), llm[2]); }
      ok := true;
    }

    /** clk_osm_recalc_rate(): the rate of the row in the performance state register. */
    method RecalcRate() returns (rate: nat)
      requires osmTable.Length == TABLE_SIZE && perfState < TABLE_SIZE
      ensures rate == osmTable[perfState].frequency
    {
      return osmTable[perfState].frequency;
    }

    /**
     * One cluster's bring-up, in the order of the vendor's probe: table, voltages, corners, hardware table,
     * sequencer. Corners that cannot be resolved are left zero and the probe goes on. The policy tuning and
     * cycle counters in between are not part of this model.
     */
    method Probe(elems: seq<u32>, volt: nat -> int, apmUV: Option<int>, accUV: int, count: int) returns (end: Status)
      requires osmTable.Length == TABLE_SIZE && TableOk(osmTable[..]) && corners == UNRESOLVED
      modifies osmTable, this`numEntries, this`rateMax, this`corners, this`log, this`perfState
      ensures end.Refused? <==>
        elems != [] && (ValidElems(elems) ==> !NoConflict(VendorTable(elems, volt), |elems| / 5))
      ensures end.OutOfBounds? <==>
        || elems == []
        || (ValidElems(elems) && NoConflict(VendorTable(elems, volt), |elems| / 5)
            && |LevelMap(VendorTable(elems, volt), |elems| / 5).corners| > 3)
      ensures end.Success? ==>
        var t, n := VendorTable(elems, volt), |elems| / 5;
        && osmTable[..] == t && Collected(t, n, rateMax) && numEntries == n
        && corners == (if apmUV.Some? && 0 <= count then Resolve(t, apmUV.value, accUV, count, volt) else UNRESOLVED)
        && log == old(log) + (VendorLut(t, n, TABLE_SIZE) + VendorSequencer(t, n, corners))
      ensures end.OutOfBounds? && elems != [] ==>
        log == old(log) + VendorLut(VendorTable(elems, volt), |elems| / 5, TABLE_SIZE)
    {
      hide LevelMap, NoConflict, VendorLut, VendorAccWrites, VendorApmWrites, Collected, Resolve;
      hide QuadRates, CoreCountOf, RowOf, WithVolts;
      ghost var was := osmTable[..];
      end := GetLut(elems);
      if !end.Success? { return; }
      ghost var filled := osmTable[..];
      ResolveOpenLoop(volt);
      ghost var t := VendorTable(elems, volt);
      ReadThenResolved(filled, was, osmTable[..], elems, volt);
      QuadRatesCollected(elems, volt);
      hide VendorTable, TableOk, Filled;
      var resolved := ResolveCrossover(apmUV, accUV, count, volt);
      var ok, rows := SetupHwTable();
      if !ok { return Refused; }
      end := ProgramMemAcc();
      if !end.Success? { return; }
      ApmVcSetup();
    }

    /** A rate that was set is read back. */
    method SetThenRead(rate: nat) returns (ok: bool, read: nat)
      requires osmTable.Length == TABLE_SIZE && Collected(osmTable[..], numEntries, rateMax) && |llm| == 3 && rate > 0
      modifies this`log, this`perfState
      ensures ok <==> rate in rateMax
      ensures ok ==> read == rate
      ensures !ok ==> log == old(log)
    {
      ok := SetRate(rate);
      read := 0;
      if ok { read := RecalcRate(); }
    }
  }

  /** The rates collected while reading the table are those of its rows that run all cores, and no others. */
  lemma QuadRatesCollected(elems: seq<u32>, volt: nat -> int)
    requires ValidElems(elems)
    ensures Collected(VendorTable(elems, volt), |elems| / 5, QuadRates(elems, |elems| / 5))
  {
    hide CoreCountOf, QuadRates, ToU16;
    var t, n := VendorTable(elems, volt), |elems| / 5;
    forall r | 0 <= r < n && CoreCountOf(t[r].freqData) == MAX_CORES ensures t[r].frequency in QuadRates(elems, n) {
      QuadRateIn(elems, n, r);
    }
    forall x | x in QuadRates(elems, n) ensures exists r :: 0 <= r < n && QuadRow(t[r], x) {
      var r := QuadRateFrom(elems, n, x);
      assert QuadRow(t[r], x);
    }
  }

  lemma ReadThenResolved(filled: seq<Entry>, was: seq<Entry>, t: seq<Entry>, elems: seq<u32>, volt: nat -> int)
    requires ValidElems(elems) && |filled| == |was| == |t| == TABLE_SIZE && Filled(filled, was, elems, TABLE_SIZE)
    requires forall q :: 0 <= q < TABLE_SIZE ==> t[q] == WithVolts(filled[q], volt)
    ensures t == VendorTable(elems, volt)
  {
    hide ToU16, TruncDiv, RowOf;
  }

  lemma {:induction false} QuadRateIn(elems: seq<u32>, n: nat, r: nat)
    requires 5 * n <= |elems| && r < n && CoreCountOf(RowOf(elems, r).freqData) == MAX_CORES
    ensures RowOf(elems, r).hz in QuadRates(elems, n)
  {
    hide CoreCountOf;
    if r < n - 1 { QuadRateIn(elems, n - 1, r); }
  }

  lemma {:induction false} QuadRateFrom(elems: seq<u32>, n: nat, x: u32) returns (r: nat)
    requires 5 * n <= |elems| && x in QuadRates(elems, n)
    ensures r < n && RowOf(elems, r).hz == x && CoreCountOf(RowOf(elems, r).freqData) == MAX_CORES
  {
    hide CoreCountOf;
    if x in QuadRates(elems, n - 1) { r := QuadRateFrom(elems, n - 1, x); } else { r := n - 1; }
  }

  lemma FilledNone(was: seq<Entry>, elems: seq<u32>)
    requires 5 <= |elems|
    ensures Filled(was, was, elems, 0)
  {
  }

  lemma FilledStep(t: seq<Entry>, was: seq<Entry>, elems: seq<u32>, j: nat)
    requires 5 <= |elems| && j < |t| == |was| && Filled(t, was, elems, j) && t[j] == was[j]
    ensures var n := |elems| / 5;
            Filled(t[j := FromRow(RowOf(elems, if j < n then j else n - 1), t[j].mV)], was, elems, j + 1)
  {
  }

  lemma {:induction false} FirstStays(t: seq<Entry>, i: nat, n: nat, threshold: int, volt: nat -> int)
    requires i < n <= |t| && FirstReach(t, i, threshold, volt) == -1 && Reaches(t[i], threshold, volt)
    ensures FirstReach(t, n, threshold, volt) == i
  {
    if i + 1 < n { FirstStays(t, i, n - 1, threshold, volt); }
  }

  lemma LevelStep(t: seq<Entry>, i: nat)
    requires i < |t|
    ensures LevelMap(t, 0) == VendorAcc(t[0].spare, [])
    ensures var a := LevelMap(t, i);
            LevelMap(t, i + 1) == if a.level == 3 || t[i].spare == a.level then a
                                  else VendorAcc(t[i].spare, a.corners + [t[i].vc - 1])
  {
  }

  lemma FixedFrom(levels: seq<int>, corners: seq<int>)
    requires |corners| <= |levels| == 3 && levels[..|corners|] == corners
    requires forall q :: |corners| <= q < 3 ==> levels[q] == 0
    ensures [levels[0], levels[0] + 1, levels[1], levels[1] + 1] == FixedThresholds(corners)
  {
    assert forall q :: 0 <= q < |corners| ==> levels[..|corners|][q] == levels[q];
  }

  /** The corner list only grows, and stops growing at level 3. */
  lemma {:induction false} LevelsGrow(t: seq<Entry>, i: nat, n: nat)
    requires 0 < |t| && i <= n <= |t|
    ensures LevelMap(t, i).corners <= LevelMap(t, n).corners
    ensures LevelMap(t, i).level == 3 ==> LevelMap(t, n) == LevelMap(t, i)
  {
    if i < n { LevelsGrow(t, i, n - 1); }
  }

  /** Over rising levels the vendor's map follows the new driver's detector, row by row. */
  lemma {:induction false} RisingRuns(t: seq<Entry>, spares: seq<nat>, n: nat)
    requires RisingColumn(spares) && 0 < n <= |spares| <= |t|
    requires forall r :: 0 <= r < |spares| ==> t[r].vc == r && t[r].spare == spares[r]
    ensures var a, b := AccRun(spares, n), LevelMap(t, n);
            && a.last == b.level == spares[n - 1] <= 3 && 1 <= a.last
            && |b.corners| == a.last - 1 && |a.vals| == 2 * |b.corners|
            && (forall k :: 0 <= k < |b.corners| ==>
                  a.vals[2 * k] == b.corners[k] && a.vals[2 * k + 1] == b.corners[k] + 1)
  {
    RisingAtMost3(spares, n - 1);
    if n > 1 { RisingRuns(t, spares, n - 1); }
  }

  /** On a column rising 1, 2, 3 over one corner a row, both drivers program the same four corners. */
  lemma VendorAgrees(t: seq<Entry>, spares: seq<nat>)
    requires RisingColumn(spares) && |spares| <= |t|
    requires forall r :: 0 <= r < |spares| ==> t[r].vc == r && t[r].spare == spares[r]
    ensures AccRun(spares, |spares|).vals == FixedThresholds(LevelMap(t, |spares|).corners)
  {
    hide AccRun, LevelMap, RisingColumn;
    var n := |spares|;
    assert 0 < n && spares[n - 1] == 3 by { RisingEnds(spares); }
    RisingRuns(t, spares, n);
    var vals, c := AccRun(spares, n).vals, LevelMap(t, n).corners;
    assert c[0] == vals[0] && c[1] == vals[2] && vals[1] == c[0] + 1 && vals[3] == c[1] + 1;
  }

  lemma RisingEnds(spares: seq<nat>)
    requires RisingColumn(spares)
    ensures 0 < |spares| && spares[|spares| - 1] == 3
  {
  }
}

/**
 * The new OSM programming refines the vendor driver's: a vendor table turned into operating points by
 * the device-tree generator leaves the same registers, apart from exactly stated divergences.
 */
module Refinement {
  import opened Arith
  import opened Bits
  import opened Wrappers
  import opened Script
  import opened MemAcc
  import opened OsmParams
  import opened OsmScript
  import opened OsmProgram
  import opened Vendor

  /** Operating point generated for a table row, at the voltage of its corner. */
  function OppAt(row: Row, uV: u32): Opp {
    var div := PllDivOf(row.freqData);
    Opp(row.hz, uV, Some(OppNode(Some(row.override), Some(row.spare), if div != 0 then Some(div) else None)))
  }

  predicate Listed(volt: nat -> int, n: nat) {
    forall c :: 1 <= c <= n ==> 0 <= volt(c) < U32_SPAN
  }

  /** Rows whose corner column counts 1, 2, 3, ... */
  predicate CountedRows(elems: seq<u32>) {
    |elems| % 5 == 0 && forall r :: 0 <= r < |elems| / 5 ==> RowOf(elems, r).corner == r + 1
  }

  function Generated(elems: seq<u32>, volt: nat -> int): (opps: seq<Opp>)
    requires CountedRows(elems) && Listed(volt, |elems| / 5)
    ensures |opps| == |elems| / 5 && forall r :: 0 <= r < |opps| ==> opps[r] == OppAt(RowOf(elems, r), volt(r + 1))
  {
    seq(|elems| / 5, r requires 0 <= r < |elems| / 5 => OppAt(RowOf(elems, r), volt(r + 1)))
  }

  /** The generator refuses a table cut short, or whose corner column is anything else. */
  method Generate(elems: seq<u32>, volt: nat -> int) returns (r: Result<seq<Opp>, Error>)
    requires Listed(volt, |elems| / 5)
    ensures r.Ok? <==> CountedRows(elems)
    ensures r.Ok? ==> r.value == Generated(elems, volt)
  {
    hide PllDivOf;
    if |elems| % 5 != 0 { return Err(EINVAL); }
    var t: seq<Opp> := [];
    for i := 0 to |elems| / 5
      invariant |t| == i && forall k :: 0 <= k < i ==> t[k] == OppAt(RowOf(elems, k), volt(k + 1))
      invariant forall k :: 0 <= k < i ==> RowOf(elems, k).corner == k + 1
    {
      var row := RowOf(elems, i);
      if row.corner != i + 1 { return Err(EINVAL); }
      t := t + [OppAt(row, volt(i + 1))];
    }
    return Ok(t);
  }

  /** A table as the vendor ships it: canonical frequency words, ascending rates, one corner per row. */
  ghost predicate Canonical(elems: seq<u32>, volt: nat -> int, cores: nat, xoRate: nat) {
    && ValidElems(elems) && CountedRows(elems) && Listed(volt, |elems| / 5) && 0 < xoRate
    && (forall r :: 0 <= r < |elems| / 5 ==> CanonicalRow(RowOf(elems, r), r, volt, cores, xoRate))
    && forall q, r :: 0 <= q < r < |elems| / 5 ==> RowOf(elems, q).hz < RowOf(elems, r).hz
  }

  ghost predicate CanonicalRow(row: Row, r: nat, volt: nat -> int, cores: nat, xoRate: nat)
    requires 0 < xoRate
  {
    && 1000 <= row.hz && 150 <= volt(r + 1) / 1000 <= 1400
    && row.freqData == FreqWord(if r == 0 then 0 else 1, row.hz / xoRate, cores, PllDivOf(row.freqData))
  }

  lemma GeneratedPoints(elems: seq<u32>, volt: nat -> int, cores: nat, xoRate: nat)
    requires Canonical(elems, volt, cores, xoRate)
    ensures var opps := Generated(elems, volt);
            && DistinctFreqs(opps)
            && (forall i, j :: 0 <= i < j < |opps| ==> opps[i].freq < opps[j].freq)
            && forall r :: 0 <= r < |opps| ==> 1000 <= opps[r].freq && Usable(opps[r])
  {
    hide FreqWord, PllDivOf, RowOf;
    var opps := Generated(elems, volt);
    forall r | 0 <= r < |opps| ensures 1000 <= opps[r].freq && Usable(opps[r]) {
      assert CanonicalRow(RowOf(elems, r), r, volt, cores, xoRate);
    }
  }

  /** The parameters generated from such a table, in the vendor's row order. */
  lemma ParamsOfTable(elems: seq<u32>, volt: nat -> int, apmUV: int, accUV: int, cores: nat, xoRate: nat)
    requires Canonical(elems, volt, cores, xoRate) && 10 <= |elems| && 0 < apmUV
    ensures var opps := Generated(elems, volt);
            && DistinctFreqs(opps) && Visit(opps, 1000) == opps && Accepted(opps, apmUV)
            && ParamsSpec(opps, apmUV, accUV, cores, xoRate)
            == Some(Params(TableOf(opps, cores, xoRate), FirstAt(opps, |opps|, apmUV), AccVcOf(opps, accUV), |opps|))
  {
    GeneratedPoints(elems, volt, cores, xoRate);
    OrderedParams(Generated(elems, volt), apmUV, accUV, cores, xoRate);
  }

  lemma TableParams(elems: seq<u32>, volt: nat -> int, apmUV: int, accUV: int, cores: nat, xoRate: nat) returns (p: Params)
    requires Canonical(elems, volt, cores, xoRate) && 10 <= |elems| && 0 < apmUV
    ensures ValidElems(elems) && CountedRows(elems) && Listed(volt, |elems| / 5) && 0 < xoRate
    ensures DistinctFreqs(Generated(elems, volt))
    ensures ParamsSpec(Generated(elems, volt), apmUV, accUV, cores, xoRate) == Some(p)
    ensures Writable(p) && p.numEntries == |elems| / 5 && 2 <= |elems| / 5 <= TABLE_SIZE && p.numEntries <= |p.table|
    ensures RowsOf(p.table, Generated(elems, volt), |elems| / 5, cores, xoRate)
    ensures p.apmVc == FirstAt(Generated(elems, volt), |elems| / 5, apmUV) && p.accVc == AccVcOf(Generated(elems, volt), accUV)
  {
    ParamsOfTable(elems, volt, apmUV, accUV, cores, xoRate);
    var opps := Generated(elems, volt);
    hide ParamsSpec, Visit, Accepted, FirstAt, Generated, RowOf;
    p := Params(TableOf(opps, cores, xoRate), FirstAt(opps, |opps|, apmUV), AccVcOf(opps, accUV), |opps|);
  }

  /** Points in ascending order are emitted in that order. */
  lemma OrderedParams(opps: seq<Opp>, apmUV: int, accUV: int, cores: nat, xoRate: nat)
    requires 2 <= |opps| <= 40 && 0 < apmUV && 0 < xoRate
    requires forall i, j :: 0 <= i < j < |opps| ==> opps[i].freq < opps[j].freq
    requires forall r :: 0 <= r < |opps| ==> 1000 <= opps[r].freq && Usable(opps[r])
    ensures DistinctFreqs(opps) && Visit(opps, 1000) == opps && Accepted(opps, apmUV)
    ensures ParamsSpec(opps, apmUV, accUV, cores, xoRate)
         == Some(Params(TableOf(opps, cores, xoRate), FirstAt(opps, |opps|, apmUV), AccVcOf(opps, accUV), |opps|))
  {
    hide Usable, AccVcOf, FirstAt, Visit, FindCeil, TopFreq;
    VisitAscending(opps, 0, 1000);
    assert opps[0..] == opps;
    hide TableOf;
  }

  /** Registers of one table row. */
  predicate RowReg(reg: Reg, i: nat) {
    reg in {Index(i), Volt(i), Freq(i), Override(i), Spare(i)}
  }

  predicate Touches(log: seq<Write>, reg: Reg) {
    exists k :: 0 <= k < |log| && log[k].reg == reg
  }

  lemma {:induction false} NoLastWrite(log: seq<Write>, reg: Reg)
    requires !Touches(log, reg)
    ensures LastWrite(log, reg) == None
  {
    if |log| > 0 {
      assert log[|log| - 1].reg != reg;
      NoLastWrite(log[..|log| - 1], reg);
    }
  }

  /** Last value a five-write row leaves in each of its registers. */
  lemma LastOfFive(ws: seq<Write>, k: nat)
    requires |ws| == 5 && k < 5 && forall a, b :: 0 <= a < b < 5 ==> ws[a].reg != ws[b].reg
    ensures LastWrite(ws, ws[k].reg) == Some(ws[k].val)
  {
    assert ws == ws[..k] + ([ws[k]] + ws[k + 1..]);
    LastWriteConcat(ws[..k], [ws[k]] + ws[k + 1..], ws[k].reg);
    LastWriteConcat([ws[k]], ws[k + 1..], ws[k].reg);
    NoLastWrite(ws[k + 1..], ws[k].reg);
  }

  lemma {:induction false} LastOfLut(p: Params, k: nat, i: nat, reg: Reg)
    requires Writable(p) && i < k && RowReg(reg, i)
    ensures LastWrite(LutWrites(p, k), reg) == LastWrite(RowWrites(i, Padded(p, i)), reg) != None
  {
    hide ToU32;
    var row := RowWrites(k - 1, Padded(p, k - 1));
    LastWriteConcat(LutWrites(p, k - 1), row, reg);
    if i < k - 1 {
      NoLastWrite(row, reg);
      LastOfLut(p, k - 1, i, reg);
    } else {
      RowLasts(k - 1, Padded(p, k - 1), reg);
    }
  }

  function FieldFor(reg: Reg, i: nat, e: HwParams): int
    requires RowReg(reg, i)
  {
    match reg
    case Index(_) => ToU32(i)
    case Volt(_) => ToU32(e.volt)
    case Freq(_) => ToU32(e.freq)
    case Override(_) => e.override
    case Spare(_) => e.spare
  }

  lemma RowLasts(i: nat, e: HwParams, reg: Reg)
    requires RowReg(reg, i)
    ensures LastWrite(RowWrites(i, e), reg) == Some(FieldFor(reg, i, e))
  {
    hide ToU32, LastWrite;
    var k := match reg case Index(_) => 0 case Volt(_) => 1 case Freq(_) => 2 case Override(_) => 3 case Spare(_) => 4;
    LastOfFive(RowWrites(i, e), k);
  }

  lemma VendorRowLasts(i: nat, v: Entry, e: HwParams, reg: Reg)
    requires RowReg(reg, i) && e.volt == VoltOf(v) && e.freq == v.freqData && e.override == v.override && e.spare == v.spare
    ensures LastWrite(VendorRow(i, v), reg) == Some(FieldFor(reg, i, e))
  {
    FitsUnchanged(v.freqData);
    hide ToU32, LastWrite, VoltOf;
    var k := match reg case Index(_) => 0 case Volt(_) => 2 case Freq(_) => 1 case Override(_) => 3 case Spare(_) => 4;
    LastOfFive(VendorRow(i, v), k);
  }

  lemma ElsewhereUntouched(j: nat, v: Entry, i: nat, reg: Reg)
    requires i != j && RowReg(reg, i)
    ensures LastWrite(VendorRow(j, v), reg) == None
  {
    hide ToU32, VoltOf;
    NoLastWrite(VendorRow(j, v), reg);
  }

  lemma {:induction false} LastOfVendor(t: seq<Entry>, n: nat, k: nat, i: nat, reg: Reg)
    requires 0 < n <= |t| && i < k && RowReg(reg, i)
    ensures LastWrite(VendorLut(t, n, k), reg)
         == LastWrite(VendorRow(i, t[if i < n then i else n - 1]), reg)
  {
    hide VoltOf, ToU32, VendorRow, FieldFor;
    var row := VendorRow(k - 1, t[if k - 1 < n then k - 1 else n - 1]);
    LastWriteConcat(VendorLut(t, n, k - 1), row, reg);
    if i < k - 1 {
      ElsewhereUntouched(k - 1, t[if k - 1 < n then k - 1 else n - 1], i, reg);
      LastOfVendor(t, n, k - 1, i, reg);
    } else {
      var v := t[if i < n then i else n - 1];
      VendorRowLasts(i, v, HwParams(VoltOf(v), v.freqData, v.override, v.spare), reg);
    }
  }

  /** One row of the two tables. */
  lemma SameRow(elems: seq<u32>, volt: nat -> int, r: nat, cores: nat, xoRate: nat)
    requires Canonical(elems, volt, cores, xoRate) && r < |elems| / 5
    ensures var e := OsmParams.EntryOf(Generated(elems, volt)[r], r, cores, xoRate);
            var v := VendorTable(elems, volt)[r];
            && v.vc == r
            && e.volt == VoltOf(v) && e.freq == v.freqData && e.override == v.override && e.spare == v.spare
  {
    hide FreqWord, BitOr, PllDivOf;
    var row := RowOf(elems, r);
    assert CanonicalRow(row, r, volt, cores, xoRate);
    assert ToU16(row.corner - 1) == r;
    var mV := volt(r + 1) / 1000;
    assert ToU16(TruncDiv(volt(r + 1), 1000)) == mV;
    assert OppAt(row, volt(r + 1)).node.value.pllDiv.GetOr(0) == PllDivOf(row.freqData);
  }

  /** Row i as programmed by both, padding included. */
  lemma SamePadded(elems: seq<u32>, volt: nat -> int, p: Params, i: nat, cores: nat, xoRate: nat)
    requires Canonical(elems, volt, cores, xoRate) && Writable(p)
    requires var n := |elems| / 5; p.numEntries == n <= |p.table| && RowsOf(p.table, Generated(elems, volt), n, cores, xoRate)
    ensures var n := |elems| / 5;
            var e, v := Padded(p, i), VendorTable(elems, volt)[if i < n then i else n - 1];
            e.volt == VoltOf(v) && e.freq == v.freqData && e.override == v.override && e.spare == v.spare
  {
    hide Canonical, Generated, VendorTable;
    var n := |elems| / 5;
    SameRow(elems, volt, if i < n then i else n - 1, cores, xoRate);
  }

  /** Equal rows leave equal registers. */
  lemma SameRegisters(p: Params, t: seq<Entry>, n: nat, i: nat, reg: Reg)
    requires Writable(p) && 0 < n <= |t| && i < LUT_ROWS && RowReg(reg, i)
    requires var e, v := Padded(p, i), t[if i < n then i else n - 1];
             e.volt == VoltOf(v) && e.freq == v.freqData && e.override == v.override && e.spare == v.spare
    ensures LastWrite(LutWrites(p, LUT_ROWS), reg) == LastWrite(VendorLut(t, n, TABLE_SIZE), reg) != None
  {
    hide LastWrite, RowWrites, VendorRow, VoltOf, LutWrites, VendorLut;
    LastOfLut(p, LUT_ROWS, i, reg);
    LastOfVendor(t, n, TABLE_SIZE, i, reg);
    RowLasts(i, Padded(p, i), reg);
    VendorRowLasts(i, t[if i < n then i else n - 1], Padded(p, i), reg);
  }

  lemma SameTable(elems: seq<u32>, volt: nat -> int, apmUV: int, accUV: int, cores: nat, xoRate: nat,
                  p: Params, i: nat, reg: Reg)
    requires Canonical(elems, volt, cores, xoRate) && 10 <= |elems| && 0 < apmUV
    requires DistinctFreqs(Generated(elems, volt))
    requires ParamsSpec(Generated(elems, volt), apmUV, accUV, cores, xoRate) == Some(p)
    requires i < LUT_ROWS && RowReg(reg, i)
    ensures Writable(p)
    ensures LastWrite(LutWrites(p, LUT_ROWS), reg)
         == LastWrite(VendorLut(VendorTable(elems, volt), |elems| / 5, TABLE_SIZE), reg) != None
  {
    hide *;
    var _ := TableParams(elems, volt, apmUV, accUV, cores, xoRate);
    SamePadded(elems, volt, p, i, cores, xoRate);
    SameRegisters(p, VendorTable(elems, volt), |elems| / 5, i, reg);
  }

  /** The vendor driver accepts every canonical table: no corner occurs twice. */
  lemma CanonicalAccepted(elems: seq<u32>, volt: nat -> int, cores: nat, xoRate: nat)
    requires Canonical(elems, volt, cores, xoRate)
    ensures NoConflict(VendorTable(elems, volt), |elems| / 5)
  {
    var t, n := VendorTable(elems, volt), |elems| / 5;
    forall r | 0 <= r < n ensures t[r].vc == r {
      SameRow(elems, volt, r, cores, xoRate);
    }
    hide VendorTable, Canonical;
  }

  predicate NeverTouches(s: seq<Action>, reg: Reg) {
    forall i :: 0 <= i < |s| ==>
      match s[i]
      case Put(w) => w.reg != reg
      case Secure(w, _) => w.reg != reg
      case _ => true
  }

  lemma {:induction false} RunNeverTouches(s: seq<Action>, stop: int, reg: Reg)
    requires NeverTouches(s, reg)
    ensures !Touches(Exec(s, stop).log, reg)
    decreases |s|
  {
    if |s| > 0 {
      assert NeverTouches(s[1..], reg);
      RunNeverTouches(s[1..], stop, reg);
      var rest := Exec(s[1..], stop).log;
      assert forall k :: 0 <= k < |rest| ==> rest[k].reg != reg;
      assert match s[0] case Put(w) => w.reg != reg case Secure(w, _) => w.reg != reg case _ => true;
    }
  }

  /** Sequencer writes touch no row register. */
  lemma SequencerElsewhere(p: Params, hw: Hardware, i: nat, reg: Reg)
    requires Writable(p) && |Detected(p)| == 4 && RowReg(reg, i)
    ensures NeverTouches(SequencerActions(p, hw), reg)
  {
    DetectedInTable(p);
    var c := MemAccCorners(p);
    hide Detected, MemAccCorners, ToU32, LValOf, ApmParam, ApmCorner;
    var a, b, d, e := CrossoverWrite(p, hw), AccWrites(c, hw), LvalWrite(p, c, hw), ApmWrites(p, hw);
    assert NeverTouches(a, reg) && NeverTouches(b, reg) && NeverTouches(d, reg) && NeverTouches(e, reg);
    assert SequencerActions(p, hw) == a + (b + (d + (e + [Gate(3)]))) by {
      hide CrossoverWrite, AccWrites, LvalWrite, ApmWrites;
    }
    hide CrossoverWrite, AccWrites, LvalWrite, ApmWrites, SequencerActions;
  }

  lemma {:induction false} LvalsElsewhere(t: seq<Entry>, n: nat, corner: int, i: nat, reg: Reg)
    requires n <= |t| && RowReg(reg, i)
    ensures !Touches(LvalWrites(t, n, corner), reg)
  {
    hide ToU32, LValOf;
    if n > 0 {
      LvalsElsewhere(t, n - 1, corner, i, reg);
      var before := LvalWrites(t, n - 1, corner);
      assert forall k :: 0 <= k < |before| ==> before[k].reg != reg;
    }
  }

  lemma VendorElsewhere(t: seq<Entry>, n: nat, x: Corners, i: nat, reg: Reg)
    requires 0 < n <= |t| && RowReg(reg, i)
    ensures !Touches(VendorSequencer(t, n, x), reg)
  {
    var s := Thresholds(t, n, x);
    LvalsElsewhere(t, n, s[3], i, reg);
    var lvals := LvalWrites(t, n, s[3]);
    assert forall k :: 0 <= k < |lvals| ==> lvals[k].reg != reg;
    hide ToU32, LvalWrites, Thresholds, BitOr;
  }

  /** Writes before a table and after it, elsewhere, do not change what the table leaves. */
  lemma TableLasts(before: seq<Write>, table: seq<Write>, after: seq<Write>, reg: Reg)
    requires LastWrite(table, reg) != None && !Touches(after, reg)
    ensures LastWrite(before + (table + after), reg) == LastWrite(table, reg)
  {
    NoLastWrite(after, reg);
    LastWriteConcat(table, after, reg);
    LastWriteConcat(before, table + after, reg);
  }

  /** Past gate 1, the table part of the new driver writes the whole table first. */
  lemma LutComesFirst(p: Params, hw: Hardware, stop: int, i: nat, reg: Reg) returns (after: seq<Write>)
    requires Writable(p) && 2 <= stop && RowReg(reg, i)
    ensures Exec(LutActions(p, hw), stop).log == LutWrites(p, LUT_ROWS) + after && !Touches(after, reg)
  {
    var table := LutWrites(p, LUT_ROWS);
    var rest := if |Detected(p)| < 3 then [Call(false)] else [Gate(2)] + SequencerActions(p, hw);
    assert NeverTouches(rest, reg) by {
      if |Detected(p)| == 4 {
        SequencerElsewhere(p, hw, i, reg);
        hide SequencerActions, Detected;
      }
    }
    assert LutActions(p, hw) == [Gate(1)] + (Puts(table) + rest);
    assert Exec([Gate(1)], stop) == Run([], Done) by { assert [Gate(1)][1..] == []; }
    hide LutActions, LutWrites, Detected, SequencerActions, NeverTouches, Exec, Puts;
    ExecConcat([Gate(1)], Puts(table) + rest, stop);
    ExecConcat(Puts(table), rest, stop);
    ExecPuts(table, stop);
    after := Exec(rest, stop).log;
    RunNeverTouches(rest, stop, reg);
    assert [] + (table + after) == table + after;
  }

  /**
   * Refinement of the vendor table: for every canonical table of 2 to 40 rows the vendor driver accepts it, and
   * the row registers of all 40 rows, padding included, end with the same values under both drivers, whatever
   * each had written before and whatever becomes of its sequencer writes after, the vendor's all or none.
   */
  lemma SameImage(elems: seq<u32>, volt: nat -> int, apmUV: int, accUV: int, cores: nat, xoRate: nat,
                  p: Params, hw: Hardware, stop: int, x: Corners, a: seq<Write>, b: seq<Write>, i: nat, reg: Reg)
    requires Canonical(elems, volt, cores, xoRate) && 10 <= |elems| && 0 < apmUV
    requires DistinctFreqs(Generated(elems, volt))
    requires ParamsSpec(Generated(elems, volt), apmUV, accUV, cores, xoRate) == Some(p)
    requires i < LUT_ROWS && RowReg(reg, i) && 2 <= stop
    ensures Writable(p) && NoConflict(VendorTable(elems, volt), |elems| / 5)
    ensures var t, n := VendorTable(elems, volt), |elems| / 5;
            && LastWrite(a + Exec(LutActions(p, hw), stop).log, reg)
            == LastWrite(b + (VendorLut(t, n, TABLE_SIZE) + VendorSequencer(t, n, x)), reg) != None
            && LastWrite(a + Exec(LutActions(p, hw), stop).log, reg) == LastWrite(b + VendorLut(t, n, TABLE_SIZE), reg)
  {
    hide *;
    var _ := TableParams(elems, volt, apmUV, accUV, cores, xoRate);
    var t, n := VendorTable(elems, volt), |elems| / 5;
    CanonicalAccepted(elems, volt, cores, xoRate);
    SameTable(elems, volt, apmUV, accUV, cores, xoRate, p, i, reg);
    var after := LutComesFirst(p, hw, stop, i, reg);
    VendorElsewhere(t, n, x, i, reg);
    TableLasts(a, LutWrites(p, LUT_ROWS), after, reg);
    TableLasts(b, VendorLut(t, n, TABLE_SIZE), VendorSequencer(t, n, x), reg);
    LastWriteConcat(b, VendorLut(t, n, TABLE_SIZE), reg);
  }

  // ------------------------------------------------------------------ sequencer

  /** Spare column of the vendor's rows. */
  function SpareColumn(elems: seq<u32>): (s: seq<nat>)
    requires ValidElems(elems)
    ensures |s| == |elems| / 5 && forall r :: 0 <= r < |s| ==> s[r] == RowOf(elems, r).spare
  {
    seq(|elems| / 5, r requires 0 <= r < |elems| / 5 => RowOf(elems, r).spare)
  }

  lemma {:induction false} AccRunPrefix(a: seq<nat>, b: seq<nat>, n: nat)
    requires n <= |a| && n <= |b| && forall i :: 0 <= i < n ==> a[i] == b[i]
    ensures AccRun(a, n) == AccRun(b, n)
  {
    if n > 0 { AccRunPrefix(a, b, n - 1); }
  }

  /** The new driver's corners over the padded table are those of the vendor over the rows alone. */
  lemma {:induction false} SameDetected(p: Params, t: seq<Entry>, spares: seq<nat>)
    requires Writable(p) && p.numEntries == |spares| <= 40 && |spares| <= |t| && RisingColumn(spares)
    requires forall r :: 0 <= r < |spares| ==> t[r].vc == r && t[r].spare == spares[r] == p.table[r].spare
    ensures Detected(p) == FixedThresholds(LevelMap(t, |spares|).corners) && |Detected(p)| == 4
  {
    var n, s := |spares|, SparesOf(p);
    PaddingInert(s, n, LUT_ROWS);
    AccRunPrefix(s, spares, n);
    VendorAgrees(t, spares);
  }

  /** The first row over a threshold is the same, and padding never comes first. */
  lemma {:induction false} SameFirst(opps: seq<Opp>, t: seq<Entry>, k: nat, threshold: int, volt: nat -> int)
    requires k <= |t| && 0 < |opps| <= |t| && 0 <= threshold < U32_SPAN
    requires forall r :: 0 <= r < |t| ==>
               ToU32(volt(t[r].vc + 1)) == opps[if r < |opps| then r else |opps| - 1].uV
    ensures FirstReach(t, k, threshold, volt) == FirstAt(opps, if k < |opps| then k else |opps|, threshold)
  {
    if k > 0 {
      FitsUnchanged(threshold);
      SameFirst(opps, t, k - 1, threshold, volt);
    }
  }

  /** Exactly one row is at a corner of the table. */
  lemma {:induction false} OneLval(t: seq<Entry>, n: nat, corner: nat)
    requires n <= |t| && forall r :: 0 <= r < n ==> t[r].vc == r
    ensures LvalWrites(t, n, corner) == if corner < n then [SeqWrite(32, LValOf(t[corner].freqData))] else []
  {
    hide LValOf, ToU32;
    if n > 0 { OneLval(t, n - 1, corner); }
  }

  /** The value the APM parameter register gets does not depend on the order of the operands. */
  lemma {:induction false} OrCommutes(a: nat, b: nat)
    ensures BitOr(a, b) == BitOr(b, a)
    decreases a + b
  {
    if a > 0 && b > 0 { OrCommutes(a / 2, b / 2); }
  }

  /** The sequencer writes of the new driver when no write is refused. */
  function SequencerLog(p: Params): seq<Write>
    requires Writable(p) && |Detected(p)| == 4
  {
    DetectedInTable(p);
    var c, apm := MemAccCorners(p), ApmCorner(p);
    (if Custom(p) then [SeqWrite(88, p.numEntries + 1)] else [])
    + ([SeqWrite(55, c[0]), SeqWrite(56, c[1]), SeqWrite(57, c[2]), SeqWrite(58, c[3])]
    + ([SeqWrite(32, LValOf(p.table[c[3]].freq))]
    + [Write(Seq1, ToU32(apm)), SeqWrite(72, p.numEntries), SeqWrite(15, apm), SeqWrite(31, apm - 1),
       SeqWrite(76, ApmParam(apm))]))
  }

  lemma {:induction false} SecureRun(ws: seq<Write>, s: seq<Action>, stop: int)
    requires |s| == |ws| && forall i :: 0 <= i < |s| ==> s[i] == Put(ws[i]) || s[i] == Secure(ws[i], true)
    ensures Exec(s, stop) == Run(ws, Done)
  {
    if |s| > 0 {
      SecureRun(ws[1..], s[1..], stop);
      assert ws == [ws[0]] + ws[1..];
    }
  }

  /** The sequencer script is its writes and gate 3. */
  lemma SequencerBody(p: Params, hw: Hardware, stop: int) returns (body: seq<Action>)
    requires Writable(p) && |Detected(p)| == 4 && forall n :: hw.scm(n)
    ensures SequencerActions(p, hw) == body + [Gate(3)] && Exec(body, stop) == Run(SequencerLog(p), Done)
  {
    DetectedInTable(p);
    var c := MemAccCorners(p);
    body := CrossoverWrite(p, hw) + (AccWrites(c, hw) + (LvalWrite(p, c, hw) + ApmWrites(p, hw)));
    assert SequencerActions(p, hw) == body + [Gate(3)] by {
      hide CrossoverWrite, AccWrites, LvalWrite, ApmWrites, MemAccCorners, Detected;
    }
    hide Detected, MemAccCorners, Custom, ToU32, LValOf, ApmParam, ApmCorner;
    SecureRun(SequencerLog(p), body, stop);
  }

  lemma SequencerRuns(p: Params, hw: Hardware, stop: int)
    requires Writable(p) && |Detected(p)| == 4 && (forall n :: hw.scm(n)) && 3 < stop
    ensures Exec(SequencerActions(p, hw), stop) == Run(SequencerLog(p), Done)
  {
    var body := SequencerBody(p, hw, stop);
    assert Exec([Gate(3)], stop) == Run([], Done) by { assert [Gate(3)][1..] == []; }
    hide Exec, SequencerActions, SequencerLog;
    ExecConcat(body, [Gate(3)], stop);
  }

  /** The vendor's entries and the parameter table describe the same rows. */
  predicate SameRows(t: seq<Entry>, p: Params, spares: seq<nat>) {
    && |spares| == p.numEntries <= |p.table| && |spares| <= |t|
    && forall r :: 0 <= r < |spares| ==>
         && t[r].vc == r && t[r].spare == spares[r] == p.table[r].spare && t[r].freqData == p.table[r].freq
  }

  /** The regulator lists the voltages of the operating points, the last one repeating. */
  predicate SameVolts(t: seq<Entry>, opps: seq<Opp>, volt: nat -> int) {
    && 0 < |opps| <= |t|
    && forall r :: 0 <= r < |t| ==> ToU32(volt(t[r].vc + 1)) == opps[if r < |opps| then r else |opps| - 1].uV
  }

  lemma TableRows(elems: seq<u32>, volt: nat -> int, p: Params, cores: nat, xoRate: nat)
    requires Canonical(elems, volt, cores, xoRate) && p.numEntries == |elems| / 5 <= |p.table|
    requires RowsOf(p.table, Generated(elems, volt), |elems| / 5, cores, xoRate)
    ensures SameRows(VendorTable(elems, volt), p, SpareColumn(elems))
  {
    hide FreqWord, VoltWord, PllDivOf, VoltOf;
    var t, opps := VendorTable(elems, volt), Generated(elems, volt);
    forall r | 0 <= r < |elems| / 5
      ensures t[r].vc == r && t[r].spare == SpareColumn(elems)[r] == p.table[r].spare && t[r].freqData == p.table[r].freq
    {
      SameRow(elems, volt, r, cores, xoRate);
      assert opps[r] == OppAt(RowOf(elems, r), volt(r + 1));
      hide Canonical, RowOf, Generated, VendorTable;
    }
  }

  lemma TableVolts(elems: seq<u32>, volt: nat -> int, cores: nat, xoRate: nat)
    requires Canonical(elems, volt, cores, xoRate)
    ensures SameVolts(VendorTable(elems, volt), Generated(elems, volt), volt)
  {
    hide FreqWord, VoltWord, PllDivOf, VoltOf;
    var t, opps, n := VendorTable(elems, volt), Generated(elems, volt), |elems| / 5;
    forall r | 0 <= r < TABLE_SIZE ensures ToU32(volt(t[r].vc + 1)) == opps[if r < n then r else n - 1].uV {
      TableVolt(elems, volt, r, cores, xoRate);
    }
  }

  lemma TableVolt(elems: seq<u32>, volt: nat -> int, r: nat, cores: nat, xoRate: nat)
    requires Canonical(elems, volt, cores, xoRate) && r < TABLE_SIZE
    ensures var n := |elems| / 5;
            ToU32(volt(VendorTable(elems, volt)[r].vc + 1)) == Generated(elems, volt)[if r < n then r else n - 1].uV
  {
    hide FreqWord, VoltWord, PllDivOf, VoltOf, FromRow;
    var t, n := VendorTable(elems, volt), |elems| / 5;
    var q := if r < n then r else n - 1;
    SameRow(elems, volt, q, cores, xoRate);
    assert t[r] == t[q];
    assert Generated(elems, volt)[q] == OppAt(RowOf(elems, q), volt(q + 1));
    FitsUnchanged(volt(q + 1));
  }

  /** What the vendor resolves when some row reaches the APM threshold, none, or the first. */
  lemma SameCrossing(t: seq<Entry>, opps: seq<Opp>, volt: nat -> int, n: nat, apmUV: int)
    requires TableOk(t) && SameVolts(t, opps, volt) && |opps| == n && 0 <= apmUV < U32_SPAN
    requires forall r :: 0 <= r < n ==> t[r].vc == r
    ensures var x, apm := Resolve(t, apmUV, 0, n + 1, volt), FirstAt(opps, n, apmUV);
            && x.apmCross == n && x.accCross == 0 && !Dynamic(x)
            && (apm >= 1 ==> x.apmVc == apm && x.apmPre == apm - 1)
            && (apm == 0 ==> x.apmVc == 0 && x.apmPre == 0xff)
            && (apm == -1 ==> x.apmVc == 39 && x.apmPre == 38)
  {
    SameFirst(opps, t, TABLE_SIZE, apmUV, volt);
    FitsUnchanged(n);
    hide FirstReach, FirstAt;
  }

  /** The two sequencer logs from what the two drivers resolved. */
  lemma SameLogs(p: Params, t: seq<Entry>, spares: seq<nat>, x: Corners)
    requires Writable(p) && |spares| <= 40 && SameRows(t, p, spares) && RisingColumn(spares) && !Custom(p)
    requires x.apmCross == |spares| && x.accCross == 0 && !Dynamic(x)
    requires 1 <= p.apmVc < |spares| && x.apmVc == p.apmVc && x.apmPre == p.apmVc - 1
    ensures |Detected(p)| == 4 && SequencerLog(p) == VendorSequencer(t, |spares|, x)
  {
    SameDetected(p, t, spares);
    DetectedInTable(p);
    hide RisingColumn, Detected, LevelMap;
    OneLval(t, |spares|, Detected(p)[3]);
    assert t[Detected(p)[3]].freqData == p.table[Detected(p)[3]].freq;
    SameLists(p, t, |spares|, x, Detected(p));
  }

  lemma SameLists(p: Params, t: seq<Entry>, n: nat, x: Corners, c: seq<int>)
    requires Writable(p) && !Custom(p) && p.numEntries == n <= |t| && |Detected(p)| == 4 && c == Detected(p)
    requires c == FixedThresholds(LevelMap(t, n).corners) && 0 <= c[3] < n && t[c[3]].freqData == p.table[c[3]].freq
    requires LvalWrites(t, n, c[3]) == [SeqWrite(32, LValOf(t[c[3]].freqData))]
    requires x.apmCross == n && x.accCross == 0 && !Dynamic(x)
    requires 1 <= p.apmVc < n <= 40 && x.apmVc == p.apmVc && x.apmPre == p.apmVc - 1
    ensures SequencerLog(p) == VendorSequencer(t, n, x)
  {
    DetectedInTable(p);
    OrCommutes(0x39, ToU32(x.apmVc * 0x40));
    FitsUnchanged(p.apmVc);
    hide Detected, LevelMap, LValOf, BitOr, LvalWrites, ToU32, FixedThresholds;
  }

  /** The last write of a register that nothing after it touches. */
  lemma LastOf(head: seq<Write>, w: Write, tail: seq<Write>)
    requires !Touches(tail, w.reg)
    ensures LastWrite(head + ([w] + tail), w.reg) == Some(w.val)
  {
    NoLastWrite(tail, w.reg);
    LastWriteConcat([w], tail, w.reg);
    LastWriteConcat(head, [w] + tail, w.reg);
  }

  /** The sequencer registers the two drivers may leave different: MEM-ACC crossover, top corner, APM pre-corner. */
  lemma LastsOfNew(p: Params)
    requires Writable(p) && |Detected(p)| == 4
    ensures LastWrite(SequencerLog(p), Sequencer(88)) == if Custom(p) then Some(ToU32(p.numEntries + 1)) else None
    ensures LastWrite(SequencerLog(p), Sequencer(58)) == Some(ToU32(MemAccCorners(p)[3]))
    ensures LastWrite(SequencerLog(p), Sequencer(31)) == Some(ToU32(ApmCorner(p) - 1))
  {
    DetectedInTable(p);
    var c, apm, lval := MemAccCorners(p), ApmCorner(p), LValOf(p.table[MemAccCorners(p)[3]].freq);
    var cross := if Custom(p) then [SeqWrite(88, p.numEntries + 1)] else [];
    var three, lvals := [SeqWrite(55, c[0]), SeqWrite(56, c[1]), SeqWrite(57, c[2])], [SeqWrite(32, lval)];
    var apms := [Write(Seq1, ToU32(apm)), SeqWrite(72, p.numEntries), SeqWrite(15, apm)];
    var last := [SeqWrite(76, ApmParam(apm))];
    assert SequencerLog(p) == cross + ((three + ([SeqWrite(58, c[3])] + lvals)) + (apms + ([SeqWrite(31, apm - 1)] + last)));
    hide *;
    SequencerLasts(cross, three, c[3], lvals, apms, apm - 1, last, SequencerLog(p));
    if Custom(p) { LastOf([], SeqWrite(88, p.numEntries + 1), []); }
  }

  lemma {:induction false} LvalsOnly(t: seq<Entry>, n: nat, corner: int)
    requires n <= |t|
    ensures forall k :: 0 <= k < |LvalWrites(t, n, corner)| ==> LvalWrites(t, n, corner)[k].reg == Sequencer(32)
  {
    hide ToU32, LValOf;
    if n > 0 { LvalsOnly(t, n - 1, corner); }
  }

  lemma LastsOfVendor(t: seq<Entry>, n: nat, x: Corners)
    requires 0 < n <= |t|
    ensures LastWrite(VendorSequencer(t, n, x), Sequencer(88)) == if x.accCross != 0 then Some(ToU32(x.accCross)) else None
    ensures LastWrite(VendorSequencer(t, n, x), Sequencer(58)) == Some(ToU32(Thresholds(t, n, x)[3]))
    ensures LastWrite(VendorSequencer(t, n, x), Sequencer(31)) == Some(ToU32(x.apmPre))
  {
    var s := Thresholds(t, n, x);
    var cross := if x.accCross != 0 then [SeqWrite(88, x.accCross)] else [];
    var three, lvals := [SeqWrite(55, s[0]), SeqWrite(56, s[1]), SeqWrite(57, s[2])], LvalWrites(t, n, s[3]);
    var apms := (if x.apmVc != 0 then [Write(Seq1, x.apmVc)] else []) + [SeqWrite(72, x.apmCross), SeqWrite(15, x.apmVc)];
    var last := [SeqWrite(76, BitOr(0x39, ToU32(x.apmVc * 0x40)))];
    assert VendorSequencer(t, n, x)
        == cross + ((three + ([SeqWrite(58, s[3])] + lvals)) + (apms + ([SeqWrite(31, x.apmPre)] + last))) by {
      hide Thresholds, LvalWrites, BitOr, ToU32;
    }
    LvalsOnly(t, n, s[3]);
    hide *;
    SequencerLasts(cross, three, s[3], lvals, apms, x.apmPre, last, VendorSequencer(t, n, x));
    if x.accCross != 0 { LastOf([], SeqWrite(88, x.accCross), []); }
  }

  /** Last writes of a sequencer part by the order of its writes. */
  lemma SequencerLasts(cross: seq<Write>, three: seq<Write>, top: int, lvals: seq<Write>,
                       apms: seq<Write>, pre: int, last: seq<Write>, log: seq<Write>)
    requires log == cross + ((three + ([SeqWrite(58, top)] + lvals)) + (apms + ([SeqWrite(31, pre)] + last)))
    requires forall k :: 0 <= k < |three| ==> three[k].reg in {Sequencer(55), Sequencer(56), Sequencer(57)}
    requires forall k :: 0 <= k < |lvals| ==> lvals[k].reg == Sequencer(32)
    requires forall k :: 0 <= k < |apms| ==> apms[k].reg in {Seq1, Sequencer(72), Sequencer(15)}
    requires forall k :: 0 <= k < |last| ==> last[k].reg == Sequencer(76)
    ensures LastWrite(log, Sequencer(88)) == LastWrite(cross, Sequencer(88))
    ensures LastWrite(log, Sequencer(58)) == Some(ToU32(top))
    ensures LastWrite(log, Sequencer(31)) == Some(ToU32(pre))
  {
    var body := (three + ([SeqWrite(58, top)] + lvals)) + (apms + ([SeqWrite(31, pre)] + last));
    hide ToU32, LastWrite;
    assert !Touches(body, Sequencer(88));
    NoLastWrite(body, Sequencer(88));
    LastWriteConcat(cross, body, Sequencer(88));
    var after := lvals + (apms + ([SeqWrite(31, pre)] + last));
    assert !Touches(after, Sequencer(58));
    assert log == (cross + three) + ([SeqWrite(58, top)] + after);
    LastOf(cross + three, SeqWrite(58, top), after);
    var before := cross + ((three + ([SeqWrite(58, top)] + lvals)) + apms);
    assert log == before + ([SeqWrite(31, pre)] + last);
    LastOf(before, SeqWrite(31, pre), last);
  }

  /** Registers the two drivers leave different when no row, or already the first one, reaches the APM threshold. */
  lemma DifferentLogs(p: Params, t: seq<Entry>, n: nat, x: Corners)
    requires Writable(p) && |Detected(p)| == 4 && 0 < n <= |t|
    requires (p.apmVc == 0 && x.apmPre == 0xff) || (p.apmVc == -1 && x.apmPre == 38)
    ensures LastWrite(SequencerLog(p), Sequencer(31)) != LastWrite(VendorSequencer(t, n, x), Sequencer(31))
  {
    LastsOfNew(p);
    LastsOfVendor(t, n, x);
    hide SequencerLog, VendorSequencer, LastWrite, Detected, MemAccCorners;
  }

  /**
   * The sequencer parts of both drivers for one vendor table. Without a MEM-ACC threshold the new driver is given
   * -1 and the vendor's device tree holds 0 and counts one crossover row fewer.
   */
  ghost predicate SequencersFor(elems: seq<u32>, volt: nat -> int, apmUV: int, accUV: int, cores: nat, xoRate: nat,
                                p: Params, x: Corners)
    requires Canonical(elems, volt, cores, xoRate)
  {
    && DistinctFreqs(Generated(elems, volt))
    && ParamsSpec(Generated(elems, volt), apmUV, if 0 < accUV then accUV else -1, cores, xoRate) == Some(p)
    && x == Resolve(VendorTable(elems, volt), apmUV, Max(accUV, 0), |elems| / 5 + (if 0 < accUV then 2 else 1), volt)
  }

  /** The first corner is under the threshold, and some corner reaches it. */
  ghost predicate Crosses(volt: nat -> int, n: nat, apmUV: int) {
    0 < n && volt(1) < apmUV && exists c :: 1 <= c <= n && apmUV <= volt(c)
  }

  lemma CrossesIff(elems: seq<u32>, volt: nat -> int, apmUV: int)
    requires CountedRows(elems) && Listed(volt, |elems| / 5) && 5 <= |elems|
    ensures 1 <= FirstAt(Generated(elems, volt), |elems| / 5, apmUV) <==> Crosses(volt, |elems| / 5, apmUV)
  {
    var opps, n := Generated(elems, volt), |elems| / 5;
    forall r | 0 <= r < n ensures opps[r].uV == volt(r + 1) {
      assert opps[r] == OppAt(RowOf(elems, r), volt(r + 1));
      hide Generated, RowOf, PllDivOf;
    }
    hide *;
    FirstCrosses(opps, volt, n, apmUV);
  }

  lemma FirstCrosses(opps: seq<Opp>, volt: nat -> int, n: nat, apmUV: int)
    requires 0 < n == |opps| && forall r :: 0 <= r < n ==> opps[r].uV == volt(r + 1)
    ensures 1 <= FirstAt(opps, n, apmUV) <==> Crosses(volt, n, apmUV)
  {
    var first := FirstAt(opps, n, apmUV);
    hide FirstAt;
    assert opps[0].uV == volt(0 + 1);
    if 1 <= first {
      assert opps[first].uV == volt(first + 1) && opps[0].uV < apmUV;
    }
    if Crosses(volt, n, apmUV) {
      var c :| 1 <= c <= n && apmUV <= volt(c);
      var k := c - 1;
      assert opps[k].uV == volt(k + 1);
    }
  }

  /**
   * Sequencer agreement: on a canonical table whose MEM-ACC levels rise one by one, the two drivers issue the
   * very same sequencer writes exactly when there is no MEM-ACC threshold, the first corner's voltage is under
   * the APM threshold and some corner's reaches it. Otherwise they leave a register different: with a MEM-ACC
   * threshold the top MEM-ACC corner, or the crossover the new driver then does not write; without one the
   * corner before the APM threshold.
   */
  lemma SameSequencer(elems: seq<u32>, volt: nat -> int, apmUV: int, accUV: int, cores: nat, xoRate: nat,
                      p: Params, x: Corners)
    requires Canonical(elems, volt, cores, xoRate) && 10 <= |elems| && 0 < apmUV < U32_SPAN && accUV < INT_MAX
    requires RisingColumn(SpareColumn(elems)) && SequencersFor(elems, volt, apmUV, accUV, cores, xoRate, p, x)
    ensures Writable(p) && |Detected(p)| == 4
    ensures var t, n := VendorTable(elems, volt), |elems| / 5;
            && (accUV <= 0 && Crosses(volt, n, apmUV) <==> SequencerLog(p) == VendorSequencer(t, n, x))
            && (0 < accUV ==> AccsDiffer(SequencerLog(p), VendorSequencer(t, n, x), Custom(p)))
            && (accUV <= 0 && !Crosses(volt, n, apmUV) ==>
                  LastWrite(SequencerLog(p), Sequencer(31)) != LastWrite(VendorSequencer(t, n, x), Sequencer(31)))
  {
    assert x == Resolve(VendorTable(elems, volt), apmUV, Max(accUV, 0), |elems| / 5 + (if 0 < accUV then 2 else 1), volt);
    assert ParamsSpec(Generated(elems, volt), apmUV, if 0 < accUV then accUV else -1, cores, xoRate) == Some(p);
    assert TableOk(VendorTable(elems, volt));
    assert accUV <= 0 ==> AccVcOf(Generated(elems, volt), -1) == U8_MAX;
    hide *;
    var _ := TableParams(elems, volt, apmUV, if 0 < accUV then accUV else -1, cores, xoRate);
    TableRows(elems, volt, p, cores, xoRate);
    TableVolts(elems, volt, cores, xoRate);
    var t, opps := VendorTable(elems, volt), Generated(elems, volt);
    if 0 < accUV {
      RowsInOrder(t, p, SpareColumn(elems));
      SameRowsDetected(p, t, SpareColumn(elems));
      MemAccThreshold(p, t, opps, x, volt, apmUV, accUV);
    } else {
      CrossesIff(elems, volt, apmUV);
      SequencersAgree(p, t, opps, SpareColumn(elems), x, volt, apmUV);
    }
  }

  /**
   * How two sequencer logs differ: with a custom corner both name the same crossover row but not the same top
   * corner; without one only the second names a crossover row.
   */
  predicate AccsDiffer(a: seq<Write>, b: seq<Write>, custom: bool) {
    && a != b
    && LastWrite(b, Sequencer(88)).Some?
    && if custom then
         LastWrite(a, Sequencer(88)) == LastWrite(b, Sequencer(88)) && LastWrite(a, Sequencer(58)) != LastWrite(b, Sequencer(58))
       else LastWrite(a, Sequencer(88)) == None
  }

  lemma RowsInOrder(t: seq<Entry>, p: Params, spares: seq<nat>)
    requires SameRows(t, p, spares)
    ensures |spares| == p.numEntries <= |t| && forall r :: 0 <= r < |spares| ==> t[r].vc == r
  {
  }

  lemma SameRowsDetected(p: Params, t: seq<Entry>, spares: seq<nat>)
    requires Writable(p) && SameRows(t, p, spares) && RisingColumn(spares) && |spares| <= 40
    ensures |Detected(p)| == 4
  {
    SameDetected(p, t, spares);
  }

  lemma SequencersAgree(p: Params, t: seq<Entry>, opps: seq<Opp>, spares: seq<nat>, x: Corners, volt: nat -> int, apmUV: int)
    requires Writable(p) && p.accVc == U8_MAX && p.numEntries == |opps| && p.apmVc == FirstAt(opps, |opps|, apmUV)
    requires |spares| <= 40 && SameRows(t, p, spares) && RisingColumn(spares)
    requires TableOk(t) && SameVolts(t, opps, volt) && 0 <= apmUV < U32_SPAN
    requires x == Resolve(t, apmUV, 0, |opps| + 1, volt)
    ensures |Detected(p)| == 4
    ensures 1 <= p.apmVc <==> SequencerLog(p) == VendorSequencer(t, |spares|, x)
    ensures p.apmVc < 1 ==>
              LastWrite(SequencerLog(p), Sequencer(31)) != LastWrite(VendorSequencer(t, |spares|, x), Sequencer(31))
  {
    SameCrossing(t, opps, volt, |opps|, apmUV);
    SameDetected(p, t, spares);
    assert |spares| == p.numEntries;
    hide Detected, SameRows, SameVolts, RisingColumn, Resolve, TableOk, SequencerLog, VendorSequencer, LastWrite;
    if 1 <= p.apmVc {
      SameLogs(p, t, spares, x);
    } else {
      DifferentLogs(p, t, |spares|, x);
    }
  }

  /** What both drivers resolve for a MEM-ACC threshold. */
  lemma MemAccResolved(p: Params, t: seq<Entry>, opps: seq<Opp>, x: Corners, volt: nat -> int, apmUV: int, accUV: int)
    requires Writable(p) && p.numEntries == |opps| <= 40 && |Detected(p)| == 4 && p.accVc == AccVcOf(opps, accUV)
    requires TableOk(t) && SameVolts(t, opps, volt) && 0 < accUV < U32_SPAN
    requires forall r :: 0 <= r < |opps| ==> t[r].vc == r
    requires x == Resolve(t, apmUV, accUV, |opps| + 2, volt)
    ensures x.accCross == p.numEntries + 1 && x.apmCross == p.numEntries
    ensures Custom(p) <==> 3 <= FirstAt(opps, |opps|, accUV)
    ensures Custom(p) ==>
              && p.accVc == FirstAt(opps, |opps|, accUV) && MemAccCorners(p)[3] == Min(p.accVc - 1, Detected(p)[3])
              && Thresholds(t, |opps|, x)[3] == p.accVc
  {
    SameFirst(opps, t, TABLE_SIZE, accUV, volt);
    FitsUnchanged(|opps|);
    FitsUnchanged(|opps| + 1);
    hide FirstReach, FirstAt, Detected, LevelMap;
  }

  /**
   * With a MEM-ACC threshold the two drivers never agree. Where a row from 3 on is the first to reach it, both
   * name the same crossover row, but the new driver always switches below the vendor's corner: it takes the lower
   * of the corner before the threshold and the last level rise. Where row 0, 1 or 2 is the first, or no row
   * reaches it, the new driver has no custom corner and leaves the crossover register alone, which the vendor
   * always writes.
   */
  lemma MemAccThreshold(p: Params, t: seq<Entry>, opps: seq<Opp>, x: Corners, volt: nat -> int, apmUV: int, accUV: int)
    requires Writable(p) && p.numEntries == |opps| <= 40 && |Detected(p)| == 4 && p.accVc == AccVcOf(opps, accUV)
    requires TableOk(t) && SameVolts(t, opps, volt) && 0 < accUV < U32_SPAN
    requires forall r :: 0 <= r < |opps| ==> t[r].vc == r
    requires x == Resolve(t, apmUV, accUV, |opps| + 2, volt)
    ensures Custom(p) <==> 3 <= FirstAt(opps, |opps|, accUV)
    ensures LastWrite(VendorSequencer(t, |opps|, x), Sequencer(88)) == Some(|opps| + 1)
    ensures LastWrite(SequencerLog(p), Sequencer(88)) == if Custom(p) then Some(|opps| + 1) else None
    ensures Custom(p) ==>
              && LastWrite(VendorSequencer(t, |opps|, x), Sequencer(58)) == Some(FirstAt(opps, |opps|, accUV))
              && LastWrite(SequencerLog(p), Sequencer(58)) == Some(Min(FirstAt(opps, |opps|, accUV) - 1, Detected(p)[3]))
    ensures AccsDiffer(SequencerLog(p), VendorSequencer(t, |opps|, x), Custom(p))
  {
    MemAccResolved(p, t, opps, x, volt, apmUV, accUV);
    LastsOfNew(p);
    LastsOfVendor(t, |opps|, x);
    DetectedInTable(p);
    FitsUnchanged(|opps| + 1);
    FitsUnchanged(p.accVc);
    FitsUnchanged(MemAccCorners(p)[3]);
    hide FirstAt, Detected, LevelMap, Thresholds, MemAccCorners, SequencerLog, VendorSequencer, LastWrite, ToU32, Resolve;
  }

  /** The vendor accepts every one-row table and has room for its levels; the new driver refuses it. */
  lemma OneRowRefused(elems: seq<u32>, volt: nat -> int, apmUV: int, accUV: int, cores: nat, xoRate: nat)
    requires |elems| == 5 && CountedRows(elems) && Listed(volt, 1) && 0 < xoRate
    ensures ValidElems(elems) && NoConflict(VendorTable(elems, volt), 1)
    ensures LevelMap(VendorTable(elems, volt), 1).corners == []
    ensures DistinctFreqs(Generated(elems, volt))
    ensures ParamsSpec(Generated(elems, volt), apmUV, accUV, cores, xoRate).None?
  {
    hide Visit;
    var t := VendorTable(elems, volt);
    assert LevelMap(t, 0) == VendorAcc(t[0].spare, []);
  }

  /** The fields read_lut() takes from the two words of table row r. */
  predicate ReadsAs(freq: u32, word: u32, row: Row, r: nat, cores: nat, xoRate: nat, mV: nat)
    requires 0 < xoRate
  {
    && SourceOf(freq) == (if r == 0 then 0 else 1) && LValOf(freq) == row.hz / xoRate
    && CoreCountOf(freq) == cores && PllDivOf(freq) == PllDivOf(row.freqData)
    && VcOf(word) == r && MillivoltsOf(word) == mV
  }

  /** Reading a programmed row back gives its clock source, multiplier, core count, divider, corner and millivolts. */
  lemma ReadBack(elems: seq<u32>, volt: nat -> int, apmUV: int, accUV: int, cores: nat, xoRate: nat, p: Params, i: nat)
    requires Canonical(elems, volt, cores, xoRate) && 10 <= |elems| && 0 < apmUV && cores < 8 && i < LUT_ROWS
    requires forall r :: 0 <= r < |elems| / 5 ==> RowOf(elems, r).hz / xoRate < 0x100
    requires DistinctFreqs(Generated(elems, volt))
    requires ParamsSpec(Generated(elems, volt), apmUV, accUV, cores, xoRate) == Some(p)
    ensures Writable(p)
    ensures var r := if i < |elems| / 5 then i else |elems| / 5 - 1;
            var freq, word := LastWrite(LutWrites(p, LUT_ROWS), Freq(i)), LastWrite(LutWrites(p, LUT_ROWS), Volt(i));
            && freq.Some? && word.Some?
            && ReadsAs(freq.value, word.value, RowOf(elems, r), r, cores, xoRate, Generated(elems, volt)[r].uV / 1000)
  {
    hide *;
    var _ := TableParams(elems, volt, apmUV, accUV, cores, xoRate);
    var n := |elems| / 5;
    var r := if i < n then i else n - 1;
    RowFields(elems, volt, r, cores, xoRate);
    GeneratedPoints(elems, volt, cores, xoRate);
    ReadsWhatWasPut(p, Generated(elems, volt), i, r, cores, xoRate, RowOf(elems, r));
  }

  /** The registers of a row hold the words of its point. */
  lemma ReadsWhatWasPut(p: Params, opps: seq<Opp>, i: nat, r: nat, cores: nat, xoRate: nat, row: Row)
    requires 0 < xoRate && Writable(p) && p.numEntries == |opps| && RowsOf(p.table, opps, |opps|, cores, xoRate)
    requires i < LUT_ROWS && r == (if i < |opps| then i else |opps| - 1) && Usable(opps[r])
    requires var e := OsmParams.EntryOf(opps[r], r, cores, xoRate);
             ReadsAs(ToU32(e.freq), ToU32(e.volt), row, r, cores, xoRate, opps[r].uV / 1000)
    ensures var freq, word := LastWrite(LutWrites(p, LUT_ROWS), Freq(i)), LastWrite(LutWrites(p, LUT_ROWS), Volt(i));
            && freq.Some? && word.Some?
            && ReadsAs(freq.value, word.value, row, r, cores, xoRate, opps[r].uV / 1000)
  {
    hide LutWrites, LastWrite, ReadsAs, OsmParams.EntryOf;
    PaddedIs(p, opps, i, cores, xoRate);
    ReadRow(p, i);
  }

  lemma PaddedIs(p: Params, opps: seq<Opp>, i: nat, cores: nat, xoRate: nat)
    requires 0 < xoRate && Writable(p) && p.numEntries == |opps| && RowsOf(p.table, opps, |opps|, cores, xoRate)
    ensures var r := if i < |opps| then i else |opps| - 1;
            Usable(opps[r]) && Padded(p, i) == OsmParams.EntryOf(opps[r], r, cores, xoRate)
  {
    hide OsmParams.EntryOf;
  }

  lemma ReadRow(p: Params, i: nat)
    requires Writable(p) && i < LUT_ROWS
    ensures LastWrite(LutWrites(p, LUT_ROWS), Freq(i)) == Some(ToU32(Padded(p, i).freq))
    ensures LastWrite(LutWrites(p, LUT_ROWS), Volt(i)) == Some(ToU32(Padded(p, i).volt))
  {
    hide LutWrites, LastWrite, RowWrites;
    LastOfLut(p, LUT_ROWS, i, Freq(i));
    LastOfLut(p, LUT_ROWS, i, Volt(i));
    RowLasts(i, Padded(p, i), Freq(i));
    RowLasts(i, Padded(p, i), Volt(i));
  }

  lemma RowFields(elems: seq<u32>, volt: nat -> int, r: nat, cores: nat, xoRate: nat)
    requires Canonical(elems, volt, cores, xoRate) && r < |elems| / 5 && cores < 8
    requires RowOf(elems, r).hz / xoRate < 0x100
    ensures var e := OsmParams.EntryOf(Generated(elems, volt)[r], r, cores, xoRate);
            ReadsAs(ToU32(e.freq), ToU32(e.volt), RowOf(elems, r), r, cores, xoRate, Generated(elems, volt)[r].uV / 1000)
  {
    var row := RowOf(elems, r);
    var mV := volt(r + 1) / 1000;
    assert CanonicalRow(row, r, volt, cores, xoRate);
    assert Generated(elems, volt)[r] == OppAt(row, volt(r + 1));
    hide FreqWord, VoltWord, PllDivOf, Canonical, RowOf, Generated, ReadsAs;
    var e := OsmParams.EntryOf(OppAt(row, volt(r + 1)), r, cores, xoRate);
    assert e.freq == row.freqData && e.volt == VoltWord(r, mV);
    WordsReadAs(row, r, cores, xoRate, mV);
  }

  lemma WordsReadAs(row: Row, r: nat, cores: nat, xoRate: nat, mV: nat)
    requires 0 < xoRate && r < 64 && mV < 0x1000 && cores < 8 && row.hz / xoRate < 0x100
    requires row.freqData == FreqWord(if r == 0 then 0 else 1, row.hz / xoRate, cores, PllDivOf(row.freqData))
    ensures ReadsAs(ToU32(row.freqData), ToU32(VoltWord(r, mV)), row, r, cores, xoRate, mV)
  {
    assert PllDivOf(row.freqData) < 4;
    FreqWordFields(if r == 0 then 0 else 1, row.hz / xoRate, cores, PllDivOf(row.freqData));
    VoltWordFields(r, mV);
    VoltWordIsSum(r, mV);
    hide FreqWord, VoltWord, SourceOf, LValOf, CoreCountOf, PllDivOf, VcOf, MillivoltsOf;
    FitsUnchanged(row.freqData);
    FitsUnchanged(VoltWord(r, mV));
  }

  /** Both drivers for one cluster and one canonical table, from the property to the registers. */
  method BothDrivers(elems: seq<u32>, volt: nat -> int, apmUV: int, accUV: int, count: int, cores: nat, xoRate: nat,
                     hw: Hardware, stop: int) returns (v: ClkOsm, c: Cluster)
    requires Canonical(elems, volt, cores, xoRate) && 10 <= |elems| && 0 < apmUV && accUV < INT_MAX && 2 <= stop
    ensures fresh(v) && fresh(c)
    ensures forall i: nat, reg: Reg :: i < LUT_ROWS && RowReg(reg, i) ==> LastWrite(c.log, reg) == LastWrite(v.log, reg) != None
  {
    hide Canonical, Generated, VendorTable, LevelMap, Visit, OsmParams.Accepted, ParamsSpec, RowsOf, Usable, FirstAt;
    hide AccVcOf, TableOf, VendorLut, VendorSequencer, LutActions, Exec, LastWrite, Resolve, Collected, NoConflict, RowReg;
    ghost var gp := TableParams(elems, volt, apmUV, accUV, cores, xoRate);
    ParamsOfTable(elems, volt, apmUV, accUV, cores, xoRate);
    CanonicalAccepted(elems, volt, cores, xoRate);
    v := new ClkOsm([0, 0, 0], 0);
    var end := v.Probe(elems, volt, Some(apmUV), if 0 < accUV then accUV else 0, count);
    var opps := Generate(elems, volt);
    var r := GenParams(opps.value, apmUV, accUV, cores, xoRate);
    SpecOf(opps.value, apmUV, accUV, cores, xoRate, r.value);
    c := new Cluster();
    var out := c.WriteLut(r.value, hw, stop);
    forall i: nat, reg: Reg | i < LUT_ROWS && RowReg(reg, i)
      ensures LastWrite(c.log, reg) == LastWrite(v.log, reg) != None
    {
      SameImage(elems, volt, apmUV, accUV, cores, xoRate, gp, hw, stop, v.corners, [], [], i, reg);
    }
  }
}

/**
 * One set-up pass of a CPRh thread, computed: the loop over the corners, the hand-over to the operating points,
 * the crossover rows and the packed words of cpr3_corner_init(), one after the other.
 */
module CprhPass {
  import opened Arith
  import opened Wrappers
  import opened Script
  import opened FuseVoltage
  import opened CornerTable
  import opened CornerProgram
  import opened OsmParams
  import opened OsmScript
  import opened EndToEnd

  /** A zeroed array of corners. */
  predicate AllBlank(corners: seq<Corner>) {
    forall i :: 0 <= i < |corners| ==> corners[i] == Blank
  }

  /** Rows past those that are asked for make no difference. */
  lemma {:induction false} SameRowWords(a: seq<Corner>, b: seq<Corner>, n: nat, total: nat, fuses: seq<FuseCorner>,
                                        desc: Desc, step: u32, minQuotient: u32)
    requires step > 0 && total <= |a| && total <= |b| && a[..total] == b[..total]
    requires RowsDefined(a, n, fuses) && RowsDefined(b, n, fuses)
    ensures RowWords(a, n, total, fuses, desc, step, minQuotient) == RowWords(b, n, total, fuses, desc, step, minQuotient)
  {
    hide RowWord;
    if total > 0 {
      assert a[total - 1] == a[..total][total - 1] == b[total - 1];
      assert a[..total - 1] == a[..total][..total - 1] == b[..total - 1];
      SameRowWords(a, b, n, total - 1, fuses, desc, step, minQuotient);
    }
  }

  /** Every corner of the table, and every row after it, has its fuse corner. */
  lemma TableRowsDefined(cds: seq<CornerData>, fuses: seq<FuseCorner>, fds: seq<FuseData>, desc: Desc, step: int)
    requires step > 0 && InTable(cds, fuses, fds) && 0 < |fuses|
    ensures var t := Table(cds, |cds|, fuses, fds, desc, step); RowsDefined(CprRows(t, desc), |t|, fuses)
  {
    var t := Table(cds, |cds|, fuses, fds, desc, step);
    hide Table;
    forall i | 0 <= i < |t| ensures t[i].fuse == cds[i].fuse {
      FuseOf(cds, |cds|, fuses, fds, desc, step, i);
    }
  }

  lemma {:induction false} FuseOf(cds: seq<CornerData>, n: nat, fuses: seq<FuseCorner>, fds: seq<FuseData>, desc: Desc,
                                  step: int, i: nat)
    requires step > 0 && InTable(cds, fuses, fds) && i < n <= |cds|
    ensures Table(cds, n, fuses, fds, desc, step)[i].fuse == cds[i].fuse
  {
    hide ClampedUV, Window;
    if i < n - 1 { FuseOf(cds, n - 1, fuses, fds, desc, step, i); }
  }

  /** The crossover rows stand right behind the corners. */
  lemma RowsInArray(corners: seq<Corner>, t: seq<Corner>, rest: seq<Corner>, desc: Desc)
    requires RowsAccepted(desc) && corners == t + ExtraCorners(desc, ReservedRows(desc)) + rest
    ensures corners[..|t| + ReservedRows(desc)] == CprRows(t, desc)
  {
    hide ExtraCorners;
  }

  /**
   * Appending the crossovers and writing the rows of a thread whose array starts with its corners gives the words of the
   * rows, and the thresholds that appending exported.
   */
  method WriteTable(corners: array<Corner>, ghost t: seq<Corner>, n: nat, fuses: seq<FuseCorner>, desc: Desc, step: u32,
                    minQuotient: u32)
    returns (rows: Option<seq<u32>>, apmUV: int, accUV: int)
    requires step > 0 && n == |t| && n + ReservedRows(desc) <= corners.Length && corners[..n] == t
    requires forall i :: n <= i < corners.Length ==> corners[i] == Blank
    requires RowsDefined(CprRows(t, desc), n, fuses) && RowsDefined(corners[..], n, fuses)
    modifies corners
    ensures rows.Some? <==> RowsAccepted(desc)
    ensures rows.Some? ==> rows.value == RowsWritten(t, desc, fuses, step, minQuotient)
    ensures apmUV == ExportedApm(desc) && accUV == ExportedAcc(desc)
  {
    hide RowWords, ExtraCorners, ReservedRows, ApmRow;
    ghost var was := corners[..];
    var th := new CprThread(desc, step, fuses, corners, n);
    var reserved := ReservedRows(desc);
    var total := th.AddCrossovers(reserved);
    apmUV, accUV := th.apmThresholdUV, th.memAccThresholdUV;
    if total.None? { return None, apmUV, accUV; }
    RowsInArray(corners[..], t, was[n + |ExtraCorners(desc, reserved)|..], desc);
    assert RowsDefined(corners[..], n, fuses) by { StillDefined(corners[..], t, n, fuses); }
    var ok := th.WriteRows(total.value, minQuotient);
    SameRowWords(corners[..], CprRows(t, desc), n, total.value, fuses, desc, step, minQuotient);
    rows := Some(seq(|th.rows|, i requires 0 <= i < |th.rows| reads th => ToU32(th.rows[i])));
  }

  lemma StillDefined(corners: seq<Corner>, t: seq<Corner>, n: nat, fuses: seq<FuseCorner>)
    requires n == |t| <= |corners| && corners[..n] == t && RowsDefined(t, n, fuses)
    ensures RowsDefined(corners, n, fuses)
  {
    assert forall i :: 0 <= i < n ==> corners[i] == corners[..n][i] == t[i];
  }

  /** What a pass computes from its inputs: the attempt of its corner table, unless a step gives up. */
  ghost predicate Computes(a: Attempt, before: seq<Opp>, cdata: seq<CornerData>, fuses: seq<FuseCorner>, fds: seq<FuseData>,
                           qs: seq<QuotScale>, desc: Desc, step: u32, setup: seq<Write>)
    requires step > 0 && InTable(cdata, fuses, fds) && InFuses(cdata, fuses, qs) && 0 < |fuses|
  {
    SameInputs(cdata, fuses, fds, qs);
    var cds := WithQuots(cdata, fuses, qs);
    var t := Table(cds, |cds|, fuses, fds, desc, step);
    TableRowsDefined(cds, fuses, fds, desc, step);
    if HasQuotients(cds, |cds|, fuses) && AllHaveFreq(before, t) && RowsAccepted(desc) then
      a == AttemptOf(t, desc, fuses, step, true, Some(MinQuotient(cds, |cds|, fuses)), a.lookup, a.alloc, a.addTable, setup)
    else
      !a.computed
  }

  /** Every corner has an operating point. */
  predicate AllHaveFreq(opps: seq<Opp>, t: seq<Corner>) {
    forall i :: 0 <= i < |t| ==> HasFreq(opps, t[i].freq)
  }

  /**
   * A whole computed pass over the arrays of a thread: it fails exactly when a corner has no quotient, a corner
   * has no operating point, or a reserved row was not filled; else its rows are the words of the corners and
   * crossovers of its corner table, and its thresholds those of the crossovers.
   */
  method Compute(corners: array<Corner>, opps: array<Opp>, cdata: seq<CornerData>, fuses: seq<FuseCorner>,
                 fds: seq<FuseData>, qs: seq<QuotScale>, desc: Desc, step: u32, lookup: bool, alloc: bool, addTable: bool,
                 setup: seq<Write>)
    returns (a: Attempt)
    requires step > 0 && InTable(cdata, fuses, fds) && InFuses(cdata, fuses, qs) && 0 < |fuses|
    requires |cdata| + ReservedRows(desc) <= corners.Length && AllBlank(corners[..]) && DistinctFreqs(opps[..])
    modifies corners, opps
    ensures Computes(a, old(opps[..]), cdata, fuses, fds, qs, desc, step, setup)
    ensures a.lookup == lookup && a.alloc == alloc && a.addTable == addTable && a.setup == setup
  {
    ghost var before := opps[..];
    ghost var blank := corners[..];
    ghost var cds := WithQuots(cdata, fuses, qs);
    ghost var t := Table(cds, |cds|, fuses, fds, desc, step);
    assert forall i :: 0 <= i < |cdata| ==> Zeroed(blank[i]);
    hide WithQuots, Table, HasQuotients, MinQuotient, RowsAccepted, AllHaveFreq, HasFreq, DistinctFreqs, HandedOver;
    hide RowsDefined, ReservedRows, ExportedApm, ExportedAcc, RowsWritten, AttemptOf;
    a := Attempt(lookup, alloc, addTable, false, -1, -1, setup, [], 0);
    SameInputs(cdata, fuses, fds, qs);
    TableRowsDefined(cds, fuses, fds, desc, step);
    var n := |cdata|;
    var minq := CornerVoltages(corners, n, cdata, fuses, fds, qs, desc, step);
    if minq.None? { return; }
    FirstCorners(corners[..], t, blank, n);
    var table := corners[..n];
    var ok := AdjustOpps(opps, table);
    AdjustedAll(before, t, ok);
    if !ok { return; }
    DefinedInArray(corners[..], t, n, fuses, desc);
    var rows, apmUV, accUV := WriteTable(corners, t, n, fuses, desc, step, minq.value);
    if rows.None? { return; }
    a := a.(computed := true, apmUV := apmUV, accUV := accUV, rows := rows.value,
            total := n + ReservedRows(desc));
    IsAttempt(t, desc, fuses, step, minq.value, a);
  }

  lemma FirstCorners(corners: seq<Corner>, t: seq<Corner>, blank: seq<Corner>, n: nat)
    requires |corners| == |blank| && n <= |corners| && corners[..n] == t && corners[n..] == blank[n..] && AllBlank(blank)
    ensures forall i :: n <= i < |corners| ==> corners[i] == Blank
  {
    forall i | n <= i < |corners| ensures corners[i] == Blank {
      assert corners[i] == corners[n..][i - n] == blank[n..][i - n] == blank[i];
    }
  }

  lemma AdjustedAll(before: seq<Opp>, t: seq<Corner>, ok: bool)
    requires ok <==> forall i :: 0 <= i < |t| ==> HasFreq(before, t[i].freq)
    ensures ok <==> AllHaveFreq(before, t)
  {
  }

  lemma DefinedInArray(corners: seq<Corner>, t: seq<Corner>, n: nat, fuses: seq<FuseCorner>, desc: Desc)
    requires n == |t| <= |corners| && corners[..n] == t && RowsDefined(CprRows(t, desc), n, fuses)
    ensures RowsDefined(corners, n, fuses)
  {
    assert forall i :: 0 <= i < n ==> t[i] == CprRows(t, desc)[i];
    StillDefined(corners, t, n, fuses);
  }

  lemma IsAttempt(t: seq<Corner>, desc: Desc, fuses: seq<FuseCorner>, step: u32, minQuotient: u32, a: Attempt)
    requires step > 0 && RowsDefined(CprRows(t, desc), |t|, fuses) && RowsAccepted(desc)
    requires a.computed && a.apmUV == ExportedApm(desc) && a.accUV == ExportedAcc(desc)
    requires a.rows == RowsWritten(t, desc, fuses, step, minQuotient) && a.total == |t| + ReservedRows(desc)
    ensures a == AttemptOf(t, desc, fuses, step, true, Some(minQuotient), a.lookup, a.alloc, a.addTable, a.setup)
  {
    hide RowsWritten, RowsAccepted, ExportedApm, ExportedAcc, ReservedRows;
  }
}

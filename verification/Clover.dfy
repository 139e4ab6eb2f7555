/** The operating-point tables clover ships for speed bin 0: they meet the hypotheses of the two-driver results. */
module Clover {
  import opened Arith
  import opened Wrappers
  import opened Script
  import opened MemAcc
  import opened OsmParams
  import opened OsmScript
  import opened Bringup
  import opened Vendor
  import opened Refinement

  /** One generated node: frequency, PLL override, MEM-ACC level, PLL divider. */
  datatype Node = Node(hz: u32, override: u32, spare: u32, div: u32)

  const POWER := [
    Node(300000000, 0x1200020, 1, 0), Node(633600000, 0x3200020, 1, 1), Node(902400000, 0x4260026, 1, 0),
    Node(1113600000, 0x52e002e, 2, 0), Node(1401600000, 0x73a003a, 2, 0), Node(1536000000, 0x8400040, 2, 0),
    Node(1747200000, 0x9480048, 2, 0), Node(1843200000, 0x94c004c, 3, 0)]

  const PERFORMANCE := [
    Node(300000000, 0x1200020, 1, 0), Node(1113600000, 0x52e002e, 1, 0), Node(1401600000, 0x73a003a, 2, 0),
    Node(1747200000, 0x9480048, 2, 0), Node(1958400000, 0xa510051, 2, 0), Node(2150400000, 0xb590059, 2, 0),
    Node(2457600000, 0xc660066, 3, 0)]

  const XO := 19200000
  const CORES := 4

  predicate FieldsFit(n: Node) { 1000 <= n.hz && n.hz / XO < 0x100 && n.div < 4 }

  /** Nodes in ascending frequency order whose multipliers and dividers fit their fields. */
  predicate NodesOk(rows: seq<Node>) {
    && 2 <= |rows| <= 40
    && (forall r :: 0 <= r < |rows| ==> FieldsFit(rows[r]))
    && forall q, r :: 0 <= q < r < |rows| ==> rows[q].hz < rows[r].hz
  }

  /** The frequency word of row r. */
  function WordAt(rows: seq<Node>, r: nat): (w: u32)
    requires NodesOk(rows) && r < |rows|
    ensures w == FreqWord(if r == 0 then 0 else 1, rows[r].hz / XO, CORES, rows[r].div)
    ensures PllDivOf(w) == rows[r].div
  {
    FreqWordFields(if r == 0 then 0 else 1, rows[r].hz / XO, CORES, rows[r].div);
    FreqWord(if r == 0 then 0 else 1, rows[r].hz / XO, CORES, rows[r].div)
  }

  /** The vendor property these nodes are generated from, cell by cell. */
  function Property(rows: seq<Node>): (elems: seq<u32>)
    requires NodesOk(rows)
    ensures |elems| == 5 * |rows|
  {
    seq(5 * |rows|, k requires 0 <= k < 5 * |rows| =>
      match k % 5
      case 0 => rows[k / 5].hz
      case 1 => WordAt(rows, k / 5)
      case 2 => rows[k / 5].override
      case 3 => rows[k / 5].spare
      case _ => k / 5 + 1)
  }

  lemma PropertyRow(rows: seq<Node>, r: nat)
    requires NodesOk(rows) && r < |rows|
    ensures RowOf(Property(rows), r) == Row(rows[r].hz, WordAt(rows, r), rows[r].override, rows[r].spare, r + 1)
  {
    hide WordAt;
    assert (5 * r) / 5 == r && (5 * r + 1) / 5 == r && (5 * r + 2) / 5 == r && (5 * r + 3) / 5 == r && (5 * r + 4) / 5 == r;
  }

  /** Corner voltages the OSM accepts. */
  ghost predicate VoltsOk(volt: nat -> int, n: nat) {
    forall c :: 1 <= c <= n ==> 150000 <= volt(c) < 1401000
  }

  lemma RowCanonical(rows: seq<Node>, volt: nat -> int, r: nat)
    requires NodesOk(rows) && VoltsOk(volt, |rows|) && r < |rows|
    ensures var row := RowOf(Property(rows), r);
            row.corner == r + 1 && row.hz == rows[r].hz && CanonicalRow(row, r, volt, CORES, XO)
  {
    PropertyRow(rows, r);
    assert FieldsFit(rows[r]) && 150000 <= volt(r + 1) < 1401000;
    hide FreqWord, PllDivOf, WordAt, Property, RowOf, NodesOk;
  }

  lemma PropertyCanonical(rows: seq<Node>, volt: nat -> int)
    requires NodesOk(rows) && VoltsOk(volt, |rows|)
    ensures Canonical(Property(rows), volt, CORES, XO)
  {
    hide FreqWord, PllDivOf, WordAt, Property, RowOf, CanonicalRow, FieldsFit;
    var elems := Property(rows);
    forall r | 0 <= r < |rows|
      ensures RowOf(elems, r).corner == r + 1 && RowOf(elems, r).hz == rows[r].hz
      ensures CanonicalRow(RowOf(elems, r), r, volt, CORES, XO)
    {
      RowCanonical(rows, volt, r);
    }
  }

  /** The two shipped tables are ordered, fit their fields, and raise the MEM-ACC level one by one to 3. */
  lemma ShippedNodes(rows: seq<Node>)
    requires rows == POWER || rows == PERFORMANCE
    ensures NodesOk(rows) && RisingColumn(SparesIn(rows))
  {
    assert forall r :: 0 <= r < |rows| ==> FieldsFit(rows[r]);
    assert forall r :: 0 <= r < |rows| - 1 ==> rows[r].hz < rows[r + 1].hz;
    Sorted(rows, |rows|);
    ShippedSpares(rows);
    hide SparesIn, RisingColumn;
  }

  lemma ShippedSpares(rows: seq<Node>)
    requires rows == POWER || rows == PERFORMANCE
    ensures RisingColumn(SparesIn(rows))
  {
    var s := SparesIn(rows);
    assert rows == POWER ==> s == [1, 1, 1, 2, 2, 2, 2, 3];
    assert rows == PERFORMANCE ==> s == [1, 1, 2, 2, 2, 2, 3];
    hide SparesIn;
  }

  function SparesIn(rows: seq<Node>): (s: seq<nat>)
    ensures |s| == |rows| && forall r :: 0 <= r < |rows| ==> s[r] == rows[r].spare
  {
    seq(|rows|, r requires 0 <= r < |rows| => rows[r].spare)
  }

  lemma {:induction false} Sorted(rows: seq<Node>, n: nat)
    requires n <= |rows| && forall r :: 0 <= r < |rows| - 1 ==> rows[r].hz < rows[r + 1].hz
    ensures forall q, r :: 0 <= q < r < n ==> rows[q].hz < rows[r].hz
  {
    if n > 1 {
      Sorted(rows, n - 1);
      var k := n - 2;
      assert rows[k].hz < rows[k + 1].hz;
    }
  }

  /**
   * For both shipped tables, whatever the corner voltages within the accepted range: the vendor property they
   * come from is canonical with rising levels, so both drivers leave the same table image and, where the APM
   * corner is above 0, the same sequencer writes.
   */
  lemma ShippedTablesRefine(rows: seq<Node>, volt: nat -> int)
    requires (rows == POWER || rows == PERFORMANCE) && VoltsOk(volt, |rows|)
    ensures NodesOk(rows) && Canonical(Property(rows), volt, CORES, XO)
    ensures RisingColumn(SpareColumn(Property(rows)))
  {
    ShippedNodes(rows);
    hide NodesOk;
    PropertyCanonical(rows, volt);
    hide RisingColumn, Canonical, Property, VoltsOk, SparesIn;
    SparesAre(rows);
  }

  lemma SparesAre(rows: seq<Node>)
    requires NodesOk(rows) && ValidElems(Property(rows))
    ensures SpareColumn(Property(rows)) == SparesIn(rows)
  {
    forall r | 0 <= r < |rows| ensures RowOf(Property(rows), r).spare == rows[r].spare {
      PropertyRow(rows, r);
    }
    hide Property, NodesOk;
  }

  /**
   * A set-up call for a shipped table whose calls all succeed is one the gates decide about: the table is
   * accepted and its two level rises are found.
   */
  lemma ShippedTablesHealthy(rows: seq<Node>, volt: nat -> int, e: Env)
    requires (rows == POWER || rows == PERFORMANCE) && VoltsOk(volt, |rows|)
    requires EnvOk(e) && AttemptSucceeds(e.attempt) && e.enableLookup && 0 < e.attempt.apmUV && e.cores == CORES && e.xoRate == XO
    requires (forall n :: e.hw.scm(n)) && (forall k :: e.hw.transfer(k)) && e.hw.acdMapped && e.hw.autoTransfer
    requires NodesOk(rows) && CountedRows(Property(rows)) && Listed(volt, |rows|) && e.opps == Generated(Property(rows), volt)
    ensures Healthy(e, FRESH)
  {
    ShippedTablesRefine(rows, volt);
    hide *;
    var elems := Property(rows);
    var p := TableParams(elems, volt, e.attempt.apmUV, e.attempt.accUV, CORES, XO);
    TableRows(elems, volt, p, CORES, XO);
    SameRowsDetected(p, VendorTable(elems, volt), SpareColumn(elems));
    HealthyWhen(e, p);
  }

  lemma HealthyWhen(e: Env, p: Params)
    requires EnvOk(e) && AttemptSucceeds(e.attempt) && e.enableLookup
    requires (forall n :: e.hw.scm(n)) && (forall k :: e.hw.transfer(k)) && e.hw.acdMapped && e.hw.autoTransfer
    requires ParamsSpec(e.opps, e.attempt.apmUV, e.attempt.accUV, e.cores, e.xoRate) == Some(p)
    requires Writable(p) && |Detected(p)| == 4
    ensures Healthy(e, FRESH)
  {
    hide ParamsSpec, Detected;
  }

  /** Every corner at 900 mV. */
  function Flat(): nat -> int { (c: nat) => 900000 }

  /** A diverging table: with every corner of the power cluster over the APM threshold the sequencers differ. */
  lemma FlatTableDiverges() returns (p: Params, x: Corners)
    ensures NodesOk(POWER) && Canonical(Property(POWER), Flat(), CORES, XO)
    ensures SequencersFor(Property(POWER), Flat(), 872000, 0, CORES, XO, p, x)
    ensures Writable(p) && |Detected(p)| == 4
    ensures LastWrite(SequencerLog(p), Sequencer(31))
         != LastWrite(VendorSequencer(VendorTable(Property(POWER), Flat()), 8, x), Sequencer(31))
  {
    assert VoltsOk(Flat(), 8) && Flat()(1) == 900000;
    ShippedTablesRefine(POWER, Flat());
    var elems := Property(POWER);
    assert |elems| == 40 && !Crosses(Flat(), 8, 872000);
    assert TableOk(VendorTable(elems, Flat()));
    hide Flat, Property, Canonical, RisingColumn, ParamsSpec, Generated, VendorTable, Resolve, TableOk, Detected;
    hide SequencerLog, VendorSequencer, LastWrite, Crosses, VoltsOk, NodesOk;
    p := TableParams(elems, Flat(), 872000, -1, CORES, XO);
    x := Resolve(VendorTable(elems, Flat()), 872000, 0, 9, Flat());
    SameSequencer(elems, Flat(), 872000, 0, CORES, XO, p, x);
  }
}

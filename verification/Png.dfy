/** Reading a PNG image: the chunk walk and the in-place unfiltering (read_png() of measure-png.py). */
module Png {
  import opened Arith
  import opened Wrappers
  import opened Bytes

  // ------------------------------------------------------------------- predictors

  function Abs(x: int): int { if x < 0 then -x else x }

  /** The Paeth predictor as the loop computes it, from reduced distances. */
  function Paeth(a: int, b: int, c: int): int {
    var pa, pb, pc := Abs(b - c), Abs(a - c), Abs(a + b - 2 * c);
    if pa <= pb && pa <= pc then a else if pb <= pc then b else c
  }

  /** The Paeth predictor of section 6.6 of RFC 2083. */
  function PaethPredictor(a: int, b: int, c: int): int {
    var p := a + b - c;
    var pa, pb, pc := Abs(p - a), Abs(p - b), Abs(p - c);
    if pa <= pb && pa <= pc then a
    else if pb <= pc then b
    else c
  }

  lemma PaethsAgree(a: int, b: int, c: int)
    ensures Paeth(a, b, c) == PaethPredictor(a, b, c)
  {
  }

  /** It is the neighbour nearest to their plane: left before above before above left where they are equally near. */
  lemma PaethIsNearest(a: int, b: int, c: int)
    ensures var p, r := a + b - c, PaethPredictor(a, b, c);
            && r in {a, b, c} && Abs(p - r) <= Abs(p - a) && Abs(p - r) <= Abs(p - b) && Abs(p - r) <= Abs(p - c)
            && (Abs(p - a) == Abs(p - r) ==> r == a)
            && (Abs(p - a) != Abs(p - r) && Abs(p - b) == Abs(p - r) ==> r == b)
  {
  }

  /** Byte x of a row, where bytes to the left of the row are zero. */
  function At(row: seq<byte>, x: int): int
    requires x < |row|
  {
    if x < 0 then 0 else row[x]
  }

  /** What the filter types of section 6 of RFC 2083 subtract from a byte, given its neighbours left, above and above left. */
  function Predictor(filt: byte, left: int, above: int, corner: int): int {
    match filt
    case 1 => left
    case 2 => above
    case 3 => (left + above) / 2
    case 4 => PaethPredictor(left, above, corner)
    case _ => 0
  }

  function ToByte(x: int): byte { x % 256 }

  /** A row filtered as in section 6 of RFC 2083. */
  function Filter(filt: byte, row: seq<byte>, prior: seq<byte>, bpp: nat): (f: seq<byte>)
    requires |prior| == |row| && 0 < bpp
    ensures |f| == |row|
    ensures forall x :: 0 <= x < |row| ==>
              f[x] == ToByte(row[x] - Predictor(filt, At(row, x - bpp), prior[x], At(prior, x - bpp)))
  {
    seq(|row|, x requires 0 <= x < |row| =>
      ToByte(row[x] - Predictor(filt, At(row, x - bpp), prior[x], At(prior, x - bpp))))
  }

  /** The first n bytes of a row, unfiltered from left to right. */
  function Unfiltered(filt: byte, f: seq<byte>, prior: seq<byte>, bpp: nat, n: nat): (r: seq<byte>)
    requires n <= |f| == |prior| && 0 < bpp
    ensures |r| == n
  {
    if n == 0 then [] else
      var r := Unfiltered(filt, f, prior, bpp, n - 1);
      r + [ToByte(f[n - 1] + Predictor(filt, At(r, n - 1 - bpp), prior[n - 1], At(prior, n - 1 - bpp)))]
  }

  function Unfilter(filt: byte, f: seq<byte>, prior: seq<byte>, bpp: nat): (r: seq<byte>)
    requires |f| == |prior| && 0 < bpp
    ensures |r| == |f|
  {
    Unfiltered(filt, f, prior, bpp, |f|)
  }

  lemma ByteSum(v: int, d: int)
    requires 0 <= v < 256
    ensures ToByte(ToByte(v - d) + d) == v && ToByte(ToByte(v + d) - d) == v
  {
    Wrap(v, v - d, d);
    Wrap(v, v + d, 0 - d);
  }

  /** Taking a multiple of 256 off and reducing again changes nothing. */
  lemma Wrap(v: int, x: int, d: int)
    requires 0 <= v < 256 && x + d == v
    ensures ToByte(ToByte(x) + d) == v
  {
    var q, r := x / 256, x % 256;
    assert x == 256 * q + r;
    var y := r + d;
    assert y == v - 256 * q;
    var k := y / 256;
    assert y == 256 * k + y % 256;
    assert k == 0 - q;
  }

  lemma UnfilteredNext(filt: byte, f: seq<byte>, prior: seq<byte>, bpp: nat, x: nat)
    requires x < |f| == |prior| && 0 < bpp
    ensures var r := Unfiltered(filt, f, prior, bpp, x);
            Unfiltered(filt, f, prior, bpp, x + 1)
            == r + [ToByte(f[x] + Predictor(filt, At(r, x - bpp), prior[x], At(prior, x - bpp)))]
  {
    hide Predictor, ToByte;
  }

  lemma AtPrefix(row: seq<byte>, x: nat, y: int)
    requires y < x <= |row|
    ensures At(row[..x], y) == At(row, y)
  {
  }

  lemma {:induction false} UnfilterPrefix(filt: byte, row: seq<byte>, prior: seq<byte>, bpp: nat, n: nat)
    requires |prior| == |row| && 0 < bpp && n <= |row|
    ensures Unfiltered(filt, Filter(filt, row, prior, bpp), prior, bpp, n) == row[..n]
  {
    hide *;
    if n == 0 {
      NoBytes(filt, Filter(filt, row, prior, bpp), prior, bpp);
      assert row[..0] == [];
    } else {
      var x := n - 1;
      UnfilterPrefix(filt, row, prior, bpp, x);
      UnfilteredNext(filt, Filter(filt, row, prior, bpp), prior, bpp, x);
      AtPrefix(row, x, x - bpp);
      ByteSum(row[x], Predictor(filt, At(row, x - bpp), prior[x], At(prior, x - bpp)));
      assert row[..n] == row[..x] + [row[x]];
    }
  }

  lemma NoBytes(filt: byte, f: seq<byte>, prior: seq<byte>, bpp: nat)
    requires |f| == |prior| && 0 < bpp
    ensures Unfiltered(filt, f, prior, bpp, 0) == []
  {
  }

  /** Unfiltering undoes filtering, for every filter type and every row. */
  lemma UnfilterFilter(filt: byte, row: seq<byte>, prior: seq<byte>, bpp: nat)
    requires |prior| == |row| && 0 < bpp
    ensures Unfilter(filt, Filter(filt, row, prior, bpp), prior, bpp) == row
  {
    UnfilterPrefix(filt, row, prior, bpp, |row|);
    assert row[..|row|] == row;
  }

  lemma {:induction false} UnfilteredAt(filt: byte, f: seq<byte>, prior: seq<byte>, bpp: nat, n: nat, x: nat)
    requires x < n <= |f| == |prior| && 0 < bpp
    ensures var r := Unfiltered(filt, f, prior, bpp, n);
            r[x] == ToByte(f[x] + Predictor(filt, At(r, x - bpp), prior[x], At(prior, x - bpp)))
  {
    hide Predictor, ToByte;
    if x < n - 1 { UnfilteredAt(filt, f, prior, bpp, n - 1, x); }
  }

  /** And the converse: filtering the result gives the filtered bytes back, so no two rows are confused. */
  lemma FilterUnfilter(filt: byte, f: seq<byte>, prior: seq<byte>, bpp: nat)
    requires |f| == |prior| && 0 < bpp
    ensures Filter(filt, Unfilter(filt, f, prior, bpp), prior, bpp) == f
  {
    var r := Unfilter(filt, f, prior, bpp);
    forall x | 0 <= x < |f| ensures Filter(filt, r, prior, bpp)[x] == f[x] {
      UnfilteredAt(filt, f, prior, bpp, |f|, x);
      hide Predictor, ToByte, Filter, Unfilter;
      ByteSum(f[x], Predictor(filt, At(r, x - bpp), prior[x], At(prior, x - bpp)));
    }
  }

  /** The stored bytes at x, x - bpp, x - 2 bpp, ... added up. */
  function StepSum(f: seq<byte>, x: nat, bpp: nat): nat
    requires x < |f| && 0 < bpp
  {
    f[x] + if x < bpp then 0 else StepSum(f, x - bpp, bpp)
  }

  lemma SumMod(a: int, b: int)
    ensures (a + b % 256) % 256 == (a + b) % 256
  {
    var q, r := (a + b % 256) / 256, (a + b % 256) % 256;
    assert b == 256 * (b / 256) + b % 256;
    assert a + b == 256 * (q + b / 256) + r;
    DivModUnique(a + b, 256, q + b / 256, r);
  }

  /** A row of filter type 1 holds differences to the left: each byte is the sum of the stored ones, mod 256. */
  lemma {:induction false} SubRow(f: seq<byte>, prior: seq<byte>, bpp: nat, x: nat)
    requires x < |f| == |prior| && 0 < bpp
    ensures Unfilter(1, f, prior, bpp)[x] == StepSum(f, x, bpp) % 256
    decreases x
  {
    UnfilteredAt(1, f, prior, bpp, |f|, x);
    hide Unfiltered;
    if x >= bpp {
      SubRow(f, prior, bpp, x - bpp);
      SumMod(f[x], StepSum(f, x - bpp, bpp));
    }
  }

  /** Filter type 2 holds differences to the row above. */
  lemma UpRow(f: seq<byte>, prior: seq<byte>, bpp: nat, x: nat)
    requires x < |f| == |prior| && 0 < bpp
    ensures var stored: int, above: int := f[x], prior[x]; Unfilter(2, f, prior, bpp)[x] == (stored + above) % 256
  {
    UnfilteredAt(2, f, prior, bpp, |f|, x);
    hide Unfiltered;
  }

  /** Filter type 3 holds differences to the mean of the left and the upper byte, cut to a whole number. */
  lemma AverageRow(f: seq<byte>, prior: seq<byte>, bpp: nat, x: nat)
    requires x < |f| == |prior| && 0 < bpp
    ensures var row := Unfilter(3, f, prior, bpp);
            var stored: int, left: int, above: int := f[x], if x < bpp then 0 else row[x - bpp], prior[x];
            row[x] == (stored + (left + above) / 2) % 256
  {
    UnfilteredAt(3, f, prior, bpp, |f|, x);
    hide Unfiltered;
  }

  /** Filter type 4 holds differences to the Paeth predictor. */
  lemma PaethRow(f: seq<byte>, prior: seq<byte>, bpp: nat, x: nat)
    requires x < |f| == |prior| && 0 < bpp
    ensures var row := Unfilter(4, f, prior, bpp);
            var left: int, corner: int := if x < bpp then 0 else row[x - bpp], if x < bpp then 0 else prior[x - bpp];
            var stored: int := f[x];
            row[x] == (stored + PaethPredictor(left, prior[x], corner)) % 256
  {
    UnfilteredAt(4, f, prior, bpp, |f|, x);
    hide Unfiltered, PaethPredictor;
  }

  /** Any other filter type holds the bytes themselves. */
  lemma PlainRow(filt: byte, f: seq<byte>, prior: seq<byte>, bpp: nat)
    requires !(1 <= filt <= 4) && |f| == |prior| && 0 < bpp
    ensures Unfilter(filt, f, prior, bpp) == f
  {
    forall x | 0 <= x < |f| ensures Unfilter(filt, f, prior, bpp)[x] == f[x] {
      UnfilteredAt(filt, f, prior, bpp, |f|, x);
      hide Unfiltered;
    }
  }

  /** One byte unfiltered, as the loop does it. */
  method UndoByte(filt: byte, v: byte, a: int, b: int, c: int) returns (r: byte)
    ensures r == ToByte(v + Predictor(filt, a, b, c))
  {
    PaethsAgree(a, b, c);
    r := v;
    if filt == 1 {
      r := ToByte(v + a);
    } else if filt == 2 {
      r := ToByte(v + b);
    } else if filt == 3 {
      r := ToByte(v + (a + b) / 2);
    } else if filt == 4 {
      r := ToByte(v + Paeth(a, b, c));
    }
  }

  /** A row with its first x bytes unfiltered. */
  function HalfDone(filt: byte, f: seq<byte>, prior: seq<byte>, bpp: nat, x: nat): (r: seq<byte>)
    requires x <= |f| == |prior| && 0 < bpp
    ensures |r| == |f|
  {
    Unfiltered(filt, f, prior, bpp, x) + f[x..]
  }

  lemma HalfDoneNext(filt: byte, f: seq<byte>, prior: seq<byte>, bpp: nat, x: nat)
    requires x < |f| == |prior| && 0 < bpp
    ensures var h := HalfDone(filt, f, prior, bpp, x);
            && HalfDone(filt, f, prior, bpp, x + 1)
            == h[x := ToByte(h[x] + Predictor(filt, At(h, x - bpp), prior[x], At(prior, x - bpp)))]
  {
    hide Predictor, ToByte;
  }

  /** A row cut short passes when its filter changes no byte and the missing ones are fewer than a pixel's. */
  predicate ShortPasses(filt: byte, length: nat, bpp: nat, stride: nat) {
    !(1 <= filt <= 4) && stride <= length + bpp
  }

  /**
   * The unfilter loop over one row, in place: the byte to the left is already unfiltered when it is read.
   * A whole row is unfiltered; a row cut short fails, unless no missing byte is ever used, and is then kept.
   */
  method UnfilterLine(line: array<byte>, prev: array<byte>, filt: byte, bpp: nat, stride: nat) returns (ok: bool)
    requires line.Length <= stride == prev.Length && 0 < bpp && line != prev
    modifies line
    ensures ok <==> line.Length == stride || ShortPasses(filt, line.Length, bpp, stride)
    ensures line.Length == stride ==> line[..] == Unfilter(filt, old(line[..]), prev[..], bpp)
    ensures ok && line.Length < stride ==> line[..] == old(line[..])
  {
    hide Predictor, ToByte, HalfDone;
    ghost var f, prior := line[..], prev[..];
    ghost var full := line.Length == stride;
    if full { HalfDoneEnds(filt, f, prior, bpp); }
    for x := 0 to stride
      invariant prev[..] == prior
      invariant full ==> line[..] == HalfDone(filt, f, prior, bpp, x)
      invariant !full ==> x <= line.Length + bpp && if 1 <= filt <= 4 then x <= line.Length else line[..] == f
    {
      if x >= bpp && line.Length <= x - bpp { return false; }
      if line.Length <= x {
        if 1 <= filt <= 4 { return false; }
        continue;
      }
      if full { HalfDoneNext(filt, f, prior, bpp, x); }
      var a: int := if x >= bpp then line[x - bpp] else 0;
      var c: int := if x >= bpp then prev[x - bpp] else 0;
      ghost var was := line[..];
      var v := UndoByte(filt, line[x], a, prev[x], c);
      assert full ==> a == At(was, x - bpp) && c == At(prior, x - bpp) && was[x] == line[x];
      if !(1 <= filt <= 4) { NothingToUndo(filt, line[x], a, prev[x], c); }
      line[x] := v;
      assert line[..] == was[x := v];
    }
    ok := true;
  }

  lemma NothingToUndo(filt: byte, v: byte, a: int, b: int, c: int)
    requires !(1 <= filt <= 4)
    ensures ToByte(v + Predictor(filt, a, b, c)) == v
  {
  }

  lemma HalfDoneEnds(filt: byte, f: seq<byte>, prior: seq<byte>, bpp: nat)
    requires |f| == |prior| && 0 < bpp
    ensures HalfDone(filt, f, prior, bpp, 0) == f
    ensures HalfDone(filt, f, prior, bpp, |f|) == Unfilter(filt, f, prior, bpp)
  {
    assert f[|f|..] == [];
  }

  // ------------------------------------------------------------------ whole images

  predicate RowsOf(rows: seq<seq<byte>>, stride: nat) {
    forall i :: 0 <= i < |rows| ==> |rows[i]| == stride
  }

  /** Every row behind its filter type, filtered against the row above it. */
  function Encode(rows: seq<seq<byte>>, types: seq<byte>, prior: seq<byte>, bpp: nat): seq<byte>
    requires |types| == |rows| && RowsOf(rows, |prior|) && 0 < bpp
    decreases |rows|
  {
    if |rows| == 0 then [] else
      [types[0]] + Filter(types[0], rows[0], prior, bpp) + Encode(rows[1..], types[1..], rows[0], bpp)
  }

  function Join(rows: seq<seq<byte>>): seq<byte> {
    if |rows| == 0 then [] else rows[0] + Join(rows[1..])
  }

  /**
   * What h rows of data decode to, above a row `prior`; None where the data ends before a row's filter type,
   * or within a row whose missing bytes are used. A last row cut short that passes is kept as it is.
   */
  function Decoded(raw: seq<byte>, h: nat, prior: seq<byte>, bpp: nat): Option<seq<byte>>
    requires 0 < bpp
    decreases h
  {
    if h == 0 then Some([])
    else if |raw| == 0 then None
    else
      var line := Slice(raw, 1, |prior| + 1);
      if |line| == |prior| then
        var row := Unfilter(raw[0], line, prior, bpp);
        match Decoded(raw[|prior| + 1..], h - 1, row, bpp)
        case None => None
        case Some(rest) => Some(row + rest)
      else if h == 1 && ShortPasses(raw[0], |line|, bpp, |prior|) then Some(line)
      else None
  }

  function After(out: seq<byte>, r: Option<seq<byte>>): Option<seq<byte>> {
    match r
    case None => None
    case Some(rest) => Some(out + rest)
  }

  /** One row further. */
  lemma DecodedStep(out: seq<byte>, raw: seq<byte>, pos: nat, h: nat, prior: seq<byte>, bpp: nat)
    requires 0 < bpp && 0 < h && pos < |raw|
    ensures var next := pos + 1 + |prior|;
            var line := Slice(raw, pos + 1, next);
            && |line| <= |prior| && (|line| == |prior| <==> next <= |raw|)
            && After(out, Decoded(raw[pos..], h, prior, bpp))
            == if |line| == |prior| then
                 var row := Unfilter(raw[pos], line, prior, bpp);
                 After(out + row, Decoded(raw[next..], h - 1, row, bpp))
               else if h == 1 && ShortPasses(raw[pos], |line|, bpp, |prior|) then Some(out + line)
               else None
  {
    hide Unfilter, ShortPasses;
    var rest := raw[pos..];
    var next := pos + 1 + |prior|;
    var line := Slice(raw, pos + 1, next);
    assert Slice(rest, 1, |prior| + 1) == line && rest[0] == raw[pos];
    if |line| == |prior| {
      assert rest[|prior| + 1..] == raw[next..];
      var row := Unfilter(raw[pos], line, prior, bpp);
      var below := Decoded(raw[next..], h - 1, row, bpp);
      if below.Some? { assert out + (row + below.value) == out + row + below.value; }
    }
  }

  lemma DecodedEnds(out: seq<byte>, raw: seq<byte>, h: nat, prior: seq<byte>, bpp: nat)
    requires 0 < bpp && (h == 0 || |raw| == 0)
    ensures After(out, Decoded(raw, h, prior, bpp)) == if h == 0 then Some(out) else None
  {
    assert out + [] == out;
  }

  lemma AfterNothing(r: Option<seq<byte>>)
    ensures After([], r) == r
  {
    if r.Some? { assert [] + r.value == r.value; }
  }

  /** The row loop; the array of the row above is the row just finished. */
  method UnfilterImage(raw: seq<byte>, h: nat, stride: nat, bpp: nat) returns (r: Option<seq<byte>>)
    requires 0 < bpp
    ensures r == Decoded(raw, h, Zeros(stride), bpp)
  {
    hide Unfilter, Decoded, Slice, After, ShortPasses;
    var out: seq<byte>, pos: nat := [], 0;
    var prev := new byte[stride](_ => 0);
    assert prev[..] == Zeros(stride) && raw[0..] == raw;
    ghost var all := Decoded(raw, h, Zeros(stride), bpp);
    AfterNothing(all);
    for i := 0 to h
      invariant prev.Length <= stride
      invariant prev.Length == stride && pos <= |raw| ==>
        all == After(out, Decoded(raw[pos..], h - i, prev[..], bpp))
      invariant !(prev.Length == stride && pos <= |raw|) ==>
        |raw| <= pos && 0 < i && all == if i == h then Some(out) else None
    {
      if |raw| <= pos {
        if prev.Length == stride && pos <= |raw| { DecodedEnds(out, raw[pos..], h - i, prev[..], bpp); }
        return None;
      }
      DecodedStep(out, raw, pos, h - i, prev[..], bpp);
      var filt := raw[pos];
      pos := pos + 1;
      var row := Slice(raw, pos, pos + stride);
      var line := new byte[|row|](k requires 0 <= k < |row| => row[k]);
      assert line[..] == row;
      pos := pos + stride;
      var ok := UnfilterLine(line, prev, filt, bpp, stride);
      if !ok { return None; }
      out := out + line[..];
      prev := line;
    }
    if prev.Length == stride && pos <= |raw| { DecodedEnds(out, raw[pos..], 0, prev[..], bpp); }
    return Some(out);
  }

  /** Decoding undoes encoding, whatever filter type each row was given, and ignores what follows the rows. */
  lemma {:induction false} DecodeEncode(rows: seq<seq<byte>>, types: seq<byte>, prior: seq<byte>, bpp: nat, more: seq<byte>)
    requires |types| == |rows| && RowsOf(rows, |prior|) && 0 < bpp
    ensures Decoded(Encode(rows, types, prior, bpp) + more, |rows|, prior, bpp) == Some(Join(rows))
    decreases |rows|
  {
    if |rows| > 0 {
      var raw := Encode(rows, types, prior, bpp) + more;
      EncodeFirst(rows, types, prior, bpp, more);
      UnfilterFilter(types[0], rows[0], prior, bpp);
      DecodeEncode(rows[1..], types[1..], rows[0], bpp, more);
      WholeRow(raw, |rows|, prior, bpp);
      hide Filter, Unfilter, Encode, Decoded;
    }
  }

  lemma WholeRow(raw: seq<byte>, h: nat, prior: seq<byte>, bpp: nat)
    requires 0 < h && 0 < bpp && |prior| + 1 <= |raw|
    ensures var row := Unfilter(raw[0], raw[1..|prior| + 1], prior, bpp);
            var below := Decoded(raw[|prior| + 1..], h - 1, row, bpp);
            Decoded(raw, h, prior, bpp) == if below.Some? then Some(row + below.value) else None
  {
    hide Unfilter;
    assert Slice(raw, 1, |prior| + 1) == raw[1..|prior| + 1];
  }

  /** Data that ends before a row's filter type, or in a row any of whose bytes its filter changes, decodes to nothing. */
  lemma {:induction false} TooShort(raw: seq<byte>, h: nat, prior: seq<byte>, bpp: nat)
    requires 0 < bpp && 0 < h && (|raw| == 0 || (1 <= raw[0] <= 4 && |raw| <= |prior|))
    ensures Decoded(raw, h, prior, bpp) == None
  {
    hide Unfilter;
  }

  lemma EncodeFirst(rows: seq<seq<byte>>, types: seq<byte>, prior: seq<byte>, bpp: nat, more: seq<byte>)
    requires |types| == |rows| > 0 && RowsOf(rows, |prior|) && 0 < bpp
    ensures var raw := Encode(rows, types, prior, bpp) + more;
            && |prior| + 1 <= |raw| && raw[0] == types[0]
            && raw[1..|prior| + 1] == Filter(types[0], rows[0], prior, bpp)
            && raw[|prior| + 1..] == Encode(rows[1..], types[1..], rows[0], bpp) + more
  {
    var f, tail := Filter(types[0], rows[0], prior, bpp), Encode(rows[1..], types[1..], rows[0], bpp);
    assert Encode(rows, types, prior, bpp) == [types[0]] + f + tail;
    hide Filter, Encode;
    ThreePieces(types[0], f, tail, more);
  }

  lemma ThreePieces(first: byte, f: seq<byte>, tail: seq<byte>, more: seq<byte>)
    ensures var raw := [first] + f + tail + more;
            |f| + 1 <= |raw| && raw[0] == first && raw[1..|f| + 1] == f && raw[|f| + 1..] == tail + more
  {
  }

  // ----------------------------------------------------------------------- chunks

  const IHDR: seq<byte> := [0x49, 0x48, 0x44, 0x52]
  const IDAT: seq<byte> := [0x49, 0x44, 0x41, 0x54]

  datatype Header = Header(w: nat, h: nat, depth: byte, colour: byte)

  datatype Walked = Walked(idat: seq<byte>, header: Option<Header>)

  const START := Walked([], None)

  /** A big-endian word. */
  function Be32(s: seq<byte>, at: nat): (n: nat)
    requires at + 4 <= |s|
  {
    BeValue(s[at..at + 4])
  }

  /** The first byte is worth most. */
  lemma Be32Is(s: seq<byte>, at: nat)
    requires at + 4 <= |s|
    ensures Be32(s, at) == Number(s[at + 3], s[at + 2], s[at + 1], s[at])
  {
    BeIsNumber(s[at..at + 4]);
  }

  /** One chunk; a header too short to unpack is an error. */
  function Take(s: Walked, kind: seq<byte>, body: seq<byte>): Option<Walked> {
    if kind == IHDR then
      if |body| < 10 then None
      else Some(s.(header := Some(Header(Be32(body, 0), Be32(body, 4), body[8], body[9]))))
    else if kind == IDAT then Some(s.(idat := s.idat + body))
    else Some(s)
  }

  /** What a header says: width, height, bits per sample and colour type, in that order. */
  lemma HeaderFields(s: Walked, body: seq<byte>)
    ensures Take(s, IHDR, body).Some? <==> 10 <= |body|
    ensures 10 <= |body| ==>
      var t := Take(s, IHDR, body).value;
      && t.idat == s.idat && t.header.Some?
      && t.header.value.w == Number(body[3], body[2], body[1], body[0])
      && t.header.value.h == Number(body[7], body[6], body[5], body[4])
      && t.header.value.depth == body[8] && t.header.value.colour == body[9]
  {
    if 10 <= |body| {
      Be32Is(body, 0);
      Be32Is(body, 4);
      hide Be32;
    }
  }

  /** The chunk walk over the rest of a file; a length cut short is an error, a chunk cut short is not. */
  function WalkFrom(s: Walked, data: seq<byte>): Option<Walked>
    decreases |data|
  {
    if |data| == 0 then Some(s)
    else if |data| < 4 then None
    else
      var length := Be32(data, 0);
      match Take(s, Slice(data, 4, 8), Slice(data, 8, 8 + length))
      case None => None
      case Some(next) => WalkFrom(next, data[Min(12 + length, |data|)..])
  }

  method WalkChunks(data: seq<byte>) returns (r: Option<Walked>)
    ensures r == WalkFrom(START, data[Min(8, |data|)..])
  {
    hide Take, Be32;
    var pos, s := 8, START;
    while pos < |data|
      invariant WalkFrom(START, data[Min(8, |data|)..]) == WalkFrom(s, data[Min(pos, |data|)..])
      decreases |data| - pos
    {
      var rest := data[pos..];
      if |rest| < 4 { return None; }
      var length := Be32(rest, 0);
      var next := Take(s, Slice(rest, 4, 8), Slice(rest, 8, 8 + length));
      if next.None? { return None; }
      assert rest[Min(12 + length, |rest|)..] == data[Min(pos + 12 + length, |data|)..];
      s, pos := next.value, pos + 12 + length;
    }
    return Some(s);
  }

  function Channels(colour: byte): Option<nat> {
    match colour
    case 0 => Some(1)
    case 2 => Some(3)
    case 3 => Some(1)
    case 4 => Some(2)
    case 6 => Some(4)
    case _ => None
  }

  /**
   * Samples per pixel by colour type: its bits say palette, colour and alpha, in that order from the lowest. A palette
   * index is one sample, colour is three, and alpha one more; the other three types of the bits are not defined.
   */
  lemma ChannelsByBits(colour: byte)
    requires colour < 8
    ensures var palette, rgb, alpha := colour % 2 == 1, colour / 2 % 2 == 1, colour / 4 == 1;
            && (Channels(colour).Some? <==> (palette ==> rgb && !alpha))
            && (Channels(colour).Some? ==>
                  Channels(colour).value == (if rgb && !palette then 3 else 1) + if alpha then 1 else 0)
  {
  }

  datatype Image = Image(w: nat, h: nat, channels: nat, pixels: seq<byte>)

  /** A row of no bytes needs no distance to its left neighbour. */
  function Distance(bpp: nat): nat { if bpp == 0 then 1 else bpp }

  /** The image of a file; None where the walk, the header, the colour type, inflating or the rows fail. */
  function ImageOf(data: seq<byte>, inflate: seq<byte> -> Option<seq<byte>>): Option<Image> {
    var s := WalkFrom(START, data[Min(8, |data|)..]);
    if s.None? || inflate(s.value.idat).None? || s.value.header.None? then None else
      var hdr, raw := s.value.header.value, inflate(s.value.idat).value;
      match Channels(hdr.colour)
      case None => None
      case Some(channels) =>
        var bpp := channels * hdr.depth / 8;
        match Decoded(raw, hdr.h, Zeros(hdr.w * bpp), Distance(bpp))
        case None => None
        case Some(pixels) => Some(Image(hdr.w, hdr.h, channels, pixels))
  }

  /** read_png() */
  method ReadPng(data: seq<byte>, inflate: seq<byte> -> Option<seq<byte>>) returns (r: Option<Image>)
    ensures r == ImageOf(data, inflate)
  {
    hide WalkFrom, Channels, Decoded;
    var s := WalkChunks(data);
    if s.None? { return None; }
    var raw := inflate(s.value.idat);
    if raw.None? || s.value.header.None? { return None; }
    var hdr := s.value.header.value;
    var channels := Channels(hdr.colour);
    if channels.None? { return None; }
    var bpp := channels.value * hdr.depth / 8;
    var stride := hdr.w * bpp;
    var pixels := UnfilterImage(raw.value, hdr.h, stride, Distance(bpp));
    if pixels.None? { return None; }
    return Some(Image(hdr.w, hdr.h, channels.value, pixels.value));
  }

  /** A chunk as stored: length, kind, body and checksum. */
  datatype Chunk = Chunk(kind: seq<byte>, body: seq<byte>, crc: seq<byte>)

  predicate ChunkOk(c: Chunk) {
    |c.kind| == 4 && |c.crc| == 4 && |c.body| < 0x1_0000_0000 && (c.kind == IHDR ==> 10 <= |c.body|)
  }

  function Stored(cs: seq<Chunk>): seq<byte> {
    if |cs| == 0 then [] else BeBytes(|cs[0].body|, 4) + cs[0].kind + cs[0].body + cs[0].crc + Stored(cs[1..])
  }

  /** What the chunks say: the last header, and the data of all data chunks. */
  function Said(s: Walked, cs: seq<Chunk>): Walked
    requires forall i :: 0 <= i < |cs| ==> ChunkOk(cs[i])
    decreases |cs|
  {
    if |cs| == 0 then s else
      assert ChunkOk(cs[0]);
      Said(Take(s, cs[0].kind, cs[0].body).value, cs[1..])
  }

  /** The bodies of the data chunks, joined in file order. */
  function DataOf(cs: seq<Chunk>): seq<byte> {
    if |cs| == 0 then [] else (if cs[0].kind == IDAT then cs[0].body else []) + DataOf(cs[1..])
  }

  lemma {:induction false} SaidData(s: Walked, cs: seq<Chunk>)
    requires forall i :: 0 <= i < |cs| ==> ChunkOk(cs[i])
    ensures Said(s, cs).idat == s.idat + DataOf(cs)
    ensures (forall i :: 0 <= i < |cs| ==> cs[i].kind != IHDR) ==> Said(s, cs).header == s.header
    decreases |cs|
  {
    if |cs| == 0 {
      assert s.idat + [] == s.idat;
    } else {
      assert ChunkOk(cs[0]);
      var t := Take(s, cs[0].kind, cs[0].body).value;
      SaidData(t, cs[1..]);
      hide Be32;
      assert IHDR[0] == 0x49 && IHDR[1] == 0x48 && IDAT[1] == 0x44;
      assert t.idat == s.idat + if cs[0].kind == IDAT then cs[0].body else [];
      var first, rest := if cs[0].kind == IDAT then cs[0].body else [], DataOf(cs[1..]);
      assert s.idat + first + rest == s.idat + (first + rest);
    }
  }

  lemma ChunkParts(c: Chunk, more: seq<byte>)
    requires ChunkOk(c)
    ensures var data := BeBytes(|c.body|, 4) + c.kind + c.body + c.crc + more;
            && 4 <= |data| && Be32(data, 0) == |c.body|
            && Slice(data, 4, 8) == c.kind && Slice(data, 8, 8 + |c.body|) == c.body
            && data[Min(12 + |c.body|, |data|)..] == more
  {
    var data := BeBytes(|c.body|, 4) + c.kind + c.body + c.crc + more;
    FourBytes();
    BeRoundTrip(|c.body|, 4);
    hide BeBytes, BeValue;
    assert data[0..4] == BeBytes(|c.body|, 4);
  }

  /** The walk finds exactly the stored chunks. */
  lemma {:induction false} WalkFindsChunks(s: Walked, cs: seq<Chunk>)
    requires forall i :: 0 <= i < |cs| ==> ChunkOk(cs[i])
    ensures WalkFrom(s, Stored(cs)) == Some(Said(s, cs))
    decreases |cs|
  {
    if |cs| > 0 {
      ChunkParts(cs[0], Stored(cs[1..]));
      hide BeBytes, Be32, Slice;
      WalkFindsChunks(Take(s, cs[0].kind, cs[0].body).value, cs[1..]);
    }
  }

  /**
   * Round trip: for every image with 8- or 16-bit samples and any filter type for each of its rows, a file whose
   * chunks name it and whose data inflates to its filtered rows reads back as the original bytes.
   */
  lemma PngRoundTrip(signature: seq<byte>, cs: seq<Chunk>, rows: seq<seq<byte>>, types: seq<byte>, hdr: Header,
                     inflate: seq<byte> -> Option<seq<byte>>)
    requires |signature| == 8 && forall i :: 0 <= i < |cs| ==> ChunkOk(cs[i])
    requires Channels(hdr.colour).Some? && (hdr.depth == 8 || hdr.depth == 16)
    requires var bpp := Channels(hdr.colour).value * hdr.depth / 8;
             && |rows| == hdr.h == |types| && RowsOf(rows, hdr.w * bpp)
             && Said(START, cs).header == Some(hdr)
             && bpp > 0 && inflate(Said(START, cs).idat) == Some(Encode(rows, types, Zeros(hdr.w * bpp), bpp))
    ensures var file := signature + Stored(cs);
            ImageOf(file, inflate) == Some(Image(hdr.w, hdr.h, Channels(hdr.colour).value, Join(rows)))
  {
    var bpp := Channels(hdr.colour).value * hdr.depth / 8;
    var raw := Encode(rows, types, Zeros(hdr.w * bpp), bpp);
    WalkFindsChunks(START, cs);
    assert (signature + Stored(cs))[Min(8, |signature + Stored(cs)|)..] == Stored(cs);
    DecodeEncode(rows, types, Zeros(hdr.w * bpp), bpp, []);
    assert raw + [] == raw;
    hide Encode, Decoded, Channels, WalkFrom, Said, Stored;
  }
}

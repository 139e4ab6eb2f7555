/**
 * Open-loop voltages of the fuse corners, and interpolation between them
 * (cpr-common.c, and cpr_fuse_corner_init() of cpr3.c).
 */
module FuseVoltage {
  import opened Arith
  import opened Bits
  import opened Wrappers

  /** The descriptor of one fuse corner, as far as voltages go. */
  datatype FuseData = FuseData(
    refUV: int, maxUV: int, minUV: int, rangeUV: int,
    oloopAdjust: int, maxVoltScale: int)

  /** One fuse corner of a thread; `maxFreq` is filled in by the level walk. */
  datatype FuseCorner = FuseCorner(minUV: int, maxUV: int, uV: int, quot: int, maxFreq: nat, ro: nat)

  /** Number of regulator steps a fuse of `width` bits encodes: magnitude, with the sign in the top bit. */
  function SignMagnitude(bits: nat, width: nat): int
    requires width > 0
  {
    var magnitude := bits % Pow2(width - 1);
    if (bits / Pow2(width - 1)) % 2 == 1 then -magnitude else magnitude
  }

  /** cpr_read_fuse_uV() once the fuse cell has been read. */
  function ReadFuseUV(bits: nat, width: nat, stepSize: int, refUV: int, adj: int, step: int): int
    requires width > 0 && step > 0
  {
    RoundUp(refUV + SignMagnitude(bits, width) * stepSize + adj, step)
  }

  /** The descriptor after cpr_populate_fuse_common() rounded both ends of its window. */
  function Rounded(fd: FuseData, step: int): FuseData
    requires step > 0
  {
    fd.(minUV := RoundUp(fd.minUV, step), maxUV := RoundUp(fd.maxUV, step))
  }

  /** What cpr_interpolate() takes off the upper voltage, in u64 arithmetic. */
  function Drop(fDiff: int, dv: int, span: int, scale: int): int
    requires span > 0
  {
    Min((fDiff * dv) % U64_SPAN / span, (fDiff * scale) % U64_SPAN / 1000000)
  }

  /** cpr_interpolate(); frequencies are u64, voltages are `int`. */
  function Interpolate(freq: int, fuse: FuseCorner, prev: FuseCorner, step: int, maxVoltScale: int): int
    requires step > 0
  {
    if fuse.maxFreq <= prev.maxFreq || fuse.uV <= prev.uV || fuse.maxFreq <= freq then
      fuse.uV
    else
      var drop := Drop(fuse.maxFreq - freq, fuse.uV - prev.uV, fuse.maxFreq - prev.maxFreq, maxVoltScale);
      RoundUp(ToInt(fuse.uV - drop), step)
  }

  // ------------------------------------------------------------------ decoding

  /** The rounded voltage is a multiple of the step, never below the encoded one, and less than one step above it. */
  lemma ReadFuseRounding(bits: nat, width: nat, stepSize: int, refUV: int, adj: int, step: int)
    requires width > 0 && step > 0
    ensures var exact := refUV + SignMagnitude(bits, width) * stepSize + adj;
            var uV := ReadFuseUV(bits, width, stepSize, refUV, adj, step);
            Aligned(uV, step) && exact <= uV && (0 <= exact ==> uV < exact + step)
  {
    var exact := refUV + SignMagnitude(bits, width) * stepSize + adj;
    RoundUpNeverDown(exact, step);
    if 0 <= exact { RoundUpNonNegative(exact, step); }
  }

  lemma SignMagnitudeRange(bits: nat, width: nat)
    requires width > 0
    ensures 0 - Pow2(width - 1) < SignMagnitude(bits, width) < Pow2(width - 1)
  {
  }

  /**
   * What a fuse of w bits asks for: with the top bit clear the voltage goes up by the other bits' count of steps, and
   * with it set, down by it; then up to the next multiple of the regulator step.
   */
  lemma FuseMovesVoltage(m: nat, width: nat, stepSize: int, refUV: int, adj: int, step: int)
    requires width > 0 && step > 0 && m < Pow2(width - 1)
    ensures ReadFuseUV(m, width, stepSize, refUV, adj, step) == RoundUp(refUV + m * stepSize + adj, step)
    ensures ReadFuseUV(Pow2(width - 1) + m, width, stepSize, refUV, adj, step) == RoundUp(refUV - m * stepSize + adj, step)
  {
    var half := Pow2(width - 1);
    DivModUnique(m, half, 0, m);
    DivModUnique(half + m, half, 1, m);
    assert (0 - m) * stepSize == 0 - m * stepSize;
    hide Pow2, RoundUp;
  }

  /** The descriptor's window widens downwards never and upwards by less than a step: both ends go to the next multiple. */
  lemma RoundedWindow(fd: FuseData, step: int)
    requires step > 0 && 0 <= fd.minUV && 0 <= fd.maxUV
    ensures var rd := Rounded(fd, step);
            && Aligned(rd.minUV, step) && fd.minUV <= rd.minUV < fd.minUV + step
            && Aligned(rd.maxUV, step) && fd.maxUV <= rd.maxUV < fd.maxUV + step
            && rd.refUV == fd.refUV && rd.rangeUV == fd.rangeUV && rd.oloopAdjust == fd.oloopAdjust
            && rd.maxVoltScale == fd.maxVoltScale
  {
    RoundUpNonNegative(fd.minUV, step);
    RoundUpNonNegative(fd.maxUV, step);
    hide RoundUp;
  }

  /** A fuse corner stores the voltage of its window that is nearest to the fused one. */
  lemma StoredIsNearest(v: nat, fd: FuseData, width: nat, stepSize: int, step: int, quotient: Option<u32>, x: int)
    requires width > 0 && step > 0 && fd.minUV <= x <= fd.maxUV
    ensures var uV := ReadFuseUV(v, width, stepSize, fd.refUV, fd.oloopAdjust, step);
            var stored := StoredUV(FuseBits(Some(v), quotient), fd, width, stepSize, step);
            fd.minUV <= stored <= fd.maxUV && Distance(stored, uV) <= Distance(x, uV)
  {
    hide ReadFuseUV;
  }

  // ------------------------------------------------------------- interpolation

  /**
   * A corner between two fuse points with step-aligned voltages, a non-negative slope limit,
   * and u64 products that do not wrap.
   */
  ghost predicate InterpolationInputs(freq: int, fuse: FuseCorner, prev: FuseCorner, step: int, scale: int) {
    && step > 0 && 0 <= scale
    && 0 <= prev.uV && 0 <= fuse.uV < 0x8000_0000
    && prev.maxFreq <= freq <= fuse.maxFreq
    && (fuse.maxFreq - freq) * (fuse.uV - prev.uV) < U64_SPAN
    && (fuse.maxFreq - freq) * scale < U64_SPAN
    && Aligned(fuse.uV, step) && Aligned(prev.uV, step)
  }

  /** Frequencies below 8.5 GHz and positive C ints keep both products inside u64. */
  lemma ProductFits(a: int, b: int)
    requires 0 <= a < 0x2_0000_0000 && 0 <= b < 0x8000_0000
    ensures 0 <= a * b < U64_SPAN
  {
    MulMono(a, 0x2_0000_0000, b);
    MulMono(0, a, b);
  }

  /** Floor of a share of `dv`, over plain integers. */
  lemma ShareBounds(fDiff: int, dv: int, span: int)
    requires 0 <= fDiff <= span && 0 < span && 0 <= dv
    ensures 0 <= fDiff * dv / span <= dv
    ensures fDiff * dv / span * span <= fDiff * dv
  {
    MulMono(fDiff, span, dv);
    MulMono(0, fDiff, dv);
    DivMono(fDiff * dv, dv * span, span);
    MulMod(dv, span);
    DivMono(0, fDiff * dv, span);
  }

  /** In range nothing wraps: the drop is the exact quotient, or less where the slope limit cuts it. */
  lemma DropBounds(fDiff: int, dv: int, span: int, scale: int)
    requires 0 <= fDiff <= span && 0 < span && 0 <= dv && 0 <= scale
    requires fDiff * dv < U64_SPAN && fDiff * scale < U64_SPAN
    ensures Drop(fDiff, dv, span, scale) == Min(fDiff * dv / span, fDiff * scale / 1000000)
    ensures 0 <= Drop(fDiff, dv, span, scale) <= dv
    ensures Drop(fDiff, dv, span, scale) * span <= fDiff * dv
  {
    MulMono(0, fDiff, dv);
    MulMono(0, fDiff, scale);
    ShareBounds(fDiff, dv, span);
    var share, cap := fDiff * dv / span, fDiff * scale / 1000000;
    DropIsMin(fDiff, dv, span, scale);
    MulMono(Min(share, cap), share, span);
  }

  lemma DropIsMin(fDiff: int, dv: int, span: int, scale: int)
    requires 0 < span
    requires 0 <= fDiff * dv < U64_SPAN && 0 <= fDiff * scale < U64_SPAN
    ensures Drop(fDiff, dv, span, scale) == Min(fDiff * dv / span, fDiff * scale / 1000000)
  {
    assert (fDiff * dv) % U64_SPAN == fDiff * dv by { DivModUnique(fDiff * dv, U64_SPAN, 0, fDiff * dv); }
    assert (fDiff * scale) % U64_SPAN == fDiff * scale by { DivModUnique(fDiff * scale, U64_SPAN, 0, fDiff * scale); }
  }

  lemma DropAntitone(f: int, g: int, dv: int, span: int, scale: int)
    requires 0 <= g <= f <= span && 0 < span && 0 <= dv && 0 <= scale
    requires f * dv < U64_SPAN && f * scale < U64_SPAN
    ensures 0 <= Drop(g, dv, span, scale) <= Drop(f, dv, span, scale) <= dv
  {
    MulMono(g, f, dv);
    MulMono(g, f, scale);
    DropBounds(f, dv, span, scale);
    DropBounds(g, dv, span, scale);
    DivMono(g * dv, f * dv, span);
    DivMono(g * scale, f * scale, 1000000);
  }

  /** `uV` is at least `exact == top - drop`; scaled by `span` it stays above the line. */
  lemma AboveLine(uV: int, top: int, drop: int, span: int, fall: int)
    requires top - drop <= uV && 0 <= span && drop * span <= fall
    ensures uV * span >= top * span - fall
  {
    MulMono(top - drop, uV, span);
    assert (top - drop) * span == top * span - drop * span;
  }

  lemma RoundedBetween(top: int, drop: int, low: int, step: int)
    requires step > 0 && Aligned(top, step) && 0 <= low <= top - drop && 0 <= drop && top < 0x8000_0000
    ensures ToInt(top - drop) == top - drop
    ensures var r := RoundUp(top - drop, step);
            Aligned(r, step) && low <= r <= top && top - drop <= r
  {
    FitsUnchanged(top - drop);
    RoundUpNonNegative(top - drop, step);
    RoundUpLeast(top - drop, step, top);
  }

  /** The interpolated voltage is step-aligned, between the two fuse voltages and never below the straight line. */
  lemma InterpolateBounds(freq: int, fuse: FuseCorner, prev: FuseCorner, step: int, scale: int)
    requires InterpolationInputs(freq, fuse, prev, step, scale) && prev.uV <= fuse.uV
    ensures var uV := Interpolate(freq, fuse, prev, step, scale);
            && Aligned(uV, step) && prev.uV <= uV <= fuse.uV
            && uV * (fuse.maxFreq - prev.maxFreq)
               >= fuse.uV * (fuse.maxFreq - prev.maxFreq) - (fuse.maxFreq - freq) * (fuse.uV - prev.uV)
  {
    hide RoundUp, Drop, Aligned, ToInt;
    var uV := Interpolate(freq, fuse, prev, step, scale);
    var fDiff, dv, span := fuse.maxFreq - freq, fuse.uV - prev.uV, fuse.maxFreq - prev.maxFreq;
    if span <= 0 || dv <= 0 || fDiff <= 0 {
      MulMono(0, fDiff, dv);
      assert uV == fuse.uV;
      hide *;
      AboveLine(uV, fuse.uV, 0, span, fDiff * dv);
    } else {
      assert uV == RoundUp(ToInt(fuse.uV - Drop(fDiff, dv, span, scale)), step);
      hide Interpolate;
      SlopedBounds(fuse.uV, prev.uV, fDiff, span, step, scale);
    }
  }

  lemma SlopedBounds(top: int, low: int, fDiff: int, span: int, step: int, scale: int)
    requires 0 < step && 0 <= scale && 0 < fDiff <= span && 0 <= low < top < 0x8000_0000
    requires fDiff * (top - low) < U64_SPAN && fDiff * scale < U64_SPAN && Aligned(top, step) && Aligned(low, step)
    ensures var uV := RoundUp(ToInt(top - Drop(fDiff, top - low, span, scale)), step);
            && Aligned(uV, step) && low <= uV <= top
            && uV * span >= top * span - fDiff * (top - low)
  {
    hide *;
    var drop := Drop(fDiff, top - low, span, scale);
    DropBounds(fDiff, top - low, span, scale);
    RoundedBetween(top, drop, low, step);
    AboveLine(RoundUp(top - drop, step), top, drop, span, fDiff * (top - low));
  }

  /** Within one fuse corner a higher frequency never gets a lower voltage. */
  lemma InterpolateMonotone(f: int, g: int, fuse: FuseCorner, prev: FuseCorner, step: int, scale: int)
    requires InterpolationInputs(f, fuse, prev, step, scale) && InterpolationInputs(g, fuse, prev, step, scale)
    requires f <= g && prev.uV <= fuse.uV
    ensures Interpolate(f, fuse, prev, step, scale) <= Interpolate(g, fuse, prev, step, scale)
  {
    hide RoundUp, Drop;
    var dv, span := fuse.uV - prev.uV, fuse.maxFreq - prev.maxFreq;
    if span <= 0 || dv <= 0 || g >= fuse.maxFreq {
      InterpolateBounds(f, fuse, prev, step, scale);
    } else {
      var df, dg := Drop(fuse.maxFreq - f, dv, span, scale), Drop(fuse.maxFreq - g, dv, span, scale);
      DropAntitone(fuse.maxFreq - f, fuse.maxFreq - g, dv, span, scale);
      FitsUnchanged(fuse.uV - df);
      FitsUnchanged(fuse.uV - dg);
      RoundUpMono(fuse.uV - df, fuse.uV - dg, step);
    }
  }

  /**
   * The interpolated voltage is the least multiple of the step at or above the limited line: the straight line between
   * the two fuse points, or the line from the upper one that falls by the slope limit, whichever is higher.
   */
  lemma InterpolateIsLeast(freq: int, fuse: FuseCorner, prev: FuseCorner, step: int, scale: int)
    requires InterpolationInputs(freq, fuse, prev, step, scale) && prev.uV < fuse.uV && freq < fuse.maxFreq
    ensures var fDiff, dv, span := fuse.maxFreq - freq, fuse.uV - prev.uV, fuse.maxFreq - prev.maxFreq;
            var line := fuse.uV - Min(fDiff * dv / span, fDiff * scale / 1000000);
            line <= Interpolate(freq, fuse, prev, step, scale) < line + step
  {
    var fDiff, dv, span := fuse.maxFreq - freq, fuse.uV - prev.uV, fuse.maxFreq - prev.maxFreq;
    var drop := Drop(fDiff, dv, span, scale);
    DropBounds(fDiff, dv, span, scale);
    hide Drop, RoundUp, ToInt;
    FitsUnchanged(fuse.uV - drop);
    RoundUpNonNegative(fuse.uV - drop, step);
  }

  /** At the top of its fuse corner, and where the fuse points do not rise, a corner takes the fuse voltage. */
  lemma InterpolateAtTop(freq: int, fuse: FuseCorner, prev: FuseCorner, step: int, scale: int)
    requires step > 0 && (freq == fuse.maxFreq || fuse.uV <= prev.uV || fuse.maxFreq <= prev.maxFreq)
    ensures Interpolate(freq, fuse, prev, step, scale) == fuse.uV
  {
  }

  /** An input: 200 MHz below the top of a corner that rises from 700 mV to 800 mV over 400 MHz. */
  lemma HalfwayVoltage()
    ensures Interpolate(800_000_000, FuseCorner(0, 0, 800000, 0, 1_000_000_000, 0),
                        FuseCorner(0, 0, 700000, 0, 600_000_000, 0), 4000, 868) == 752000
  {
    assert Drop(200_000_000, 100000, 400_000_000, 868) == 50000;
    assert ToInt(750000) == 750000 && RoundUp(750000, 4000) == 752000;
    hide Drop, ToInt, RoundUp;
  }

  // --------------------------------------------------------- fuse corner table

  /** Highest of vs[0..i]. */
  function RunningMax(vs: seq<int>, i: nat): int
    requires i < |vs|
  {
    if i == 0 then vs[0] else Max(RunningMax(vs, i - 1), vs[i])
  }

  lemma {:induction false} RunningMaxIsMax(vs: seq<int>, i: nat) returns (j: nat)
    requires i < |vs|
    ensures j <= i && vs[j] == RunningMax(vs, i)
    ensures forall k :: 0 <= k <= i ==> vs[k] <= RunningMax(vs, i)
  {
    j := i;
    if i > 0 && RunningMax(vs, i) == RunningMax(vs, i - 1) {
      j := RunningMaxIsMax(vs, i - 1);
    } else if i > 0 {
      var _ := RunningMaxIsMax(vs, i - 1);
    }
  }

  lemma {:induction false} RunningMaxMonotone(vs: seq<int>, i: nat, j: nat)
    requires i <= j < |vs|
    ensures RunningMax(vs, i) <= RunningMax(vs, j)
  {
    if i < j { RunningMaxMonotone(vs, i, j - 1); }
  }

  /** What reading the two fuse cells of a corner gives. */
  datatype FuseBits = FuseBits(voltage: Option<nat>, quotient: Option<u32>)

  /** How a descriptor corrects a fused quotient; `factor` is that of the corner's ring oscillator. */
  datatype QuotData = QuotData(scale: int, offset: int, adjust: int, cloopAdjust: int, factor: int)

  /** cpr3_adjust_quot() */
  function AdjustQuot(factor: int, voltage: int): int {
    if factor == 0 || voltage == 0 then 0 else TruncDiv(ToInt(factor * voltage), 1000000)
  }

  /** Quotient as cpr_populate_fuse_common() stores it. */
  function CellQuot(raw: u32, q: QuotData): int {
    ToInt(raw * q.scale + q.offset + q.adjust)
  }

  /** ... and after the closed-loop adjustment. */
  function FusedQuot(raw: u32, q: QuotData): int {
    ToInt(CellQuot(raw, q) + AdjustQuot(q.factor, q.cloopAdjust))
  }

  /** The adjustment moves the quotient by the factor per volt, cut toward zero. */
  lemma AdjustQuotBounds(factor: int, voltage: int)
    requires -0x8000_0000 <= factor * voltage < 0x8000_0000
    ensures var p, d := factor * voltage, AdjustQuot(factor, voltage) * 1000000;
            if 0 <= p then 0 <= d <= p < d + 1000000 else d - 1000000 < p <= d <= 0
  {
    var p := factor * voltage;
    assert ToInt(p) == p by {
      if p < 0 { DivModUnique(p, U32_SPAN, -1, p + U32_SPAN); } else { FitsUnchanged(p); }
    }
  }

  /**
   * The closed-loop adjustment moves a fused quotient up when it is positive and down when it is negative, by the factor
   * per volt cut toward zero.
   */
  lemma FusedQuotMoves(raw: u32, q: QuotData)
    requires 2148 <= raw * q.scale + q.offset + q.adjust < 0x7000_0000
    requires -0x8000_0000 <= q.factor * q.cloopAdjust < 0x8000_0000
    ensures var cell, p, quot := raw * q.scale + q.offset + q.adjust, q.factor * q.cloopAdjust, FusedQuot(raw, q);
            && (0 <= p ==> 1000000 * quot <= 1000000 * cell + p < 1000000 * (quot + 1))
            && (p <= 0 ==> 1000000 * (quot - 1) < 1000000 * cell + p <= 1000000 * quot)
  {
    AdjustQuotBounds(q.factor, q.cloopAdjust);
    FitsUnchanged(raw * q.scale + q.offset + q.adjust);
    FitsUnchanged(raw * q.scale + q.offset + q.adjust + AdjustQuot(q.factor, q.cloopAdjust));
    hide AdjustQuot, ToInt;
  }

  /** Both cells read, and the fused voltage is not negative (which the driver takes for an error code). */
  predicate Readable(bits: FuseBits, fd: FuseData, width: nat, stepSize: int, step: int)
    requires width > 0 && step > 0
  {
    && bits.voltage.Some? && bits.quotient.Some?
    && 0 <= ReadFuseUV(bits.voltage.value, width, stepSize, fd.refUV, fd.oloopAdjust, step)
  }

  /** The fused voltage clamped into the (rounded) window of its descriptor. */
  function StoredUV(bits: FuseBits, fd: FuseData, width: nat, stepSize: int, step: int): int
    requires width > 0 && step > 0
  {
    match bits.voltage
    case None => 0
    case Some(v) => Clamp(ReadFuseUV(v, width, stepSize, fd.refUV, fd.oloopAdjust, step), fd.minUV, fd.maxUV)
  }

  function StoredUVs(bits: seq<FuseBits>, fds: seq<FuseData>, width: nat, stepSize: int, step: int): (vs: seq<int>)
    requires width > 0 && step > 0 && |bits| == |fds|
    ensures |vs| == |bits|
    ensures forall i :: 0 <= i < |bits| ==> vs[i] == StoredUV(bits[i], fds[i], width, stepSize, step)
  {
    seq(|bits|, i requires 0 <= i < |bits| => StoredUV(bits[i], fds[i], width, stepSize, step))
  }

  function RoundedAll(fds: seq<FuseData>, step: int): (rd: seq<FuseData>)
    requires step > 0
    ensures |rd| == |fds| && forall i :: 0 <= i < |fds| ==> rd[i] == Rounded(fds[i], step)
  {
    seq(|fds|, i requires 0 <= i < |fds| => Rounded(fds[i], step))
  }

  /** Fuse corner i reads, and the running maximum fits its window. */
  predicate Accepted(bits: seq<FuseBits>, rd: seq<FuseData>, vs: seq<int>, width: nat, stepSize: int, step: int, i: nat)
    requires width > 0 && step > 0 && i < |bits| == |rd| == |vs|
  {
    Readable(bits[i], rd[i], width, stepSize, step) && Fits(vs, rd, i)
  }

  /** The running maximum of the stored voltages fits the window of corner i. */
  predicate Fits(vs: seq<int>, rd: seq<FuseData>, i: nat)
    requires i < |rd| == |vs|
  {
    rd[i].minUV <= RunningMax(vs, i) <= rd[i].maxUV
  }

  /**
   * cpr_populate_fuse_common(): fill fuse corner i from its two fuse cells. Without a voltage nothing changes;
   * without a quotient the window and the voltage do.
   */
  method PopulateFuseCommon(fuses: array<FuseCorner>, fdata: array<FuseData>, i: nat, bits: FuseBits,
                            q: QuotData, width: nat, stepSize: int, step: int)
    returns (ok: bool)
    requires width > 0 && step > 0 && i < fuses.Length == fdata.Length
    modifies fuses, fdata
    ensures var fd := Rounded(old(fdata[i]), step);
            && ok == Readable(bits, fd, width, stepSize, step)
            && if bits.voltage.None? || ReadFuseUV(bits.voltage.value, width, stepSize, fd.refUV, fd.oloopAdjust, step) < 0
               then fdata[..] == old(fdata[..]) && fuses[..] == old(fuses[..])
               else
                 && fdata[..] == old(fdata[..])[i := fd]
                 && fuses[..] == old(fuses[..])[i :=
                      old(fuses[i]).(minUV := fd.minUV, maxUV := fd.maxUV, uV := StoredUV(bits, fd, width, stepSize, step),
                                     quot := if ok then CellQuot(bits.quotient.value, q) else old(fuses[i]).quot)]
  {
    if bits.voltage.None? { return false; }
    var uV := ReadFuseUV(bits.voltage.value, width, stepSize, fdata[i].refUV, fdata[i].oloopAdjust, step);
    if uV < 0 { return false; }
    fdata[i] := Rounded(fdata[i], step);
    fuses[i] := fuses[i].(minUV := fdata[i].minUV, maxUV := fdata[i].maxUV,
                          uV := Clamp(uV, fdata[i].minUV, fdata[i].maxUV));
    if bits.quotient.None? { return false; }
    fuses[i] := fuses[i].(quot := CellQuot(bits.quotient.value, q));
    return true;
  }

  /** A fuse corner after a successful cpr_fuse_corner_init(). */
  function Initialised(before: FuseCorner, rd: FuseData, uV: int, bits: FuseBits, q: QuotData): FuseCorner {
    before.(minUV := rd.minUV, maxUV := rd.maxUV, uV := uV, quot := FusedQuot(bits.quotient.GetOr(0), q))
  }

  /** The table with its first n corners initialised. */
  function FirstDone(before: seq<FuseCorner>, rd: seq<FuseData>, vs: seq<int>, bits: seq<FuseBits>, quots: seq<QuotData>,
                     n: nat): (t: seq<FuseCorner>)
    requires |before| == |rd| == |vs| == |bits| == |quots|
    ensures |t| == |before|
    ensures forall k :: 0 <= k < |t| ==>
              t[k] == if k < n then Initialised(before[k], rd[k], RunningMax(vs, k), bits[k], quots[k]) else before[k]
  {
    seq(|before|, k requires 0 <= k < |before| =>
      if k < n then Initialised(before[k], rd[k], RunningMax(vs, k), bits[k], quots[k]) else before[k])
  }

  function DataDone(before: seq<FuseData>, rd: seq<FuseData>, n: nat): (t: seq<FuseData>)
    requires |before| == |rd|
    ensures |t| == |before| && forall k :: 0 <= k < |t| ==> t[k] == if k < n then rd[k] else before[k]
  {
    seq(|before|, k requires 0 <= k < |before| => if k < n then rd[k] else before[k])
  }

  /** One corner further, and what it was built on. */
  lemma DoneStep(before: seq<FuseCorner>, data: seq<FuseData>, rd: seq<FuseData>, vs: seq<int>, bits: seq<FuseBits>,
                 quots: seq<QuotData>, i: nat)
    requires i < |before| == |data| == |rd| == |vs| == |bits| == |quots|
    ensures var t := FirstDone(before, rd, vs, bits, quots, i);
            && t[i] == before[i] && DataDone(data, rd, i)[i] == data[i]
            && FirstDone(before, rd, vs, bits, quots, i + 1)
            == t[i := Initialised(before[i], rd[i], RunningMax(vs, i), bits[i], quots[i])]
            && DataDone(data, rd, i + 1) == DataDone(data, rd, i)[i := rd[i]]
            && (i > 0 ==> RunningMax(vs, i) == Max(t[i - 1].uV, vs[i]))
            && (i == 0 ==> RunningMax(vs, i) == vs[i])
  {
    hide FusedQuot;
  }

  /**
   * cpr_fuse_corner_init() on a CPR-Hardened controller. It succeeds exactly when every fuse
   * corner reads and the running maximum of the clamped fuse voltages fits every window;
   * then each corner holds that running maximum and the corrected quotient.
   */
  method FuseCornerInit(fuses: array<FuseCorner>, fdata: array<FuseData>, bits: seq<FuseBits>, quots: seq<QuotData>,
                        width: nat, stepSize: int, step: int)
    returns (ok: bool)
    requires width > 0 && step > 0
    requires fuses.Length == fdata.Length == |bits| == |quots|
    modifies fuses, fdata
    ensures var rd := RoundedAll(old(fdata[..]), step);
            var vs := StoredUVs(bits, rd, width, stepSize, step);
            && (ok <==> forall i :: 0 <= i < |bits| ==> Accepted(bits, rd, vs, width, stepSize, step, i))
            && (ok ==> fdata[..] == rd)
            && (ok ==> fuses[..] == FirstDone(old(fuses[..]), rd, vs, bits, quots, |bits|))
  {
    hide FusedQuot, Readable, StoredUV, Rounded, RunningMax, FirstDone, DataDone, Initialised;
    ghost var before, data := fuses[..], fdata[..];
    ghost var rd := RoundedAll(data, step);
    ghost var vs := StoredUVs(bits, rd, width, stepSize, step);
    var prev := 0;
    assert before == FirstDone(before, rd, vs, bits, quots, 0) && data == DataDone(data, rd, 0);
    for i := 0 to |bits|
      invariant prev == if i == 0 then 0 else i - 1
      invariant forall k :: 0 <= k < i ==> Accepted(bits, rd, vs, width, stepSize, step, k)
      invariant fdata[..] == DataDone(data, rd, i)
      invariant fuses[..] == FirstDone(before, rd, vs, bits, quots, i)
    {
      DoneStep(before, data, rd, vs, bits, quots, i);
      assert fuses[i] == fuses[..][i] && fuses[prev] == fuses[..][prev] && fdata[i] == fdata[..][i];
      PassAccepted(bits, rd, vs, width, stepSize, step, i);
      var done := OneFuseCorner(fuses, fdata, i, prev, bits[i], quots[i], width, stepSize, step);
      if !done { return false; }
      InitialisedIs(before[i], rd[i], RunningMax(vs, i), bits[i], quots[i]);
      prev := i;
    }
    assert DataDone(data, rd, |bits|) == rd;
    return true;
  }

  lemma InitialisedIs(before: FuseCorner, rd: FuseData, uV: int, bits: FuseBits, q: QuotData)
    requires bits.quotient.Some?
    ensures Initialised(before, rd, uV, bits, q)
         == before.(minUV := rd.minUV, maxUV := rd.maxUV, uV := uV, quot := FusedQuot(bits.quotient.value, q))
  {
    hide FusedQuot;
  }

  lemma PassAccepted(bits: seq<FuseBits>, rd: seq<FuseData>, vs: seq<int>, width: nat, stepSize: int, step: int, i: nat)
    requires width > 0 && step > 0 && i < |bits| == |rd| == |vs|
    ensures Accepted(bits, rd, vs, width, stepSize, step, i)
            <==> Readable(bits[i], rd[i], width, stepSize, step) && rd[i].minUV <= RunningMax(vs, i) <= rd[i].maxUV
    ensures Readable(bits[i], rd[i], width, stepSize, step) ==> bits[i].quotient.Some?
  {
    hide RunningMax, ReadFuseUV;
  }

  /** One pass of the loop: fuse corner i on top of corner `prev`. */
  method OneFuseCorner(fuses: array<FuseCorner>, fdata: array<FuseData>, i: nat, prev: nat, bits: FuseBits,
                       q: QuotData, width: nat, stepSize: int, step: int)
    returns (ok: bool)
    requires width > 0 && step > 0 && prev <= i < fuses.Length == fdata.Length
    modifies fuses, fdata
    ensures var fd := Rounded(old(fdata[i]), step);
            var stored := StoredUV(bits, fd, width, stepSize, step);
            var uV := if prev == i then stored else Max(old(fuses[prev].uV), stored);
            && (ok <==> Readable(bits, fd, width, stepSize, step) && fd.minUV <= uV <= fd.maxUV)
            && (ok ==> fdata[..] == old(fdata[..])[i := fd])
            && (ok ==> fuses[..] == old(fuses[..])[i :=
                  old(fuses[i]).(minUV := fd.minUV, maxUV := fd.maxUV, uV := uV, quot := FusedQuot(bits.quotient.value, q))])
  {
    hide CellQuot, AdjustQuot, ToInt, StoredUV, Rounded, ReadFuseUV;
    ghost var was := fuses[..];
    var populated := PopulateFuseCommon(fuses, fdata, i, bits, q, width, stepSize, step);
    if !populated { return false; }
    assert forall k :: 0 <= k < fuses.Length && k != i ==> fuses[k] == fuses[..][k] == was[k];
    assert fuses[..][i] == fuses[i];
    fuses[i] := fuses[i].(quot := ToInt(fuses[i].quot + AdjustQuot(q.factor, q.cloopAdjust)));
    if fuses[i].uV < fuses[prev].uV {
      fuses[i] := fuses[i].(uV := fuses[prev].uV);
    }
    ok := fuses[i].minUV <= fuses[i].uV <= fuses[i].maxUV;
  }

  /** A fuse table in the state the corner computation relies on. */
  ghost predicate GoodFuseTable(fuses: seq<FuseCorner>, step: int) {
    && step > 0
    && (forall i :: 0 <= i < |fuses| ==>
          0 <= fuses[i].minUV <= fuses[i].uV <= fuses[i].maxUV && Aligned(fuses[i].uV, step))
    && (forall i, j :: 0 <= i <= j < |fuses| ==> fuses[i].uV <= fuses[j].uV)
  }

  /** Ordered windows and non-decreasing ceilings: then only an unreadable fuse can make the table fail. */
  lemma OrderedCeilingsFit(bits: seq<FuseBits>, rd: seq<FuseData>, width: nat, stepSize: int, step: int)
    requires width > 0 && step > 0 && |bits| == |rd|
    requires forall i :: 0 <= i < |rd| ==> bits[i].voltage.Some? && rd[i].minUV <= rd[i].maxUV
    requires forall i, j :: 0 <= i <= j < |rd| ==> rd[i].maxUV <= rd[j].maxUV
    ensures forall i :: 0 <= i < |rd| ==> Fits(StoredUVs(bits, rd, width, stepSize, step), rd, i)
  {
    var vs := StoredUVs(bits, rd, width, stepSize, step);
    forall i | 0 <= i < |rd| ensures Fits(vs, rd, i) {
      var j := RunningMaxIsMax(vs, i);
      assert vs[j] <= rd[j].maxUV <= rd[i].maxUV;
      assert rd[i].minUV <= vs[i];
    }
  }

  /** An accepted fuse table has ordered windows and step-aligned, non-decreasing voltages. */
  lemma AcceptedTableIsGood(fuses: seq<FuseCorner>, bits: seq<FuseBits>, fds: seq<FuseData>,
                            width: nat, stepSize: int, step: int)
    requires width > 0 && step > 0 && |bits| == |fds| == |fuses|
    requires forall i :: 0 <= i < |fds| ==> 0 <= fds[i].minUV && bits[i].voltage.Some?
    requires var rd := RoundedAll(fds, step);
             var vs := StoredUVs(bits, rd, width, stepSize, step);
             forall i :: 0 <= i < |fds| ==>
               && Fits(vs, rd, i)
               && fuses[i].minUV == rd[i].minUV && fuses[i].maxUV == rd[i].maxUV
               && fuses[i].uV == RunningMax(vs, i)
    ensures GoodFuseTable(fuses, step)
  {
    var rd := RoundedAll(fds, step);
    var vs := StoredUVs(bits, rd, width, stepSize, step);
    forall i | 0 <= i < |vs| ensures Aligned(vs[i], step) && 0 <= rd[i].minUV {
      StoredAligned(bits[i], fds[i], width, stepSize, step);
    }
    forall i | 0 <= i < |fuses| ensures Aligned(fuses[i].uV, step) && 0 <= fuses[i].minUV {
      var j := RunningMaxIsMax(vs, i);
    }
    forall i, j | 0 <= i <= j < |fuses| ensures fuses[i].uV <= fuses[j].uV {
      RunningMaxMonotone(vs, i, j);
    }
  }

  lemma StoredAligned(bits: FuseBits, fd: FuseData, width: nat, stepSize: int, step: int)
    requires width > 0 && step > 0 && bits.voltage.Some?
    ensures Aligned(StoredUV(bits, Rounded(fd, step), width, stepSize, step), step)
    ensures fd.minUV <= Rounded(fd, step).minUV
  {
    RoundUpNeverDown(fd.minUV, step);
    RoundUpNeverDown(fd.maxUV, step);
    ReadFuseRounding(bits.voltage.value, width, stepSize, fd.refUV, fd.oloopAdjust, step);
  }
}

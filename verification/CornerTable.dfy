/**
 * The corner table of one CPRh thread (cpr3_corner_init()): level walk, quotient and voltage loop,
 * and what the finished table guarantees.
 */
module CornerTable {
  import opened Arith
  import opened Wrappers
  import opened FuseVoltage

  /** The parts of the controller descriptor that shape the corner table. */
  datatype Desc = Desc(
    apmThreshold: int, apmCrossover: int, apmHysteresis: int, memAccThreshold: int,
    baseUV: u32, reduceToFuse: bool, reduceToCorner: bool)

  /**
   * Inputs of one corner, and its quotient adjustment once the voltage loop has found it (None before that, and
   * where its scaling cannot be had).
   */
  datatype CornerData = CornerData(fuse: nat, freq: nat, oloopVadj: int, cloopVadj: int, quotAdjust: Option<int>)

  /**
   * The closed-loop inputs of one fuse corner: the fused quotient offset (None if its cell cannot be read) with
   * its scale and correction, the highest scaling, and the factor of its ring oscillator.
   */
  datatype QuotScale = QuotScale(offset: Option<u32>, offsetScale: int, offsetAdjust: int, maxScale: int, factor: int)

  datatype Corner = Corner(
    minUV: int, maxUV: int, uV: int, lastUV: int, quotAdjust: int, freq: nat, openLoop: bool, fuse: nat)

  /** A corner fresh from the zeroing allocator. */
  const Blank := Corner(0, 0, 0, 0, 0, 0, false, 0)

  // ------------------------------------------------------- quotient adjustments

  /** do_div() of an `int` on a 64-bit machine: unsigned, by a 32-bit divisor (on arm64 zero gives zero). */
  function DoDiv(n: int, base: int): int {
    if base % U32_SPAN == 0 then 0 else ToInt(n % U64_SPAN / (base % U32_SPAN))
  }

  /** Whole megahertz between two frequencies, in u64. */
  function Megahertz(high: nat, low: nat): nat {
    (high - low) % U64_SPAN / 1000000
  }

  /** What the scaling of fuse corner f is taken from: the quotients, if one oscillator serves both, else the fused offset. */
  function QuotDiff(f: nat, fuses: seq<FuseCorner>, qs: seq<QuotScale>): Option<u32>
    requires 0 < f < |fuses| == |qs|
  {
    if fuses[f - 1].ro == fuses[f].ro then Some(ToU32(fuses[f].quot - fuses[f - 1].quot))
    else if qs[f].offset.None? then None
    else Some(ToU32(qs[f].offset.value * qs[f].offsetScale + qs[f].offsetAdjust))
  }

  /** cpr_calculate_scaling(); a negative scaling is taken for an error. */
  function Scaling(f: nat, fuses: seq<FuseCorner>, qs: seq<QuotScale>): Option<int>
    requires 0 < f < |fuses| == |qs|
  {
    match QuotDiff(f, fuses, qs)
    case None => None
    case Some(diff) =>
      var s := Min(DoDiv(ToInt(1000 * diff), Megahertz(fuses[f].maxFreq, fuses[f - 1].maxFreq)), qs[f].maxScale);
      if s < 0 then None else Some(s)
  }

  /** Adjustment of a corner on its own: scaled distance from the fuse corner's top, less its closed-loop adjustment. */
  function OwnAdjust(cd: CornerData, fuses: seq<FuseCorner>, qs: seq<QuotScale>): Option<int>
    requires cd.fuse < |fuses| == |qs|
  {
    if cd.fuse == 0 then Some(0) else
      match Scaling(cd.fuse, fuses, qs)
      case None => None
      case Some(s) =>
        Some(ToInt(DoDiv(ToInt(s * Megahertz(fuses[cd.fuse].maxFreq, cd.freq)), 1000)
                   - AdjustQuot(qs[cd.fuse].factor, cd.cloopVadj)))
  }

  /** Would the target quotient fall below that of the corner before? */
  predicate Falls(adj: int, quot: int, prevAdj: int, prevQuot: int) {
    ToInt(quot - adj) < ToInt(prevQuot - prevAdj)
  }

  /** The forced increase of a quotient. */
  function Raised(adj: int, quot: int, prevAdj: int, prevQuot: int): int {
    if Falls(adj, quot, prevAdj, prevQuot) then ToInt(prevQuot - quot) else adj
  }

  predicate InFuses(cdata: seq<CornerData>, fuses: seq<FuseCorner>, qs: seq<QuotScale>) {
    |fuses| == |qs| && forall i :: 0 <= i < |cdata| ==> cdata[i].fuse < |fuses|
  }

  /** Adjustment the loop gives corner i, on top of the corner before it. */
  function AdjustAt(cdata: seq<CornerData>, i: nat, fuses: seq<FuseCorner>, qs: seq<QuotScale>): Option<int>
    requires i < |cdata| && InFuses(cdata, fuses, qs)
  {
    var own := OwnAdjust(cdata[i], fuses, qs);
    if own.None? || i == 0 || cdata[i].fuse == 0 then own else
      match AdjustAt(cdata, i - 1, fuses, qs)
      case None => None
      case Some(prevAdj) => Some(Raised(own.value, fuses[cdata[i].fuse].quot, prevAdj, fuses[cdata[i - 1].fuse].quot))
  }

  /** The corners with the adjustments the loop finds. */
  function WithQuots(cdata: seq<CornerData>, fuses: seq<FuseCorner>, qs: seq<QuotScale>): (cds: seq<CornerData>)
    requires InFuses(cdata, fuses, qs)
    ensures |cds| == |cdata|
    ensures forall i :: 0 <= i < |cdata| ==> cds[i] == cdata[i].(quotAdjust := AdjustAt(cdata, i, fuses, qs))
  {
    seq(|cdata|, i requires 0 <= i < |cdata| => cdata[i].(quotAdjust := AdjustAt(cdata, i, fuses, qs)))
  }

  // --------------------------------------------------------------- one corner

  /** cpr3_restrict_corner() */
  function Restrict(c: Corner, threshold: int, hysteresis: int, step: int): Corner {
    if c.minUV < threshold <= c.maxUV then
      if c.uV >= threshold then
        var floor := Max(c.minUV, threshold - hysteresis);
        c.(minUV := floor, uV := Max(c.uV, floor))
      else
        c.(maxUV := threshold - step)
    else c
  }

  function RestrictAll(c: Corner, desc: Desc, step: int): Corner {
    var a := if desc.apmThreshold != 0 then Restrict(c, desc.apmThreshold, desc.apmHysteresis, step) else c;
    if desc.memAccThreshold != 0 then Restrict(a, desc.memAccThreshold, 0, step) else a
  }

  /** Fuse voltage, or the interpolated one for every fuse corner but the first, plus the corner's own adjustment. */
  function TargetUV(cd: CornerData, fuses: seq<FuseCorner>, fds: seq<FuseData>, step: int): int
    requires step > 0 && cd.fuse < |fuses| == |fds|
  {
    (if cd.fuse == 0 then fuses[0].uV
     else Interpolate(cd.freq, fuses[cd.fuse], fuses[cd.fuse - 1], step, fds[cd.fuse].maxVoltScale)) + cd.oloopVadj
  }

  function ClampedUV(cd: CornerData, fuses: seq<FuseCorner>, fds: seq<FuseData>, step: int): int
    requires step > 0 && cd.fuse < |fuses| == |fds|
  {
    Clamp(TargetUV(cd, fuses, fds, step), fuses[cd.fuse].minUV, fuses[cd.fuse].maxUV)
  }

  /** Ceiling and floor around voltage `uV`, before the thresholds cut the window. */
  function Window(uV: int, fuse: FuseCorner, fd: FuseData, desc: Desc): (int, int) {
    var ceiling :=
      if desc.reduceToCorner && uV < fuse.maxUV then uV
      else if desc.reduceToFuse && fuse.uV < fuse.maxUV then Max(fuse.minUV, fuse.uV)
      else fuse.maxUV;
    (Max(ceiling - fd.rangeUV, fuse.minUV), ceiling)
  }

  /** The finished corner, given the voltage `below` that it must not fall under. */
  function Finished(cd: CornerData, below: int, fuses: seq<FuseCorner>, fds: seq<FuseData>,
                    desc: Desc, step: int): Corner
    requires step > 0 && cd.fuse < |fuses| == |fds|
  {
    var uV := Max(ClampedUV(cd, fuses, fds, step), below);
    var (floor, ceiling) := Window(uV, fuses[cd.fuse], fds[cd.fuse], desc);
    RestrictAll(Corner(floor, ceiling, uV, uV, Adjust(cd).GetOr(0), cd.freq, false, cd.fuse), desc, step)
  }

  predicate InTable(cdata: seq<CornerData>, fuses: seq<FuseCorner>, fds: seq<FuseData>) {
    |fuses| == |fds| && forall i :: 0 <= i < |cdata| ==> cdata[i].fuse < |fuses|
  }

  /** The first n corners, each built on top of the one before it. */
  function Table(cdata: seq<CornerData>, n: nat, fuses: seq<FuseCorner>, fds: seq<FuseData>,
                 desc: Desc, step: int): (t: seq<Corner>)
    requires step > 0 && InTable(cdata, fuses, fds) && n <= |cdata|
    ensures |t| == n
  {
    if n == 0 then [] else
      var t := Table(cdata, n - 1, fuses, fds, desc, step);
      var below := if n == 1 then ClampedUV(cdata[0], fuses, fds, step) else t[n - 2].uV;
      t + [Finished(cdata[n - 1], below, fuses, fds, desc, step)]
  }

  /** Quotient adjustment: the first fuse corner has none. */
  function Adjust(cd: CornerData): Option<int> {
    if cd.fuse == 0 then Some(0) else cd.quotAdjust
  }

  /** Target quotient of a corner, or None where the driver gives up on it. */
  function Quotient(cd: CornerData, fuses: seq<FuseCorner>): Option<int>
    requires cd.fuse < |fuses|
  {
    match Adjust(cd)
    case None => None
    case Some(adj) => if fuses[cd.fuse].quot < adj then None else Some(fuses[cd.fuse].quot - adj)
  }

  /** The driver gives up on a corner without an adjustment, and on one whose adjustment would make its target negative. */
  lemma QuotientIs(cd: CornerData, fuses: seq<FuseCorner>, adj: int)
    requires cd.fuse < |fuses|
    ensures Adjust(cd) == None ==> Quotient(cd, fuses) == None
    ensures Adjust(cd) == Some(adj) ==>
              var target := fuses[cd.fuse].quot - adj;
              if target < 0 then Quotient(cd, fuses) == None else Quotient(cd, fuses) == Some(target)
  {
  }

  /** No corner of the first n makes the driver give up. */
  predicate HasQuotients(cdata: seq<CornerData>, n: nat, fuses: seq<FuseCorner>)
    requires n <= |cdata| && forall i :: 0 <= i < n ==> cdata[i].fuse < |fuses|
  {
    forall i :: 0 <= i < n ==> Quotient(cdata[i], fuses).Some?
  }

  function MinQuotient(cdata: seq<CornerData>, n: nat, fuses: seq<FuseCorner>): u32
    requires n <= |cdata| && forall i :: 0 <= i < n ==> cdata[i].fuse < |fuses|
  {
    if n == 0 then 0xFFFF_FFFF else
      Min(MinQuotient(cdata, n - 1, fuses), ToU32(Quotient(cdata[n - 1], fuses).GetOr(0)))
  }

  /** cpr3_restrict_corner() on corner i of the array. */
  method RestrictCorner(corners: array<Corner>, i: nat, threshold: int, hysteresis: int, step: int)
    requires i < corners.Length
    modifies corners
    ensures corners[..] == old(corners[..])[i := Restrict(old(corners[i]), threshold, hysteresis, step)]
  {
    if corners[i].minUV < threshold <= corners[i].maxUV {
      if corners[i].uV >= threshold {
        corners[i] := corners[i].(minUV := Max(corners[i].minUV, threshold - hysteresis));
        if corners[i].minUV > corners[i].uV {
          corners[i] := corners[i].(uV := corners[i].minUV);
        }
      } else {
        corners[i] := corners[i].(maxUV := threshold);
        corners[i] := corners[i].(maxUV := corners[i].maxUV - step);
      }
    }
  }

  /** First half of a pass of the voltage loop: voltage and full fuse window of corner i. */
  method SetVoltage(corners: array<Corner>, i: nat, prev: nat, cd: CornerData,
                    fuses: seq<FuseCorner>, fds: seq<FuseData>, step: int)
    requires step > 0 && prev <= i < corners.Length && cd.fuse < |fuses| == |fds|
    modifies corners
    ensures var below := if prev == i then ClampedUV(cd, fuses, fds, step) else old(corners[prev]).uV;
            var uV := Max(ClampedUV(cd, fuses, fds, step), below);
            corners[..] == old(corners[..])[i := old(corners[i]).(
              fuse := cd.fuse, freq := cd.freq, uV := uV, lastUV := uV,
              minUV := fuses[cd.fuse].minUV, maxUV := fuses[cd.fuse].maxUV)]
  {
    hide Interpolate;
    var fuse := fuses[cd.fuse];
    corners[i] := corners[i].(fuse := cd.fuse, freq := cd.freq, uV := fuse.uV);
    if cd.fuse != 0 {
      corners[i] := corners[i].(uV := Interpolate(cd.freq, fuse, fuses[cd.fuse - 1], step, fds[cd.fuse].maxVoltScale));
    }
    corners[i] := corners[i].(uV := corners[i].uV + cd.oloopVadj);
    corners[i] := corners[i].(maxUV := fuse.maxUV, minUV := fuse.minUV);
    corners[i] := corners[i].(uV := Clamp(corners[i].uV, corners[i].minUV, corners[i].maxUV));
    if corners[i].uV < corners[prev].uV {
      corners[i] := corners[i].(uV := corners[prev].uV);
    }
    corners[i] := corners[i].(lastUV := corners[i].uV);
  }

  /** Second half: ceiling, floor, and the cuts at the two thresholds. */
  method CutWindow(corners: array<Corner>, i: nat, fuse: FuseCorner, fd: FuseData, desc: Desc, step: int)
    requires i < corners.Length && corners[i].minUV == fuse.minUV && corners[i].maxUV == fuse.maxUV
    modifies corners
    ensures var c := old(corners[i]);
            var (floor, ceiling) := Window(c.uV, fuse, fd, desc);
            corners[..] == old(corners[..])[i := RestrictAll(c.(minUV := floor, maxUV := ceiling), desc, step)]
  {
    hide Restrict;
    if desc.reduceToCorner && corners[i].uV < corners[i].maxUV {
      corners[i] := corners[i].(maxUV := corners[i].uV);
    } else if desc.reduceToFuse && fuse.uV < corners[i].maxUV {
      corners[i] := corners[i].(maxUV := Max(corners[i].minUV, fuse.uV));
    }
    corners[i] := corners[i].(minUV := Max(corners[i].maxUV - fd.rangeUV, corners[i].minUV));
    if desc.apmThreshold != 0 {
      RestrictCorner(corners, i, desc.apmThreshold, desc.apmHysteresis, step);
    }
    if desc.memAccThreshold != 0 {
      RestrictCorner(corners, i, desc.memAccThreshold, 0, step);
    }
  }

  /** A whole pass: corner i is finished on top of corner `prev`. */
  method FinishCorner(corners: array<Corner>, i: nat, prev: nat, cd: CornerData,
                      fuses: seq<FuseCorner>, fds: seq<FuseData>, desc: Desc, step: int)
    requires step > 0 && prev <= i < corners.Length && cd.fuse < |fuses| == |fds|
    requires !corners[i].openLoop && corners[i].quotAdjust == Adjust(cd).GetOr(0)
    modifies corners
    ensures var below := if prev == i then ClampedUV(cd, fuses, fds, step) else old(corners[prev]).uV;
            corners[..] == old(corners[..])[i := Finished(cd, below, fuses, fds, desc, step)]
  {
    hide ClampedUV, Window, RestrictAll;
    SetVoltage(corners, i, prev, cd, fuses, fds, step);
    assert corners[i] == corners[..][i];
    CutWindow(corners, i, fuses[cd.fuse], fds[cd.fuse], desc, step);
  }

  /** The quotient part of a pass for a corner past fuse corner 0: it gives up where the scaling cannot be had. */
  method SetQuotient(corners: array<Corner>, i: nat, prev: nat, cd: CornerData,
                     fuses: seq<FuseCorner>, qs: seq<QuotScale>)
    returns (ok: bool)
    requires prev <= i < corners.Length && 0 < cd.fuse < |fuses| == |qs|
    requires prev < i ==> corners[prev].fuse < |fuses|
    modifies corners
    ensures ok == OwnAdjust(cd, fuses, qs).Some?
    ensures ok ==>
      var own, p := OwnAdjust(cd, fuses, qs).value, old(corners[prev]);
      corners[..] == old(corners[..])[i := old(corners[i]).(
        fuse := cd.fuse,
        quotAdjust := if prev == i then own else Raised(own, fuses[cd.fuse].quot, p.quotAdjust, fuses[p.fuse].quot))]
    ensures !ok ==> corners[..] == old(corners[..])[i := old(corners[i]).(fuse := cd.fuse)]
  {
    hide Scaling, AdjustQuot, DoDiv, Megahertz, ToInt;
    var quot := fuses[cd.fuse].quot;
    corners[i] := corners[i].(fuse := cd.fuse);
    var scaling := Scaling(cd.fuse, fuses, qs);
    if scaling.None? { return false; }
    var mhz := Megahertz(fuses[cd.fuse].maxFreq, cd.freq);
    corners[i] := corners[i].(quotAdjust := ToInt(scaling.value * mhz));
    corners[i] := corners[i].(quotAdjust := DoDiv(corners[i].quotAdjust, 1000));
    corners[i] := corners[i].(quotAdjust := ToInt(corners[i].quotAdjust - AdjustQuot(qs[cd.fuse].factor, cd.cloopVadj)));
    var prevQuot := ToInt(fuses[corners[prev].fuse].quot - corners[prev].quotAdjust);
    if ToInt(quot - corners[i].quotAdjust) < prevQuot {
      corners[i] := corners[i].(quotAdjust := ToInt(fuses[corners[prev].fuse].quot - quot));
    }
    ok := true;
  }

  /** Adjustment of corner i from the one the loop left before it. */
  lemma AdjustStep(cdata: seq<CornerData>, i: nat, fuses: seq<FuseCorner>, qs: seq<QuotScale>)
    requires i < |cdata| && InFuses(cdata, fuses, qs)
    requires i > 0 ==> Adjust(WithQuots(cdata, fuses, qs)[i - 1]).Some?
    ensures cdata[i].fuse == 0 ==> AdjustAt(cdata, i, fuses, qs) == Some(0)
    ensures AdjustAt(cdata, i, fuses, qs).Some? == OwnAdjust(cdata[i], fuses, qs).Some?
    ensures i == 0 ==> AdjustAt(cdata, i, fuses, qs) == OwnAdjust(cdata[i], fuses, qs)
    ensures i > 0 && cdata[i].fuse > 0 && OwnAdjust(cdata[i], fuses, qs).Some? ==>
              AdjustAt(cdata, i, fuses, qs)
              == Some(Raised(OwnAdjust(cdata[i], fuses, qs).value, fuses[cdata[i].fuse].quot,
                             Adjust(WithQuots(cdata, fuses, qs)[i - 1]).value, fuses[cdata[i - 1].fuse].quot))
  {
    hide Scaling, Raised;
  }

  /** A corner no pass has reached: closed-loop and without an adjustment. */
  predicate Zeroed(c: Corner) { !c.openLoop && c.quotAdjust == 0 }

  /** The corner before, as the quotient part of the next pass finds it. */
  predicate QuotientSet(c: Corner, cd: CornerData) {
    c.fuse == cd.fuse && Adjust(cd) == Some(c.quotAdjust)
  }

  /** A whole pass of the loop: quotient and voltages of corner i, on top of the corner before it. */
  method CornerPass(corners: array<Corner>, i: nat, prev: nat, cdata: seq<CornerData>, fuses: seq<FuseCorner>,
                    fds: seq<FuseData>, qs: seq<QuotScale>, desc: Desc, step: int)
    returns (quotient: Option<u32>)
    requires step > 0 && InTable(cdata, fuses, fds) && InFuses(cdata, fuses, qs) && i < |cdata| && i < corners.Length
    requires prev == (if i == 0 then 0 else i - 1) && Zeroed(corners[i])
    requires i > 0 ==> QuotientSet(corners[prev], WithQuots(cdata, fuses, qs)[i - 1])
    modifies corners
    ensures var cds := WithQuots(cdata, fuses, qs);
            var below := if prev == i then ClampedUV(cds[i], fuses, fds, step) else old(corners[prev]).uV;
            && quotient.Some? == Quotient(cds[i], fuses).Some?
            && (quotient.Some? ==>
                  && quotient.value == ToU32(Quotient(cds[i], fuses).value)
                  && corners[..] == old(corners[..])[i := Finished(cds[i], below, fuses, fds, desc, step)])
    ensures corners[..] == old(corners[..])[i := corners[i]]
  {
    hide ClampedUV, Finished, OwnAdjust, AdjustAt, Raised;
    ghost var cds := WithQuots(cdata, fuses, qs);
    ghost var was := corners[..];
    var cd := cdata[i];
    AdjustStep(cdata, i, fuses, qs);
    if cd.fuse != 0 {
      var ok := SetQuotient(corners, i, prev, cd, fuses, qs);
      assert forall k :: 0 <= k < corners.Length && k != i ==> corners[k] == corners[..][k] == was[k];
      if !ok { return None; }
      assert corners[i] == corners[..][i];
    }
    var adj := corners[i].quotAdjust;
    assert cds[i] == cd.(quotAdjust := Some(adj));
    var fuse := fuses[cd.fuse];
    if fuse.quot < adj { return None; }
    ghost var here := corners[..];
    FinishCorner(corners, i, prev, cd.(quotAdjust := Some(adj)), fuses, fds, desc, step);
    assert forall k :: 0 <= k < corners.Length && k != i ==> corners[k] == corners[..][k] == here[k];
    return Some(ToU32(fuse.quot - adj));
  }

  /**
   * The loop of cpr3_corner_init() over the corners: fills the array in place, quotients and voltages, or gives
   * up on a scaling it cannot have or on an adjustment over the fused quotient.
   */
  method CornerVoltages(corners: array<Corner>, n: nat, cdata: seq<CornerData>, fuses: seq<FuseCorner>,
                        fds: seq<FuseData>, qs: seq<QuotScale>, desc: Desc, step: int)
    returns (minQuotient: Option<u32>)
    requires step > 0 && InTable(cdata, fuses, fds) && InFuses(cdata, fuses, qs) && n <= |cdata| && n <= corners.Length
    requires forall i :: 0 <= i < n ==> Zeroed(corners[i])
    modifies corners
    ensures var cds := WithQuots(cdata, fuses, qs);
            && (minQuotient.Some? <==> HasQuotients(cds, n, fuses))
            && (minQuotient.Some? ==>
                  && minQuotient.value == MinQuotient(cds, n, fuses)
                  && corners[..][..n] == Table(cds, n, fuses, fds, desc, step))
    ensures corners[..][n..] == old(corners[..])[n..]
  {
    hide *;
    var prev, minq: u32 := 0, 0xFFFF_FFFF;
    ghost var cds := WithQuots(cdata, fuses, qs);
    ghost var was := corners[..];
    SameInputs(cdata, fuses, fds, qs);
    NothingYet(cds, fuses, fds, desc, step);
    assert forall i :: 0 <= i < n ==> Zeroed(was[i]);
    for i := 0 to n
      invariant prev == if i == 0 then 0 else i - 1
      invariant HasQuotients(cds, i, fuses)
      invariant minq == MinQuotient(cds, i, fuses)
      invariant corners[..] == Table(cds, i, fuses, fds, desc, step) + was[i..]
    {
      QuotientsUpTo(cds, i, n, fuses);
      var quotient := ExtendTable(corners, i, n, prev, was, cdata, fuses, fds, qs, desc, step);
      if quotient.None? { return None; }
      minq := if quotient.value < minq then quotient.value else minq;
      prev := i;
    }
    Boundary(corners[..], Table(cds, n, fuses, fds, desc, step), was);
    return Some(minq);
  }

  /** A pass over an array whose first i corners are finished: then i + 1 are, or corner i has no quotient. */
  method ExtendTable(corners: array<Corner>, i: nat, ghost n: nat, prev: nat, ghost was: seq<Corner>, cdata: seq<CornerData>,
                     fuses: seq<FuseCorner>, fds: seq<FuseData>, qs: seq<QuotScale>, desc: Desc, step: int)
    returns (quotient: Option<u32>)
    requires step > 0 && InTable(cdata, fuses, fds) && InFuses(cdata, fuses, qs) && i < n <= |cdata|
    requires n <= corners.Length == |was| && prev == (if i == 0 then 0 else i - 1)
    requires Zeroed(was[i])
    requires var cds := WithQuots(cdata, fuses, qs);
             && InTable(cds, fuses, fds) && HasQuotients(cds, i, fuses)
             && corners[..] == Table(cds, i, fuses, fds, desc, step) + was[i..]
    modifies corners
    ensures var cds := WithQuots(cdata, fuses, qs);
            && quotient.Some? == Quotient(cds[i], fuses).Some?
            && (quotient.Some? ==>
                  && corners[..] == Table(cds, i + 1, fuses, fds, desc, step) + was[i + 1..]
                  && var m := MinQuotient(cds, i, fuses);
                     MinQuotient(cds, i + 1, fuses) == if quotient.value < m then quotient.value else m)
    ensures corners[..][n..] == was[n..]
  {
    ghost var cds := WithQuots(cdata, fuses, qs);
    ghost var t := Table(cds, i, fuses, fds, desc, step);
    hide *;
    Boundary(corners[..], t, was);
    TableFields(cds, i, fuses, fds, desc, step);
    quotient := CornerPass(corners, i, prev, cdata, fuses, fds, qs, desc, step);
    OneReplaced(corners[..], t, was, n);
    if quotient.Some? { PassStep(cds, i, fuses, fds, desc, step); }
  }

  /** The first corners are finished and the others as they were. */
  lemma Boundary(now: seq<Corner>, t: seq<Corner>, was: seq<Corner>)
    requires |t| <= |was| && now == t + was[|t|..]
    ensures |now| == |was| && now[..|t|] == t
    ensures |t| < |was| ==> now[|t|] == was[|t|]
    ensures |t| > 0 ==> now[|t| - 1] == t[|t| - 1]
    ensures now[|t|..] == was[|t|..]
  {
  }

  lemma OneReplaced(now: seq<Corner>, t: seq<Corner>, was: seq<Corner>, n: nat)
    requires |t| < n <= |was| == |now| && now == (t + was[|t|..])[|t| := now[|t|]]
    ensures now == t + [now[|t|]] + was[|t| + 1..]
    ensures now[n..] == was[n..]
  {
  }

  lemma QuotientsUpTo(cds: seq<CornerData>, i: nat, n: nat, fuses: seq<FuseCorner>)
    requires i < n <= |cds| && forall k :: 0 <= k < |cds| ==> cds[k].fuse < |fuses|
    ensures HasQuotients(cds, i + 1, fuses) <==> HasQuotients(cds, i, fuses) && Quotient(cds[i], fuses).Some?
    ensures HasQuotients(cds, n, fuses) ==> Quotient(cds[i], fuses).Some?
  {
    hide Quotient;
  }

  lemma SameInputs(cdata: seq<CornerData>, fuses: seq<FuseCorner>, fds: seq<FuseData>, qs: seq<QuotScale>)
    requires InTable(cdata, fuses, fds) && InFuses(cdata, fuses, qs)
    ensures var cds := WithQuots(cdata, fuses, qs);
            InTable(cds, fuses, fds) && forall i :: 0 <= i < |cds| ==> cds[i].fuse < |fuses|
  {
    hide AdjustAt;
  }

  lemma NothingYet(cds: seq<CornerData>, fuses: seq<FuseCorner>, fds: seq<FuseData>, desc: Desc, step: int)
    requires step > 0 && InTable(cds, fuses, fds)
    ensures HasQuotients(cds, 0, fuses) && MinQuotient(cds, 0, fuses) == 0xFFFF_FFFF && Table(cds, 0, fuses, fds, desc, step) == []
  {
  }

  /** The table and the minimum, one corner further. */
  lemma PassStep(cds: seq<CornerData>, i: nat, fuses: seq<FuseCorner>, fds: seq<FuseData>, desc: Desc, step: int)
    requires step > 0 && InTable(cds, fuses, fds) && i < |cds| && Quotient(cds[i], fuses).Some?
    ensures var t := Table(cds, i, fuses, fds, desc, step);
            var below := if i == 0 then ClampedUV(cds[i], fuses, fds, step) else t[i - 1].uV;
            Table(cds, i + 1, fuses, fds, desc, step) == t + [Finished(cds[i], below, fuses, fds, desc, step)]
    ensures var m, q := MinQuotient(cds, i, fuses), ToU32(Quotient(cds[i], fuses).value);
            MinQuotient(cds, i + 1, fuses) == if q < m then q else m
  {
    hide Quotient, ToU32, Finished, ClampedUV;
  }

  /** A finished corner keeps its fuse corner and adjustment. */
  lemma TableFields(cds: seq<CornerData>, n: nat, fuses: seq<FuseCorner>, fds: seq<FuseData>, desc: Desc, step: int)
    requires step > 0 && InTable(cds, fuses, fds) && n <= |cds| && HasQuotients(cds, n, fuses)
    ensures n > 0 ==> QuotientSet(Table(cds, n, fuses, fds, desc, step)[n - 1], cds[n - 1])
  {
    hide ClampedUV, Window;
  }

  // ---------------------------------------------------------------- level walk

  /** What one performance level of the controller, and the CPU OPP that requires it, say. */
  datatype Level = Level(present: bool, fuseLevel: nat, globalFuseLevel: nat, freq: nat, oloopVadj: int, cloopVadj: int)

  /** The thread's own fuse level, else the global one; zero when neither is given. */
  function FuseLevel(l: Level): nat {
    if l.fuseLevel == 0 then l.globalFuseLevel else l.fuseLevel
  }

  function DataOf(l: Level): CornerData
    requires FuseLevel(l) > 0
  {
    CornerData(FuseLevel(l) - 1, l.freq, l.oloopVadj, l.cloopVadj, None)
  }

  /** The corner data of a level: the fuse level counts from 1, and the global one only stands in for a missing one. */
  predicate Records(cd: CornerData, l: Level) {
    && cd.freq == l.freq && cd.oloopVadj == l.oloopVadj && cd.cloopVadj == l.cloopVadj && cd.quotAdjust == None
    && (l.fuseLevel > 0 ==> cd.fuse + 1 == l.fuseLevel)
    && (l.fuseLevel == 0 ==> cd.fuse + 1 == l.globalFuseLevel)
  }

  /** Number of leading levels that some CPU OPP requires. */
  function Used(levels: seq<Level>): (n: nat)
    ensures n <= |levels|
    ensures forall i :: 0 <= i < n ==> levels[i].freq != 0
    ensures n < |levels| ==> levels[n].freq == 0
  {
    if |levels| == 0 || levels[0].freq == 0 then 0 else 1 + Used(levels[1..])
  }

  predicate Described(l: Level) { l.present && FuseLevel(l) > 0 }

  /** The frequency a level is compared with: the previous one, or for level 1 whatever precedes the array. */
  function Before(levels: seq<Level>, i: nat, stale: nat): nat
    requires i < |levels|
  {
    if i == 0 then stale else levels[i - 1].freq
  }

  predicate LevelAccepted(levels: seq<Level>, i: nat, stale: nat)
    requires i < |levels|
  {
    Described(levels[i]) && Before(levels, i, stale) <= levels[i].freq
  }

  /**
   * The first n levels are accepted exactly when each of them is there, has a fuse level of its own or the global one,
   * and none has a lower frequency than an earlier one or than the word in front.
   */
  lemma {:induction false} LevelsAcceptedIff(levels: seq<Level>, n: nat, stale: nat)
    requires n <= |levels|
    ensures (forall i :: 0 <= i < n ==> LevelAccepted(levels, i, stale)) <==>
      && (forall i :: 0 <= i < n ==>
            levels[i].present && (levels[i].fuseLevel != 0 || levels[i].globalFuseLevel != 0) && stale <= levels[i].freq)
      && forall i, j :: 0 <= i < j < n ==> levels[i].freq <= levels[j].freq
  {
    if n > 0 {
      LevelsAcceptedIff(levels, n - 1, stale);
      var i := n - 1;
      assert LevelAccepted(levels, i, stale) <==>
        && levels[i].present && (levels[i].fuseLevel != 0 || levels[i].globalFuseLevel != 0)
        && (if i == 0 then stale else levels[i - 1].freq) <= levels[i].freq;
      hide LevelAccepted;
      if n > 1 { assert 0 <= i - 1 < i; }
    }
  }

  /** Highest frequency among the first n corners of fuse corner f, and `init`. */
  function TopFreq(cdata: seq<CornerData>, n: nat, f: nat, init: nat): nat
    requires n <= |cdata|
  {
    if n == 0 then init else
      var t := TopFreq(cdata, n - 1, f, init);
      if cdata[n - 1].fuse == f && cdata[n - 1].freq > t then cdata[n - 1].freq else t
  }

  /** A fuse corner's highest frequency follows the table, one corner further. */
  method RaiseTopFreq(fuses: array<FuseCorner>, f: nat, freq: nat, ghost cdata: seq<CornerData>, ghost c: CornerData,
                      ghost start: seq<FuseCorner>)
    requires f < fuses.Length == |start| && c.fuse == f && c.freq == freq
    requires forall g :: 0 <= g < fuses.Length ==>
               fuses[g] == start[g].(maxFreq := TopFreq(cdata, |cdata|, g, start[g].maxFreq))
    modifies fuses
    ensures forall g :: 0 <= g < fuses.Length ==>
              fuses[g] == start[g].(maxFreq := TopFreq(cdata + [c], |cdata| + 1, g, start[g].maxFreq))
  {
    if freq > fuses[f].maxFreq {
      fuses[f] := fuses[f].(maxFreq := freq);
    }
    forall g | 0 <= g < fuses.Length
      ensures fuses[g] == start[g].(maxFreq := TopFreq(cdata + [c], |cdata| + 1, g, start[g].maxFreq))
    {
      TopFreqPrefix(cdata, cdata + [c], |cdata|, g, start[g].maxFreq);
    }
  }

  /**
   * First loop of cpr3_corner_init(). `stale` is the word in front of the array, which the
   * order check of level 1 reads.
   */
  method LevelWalk(levels: seq<Level>, fuses: array<FuseCorner>, stale: nat)
    returns (r: Option<seq<CornerData>>)
    requires forall i :: 0 <= i < |levels| ==> FuseLevel(levels[i]) <= fuses.Length
    modifies fuses
    ensures r.Some? <==>
      && Used(levels) >= 2
      && (forall i :: 0 <= i < Used(levels) ==> LevelAccepted(levels, i, stale))
      && (Used(levels) < |levels| ==> Described(levels[Used(levels)]))
    ensures r.Some? ==>
      && |r.value| == Used(levels)
      && (forall i :: 0 <= i < |r.value| ==> Described(levels[i]) && Records(r.value[i], levels[i]))
      && (forall f :: 0 <= f < fuses.Length ==>
            fuses[f] == old(fuses[f]).(maxFreq := TopFreq(r.value, |r.value|, f, old(fuses[f]).maxFreq)))
  {
    var cdata: seq<CornerData> := [];
    ghost var n := Used(levels);
    var level := 1;
    while level <= |levels|
      invariant 1 <= level <= |levels| + 1 && level - 1 <= n
      invariant |cdata| == level - 1
      invariant forall i :: 0 <= i < |cdata| ==> LevelAccepted(levels, i, stale) && cdata[i] == DataOf(levels[i])
      invariant forall f :: 0 <= f < fuses.Length ==>
        fuses[f] == old(fuses[f]).(maxFreq := TopFreq(cdata, |cdata|, f, old(fuses[f]).maxFreq))
    {
      var l := levels[level - 1];
      ghost var here := level - 1;
      assert here < n ==> !Described(l) ==> !LevelAccepted(levels, here, stale);
      if !l.present { return None; }
      var fc := l.fuseLevel;
      if fc == 0 {
        fc := l.globalFuseLevel;
        if fc == 0 { return None; }
      }
      if l.freq == 0 { break; }
      ghost var was := cdata;
      cdata := cdata + [CornerData(fc - 1, l.freq, l.oloopVadj, l.cloopVadj, None)];
      RaiseTopFreq(fuses, fc - 1, l.freq, was, cdata[level - 1], old(fuses[..]));
      if (if level == 1 then stale else cdata[level - 2].freq) > l.freq {
        assert !LevelAccepted(levels, level - 1, stale);
        return None;
      }
      level := level + 1;
    }
    assert |cdata| == n;
    if |cdata| < 2 { return None; }
    return Some(cdata);
  }

  lemma {:induction false} TopFreqPrefix(a: seq<CornerData>, b: seq<CornerData>, n: nat, f: nat, init: nat)
    requires n <= |a| <= |b| && a == b[..|a|]
    ensures TopFreq(a, n, f, init) == TopFreq(b, n, f, init)
  {
    if n > 0 { TopFreqPrefix(a, b, n - 1, f, init); }
  }

  // ---------------------------------------------------------- what the table guarantees

  /** No window reaches below a threshold it contains by more than the hysteresis. */
  predicate NotStraddling(c: Corner, threshold: int, hysteresis: int) {
    threshold != 0 && c.minUV < threshold <= c.maxUV ==> threshold - hysteresis <= c.minUV
  }

  predicate CornerOk(c: Corner, fuse: FuseCorner, desc: Desc) {
    && fuse.minUV <= c.minUV <= c.uV == c.maxUV <= fuse.maxUV
    && NotStraddling(c, desc.apmThreshold, desc.apmHysteresis)
    && NotStraddling(c, desc.memAccThreshold, 0)
  }

  /** Descriptor and fuse data as every CPRh descriptor has them. */
  predicate DescriptorOk(fuses: seq<FuseCorner>, fds: seq<FuseData>, desc: Desc) {
    && desc.reduceToCorner && 0 <= desc.apmHysteresis
    && |fuses| == |fds|
    && (forall f :: 0 <= f < |fuses| ==> 0 <= fds[f].rangeUV && fuses[f].minUV <= fuses[f].maxUV)
    && (forall f, g :: 0 <= f <= g < |fuses| ==> fuses[f].maxUV <= fuses[g].maxUV)
  }

  predicate LevelsOrdered(cdata: seq<CornerData>) {
    forall i, j :: 0 <= i <= j < |cdata| ==> cdata[i].fuse <= cdata[j].fuse
  }

  /**
   * Both reductions asked for, the voltage at the fuse ceiling, the fuse voltage below it: the ceiling then
   * closes under the voltage.
   */
  predicate Loose(uV: int, fuse: FuseCorner, desc: Desc) {
    desc.reduceToFuse && uV == fuse.maxUV && fuse.uV < fuse.maxUV && fuse.minUV < fuse.maxUV
  }

  /**
   * A corner built on top of a voltage within its own ceiling: the threshold cuts never move the voltage, and
   * the corner is as it should be exactly when it is not loose.
   */
  lemma FinishedOk(cd: CornerData, below: int, fuses: seq<FuseCorner>, fds: seq<FuseData>, desc: Desc, step: int)
    requires step > 0 && cd.fuse < |fuses| && DescriptorOk(fuses, fds, desc)
    requires below <= fuses[cd.fuse].maxUV
    ensures var c, fuse := Finished(cd, below, fuses, fds, desc, step), fuses[cd.fuse];
            && c.uV == Max(ClampedUV(cd, fuses, fds, step), below)
            && fuse.minUV <= c.minUV <= c.uV <= fuse.maxUV
            && (CornerOk(c, fuse, desc) <==> !Loose(c.uV, fuse, desc))
            && c.freq == cd.freq && c.fuse == cd.fuse && !c.openLoop && c.quotAdjust == Adjust(cd).GetOr(0)
  {
    hide TargetUV;
  }

  /** The threshold cut on a window around its voltage: the floor rises to the hysteresis under it, or the ceiling closes a step under it. */
  lemma RestrictSides(c: Corner, threshold: int, hysteresis: int, step: int)
    requires 0 <= hysteresis && 0 < step && c.minUV <= c.uV
    ensures var r := Restrict(c, threshold, hysteresis, step);
            && (threshold <= c.minUV || c.maxUV < threshold ==> r == c)
            && (c.minUV < threshold <= c.maxUV && threshold <= c.uV ==>
                  && r == c.(minUV := r.minUV) && c.minUV <= r.minUV && threshold - hysteresis <= r.minUV
                  && (r.minUV == c.minUV || r.minUV == threshold - hysteresis))
            && (c.uV < threshold <= c.maxUV ==> r == c.(maxUV := r.maxUV) && r.maxUV + step == threshold)
  {
  }

  /**
   * The window of a finished corner, exactly: the ceiling is the voltage, or the fuse voltage where the corner is loose;
   * the floor lies the range under the ceiling but not under the fuse window's, and is lifted to the thresholds above it
   * that the window contains, less the hysteresis for the APM.
   */
  lemma FinishedWindow(cd: CornerData, below: int, fuses: seq<FuseCorner>, fds: seq<FuseData>, desc: Desc, step: int)
    requires step > 0 && cd.fuse < |fuses| && DescriptorOk(fuses, fds, desc)
    requires below <= fuses[cd.fuse].maxUV
    ensures var c, fuse := Finished(cd, below, fuses, fds, desc, step), fuses[cd.fuse];
            var low := Max(fuse.minUV, c.maxUV - fds[cd.fuse].rangeUV);
            var apm, acc := desc.apmThreshold, desc.memAccThreshold;
            var lifted := if apm != 0 && low < apm <= c.maxUV then Max(low, apm - desc.apmHysteresis) else low;
            && c.maxUV == (if Loose(c.uV, fuse, desc) then Max(fuse.minUV, fuse.uV) else c.uV)
            && c.minUV == if acc != 0 && lifted < acc <= c.maxUV then acc else lifted
  {
    hide TargetUV;
  }

  lemma {:induction false} TablePrefix(cdata: seq<CornerData>, m: nat, n: nat, fuses: seq<FuseCorner>, fds: seq<FuseData>,
                    desc: Desc, step: int)
    requires step > 0 && InTable(cdata, fuses, fds) && m <= n <= |cdata|
    ensures Table(cdata, n, fuses, fds, desc, step)[..m] == Table(cdata, m, fuses, fds, desc, step)
  {
    hide Finished, ClampedUV;
    if m < n { TablePrefix(cdata, m, n - 1, fuses, fds, desc, step); }
  }

  /** The clamped targets of the corners, each on its own. */
  function Targets(cdata: seq<CornerData>, fuses: seq<FuseCorner>, fds: seq<FuseData>, step: int): (vs: seq<int>)
    requires step > 0 && InTable(cdata, fuses, fds)
    ensures |vs| == |cdata| && forall i :: 0 <= i < |cdata| ==> vs[i] == ClampedUV(cdata[i], fuses, fds, step)
  {
    seq(|cdata|, i requires 0 <= i < |cdata| => ClampedUV(cdata[i], fuses, fds, step))
  }

  /** A corner at voltage `uV`, with its floor inside its own fuse window, as it should be exactly when it is not loose. */
  predicate CornerHolds(c: Corner, cd: CornerData, uV: int, fuse: FuseCorner, desc: Desc) {
    && c.uV == uV && fuse.minUV <= c.minUV <= c.uV <= fuse.maxUV
    && (CornerOk(c, fuse, desc) <==> !Loose(c.uV, fuse, desc))
    && c.freq == cd.freq && c.fuse == cd.fuse && !c.openLoop
  }

  /** Every corner holds at the highest of the targets so far. */
  ghost predicate TableHolds(t: seq<Corner>, cdata: seq<CornerData>, vs: seq<int>, fuses: seq<FuseCorner>, desc: Desc) {
    && |t| <= |cdata| == |vs| && (forall i :: 0 <= i < |t| ==> cdata[i].fuse < |fuses|)
    && forall i :: 0 <= i < |t| ==> CornerHolds(t[i], cdata[i], RunningMax(vs, i), fuses[cdata[i].fuse], desc)
  }

  /**
   * The corner table invariant: for any corners with non-decreasing fuse levels over non-decreasing ceilings,
   * every voltage is the highest clamped target so far, so the voltages never decrease, and stays with its
   * floor inside its own fuse window. Exactly the corners that are not loose have a window that is closed at
   * their voltage and cut at the thresholds.
   */
  lemma {:induction false} TableInvariant(cdata: seq<CornerData>, n: nat, fuses: seq<FuseCorner>, fds: seq<FuseData>,
                                          desc: Desc, step: int)
    requires step > 0 && InTable(cdata, fuses, fds) && n <= |cdata|
    requires DescriptorOk(fuses, fds, desc) && LevelsOrdered(cdata)
    ensures TableHolds(Table(cdata, n, fuses, fds, desc, step), cdata, Targets(cdata, fuses, fds, step), fuses, desc)
    ensures var t := Table(cdata, n, fuses, fds, desc, step); forall i, j :: 0 <= i <= j < n ==> t[i].uV <= t[j].uV
  {
    var vs := Targets(cdata, fuses, fds, step);
    if n > 0 {
      assert n == 1 ==> vs[0] == ClampedUV(cdata[0], fuses, fds, step);
      assert cdata[n - 1].fuse < |fuses| && (n > 1 ==> cdata[n - 2].fuse <= cdata[n - 1].fuse);
      hide ClampedUV, Finished, InTable, DescriptorOk, LevelsOrdered, Targets, RunningMax, TableHolds;
      TableInvariant(cdata, n - 1, fuses, fds, desc, step);
      var t := Table(cdata, n - 1, fuses, fds, desc, step);
      var below := if n == 1 then vs[0] else t[n - 2].uV;
      if n > 1 { HoldsAt(t, n - 2, cdata, vs, fuses, desc); }
      BelowFits(cdata, n, fuses, fds, step, below, desc);
      LastHolds(cdata, n, fuses, fds, desc, step, below);
      OneMoreHolds(t, Finished(cdata[n - 1], below, fuses, fds, desc, step), cdata, vs, fuses, desc);
    }
    HoldingRises(Table(cdata, n, fuses, fds, desc, step), cdata, vs, fuses, desc);
  }

  lemma HoldsAt(t: seq<Corner>, i: nat, cdata: seq<CornerData>, vs: seq<int>, fuses: seq<FuseCorner>, desc: Desc)
    requires TableHolds(t, cdata, vs, fuses, desc) && i < |t|
    ensures cdata[i].fuse < |fuses| && i < |vs|
    ensures t[i].uV == RunningMax(vs, i) && t[i].uV <= fuses[cdata[i].fuse].maxUV
  {
    assert CornerHolds(t[i], cdata[i], RunningMax(vs, i), fuses[cdata[i].fuse], desc);
  }

  lemma OneMoreHolds(t: seq<Corner>, c: Corner, cdata: seq<CornerData>, vs: seq<int>, fuses: seq<FuseCorner>, desc: Desc)
    requires TableHolds(t, cdata, vs, fuses, desc) && |t| < |cdata| && cdata[|t|].fuse < |fuses|
    requires CornerHolds(c, cdata[|t|], RunningMax(vs, |t|), fuses[cdata[|t|].fuse], desc)
    ensures TableHolds(t + [c], cdata, vs, fuses, desc)
  {
    hide CornerHolds, RunningMax;
  }

  lemma HoldingRises(t: seq<Corner>, cdata: seq<CornerData>, vs: seq<int>, fuses: seq<FuseCorner>, desc: Desc)
    requires TableHolds(t, cdata, vs, fuses, desc)
    ensures forall i, j :: 0 <= i <= j < |t| ==> t[i].uV <= t[j].uV
  {
    forall i, j | 0 <= i <= j < |t| ensures t[i].uV <= t[j].uV {
      hide TableHolds, RunningMax;
      HoldsAt(t, i, cdata, vs, fuses, desc);
      HoldsAt(t, j, cdata, vs, fuses, desc);
      RunningMaxMonotone(vs, i, j);
    }
  }

  /** The voltage a corner is built on is within its ceiling. */
  lemma BelowFits(cdata: seq<CornerData>, n: nat, fuses: seq<FuseCorner>, fds: seq<FuseData>, step: int, below: int, desc: Desc)
    requires step > 0 && InTable(cdata, fuses, fds) && 0 < n <= |cdata|
    requires DescriptorOk(fuses, fds, desc) && LevelsOrdered(cdata)
    requires n == 1 ==> below == ClampedUV(cdata[0], fuses, fds, step)
    requires n > 1 ==> cdata[n - 2].fuse < |fuses| && below <= fuses[cdata[n - 2].fuse].maxUV
    ensures below <= fuses[cdata[n - 1].fuse].maxUV
  {
    if n == 1 { ClampedInWindow(cdata[0], fuses, fds, step); }
  }

  lemma LastHolds(cdata: seq<CornerData>, n: nat, fuses: seq<FuseCorner>, fds: seq<FuseData>, desc: Desc, step: int, below: int)
    requires step > 0 && InTable(cdata, fuses, fds) && 0 < n <= |cdata| && DescriptorOk(fuses, fds, desc)
    requires below <= fuses[cdata[n - 1].fuse].maxUV
    requires var vs := Targets(cdata, fuses, fds, step); below == if n == 1 then vs[0] else RunningMax(vs, n - 2)
    ensures CornerHolds(Finished(cdata[n - 1], below, fuses, fds, desc, step), cdata[n - 1],
                        RunningMax(Targets(cdata, fuses, fds, step), n - 1), fuses[cdata[n - 1].fuse], desc)
  {
    FinishedOk(cdata[n - 1], below, fuses, fds, desc, step);
    hide Finished, ClampedUV, CornerOk, Loose, DescriptorOk;
  }

  /** With one reduction only, as in every descriptor, every corner is as it should be. */
  lemma TableIsTight(cdata: seq<CornerData>, n: nat, fuses: seq<FuseCorner>, fds: seq<FuseData>, desc: Desc, step: int)
    requires step > 0 && InTable(cdata, fuses, fds) && n <= |cdata|
    requires DescriptorOk(fuses, fds, desc) && LevelsOrdered(cdata) && !desc.reduceToFuse
    ensures forall i :: 0 <= i < n ==> CornerOk(Table(cdata, n, fuses, fds, desc, step)[i], fuses[cdata[i].fuse], desc)
  {
    hide Table, CornerOk, ClampedUV, DescriptorOk;
    TableInvariant(cdata, n, fuses, fds, desc, step);
  }

  /** A loose corner: an adjustment lifts it to its fuse ceiling, and the ceiling closes at the fuse voltage. */
  lemma LooseCorner()
    ensures var fuses, fds := [FuseCorner(0, 10, 5, 0, 0, 0)], [FuseData(5, 10, 0, 0, 0, 0)];
            var cdata, desc := [CornerData(0, 1000, 5, 0, None)], Desc(0, 0, 0, 0, 0, true, true);
            && DescriptorOk(fuses, fds, desc)
            && Table(cdata, 1, fuses, fds, desc, 1)[0].uV == 10 && Table(cdata, 1, fuses, fds, desc, 1)[0].maxUV == 5
            && !CornerOk(Table(cdata, 1, fuses, fds, desc, 1)[0], fuses[0], desc)
  {
    var fuses, fds := [FuseCorner(0, 10, 5, 0, 0, 0)], [FuseData(5, 10, 0, 0, 0, 0)];
    var cd, desc := CornerData(0, 1000, 5, 0, None), Desc(0, 0, 0, 0, 0, true, true);
    assert ClampedUV(cd, fuses, fds, 1) == 10;
    assert Table([cd], 0, fuses, fds, desc, 1) == [];
    assert Table([cd], 1, fuses, fds, desc, 1)[0] == Finished(cd, 10, fuses, fds, desc, 1);
  }

  /** The clamped target is the voltage of the fuse window nearest to the target. */
  lemma ClampedIsNearest(cd: CornerData, fuses: seq<FuseCorner>, fds: seq<FuseData>, step: int, x: int)
    requires step > 0 && cd.fuse < |fuses| == |fds| && fuses[cd.fuse].minUV <= x <= fuses[cd.fuse].maxUV
    ensures fuses[cd.fuse].minUV <= ClampedUV(cd, fuses, fds, step) <= fuses[cd.fuse].maxUV
    ensures Distance(ClampedUV(cd, fuses, fds, step), TargetUV(cd, fuses, fds, step))
            <= Distance(x, TargetUV(cd, fuses, fds, step))
  {
    hide TargetUV;
  }

  /** The target is the fuse voltage or the interpolated one, moved up by a positive adjustment and down by a negative one. */
  lemma TargetIs(cd: CornerData, fuses: seq<FuseCorner>, fds: seq<FuseData>, step: int)
    requires step > 0 && cd.fuse < |fuses| == |fds|
    ensures cd.fuse == 0 ==> TargetUV(cd, fuses, fds, step) == fuses[0].uV + cd.oloopVadj
    ensures cd.fuse > 0 && cd.freq == fuses[cd.fuse].maxFreq ==>
              TargetUV(cd, fuses, fds, step) == fuses[cd.fuse].uV + cd.oloopVadj
  {
    if cd.fuse > 0 && cd.freq == fuses[cd.fuse].maxFreq {
      InterpolateAtTop(cd.freq, fuses[cd.fuse], fuses[cd.fuse - 1], step, fds[cd.fuse].maxVoltScale);
    }
    hide Interpolate;
  }

  lemma ClampedInWindow(cd: CornerData, fuses: seq<FuseCorner>, fds: seq<FuseData>, step: int)
    requires step > 0 && cd.fuse < |fuses| == |fds| && fuses[cd.fuse].minUV <= fuses[cd.fuse].maxUV
    ensures fuses[cd.fuse].minUV <= ClampedUV(cd, fuses, fds, step) <= fuses[cd.fuse].maxUV
  {
    hide TargetUV;
  }

  /** Before the thresholds cut it, a window closes at its voltage exactly when the corner is not loose. */
  lemma CeilingIsVoltage(uV: int, fuse: FuseCorner, fd: FuseData, desc: Desc)
    requires desc.reduceToCorner && uV <= fuse.maxUV && fuse.minUV <= fuse.maxUV
    ensures Window(uV, fuse, fd, desc).1 == uV <==> !Loose(uV, fuse, desc)
  {
  }

  // --------------------------------------------------- the forced steps never fire

  /** Each corner lies between its two fuse points, and no u64 product of its interpolation wraps. */
  ghost predicate Interpolable(cd: CornerData, fuses: seq<FuseCorner>, fds: seq<FuseData>, step: int) {
    && cd.fuse < |fuses| == |fds|
    && (cd.fuse > 0 ==>
          InterpolationInputs(cd.freq, fuses[cd.fuse], fuses[cd.fuse - 1], step, fds[cd.fuse].maxVoltScale))
  }

  /** Voltage of a corner before its own adjustment. */
  function BaseUV(cd: CornerData, fuses: seq<FuseCorner>, fds: seq<FuseData>, step: int): int
    requires step > 0 && cd.fuse < |fuses| == |fds|
  {
    TargetUV(cd, fuses, fds, step) - cd.oloopVadj
  }

  lemma BaseBetweenFuses(cd: CornerData, fuses: seq<FuseCorner>, fds: seq<FuseData>, step: int)
    requires GoodFuseTable(fuses, step) && Interpolable(cd, fuses, fds, step)
    ensures BaseUV(cd, fuses, fds, step) <= fuses[cd.fuse].uV
    ensures cd.fuse > 0 ==> fuses[cd.fuse - 1].uV <= BaseUV(cd, fuses, fds, step)
  {
    hide Interpolate, Aligned;
    if cd.fuse > 0 {
      InterpolateBounds(cd.freq, fuses[cd.fuse], fuses[cd.fuse - 1], step, fds[cd.fuse].maxVoltScale);
    }
  }

  /** Later corners are never aimed lower: within a fuse corner by interpolation, across fuse corners by their order. */
  lemma BaseMonotone(a: CornerData, b: CornerData, fuses: seq<FuseCorner>, fds: seq<FuseData>, step: int)
    requires GoodFuseTable(fuses, step) && Interpolable(a, fuses, fds, step) && Interpolable(b, fuses, fds, step)
    requires a.fuse <= b.fuse && a.freq <= b.freq
    ensures BaseUV(a, fuses, fds, step) <= BaseUV(b, fuses, fds, step)
  {
    hide Interpolate, Aligned;
    if a.fuse == b.fuse {
      if a.fuse > 0 {
        InterpolateMonotone(a.freq, b.freq, fuses[a.fuse], fuses[a.fuse - 1], step, fds[a.fuse].maxVoltScale);
      }
    } else {
      BaseBetweenFuses(a, fuses, fds, step);
      BaseBetweenFuses(b, fuses, fds, step);
    }
  }

  /** Corners in table order: levels, frequencies and adjustments do not decrease. */
  predicate CornersOrdered(cdata: seq<CornerData>) {
    forall i, j :: 0 <= i <= j < |cdata| ==>
      cdata[i].fuse <= cdata[j].fuse && cdata[i].freq <= cdata[j].freq && cdata[i].oloopVadj <= cdata[j].oloopVadj
  }

  /**
   * Over ordered corners the forced increase of the voltage loop never fires: every voltage is
   * the clamped target of its own corner alone, whatever came before it.
   */
  lemma {:induction false} TableIsPointwise(cdata: seq<CornerData>, n: nat, fuses: seq<FuseCorner>, fds: seq<FuseData>,
                                            desc: Desc, step: int)
    requires GoodFuseTable(fuses, step) && InTable(cdata, fuses, fds) && n <= |cdata|
    requires DescriptorOk(fuses, fds, desc) && CornersOrdered(cdata)
    requires forall f, g :: 0 <= f <= g < |fuses| ==> fuses[f].minUV <= fuses[g].minUV
    requires forall i :: 0 <= i < |cdata| ==> Interpolable(cdata[i], fuses, fds, step)
    ensures forall i :: 0 <= i < n ==>
      Table(cdata, n, fuses, fds, desc, step)[i].uV == ClampedUV(cdata[i], fuses, fds, step)
  {
    hide Finished, ClampedUV, Interpolable, InterpolationInputs, CornerOk, Loose;
    if n > 0 {
      TableIsPointwise(cdata, n - 1, fuses, fds, desc, step);
      var cd := cdata[n - 1];
      var before := if n == 1 then cd else cdata[n - 2];
      BaseMonotone(before, cd, fuses, fds, step);
      ClampMonotone(before, cd, fuses, fds, step);
      ClampedInWindow(cd, fuses, fds, step);
      FinishedOk(cd, ClampedUV(before, fuses, fds, step), fuses, fds, desc, step);
    }
  }

  lemma ClampMonotone(a: CornerData, b: CornerData, fuses: seq<FuseCorner>, fds: seq<FuseData>, step: int)
    requires step > 0 && a.fuse < |fuses| == |fds| && b.fuse < |fuses|
    requires BaseUV(a, fuses, fds, step) <= BaseUV(b, fuses, fds, step) && a.oloopVadj <= b.oloopVadj
    requires fuses[a.fuse].minUV <= fuses[b.fuse].minUV && fuses[a.fuse].maxUV <= fuses[b.fuse].maxUV
    requires fuses[a.fuse].minUV <= fuses[a.fuse].maxUV && fuses[b.fuse].minUV <= fuses[b.fuse].maxUV
    ensures ClampedUV(a, fuses, fds, step) <= ClampedUV(b, fuses, fds, step)
  {
    hide TargetUV;
  }

  /** After the level walk of a fresh thread every corner lies between its two fuse points. */
  lemma WalkedCornersInterpolable(cdata: seq<CornerData>, fuses: seq<FuseCorner>, i: nat)
    requires i < |cdata| && cdata[i].fuse < |fuses|
    requires forall f :: 0 <= f < |fuses| ==> fuses[f].maxFreq == TopFreq(cdata, |cdata|, f, 0)
    requires forall k, l :: 0 <= k <= l < |cdata| ==> cdata[k].fuse <= cdata[l].fuse && cdata[k].freq <= cdata[l].freq
    ensures cdata[i].freq <= fuses[cdata[i].fuse].maxFreq
    ensures cdata[i].fuse > 0 ==> fuses[cdata[i].fuse - 1].maxFreq <= cdata[i].freq
  {
    TopFreqBounds(cdata, |cdata|, cdata[i].fuse, 0);
    if cdata[i].fuse > 0 {
      TopFreqBounds(cdata, |cdata|, cdata[i].fuse - 1, 0);
    }
  }

  lemma {:induction false} TopFreqBounds(cdata: seq<CornerData>, n: nat, f: nat, init: nat)
    requires n <= |cdata|
    ensures forall k :: 0 <= k < n && cdata[k].fuse == f ==> cdata[k].freq <= TopFreq(cdata, n, f, init)
    ensures TopFreq(cdata, n, f, init) == init
            || exists k :: 0 <= k < n && cdata[k].fuse == f && cdata[k].freq == TopFreq(cdata, n, f, init)
    ensures init <= TopFreq(cdata, n, f, init)
  {
    if n > 0 { TopFreqBounds(cdata, n - 1, f, init); }
  }
}

/**
 * The bring-up gates, stop by stop: what one set-up call writes when it is cut at each of them
 * (qcom_cpufreq_hw_osm_setup() under `osm_init_stop`).
 */
module Stages {
  import opened Arith
  import opened Wrappers
  import opened Script
  import opened OsmParams
  import opened OsmScript
  import opened Bringup
  import opened Refinement

  // ------------------------------------------------------------ pieces and gates

  /** The writes of the pieces one after the other. */
  function Flat(pieces: seq<seq<Write>>): seq<Write> {
    if |pieces| == 0 then [] else pieces[0] + Flat(pieces[1..])
  }

  /** Running pieces of writes, with gate k + i behind piece i. */
  function Cut(pieces: seq<seq<Write>>, k: int, stop: int): Run {
    if |pieces| == 0 then Run([], Done)
    else if k >= stop then Run(pieces[0], Stopped)
    else Then(Run(pieces[0], Done), Cut(pieces[1..], k + 1, stop))
  }

  lemma ThenAssoc(a: Run, b: Run, c: Run)
    ensures Then(Then(a, b), c) == Then(a, Then(b, c))
  {
    if a.out == Done && b.out == Done { assert a.log + b.log + c.log == a.log + (b.log + c.log); }
  }

  lemma {:induction false} CutConcat(a: seq<seq<Write>>, b: seq<seq<Write>>, k: int, stop: int)
    ensures Cut(a + b, k, stop) == Then(Cut(a, k, stop), Cut(b, k + |a|, stop))
    decreases |a|
  {
    if |a| == 0 {
      assert a + b == b;
      assert [] + Cut(b, k, stop).log == Cut(b, k, stop).log;
    } else {
      assert (a + b)[1..] == a[1..] + b && (a + b)[0] == a[0];
      CutConcat(a[1..], b, k + 1, stop);
      ThenAssoc(Run(a[0], Done), Cut(a[1..], k + 1, stop), Cut(b, k + |a|, stop));
    }
  }

  /** The pieces up to the first closed gate are written, and all of them exactly when every gate is open. */
  lemma {:induction false} CutLog(pieces: seq<seq<Write>>, k: int, stop: int)
    requires 0 < |pieces|
    ensures var n := Max(1, Min(|pieces|, stop - k + 1));
            Cut(pieces, k, stop) == Run(Flat(pieces[..n]), if stop < k + |pieces| then Stopped else Done)
    decreases |pieces|
  {
    var n := Max(1, Min(|pieces|, stop - k + 1));
    assert pieces[..n][0] == pieces[0] && pieces[..n][1..] == pieces[1..][..n - 1];
    if |pieces| == 1 || k >= stop {
      assert pieces[..n][1..] == [] && pieces[0] + [] == pieces[0];
      if k < stop { assert pieces[1..] == []; }
    } else {
      CutLog(pieces[1..], k + 1, stop);
    }
  }

  lemma {:induction false} FlatConcat(a: seq<seq<Write>>, b: seq<seq<Write>>)
    ensures Flat(a + b) == Flat(a) + Flat(b)
    decreases |a|
  {
    if |a| == 0 {
      assert a + b == b;
    } else {
      assert (a + b)[1..] == a[1..] + b && (a + b)[0] == a[0];
      FlatConcat(a[1..], b);
    }
  }

  /** One piece behind its gate. */
  lemma OnePiece(s: seq<Action>, ws: seq<Write>, k: int, stop: int)
    requires Exec(s, stop) == Run(ws, Done)
    ensures Exec(s + [Gate(k)], stop) == Cut([ws], k, stop)
  {
    ExecConcat(s, [Gate(k)], stop);
    assert [ws][1..] == [] && [Gate(k)][1..] == [] && ws + [] == ws;
  }

  /** One more piece in front. */
  lemma FrontPiece(s: seq<Action>, ws: seq<Write>, k: int, rest: seq<Action>, pieces: seq<seq<Write>>, stop: int)
    requires Exec(s, stop) == Run(ws, Done) && Exec(rest, stop) == Cut(pieces, k + 1, stop)
    ensures Exec((s + [Gate(k)]) + rest, stop) == Cut([ws] + pieces, k, stop)
  {
    OnePiece(s, ws, k, stop);
    ExecConcat(s + [Gate(k)], rest, stop);
    CutConcat([ws], pieces, k, stop);
    hide Exec, Cut;
  }

  // ------------------------------------------------------------- parts of the script

  lemma TuningCut(soc: Soc, hw: Hardware, stop: int)
    ensures Exec(TuningActions(soc, hw), stop)
         == Cut([DcvsWrites(soc), BoostWrites(), DroopWrites(hw), FsmWrites(soc, hw)], 4, stop)
  {
    var w4, w5, w6, w7 := DcvsWrites(soc), BoostWrites(), DroopWrites(hw), FsmWrites(soc, hw);
    assert TuningActions(soc, hw) == (Puts(w4) + [Gate(4)]) + ((Puts(w5) + [Gate(5)])
                                     + ((Puts(w6) + [Gate(6)]) + (Puts(w7) + [Gate(7)])));
    hide *;
    ExecPuts(w4, stop);
    ExecPuts(w5, stop);
    ExecPuts(w6, stop);
    ExecPuts(w7, stop);
    OnePiece(Puts(w7), w7, 7, stop);
    FrontPiece(Puts(w6), w6, 6, Puts(w7) + [Gate(7)], [w7], stop);
    FrontPiece(Puts(w5), w5, 5, (Puts(w6) + [Gate(6)]) + (Puts(w7) + [Gate(7)]), [w6] + [w7], stop);
    FrontPiece(Puts(w4), w4, 4, (Puts(w5) + [Gate(5)]) + ((Puts(w6) + [Gate(6)]) + (Puts(w7) + [Gate(7)])),
               [w5] + ([w6] + [w7]), stop);
    assert [w4] + ([w5] + ([w6] + [w7])) == [w4, w5, w6, w7];
  }

  /** Writes of the automatic ACD transfer and of one manual transfer. */
  function AutoWrites(): seq<Write> {
    [Write(Acd(0x80), ACD_MASK), Write(Acd(0x84), 0), Write(Acd(0x84), 1)]
  }

  function TransferWrites(reg: nat, val: u32): seq<Write>
    requires reg < 0x100
  {
    [Write(Acd(reg), val), Write(Acd(0x90), 0), Write(Acd(0x90), reg / 4 * 2 + 1)]
  }

  /** A transfer puts the value in its register, then pulses the request: bit 0 set, with the register's number above it. */
  lemma TransferRequest(reg: nat, val: u32)
    requires reg < 0x100 && reg % 4 == 0
    ensures var ws := TransferWrites(reg, val);
            && |ws| == 3 && ws[0] == Write(Acd(reg), val) && ws[1] == Write(Acd(0x90), 0)
            && ws[2].reg == Acd(0x90) && ws[2].val % 2 == 1 && 4 * (ws[2].val / 2) == reg
  {
  }

  function FinishWrites(): seq<Write> {
    TransferWrites(0x34, 1) + TransferWrites(0x34, 0) + TransferWrites(0x30, 0x2cf9afe)
    + [Write(Acd(0x80), ACD_MASK + 0x8000)]
  }

  lemma PutsThenCall(ws: seq<Write>, stop: int)
    ensures Exec(Puts(ws) + [Call(true)], stop) == Run(ws, Done)
  {
    ExecPuts(ws, stop);
    ExecConcat(Puts(ws), [Call(true)], stop);
    assert [Call(true)][1..] == [] && ws + [] == ws;
  }

  lemma TwoRuns(a: seq<Action>, b: seq<Action>, v: seq<Write>, w: seq<Write>, stop: int)
    requires Exec(a, stop) == Run(v, Done) && Exec(b, stop) == Run(w, Done)
    ensures Exec(a + b, stop) == Run(v + w, Done)
  {
    ExecConcat(a, b, stop);
  }

  lemma AcdCut(hw: Hardware, gated: bool, stop: int)
    requires hw.acdRegion && hw.acdMapped && hw.autoTransfer && forall k :: hw.transfer(k)
    ensures Exec(AcdActions(hw, gated), stop)
         == Cut([AcdRegWrites() + AutoWrites(), TransferWrites(0x3C, 1), FinishWrites()], 8, stop)
  {
    var regs, auto, mux := Puts(AcdRegWrites()), AutoTransfer(hw), Transfer(0, 0x3C, 1, hw);
    var body := Transfer(1, 0x34, 1, hw) + (Transfer(2, 0x34, 0, hw) + (Transfer(3, 0x30, 0x2cf9afe, hw)
                + [Put(Write(Acd(0x80), ACD_MASK + 0x8000))]));
    var w8, w9, w10 := AcdRegWrites() + AutoWrites(), TransferWrites(0x3C, 1), FinishWrites();
    AcdPiecesRun(hw, stop);
    assert AcdFinish(hw) == body + [Gate(10)] by { hide Transfer; }
    assert AcdActions(hw, gated) == regs + (auto + ([Gate(8)] + (mux + ([Gate(9)] + AcdFinish(hw)))));
    hide *;
    Regroup3(regs, auto, [Gate(8)], mux, [Gate(9)], body + [Gate(10)]);
    OnePiece(body, w10, 10, stop);
    FrontPiece(mux, w9, 9, body + [Gate(10)], [w10], stop);
    FrontPiece(regs + auto, w8, 8, (mux + [Gate(9)]) + (body + [Gate(10)]), [w9] + [w10], stop);
    assert [w8] + ([w9] + [w10]) == [w8, w9, w10];
  }

  lemma Regroup3(a: seq<Action>, b: seq<Action>, c: seq<Action>, d: seq<Action>, e: seq<Action>, f: seq<Action>)
    ensures a + (b + (c + (d + (e + f)))) == ((a + b) + c) + ((d + e) + f)
  {
  }

  lemma AcdPiecesRun(hw: Hardware, stop: int)
    requires hw.autoTransfer && forall k :: hw.transfer(k)
    ensures Exec(Puts(AcdRegWrites()) + AutoTransfer(hw), stop) == Run(AcdRegWrites() + AutoWrites(), Done)
    ensures Exec(Transfer(0, 0x3C, 1, hw), stop) == Run(TransferWrites(0x3C, 1), Done)
    ensures Exec(Transfer(1, 0x34, 1, hw) + (Transfer(2, 0x34, 0, hw) + (Transfer(3, 0x30, 0x2cf9afe, hw)
                 + [Put(Write(Acd(0x80), ACD_MASK + 0x8000))])), stop) == Run(FinishWrites(), Done)
  {
    TransferRuns(0, 0x3C, 1, hw, stop);
    TransferRuns(1, 0x34, 1, hw, stop);
    TransferRuns(2, 0x34, 0, hw, stop);
    TransferRuns(3, 0x30, 0x2cf9afe, hw, stop);
    var last := [Write(Acd(0x80), ACD_MASK + 0x8000)];
    ExecPuts(last, stop);
    assert Puts(last) == [Put(Write(Acd(0x80), ACD_MASK + 0x8000))];
    ExecPuts(AcdRegWrites(), stop);
    PutsThenCall(AutoWrites(), stop);
    assert AutoTransfer(hw) == Puts(AutoWrites()) + [Call(true)];
    var x, y, z := TransferWrites(0x34, 1), TransferWrites(0x34, 0), TransferWrites(0x30, 0x2cf9afe);
    assert FinishWrites() == x + (y + (z + last));
    hide *;
    TwoRuns(Puts(AcdRegWrites()), AutoTransfer(hw), AcdRegWrites(), AutoWrites(), stop);
    TwoRuns(Transfer(3, 0x30, 0x2cf9afe, hw), Puts(last), z, last, stop);
    TwoRuns(Transfer(2, 0x34, 0, hw), Transfer(3, 0x30, 0x2cf9afe, hw) + Puts(last), y, z + last, stop);
    TwoRuns(Transfer(1, 0x34, 1, hw), Transfer(2, 0x34, 0, hw) + (Transfer(3, 0x30, 0x2cf9afe, hw) + Puts(last)),
            x, y + (z + last), stop);
  }

  lemma TransferRuns(k: nat, reg: nat, val: u32, hw: Hardware, stop: int)
    requires reg < 0x100 && hw.transfer(k)
    ensures Exec(Transfer(k, reg, val, hw), stop) == Run(TransferWrites(reg, val), Done)
  {
    assert Transfer(k, reg, val, hw) == Puts(TransferWrites(reg, val)) + [Call(true)];
    PutsThenCall(TransferWrites(reg, val), stop);
    hide Transfer, TransferWrites;
  }

  lemma LutCut(p: Params, hw: Hardware, stop: int) returns (rest: seq<Action>)
    requires Writable(p) && |Detected(p)| == 4 && forall n :: hw.scm(n)
    ensures LutActions(p, hw) == [Gate(1)] + rest
    ensures Exec(rest, stop) == Cut([LutWrites(p, LUT_ROWS), SequencerLog(p)], 2, stop)
  {
    var rows := LutWrites(p, LUT_ROWS);
    var body := SequencerBody(p, hw, stop);
    rest := (Puts(rows) + [Gate(2)]) + (body + [Gate(3)]);
    assert LutActions(p, hw) == [Gate(1)] + (Puts(rows) + ([Gate(2)] + SequencerActions(p, hw))) by {
      hide SequencerActions, LutWrites, Detected;
    }
    hide *;
    assert rest == Puts(rows) + ([Gate(2)] + (body + [Gate(3)]));
    ExecPuts(rows, stop);
    OnePiece(body, SequencerLog(p), 3, stop);
    FrontPiece(Puts(rows), rows, 2, body + [Gate(3)], [SequencerLog(p)], stop);
    assert [rows] + [SequencerLog(p)] == [rows, SequencerLog(p)];
  }

  // --------------------------------------------------------------- the whole call

  /** Parameters the table is written from. */
  ghost function ParamsOf(e: Env, t: Thread, cprhStop: int): Params
    requires Healthy(e, t) && Exports(t, cprhStop)
  {
    var t1 := ThreadAfter(e, t, cprhStop);
    ParamsSpec(e.opps, t1.apmUV, t1.accUV, e.cores, e.xoRate).value
  }

  function TuneStages(e: Env): seq<seq<Write>> {
    [DcvsWrites(e.soc), BoostWrites(), DroopWrites(e.hw), FsmWrites(e.soc, e.hw)]
  }

  function AcdStages(e: Env): seq<seq<Write>> {
    if e.hw.acdRegion then [AcdRegWrites() + AutoWrites(), TransferWrites(0x3C, 1), FinishWrites()] else [[], [], []]
  }

  ghost function LutStages(e: Env, t: Thread, cprhStop: int): seq<seq<Write>>
    requires Healthy(e, t) && Exports(t, cprhStop)
  {
    var p := ParamsOf(e, t, cprhStop);
    [LutWrites(p, LUT_ROWS), SequencerLog(p)]
  }

  function CprhPiece(e: Env, t: Thread, cprhStop: int): seq<Write> {
    Exec(CprhPart(e, t, cprhStop), 0).log
  }

  function ArmPiece(t: Thread, cprhStop: int): seq<Write> {
    if Armable(t, cprhStop) then [LOOP_WRITE, INTERFACE_WRITE] else []
  }

  /** What the call writes between its gates: nothing before gate 0, then one piece up to each gate, and the arming. */
  ghost function Pieces(e: Env, t: Thread, cprhStop: int): (pieces: seq<seq<Write>>)
    requires Healthy(e, t) && Exports(t, cprhStop)
    ensures |pieces| == 13
  {
    [[]] + ([CprhPiece(e, t, cprhStop)] + (LutStages(e, t, cprhStop) + (TuneStages(e) + (AcdStages(e)
      + ([[REQUEST_WRITE, ENABLE_WRITE]] + [ArmPiece(t, cprhStop)])))))
  }

  /** How many of them: one more than the gate, but without ACD and its check gates 8 to 10 do not exist. */
  function PiecesWritten(e: Env, stop: int): (n: nat)
    ensures 1 <= n <= 13
  {
    if stop <= 0 then 1
    else if stop >= 12 then 13
    else if 8 <= stop <= 10 && !e.hw.acdRegion && !e.acdGated then 12
    else stop + 1
  }

  /** Two runs of pieces and what follows them. */
  lemma JoinCut(a: seq<seq<Write>>, b: seq<seq<Write>>, k: int, r: Run, stop: int)
    ensures Then(Cut(a, k, stop), Then(Cut(b, k + |a|, stop), r)) == Then(Cut(a + b, k, stop), r)
  {
    CutConcat(a, b, k, stop);
    ThenAssoc(Cut(a, k, stop), Cut(b, k + |a|, stop), r);
  }

  /** The run of the ACD part, as pieces, where gates 8 to 10 or at least 10 exist. */
  lemma AcdPart(e: Env, stop: int)
    requires e.hw.acdMapped && e.hw.autoTransfer && forall k :: e.hw.transfer(k)
    ensures e.hw.acdRegion || e.acdGated ==> Exec(AcdActions(e.hw, e.acdGated), stop) == Cut(AcdStages(e), 8, stop)
    ensures !e.hw.acdRegion && !e.acdGated ==> Exec(AcdActions(e.hw, e.acdGated), stop) == Run([], Done)
  {
    if e.hw.acdRegion {
      AcdCut(e.hw, e.acdGated, stop);
      hide *;
    } else {
      assert [Gate(10)][1..] == [];
      EmptyPieces(stop);
    }
  }

  lemma EmptyPieces(stop: int)
    ensures Cut([[], [], []], 8, stop) == Run([], if 10 >= stop then Stopped else Done)
  {
    var none: seq<seq<Write>> := [[], [], []];
    CutLog(none, 8, stop);
    var n := Max(1, Min(3, stop - 8 + 1));
    FlatEmpty(none[..n]);
    assert Cut(none, 8, stop).out == if stop < 11 then Stopped else Done;
  }

  lemma {:induction false} FlatEmpty(pieces: seq<seq<Write>>)
    requires forall i :: 0 <= i < |pieces| ==> pieces[i] == []
    ensures Flat(pieces) == []
    decreases |pieces|
  {
    if |pieces| > 0 { FlatEmpty(pieces[1..]); }
  }

  /** Eleven gates, the pieces before them, and what comes after the last. */
  lemma GateChain(cprh: seq<Write>, lut: seq<seq<Write>>, tune: seq<seq<Write>>, acd: seq<seq<Write>>, start: seq<Write>,
                  arm: Run, stop: int)
    requires |lut| == 2 && |tune| == 4 && |acd| == 3
    ensures Then(Cut([[]], 0, stop), Then(Cut([cprh], 1, stop), Then(Cut(lut, 2, stop), Then(Cut(tune, 4, stop),
              Then(Cut(acd, 8, stop), Then(Cut([start], 11, stop), arm))))))
         == Then(Cut([[]] + ([cprh] + (lut + (tune + (acd + [start])))), 0, stop), arm)
  {
    hide Cut, Then;
    JoinCut(acd, [start], 8, arm, stop);
    JoinCut(tune, acd + [start], 4, arm, stop);
    JoinCut(lut, tune + (acd + [start]), 2, arm, stop);
    JoinCut([cprh], lut + (tune + (acd + [start])), 1, arm, stop);
    JoinCut([[]], [cprh] + (lut + (tune + (acd + [start]))), 0, arm, stop);
  }

  /** Twelve gated pieces and a last one: the log is that of the pieces reached. */
  lemma ChainLog(front: seq<seq<Write>>, arm: Run, stop: int)
    requires |front| == 12
    ensures var n := if stop <= 0 then 1 else if stop >= 12 then 13 else stop + 1;
            Then(Cut(front, 0, stop), arm).log == Flat((front + [arm.log])[..n])
  {
    var pieces := front + [arm.log];
    CutLog(front, 0, stop);
    if stop >= 12 {
      FlatConcat(front, [arm.log]);
      OneFlat(arm.log);
      assert front[..12] == front && pieces[..13] == pieces;
    } else {
      var n := Max(1, Min(12, stop + 1));
      assert pieces[..n] == front[..n];
    }
  }

  lemma OneFlat(ws: seq<Write>)
    ensures Flat([ws]) == ws
  {
    assert [ws][1..] == [] && ws + [] == ws;
  }

  /** The script as a chain of its parts, gate 1 at the end of the CPRh part. */
  lemma ExecChain(cprh: seq<Action>, lut: seq<Action>, tune: seq<Action>, acd: seq<Action>, start: seq<Action>,
                  arm: seq<Action>, stop: int)
    ensures Exec([Gate(0)] + (cprh + (([Gate(1)] + lut) + (tune + (acd + (start + arm))))), stop)
         == Then(Exec([Gate(0)], stop), Then(Exec(cprh + [Gate(1)], stop), Then(Exec(lut, stop), Then(Exec(tune, stop),
              Then(Exec(acd, stop), Then(Exec(start, stop), Exec(arm, stop)))))))
  {
    var rest := tune + (acd + (start + arm));
    assert cprh + (([Gate(1)] + lut) + rest) == (cprh + [Gate(1)]) + (lut + rest);
    hide *;
    ExecConcat([Gate(0)], (cprh + [Gate(1)]) + (lut + rest), stop);
    ExecConcat(cprh + [Gate(1)], lut + rest, stop);
    ExecConcat(lut, rest, stop);
    ExecConcat(tune, acd + (start + arm), stop);
    ExecConcat(acd, start + arm, stop);
    ExecConcat(start, arm, stop);
  }

  lemma EndsRun(e: Env, t: Thread, cprhStop: int, stop: int)
    requires Healthy(e, t)
    ensures Exec([Gate(0)], stop) == Cut([[]], 0, stop)
    ensures Exec(CprhPart(e, t, cprhStop) + [Gate(1)], stop) == Cut([CprhPiece(e, t, cprhStop)], 1, stop)
    ensures Exec(StartActions(), stop) == Cut([[REQUEST_WRITE, ENABLE_WRITE]], 11, stop)
    ensures Exec(ArmActions(ThreadAfter(e, t, cprhStop).inited, e.enableLookup), stop).log == ArmPiece(t, cprhStop)
  {
    var cprh, start := CprhPart(e, t, cprhStop), [REQUEST_WRITE, ENABLE_WRITE];
    Bringup.CprhPieces(e, t, cprhStop);
    assert StartActions() == Puts(start) + [Gate(11)];
    var arm := ArmActions(ThreadAfter(e, t, cprhStop).inited, e.enableLookup);
    assert arm == if Armable(t, cprhStop) then Puts([LOOP_WRITE, INTERFACE_WRITE]) else [Call(false)];
    assert Exec([], stop) == Run([], Done) && [] + [Gate(0)] == [Gate(0)];
    assert Exec([Call(false)], stop).log == [];
    hide CprhPart, StartActions, ArmActions, Puts, Healthy;
    CprhRuns(cprh, stop);
    OnePiece([], [], 0, stop);
    OnePiece(cprh, CprhPiece(e, t, cprhStop), 1, stop);
    ExecPuts(start, stop);
    OnePiece(Puts(start), start, 11, stop);
    ExecPuts([LOOP_WRITE, INTERFACE_WRITE], stop);
  }

  /** Without failures and gates a script runs to its end, whatever the stop. */
  lemma CprhRuns(s: seq<Action>, stop: int)
    requires AllSucceed(s) && GateFree(s)
    ensures Exec(s, stop) == Run(Exec(s, 0).log, Done)
  {
    NoGates(s, stop, 0);
    TopGateFree(s);
    DoneIff(s, 0);
  }

  /** The table part, from the parameters of the call. */
  lemma LutRun(e: Env, t: Thread, cprhStop: int, stop: int) returns (rest: seq<Action>)
    requires Healthy(e, t) && Exports(t, cprhStop)
    ensures LutPart(e, ThreadAfter(e, t, cprhStop)) == [Gate(1)] + rest
    ensures Exec(rest, stop) == Cut(LutStages(e, t, cprhStop), 2, stop)
  {
    var p := ParamsOf(e, t, cprhStop);
    assert LutPart(e, ThreadAfter(e, t, cprhStop)) == LutActions(p, e.hw) && Writable(p) && |Detected(p)| == 4 by {
      hide LutActions, Detected;
    }
    assert LutStages(e, t, cprhStop) == [LutWrites(p, LUT_ROWS), SequencerLog(p)];
    assert forall n :: e.hw.scm(n);
    hide *;
    rest := LutCut(p, e.hw, stop);
  }

  /** Where gates 8 to 10 do not exist, a stop at one of them is a stop at gate 11. */
  lemma WithoutAcd(front: seq<seq<Write>>, start: seq<Write>, arm: Run, stop: int)
    requires |front| == 8
    ensures var there := if 8 <= stop <= 10 then 11 else stop;
            Then(Cut(front, 0, stop), Then(Run([], Done), Then(Cut([start], 11, stop), arm)))
            == Then(Cut(front, 0, there), Then(Cut([[], [], []], 8, there), Then(Cut([start], 11, there), arm)))
  {
    var there := if 8 <= stop <= 10 then 11 else stop;
    CutLog(front, 0, stop);
    CutLog(front, 0, there);
    EmptyPieces(there);
    assert [start][1..] == [];
    assert stop >= 8 ==> Max(1, Min(8, stop + 1)) == 8 == Max(1, Min(8, there + 1));
  }

  /**
   * Stop by stop: when every call succeeds and the CPRh part exports its thresholds, a call stopped at gate n has written
   * exactly the pieces before gates 0 to n: at 1 the CPRh part, at 2 the table and at 3 the sequencer as well, then the
   * tunables piece by piece to 7, ACD to 10, the start at 11 and the arming from 12 on.
   */
  lemma StopDecides(e: Env, t: Thread, osmStop: int, cprhStop: int)
    requires Healthy(e, t) && Exports(t, cprhStop)
    ensures Exec(SetupScript(e, t, cprhStop), osmStop).log
         == Flat(Pieces(e, t, cprhStop)[..PiecesWritten(e, osmStop)])
  {
    ScriptParts(e, t, cprhStop);
    PiecesParts(e, t, cprhStop);
    StagesSized(e, t, cprhStop);
    assert e.hw.acdMapped && e.hw.autoTransfer && forall k :: e.hw.transfer(k);
    assert EnvOk(e);
    var there := if 8 <= osmStop <= 10 && !e.hw.acdRegion && !e.acdGated then 11 else osmStop;
    assert PiecesWritten(e, osmStop) == Reached(there);
    hide *;
    var lut := LutRun(e, t, cprhStop, osmStop);
    EndsRun(e, t, cprhStop, osmStop);
    TuningCut(e.soc, e.hw, osmStop);
    AcdPart(e, osmStop);
    TuneStagesAre(e);
    ChainWrites(CprhPart(e, t, cprhStop), lut, TuningActions(e.soc, e.hw), AcdActions(e.hw, e.acdGated), StartActions(),
                ArmActions(ThreadAfter(e, t, cprhStop).inited, e.enableLookup),
                CprhPiece(e, t, cprhStop), LutStages(e, t, cprhStop), TuneStages(e), AcdStages(e),
                [REQUEST_WRITE, ENABLE_WRITE], ArmPiece(t, cprhStop), osmStop, there);
  }

  /** Pieces written of thirteen, when every gate exists. */
  function Reached(stop: int): (n: nat)
    ensures 1 <= n <= 13
  {
    if stop <= 0 then 1 else if stop >= 12 then 13 else stop + 1
  }

  lemma TuneStagesAre(e: Env)
    ensures TuneStages(e) == [DcvsWrites(e.soc), BoostWrites(), DroopWrites(e.hw), FsmWrites(e.soc, e.hw)]
  {
  }

  lemma StagesSized(e: Env, t: Thread, cprhStop: int)
    requires Healthy(e, t) && Exports(t, cprhStop)
    ensures |LutStages(e, t, cprhStop)| == 2 && |TuneStages(e)| == 4 && |AcdStages(e)| == 3
    ensures !e.hw.acdRegion ==> AcdStages(e) == [[], [], []]
  {
    hide LutWrites, SequencerLog, ParamsOf, Healthy;
  }

  /** A script of six parts writes the pieces it reaches. */
  lemma ChainWrites(cprh: seq<Action>, lut: seq<Action>, tune: seq<Action>, acd: seq<Action>, start: seq<Action>,
                    arm: seq<Action>, first: seq<Write>, luts: seq<seq<Write>>, tunes: seq<seq<Write>>,
                    acds: seq<seq<Write>>, go: seq<Write>, armed: seq<Write>, stop: int, there: int)
    requires |luts| == 2 && |tunes| == 4 && |acds| == 3
    requires Exec([Gate(0)], stop) == Cut([[]], 0, stop) && Exec(cprh + [Gate(1)], stop) == Cut([first], 1, stop)
    requires Exec(lut, stop) == Cut(luts, 2, stop) && Exec(tune, stop) == Cut(tunes, 4, stop)
    requires Exec(start, stop) == Cut([go], 11, stop) && Exec(arm, stop).log == armed
    requires (Exec(acd, stop) == Cut(acds, 8, stop) && there == stop)
             || (Exec(acd, stop) == Run([], Done) && acds == [[], [], []] && there == if 8 <= stop <= 10 then 11 else stop)
    ensures Exec([Gate(0)] + (cprh + (([Gate(1)] + lut) + (tune + (acd + (start + arm))))), stop).log
         == Flat(([[]] + ([first] + (luts + (tunes + (acds + ([go] + [armed]))))))[..Reached(there)])
  {
    assert Reached(there) == if there <= 0 then 1 else if there >= 12 then 13 else there + 1;
    hide *;
    ExecChain(cprh, lut, tune, acd, start, arm, stop);
    ChainRun(first, luts, tunes, acds, go, Exec(acd, stop), Exec(arm, stop), stop, there);
    PiecesGroup(first, luts, tunes, acds, go, armed);
    ChainLog([[]] + ([first] + (luts + (tunes + (acds + [go])))), Exec(arm, stop), there);
  }

  lemma ScriptParts(e: Env, t: Thread, cprhStop: int)
    requires EnvOk(e)
    ensures var t1 := ThreadAfter(e, t, cprhStop);
            SetupScript(e, t, cprhStop)
            == [Gate(0)] + (CprhPart(e, t, cprhStop) + (LutPart(e, t1) + (TuningActions(e.soc, e.hw)
               + (AcdActions(e.hw, e.acdGated) + (StartActions() + ArmActions(t1.inited, e.enableLookup))))))
  {
    hide CprhPart, LutPart, TuningActions, AcdActions, StartActions, ArmActions;
  }

  lemma PiecesParts(e: Env, t: Thread, cprhStop: int)
    requires Healthy(e, t) && Exports(t, cprhStop)
    ensures Pieces(e, t, cprhStop)
         == [[]] + ([CprhPiece(e, t, cprhStop)] + (LutStages(e, t, cprhStop) + (TuneStages(e) + (AcdStages(e)
            + ([[REQUEST_WRITE, ENABLE_WRITE]] + [ArmPiece(t, cprhStop)])))))
    ensures var pieces, p := Pieces(e, t, cprhStop), ParamsOf(e, t, cprhStop);
            && pieces[0] == [] && pieces[1] == CprhPiece(e, t, cprhStop)
            && pieces[2] == LutWrites(p, LUT_ROWS) && pieces[3] == SequencerLog(p)
  {
    var p := ParamsOf(e, t, cprhStop);
    assert LutStages(e, t, cprhStop) == [LutWrites(p, LUT_ROWS), SequencerLog(p)];
    hide LutStages, CprhPiece, TuneStages, AcdStages, ArmPiece, ParamsOf, Healthy, LutWrites, SequencerLog;
  }

  lemma PiecesGroup(first: seq<Write>, lut: seq<seq<Write>>, tune: seq<seq<Write>>, acd: seq<seq<Write>>, go: seq<Write>,
                    arm: seq<Write>)
    requires |lut| == 2 && |tune| == 4 && |acd| == 3
    ensures |[[]] + ([first] + (lut + (tune + (acd + [go]))))| == 12
    ensures [[]] + ([first] + (lut + (tune + (acd + ([go] + [arm])))))
         == [[]] + ([first] + (lut + (tune + (acd + [go])))) + [arm]
  {
  }

  /** The chain of runs as pieces, with or without ACD. */
  lemma ChainRun(first: seq<Write>, lut: seq<seq<Write>>, tune: seq<seq<Write>>, acd: seq<seq<Write>>, go: seq<Write>,
                 acdRun: Run, arm: Run, stop: int, there: int)
    requires |lut| == 2 && |tune| == 4 && |acd| == 3
    requires (acdRun == Cut(acd, 8, stop) && there == stop)
             || (acdRun == Run([], Done) && acd == [[], [], []] && there == if 8 <= stop <= 10 then 11 else stop)
    ensures Then(Cut([[]], 0, stop), Then(Cut([first], 1, stop), Then(Cut(lut, 2, stop), Then(Cut(tune, 4, stop),
              Then(acdRun, Then(Cut([go], 11, stop), arm))))))
         == Then(Cut([[]] + ([first] + (lut + (tune + (acd + [go])))), 0, there), arm)
  {
    if acdRun == Cut(acd, 8, stop) && there == stop {
      hide *;
      GateChain(first, lut, tune, acd, go, arm, stop);
    } else {
      hide *;
      ChainWithoutAcd(first, lut, tune, go, arm, stop, there);
    }
  }

  lemma ChainWithoutAcd(first: seq<Write>, lut: seq<seq<Write>>, tune: seq<seq<Write>>, go: seq<Write>, arm: Run,
                        stop: int, there: int)
    requires |lut| == 2 && |tune| == 4 && there == if 8 <= stop <= 10 then 11 else stop
    ensures Then(Cut([[]], 0, stop), Then(Cut([first], 1, stop), Then(Cut(lut, 2, stop), Then(Cut(tune, 4, stop),
              Then(Run([], Done), Then(Cut([go], 11, stop), arm))))))
         == Then(Cut([[]] + ([first] + (lut + (tune + ([[], [], []] + [go])))), 0, there), arm)
  {
    var none: seq<seq<Write>> := [[], [], []];
    var rest := Then(Run([], Done), Then(Cut([go], 11, stop), arm));
    hide *;
    JoinCut(lut, tune, 2, rest, stop);
    JoinCut([first], lut + tune, 1, rest, stop);
    JoinCut([[]], [first] + (lut + tune), 0, rest, stop);
    FrontIs(first, lut, tune, none + [go]);
    var front := [[]] + ([first] + (lut + tune));
    WithoutAcd(front, go, arm, stop);
    JoinCut(none, [go], 8, arm, there);
    JoinCut(front, none + [go], 0, arm, there);
  }

  lemma FrontIs(first: seq<Write>, lut: seq<seq<Write>>, tune: seq<seq<Write>>, rest: seq<seq<Write>>)
    requires |lut| == 2 && |tune| == 4
    ensures |[[]] + ([first] + (lut + tune))| == 8
    ensures [[]] + ([first] + (lut + tune)) + rest == [[]] + ([first] + (lut + (tune + rest)))
  {
  }

  /** The first stops: at 1 only the CPRh part is written, at 2 the whole table but no sequencer, at 3 both. */
  lemma FirstStops(e: Env, t: Thread, cprhStop: int)
    requires Healthy(e, t) && Exports(t, cprhStop)
    ensures var s, first := SetupScript(e, t, cprhStop), CprhPiece(e, t, cprhStop);
            var table, sequencer := LutWrites(ParamsOf(e, t, cprhStop), LUT_ROWS), SequencerLog(ParamsOf(e, t, cprhStop));
            && Exec(s, 0).log == []
            && Exec(s, 1).log == first
            && Exec(s, 2).log == first + table
            && Exec(s, 3).log == first + table + sequencer
  {
    assert PiecesWritten(e, 0) == 1 && PiecesWritten(e, 1) == 2 && PiecesWritten(e, 2) == 3 && PiecesWritten(e, 3) == 4;
    hide *;
    StopDecides(e, t, 0, cprhStop);
    StopDecides(e, t, 1, cprhStop);
    StopDecides(e, t, 2, cprhStop);
    StopDecides(e, t, 3, cprhStop);
    var first, p := CprhPiece(e, t, cprhStop), ParamsOf(e, t, cprhStop);
    var table, sequencer, pieces := LutWrites(p, LUT_ROWS), SequencerLog(p), Pieces(e, t, cprhStop);
    PiecesParts(e, t, cprhStop);
    FlatFour(pieces, first, table, sequencer);
  }

  lemma FlatFour(pieces: seq<seq<Write>>, a: seq<Write>, b: seq<Write>, c: seq<Write>)
    requires 4 <= |pieces| && pieces[0] == [] && pieces[1] == a && pieces[2] == b && pieces[3] == c
    ensures Flat(pieces[..1]) == [] && Flat(pieces[..2]) == a && Flat(pieces[..3]) == a + b
    ensures Flat(pieces[..4]) == a + b + c
  {
    assert pieces[..1] == [[]] && pieces[..2] == [[]] + [a];
    assert pieces[..3] == [[]] + [a] + [b] && pieces[..4] == [[]] + [a] + [b] + [c];
    OneFlat([]);
    OneFlat(a);
    OneFlat(b);
    OneFlat(c);
    FlatConcat([[]], [a]);
    FlatConcat([[]] + [a], [b]);
    FlatConcat([[]] + [a] + [b], [c]);
    assert [] + a == a;
  }

  /** The CPRh part writes registers of the CPRh thread only. */
  lemma CprhRegisters(e: Env, t: Thread, cprhStop: int, w: Write)
    requires EnvOk(e) && w in CprhPiece(e, t, cprhStop)
    ensures w.reg.CprReg? || w.reg.CornerRow? || w == Write(OsmInterface, 0)
  {
    if !(w.reg.CprReg? || w.reg.CornerRow? || w == Write(OsmInterface, 0)) {
      NotInCprh(e, t, cprhStop, w);
      OnlyItsWrites(CprhPart(e, t, cprhStop), 0, w);
    }
  }

  lemma NotInCprh(e: Env, t: Thread, cprhStop: int, w: Write)
    requires EnvOk(e) && !(w.reg.CprReg? || w.reg.CornerRow? || w == Write(OsmInterface, 0))
    ensures NeverWrites(CprhPart(e, t, cprhStop), w)
  {
    var a := e.attempt;
    var s5 := CornerPhase(a, cprhStop);
    assert NeverWrites(s5, w);
    var s4 := Puts(a.setup) + if 3 >= cprhStop then [] else s5;
    assert NeverWrites(s4, w);
    hide CornerPhase, Puts, CornerWrites;
    var s3 := [Call(a.computed)] + if 2 >= cprhStop then [] else [Put(Write(OsmInterface, 0))] + s4;
    assert NeverWrites(s3, w);
    var s2 := [Call(a.addTable)] + if 1 >= cprhStop then [] else s3;
    assert NeverWrites(s2, w);
  }
}

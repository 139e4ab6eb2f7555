/**
 * The bring-up protocol: gate semantics of one set-up call, and safety of arming over whole runs
 * in which the clusters retry and interleave freely.
 */
module Bringup {
  import opened Arith
  import opened Wrappers
  import opened Script
  import opened MemAcc
  import opened OsmParams
  import opened OsmScript

  // ------------------------------------------------------------- one set-up call

  /** With the same hardware answers and the same CPRh gate, a lower OSM gate writes a prefix of a higher one. */
  lemma SetupPrefix(e: Env, t: Thread, cprhStop: int, n: int, m: int)
    requires EnvOk(e) && n <= m
    ensures Exec(SetupScript(e, t, cprhStop), n).log <= Exec(SetupScript(e, t, cprhStop), m).log
  {
    GatePrefix(SetupScript(e, t, cprhStop), n, m);
  }

  /** Everything the hardware and the calls are asked for is granted, and the generated table is usable. */
  ghost predicate Healthy(e: Env, t: Thread) {
    && EnvOk(e) && AttemptSucceeds(e.attempt) && e.enableLookup
    && (forall n :: e.hw.scm(n)) && (forall k :: e.hw.transfer(k)) && e.hw.acdMapped && e.hw.autoTransfer
    && (t.inited ==> t.accUV < INT_MAX)
    && var (apm, acc) := if t.inited then (t.apmUV, t.accUV) else (e.attempt.apmUV, e.attempt.accUV);
       var p := ParamsSpec(e.opps, apm, acc, e.cores, e.xoRate);
       p.Some? && 2 <= p.value.numEntries && |Detected(p.value)| == 4
  }

  /** The CPRh side lets the OSM be programmed from phase 2 on, and arms only from 5. */
  predicate Exports(t: Thread, cprhStop: int) { t.inited || cprhStop >= 2 }

  predicate Armable(t: Thread, cprhStop: int) { t.inited || Latches(cprhStop) }

  /** Last gate before the OSM enable write. */
  function GateBeforeEnable(e: Env): int {
    if e.hw.acdRegion || e.acdGated then 10 else 7
  }

  /** What the set-up script does before the start sequence. */
  ghost function BeforeStart(e: Env, t: Thread, cprhStop: int): seq<Action>
    requires EnvOk(e)
  {
    [Gate(0)] + (CprhPart(e, t, cprhStop) + (LutPart(e, ThreadAfter(e, t, cprhStop))
      + (TuningActions(e.soc, e.hw) + AcdActions(e.hw, e.acdGated))))
  }

  lemma ScriptSplit(e: Env, t: Thread, cprhStop: int)
    requires EnvOk(e)
    ensures SetupScript(e, t, cprhStop)
         == BeforeStart(e, t, cprhStop)
            + (StartActions() + ArmActions(ThreadAfter(e, t, cprhStop).inited, e.enableLookup))
  {
    hide CprhPart, LutPart, TuningActions, AcdActions, StartActions, ArmActions;
  }

  lemma CprhPieces(e: Env, t: Thread, cprhStop: int)
    requires AttemptSucceeds(e.attempt)
    requires forall i :: 0 <= i < |e.attempt.setup| ==> e.attempt.setup[i].reg.CprReg?
    ensures var s := CprhPart(e, t, cprhStop);
            && AllSucceed(s) && GateFree(s)
            && (forall i :: 0 <= i < |s| ==>
                  !Writes(s[i], ENABLE_WRITE) && !Writes(s[i], LOOP_WRITE) && !Writes(s[i], INTERFACE_WRITE))
  {
    var a := e.attempt;
    var s5 := CornerPhase(a, cprhStop);
    assert Benign(s5);
    var s4 := Puts(a.setup) + if 3 >= cprhStop then [] else s5;
    assert Benign(s4);
    hide CornerPhase, Puts, CornerWrites;
    var s3 := [Call(a.computed)] + if 2 >= cprhStop then [] else [Put(Write(OsmInterface, 0))] + s4;
    assert Benign(s3);
    var s2 := [Call(a.addTable)] + if 1 >= cprhStop then [] else s3;
    assert Benign(s2);
  }

  /** Succeeds, has no gate, and writes neither the enable register nor an arming value. */
  predicate Benign(s: seq<Action>) {
    forall i :: 0 <= i < |s| ==>
      && Succeeds(s[i]) && !s[i].Gate?
      && !Writes(s[i], ENABLE_WRITE) && !Writes(s[i], LOOP_WRITE) && !Writes(s[i], INTERFACE_WRITE)
  }

  /** Registers that neither start the OSM nor belong to the CPRh thread. */
  predicate Inert(r: Reg) {
    r.Index? || r.Volt? || r.Freq? || r.Override? || r.Spare? || r.Seq1? || r.Sequencer? || r.Tunable? || r.Acd?
  }

  /** Writes only such registers, and latches nothing. */
  predicate Harmless(s: seq<Action>) {
    forall i :: 0 <= i < |s| ==>
      match s[i]
      case Put(w) => Inert(w.reg)
      case Secure(w, _) => Inert(w.reg)
      case Latch(_, _, _, _) => false
      case _ => true
  }

  /** Concatenation keeps harmlessness and success, and takes the higher gate. */
  lemma Joined(a: seq<Action>, b: seq<Action>)
    ensures Harmless(a) && Harmless(b) ==> Harmless(a + b)
    ensures AllSucceed(a) && AllSucceed(b) ==> AllSucceed(a + b)
    ensures TopGate(a + b) == Max(TopGate(a), TopGate(b))
  {
    hide Inert, Succeeds, TopGate;
    TopGateConcat(a, b);
  }

  lemma OneGate(k: nat)
    ensures Harmless([Gate(k)]) && AllSucceed([Gate(k)]) && TopGate([Gate(k)]) == k
  {
    assert [Gate(k)][1..] == [];
  }

  lemma {:induction false} LutHarmless(p: Params, k: nat)
    requires Writable(p)
    ensures Harmless(Puts(LutWrites(p, k)))
  {
    if k > 0 { LutHarmless(p, k - 1); }
  }

  lemma LutPieces(p: Params, hw: Hardware)
    requires p.numEntries <= |p.table| && (p.accVc == U8_MAX || 3 <= p.accVc)
    ensures Harmless(LutActions(p, hw))
    ensures 2 <= p.numEntries && |Detected(p)| == 4 && (forall n :: hw.scm(n)) ==>
              AllSucceed(LutActions(p, hw)) && TopGate(LutActions(p, hw)) == 3
  {
    if 2 <= p.numEntries {
      hide LutWrites, ToU32, Detected, Puts;
      LutHarmless(p, LUT_ROWS);
      var rows := Puts(LutWrites(p, LUT_ROWS));
      if |Detected(p)| == 4 {
        var seqr := SequencerActions(p, hw);
        SequencerPieces(p, hw);
        hide SequencerActions;
        assert LutActions(p, hw) == [Gate(1)] + (rows + ([Gate(2)] + seqr));
        TopGateConcat([Gate(1)], rows + ([Gate(2)] + seqr));
        TopGateConcat(rows, [Gate(2)] + seqr);
        TopGateConcat([Gate(2)], seqr);
        TopGateFree(rows);
      }
    }
  }

  lemma SequencerPieces(p: Params, hw: Hardware)
    requires Writable(p) && |Detected(p)| == 4
    ensures Harmless(SequencerActions(p, hw))
    ensures (forall n :: hw.scm(n)) ==> AllSucceed(SequencerActions(p, hw))
    ensures TopGate(SequencerActions(p, hw)) == 3
  {
    DetectedInTable(p);
    var c := MemAccCorners(p);
    var body := CrossoverWrite(p, hw) + (AccWrites(c, hw) + (LvalWrite(p, c, hw) + ApmWrites(p, hw)));
    assert Harmless(body) && GateFree(body) && ((forall n :: hw.scm(n)) ==> AllSucceed(body)) by {
      hide Detected, Customise, ToU32, LValOf, ApmParam;
    }
    assert SequencerActions(p, hw) == body + [Gate(3)];
    TopGateFree(body);
    TopGateConcat(body, [Gate(3)]);
  }

  lemma TuningPieces(soc: Soc, hw: Hardware)
    ensures Harmless(TuningActions(soc, hw)) && AllSucceed(TuningActions(soc, hw)) && TopGate(TuningActions(soc, hw)) == 7
  {
    var w4, w5, w6, w7 := DcvsWrites(soc), BoostWrites(), DroopWrites(hw), FsmWrites(soc, hw);
    var a4, a5, a6, a7 := Puts(w4) + [Gate(4)], Puts(w5) + [Gate(5)], Puts(w6) + [Gate(6)], Puts(w7) + [Gate(7)];
    PutsGateTop(w4, 4);
    PutsGateTop(w5, 5);
    PutsGateTop(w6, 6);
    PutsGateTop(w7, 7);
    TuningInert(soc, hw);
    hide DcvsWrites, BoostWrites, DroopWrites, FsmWrites, Puts, TopGate;
    TopGateConcat(a4, a5 + (a6 + a7));
    TopGateConcat(a5, a6 + a7);
    TopGateConcat(a6, a7);
  }

  predicate InertWrites(ws: seq<Write>) {
    forall i :: 0 <= i < |ws| ==> Inert(ws[i].reg)
  }

  lemma TuningInert(soc: Soc, hw: Hardware)
    ensures InertWrites(DcvsWrites(soc)) && InertWrites(BoostWrites())
    ensures InertWrites(DroopWrites(hw)) && InertWrites(FsmWrites(soc, hw))
  {
    hide ToU32;
    assert InertWrites(BoostTimer(0x74)) && InertWrites(BoostTimer(0x84)) && InertWrites(BoostTimer(0x94));
  }

  lemma PutsGateTop(ws: seq<Write>, k: nat)
    ensures TopGate(Puts(ws) + [Gate(k)]) == k && AllSucceed(Puts(ws) + [Gate(k)])
  {
    TopGateFree(Puts(ws));
    TopGateConcat(Puts(ws), [Gate(k)]);
    assert TopGate([Gate(k)]) == k by { assert [Gate(k)][1..] == []; }
  }

  lemma AcdPieces(hw: Hardware, gated: bool)
    ensures Harmless(AcdActions(hw, gated))
    ensures hw.acdMapped && hw.autoTransfer && (forall k :: hw.transfer(k)) ==> AllSucceed(AcdActions(hw, gated))
    ensures !hw.acdRegion || hw.acdMapped ==>
              TopGate(AcdActions(hw, gated)) == if hw.acdRegion || gated then 10 else -1
  {
    OneGate(10);
    if hw.acdRegion && hw.acdMapped {
      var regs, auto, mux, fin := Puts(AcdRegWrites()), AutoTransfer(hw), Transfer(0, 0x3C, 1, hw), AcdFinish(hw);
      FirstPieces(hw);
      TransferPiece(0, 0x3C, 1, hw);
      FinishPieces(hw);
      TopGateFree(regs);
      TopGateFree(auto);
      TopGateFree(mux);
      OneGate(8);
      OneGate(9);
      hide AutoTransfer, Transfer, AcdRegWrites, Puts, AcdFinish, Harmless, AllSucceed, TopGate;
      Joined([Gate(9)], fin);
      Joined(mux, [Gate(9)] + fin);
      Joined([Gate(8)], mux + ([Gate(9)] + fin));
      Joined(auto, [Gate(8)] + (mux + ([Gate(9)] + fin)));
      Joined(regs, auto + ([Gate(8)] + (mux + ([Gate(9)] + fin))));
    }
  }

  lemma FirstPieces(hw: Hardware)
    ensures Harmless(Puts(AcdRegWrites())) && GateFree(Puts(AcdRegWrites())) && AllSucceed(Puts(AcdRegWrites()))
    ensures Harmless(AutoTransfer(hw)) && GateFree(AutoTransfer(hw)) && (hw.autoTransfer ==> AllSucceed(AutoTransfer(hw)))
  {
  }

  lemma FinishPieces(hw: Hardware)
    ensures Harmless(AcdFinish(hw)) && TopGate(AcdFinish(hw)) == 10
    ensures (forall k :: hw.transfer(k)) ==> AllSucceed(AcdFinish(hw))
  {
    var t1, t2, t3 := Transfer(1, 0x34, 1, hw), Transfer(2, 0x34, 0, hw), Transfer(3, 0x30, 0x2cf9afe, hw);
    var last := [Put(Write(Acd(0x80), ACD_MASK + 0x8000)), Gate(10)];
    TransferPiece(1, 0x34, 1, hw);
    TransferPiece(2, 0x34, 0, hw);
    TransferPiece(3, 0x30, 0x2cf9afe, hw);
    assert TopGate(last) == 10 by { assert last[1..] == [Gate(10)] && [Gate(10)][1..] == []; }
    hide Transfer;
    TopGateFree(t1);
    TopGateFree(t2);
    TopGateFree(t3);
    TopGateConcat(t1, t2 + (t3 + last));
    TopGateConcat(t2, t3 + last);
    TopGateConcat(t3, last);
  }

  lemma TransferPiece(k: nat, reg: nat, val: u32, hw: Hardware)
    requires reg < 0x100
    ensures var s := Transfer(k, reg, val, hw); Harmless(s) && GateFree(s) && (hw.transfer(k) ==> AllSucceed(s))
  {
  }

  // ------------------------------------------------------------ what the gates decide

  /** The script reaches the start sequence exactly when its CPRh part exports thresholds and the gates before it are open. */
  lemma ReachesStart(e: Env, t: Thread, osmStop: int, cprhStop: int)
    requires Healthy(e, t)
    ensures Exec(BeforeStart(e, t, cprhStop), osmStop).out == Done
            <==> Exports(t, cprhStop) && osmStop > GateBeforeEnable(e)
  {
    var s := BeforeStart(e, t, cprhStop);
    if !Exports(t, cprhStop) {
      StopsWithoutThresholds(e, t, osmStop, cprhStop);
    } else if osmStop < 0 {
      ClosedAtZero(s, osmStop);
    } else {
      BeforeStartGates(e, t, cprhStop);
      hide BeforeStart;
      DoneIff(s, osmStop);
    }
  }

  lemma BeforeStartGates(e: Env, t: Thread, cprhStop: int)
    requires Healthy(e, t) && Exports(t, cprhStop)
    ensures AllSucceed(BeforeStart(e, t, cprhStop)) && TopGate(BeforeStart(e, t, cprhStop)) == GateBeforeEnable(e)
  {
    var cprh, lut := CprhPart(e, t, cprhStop), LutPart(e, ThreadAfter(e, t, cprhStop));
    var tune, acd := TuningActions(e.soc, e.hw), AcdActions(e.hw, e.acdGated);
    CprhPieces(e, t, cprhStop);
    TopGateFree(cprh);
    TuningPieces(e.soc, e.hw);
    AcdPieces(e.hw, e.acdGated);
    HealthyLut(e, t, cprhStop);
    OneGate(0);
    hide CprhPart, TuningActions, AcdActions, LutActions, LutPart, Detected, AllSucceed, TopGate, Harmless;
    Joined(tune, acd);
    Joined(lut, tune + acd);
    Joined(cprh, lut + (tune + acd));
    Joined([Gate(0)], cprh + (lut + (tune + acd)));
  }

  lemma StopsWithoutThresholds(e: Env, t: Thread, osmStop: int, cprhStop: int)
    requires EnvOk(e) && !Exports(t, cprhStop)
    ensures Exec(BeforeStart(e, t, cprhStop), osmStop).out != Done
  {
    var cprh, lut := CprhPart(e, t, cprhStop), LutPart(e, ThreadAfter(e, t, cprhStop));
    var tune, acd := TuningActions(e.soc, e.hw), AcdActions(e.hw, e.acdGated);
    NoThresholds(e, t, cprhStop);
    CallFails(osmStop);
    hide CprhPart, TuningActions, AcdActions, LutPart, Exec;
    ExecConcat([Gate(0)], cprh + (lut + (tune + acd)), osmStop);
    ExecConcat(cprh, lut + (tune + acd), osmStop);
    ExecConcat(lut, tune + acd, osmStop);
  }

  lemma ClosedAtZero(s: seq<Action>, stop: int)
    requires 0 < |s| && s[0] == Gate(0) && stop < 0
    ensures Exec(s, stop).out == Stopped
  {
  }

  lemma CallFails(stop: int)
    ensures Exec([Call(false)], stop).out == Failed
  {
  }

  /** Below phase 2 a fresh thread exports no APM threshold, and parameter generation fails. */
  lemma NoThresholds(e: Env, t: Thread, cprhStop: int)
    requires EnvOk(e) && !Exports(t, cprhStop)
    ensures LutPart(e, ThreadAfter(e, t, cprhStop)) == [Call(false)]
  {
    hide LutActions;
  }

  lemma HealthyLut(e: Env, t: Thread, cprhStop: int)
    requires Healthy(e, t) && Exports(t, cprhStop)
    ensures var s := LutPart(e, ThreadAfter(e, t, cprhStop)); AllSucceed(s) && TopGate(s) == 3 && Harmless(s)
  {
    var t1 := ThreadAfter(e, t, cprhStop);
    var p := ParamsSpec(e.opps, t1.apmUV, t1.accUV, e.cores, e.xoRate);
    LutPieces(p.value, e.hw);
    hide LutActions, Detected;
  }

  predicate NeverWrites(s: seq<Action>, w: Write) {
    forall i :: 0 <= i < |s| ==> !Writes(s[i], w)
  }

  lemma NeverBoth(a: seq<Action>, b: seq<Action>, w: Write)
    requires NeverWrites(a, w) && NeverWrites(b, w)
    ensures NeverWrites(a + b, w)
  {
    hide Writes;
  }

  lemma NotWriting(s: seq<Action>, w: Write)
    requires Harmless(s) && !Inert(w.reg)
    ensures NeverWrites(s, w)
  {
  }

  /** Outside its CPRh part, what precedes the start writes no enable, arming or corner register. */
  lemma BeforeStartNever(e: Env, t: Thread, cprhStop: int, w: Write)
    requires EnvOk(e) && !Inert(w.reg) && NeverWrites(CprhPart(e, t, cprhStop), w)
    ensures NeverWrites(BeforeStart(e, t, cprhStop), w)
  {
    var cprh, lut := CprhPart(e, t, cprhStop), LutPart(e, ThreadAfter(e, t, cprhStop));
    var tune, acd := TuningActions(e.soc, e.hw), AcdActions(e.hw, e.acdGated);
    TuningPieces(e.soc, e.hw);
    AcdPieces(e.hw, e.acdGated);
    LutHarmlessPart(e, t, cprhStop);
    NotWriting(tune, w);
    NotWriting(acd, w);
    NotWriting(lut, w);
    assert NeverWrites([Gate(0)], w);
    hide CprhPart, TuningActions, AcdActions, LutPart, Harmless, NeverWrites;
    NeverBoth(tune, acd, w);
    NeverBoth(lut, tune + acd, w);
    NeverBoth(cprh, lut + (tune + acd), w);
    NeverBoth([Gate(0)], cprh + (lut + (tune + acd)), w);
  }

  lemma BeforeStartWritesNone(e: Env, t: Thread, osmStop: int, cprhStop: int, w: Write)
    requires Healthy(e, t) && w in {ENABLE_WRITE, LOOP_WRITE, INTERFACE_WRITE}
    ensures w !in Exec(BeforeStart(e, t, cprhStop), osmStop).log
  {
    CprhPieces(e, t, cprhStop);
    hide CprhPart, BeforeStart, Exec, LutPart;
    BeforeStartNever(e, t, cprhStop, w);
    OnlyItsWrites(BeforeStart(e, t, cprhStop), osmStop, w);
  }

  /** The start sequence and the arming after it. */
  lemma StartThenArm(inited: bool, stop: int)
    ensures var log := Exec(StartActions() + ArmActions(inited, true), stop).log;
            && ENABLE_WRITE in log
            && (LOOP_WRITE in log <==> inited && stop >= 12)
            && (INTERFACE_WRITE in log <==> inited && stop >= 12)
  {
    var arm := ArmActions(inited, true);
    PutsThenGate([REQUEST_WRITE, ENABLE_WRITE], 11, stop);
    assert StartActions() == Puts([REQUEST_WRITE, ENABLE_WRITE]) + [Gate(11)];
    ExecConcat(StartActions(), arm, stop);
    if inited {
      assert arm == Puts([LOOP_WRITE, INTERFACE_WRITE]);
      ExecPuts([LOOP_WRITE, INTERFACE_WRITE], stop);
    } else {
      assert Exec(arm, stop) == Run([], Failed);
    }
  }

  /**
   * What the two gates decide when every call succeeds: the OSM enable write happens exactly when the
   * CPRh gate is 2 or more and the OSM gate is past 10 (past 7 without an ACD region, unless that path is
   * gated too); the loop and the interface are turned on exactly when the CPRh gate is 5 or more and the
   * OSM gate 12 or more. A thread that was set up before does not depend on the CPRh gate.
   */
  lemma GatesDecide(e: Env, t: Thread, osmStop: int, cprhStop: int)
    requires Healthy(e, t)
    ensures var log := Exec(SetupScript(e, t, cprhStop), osmStop).log;
            && (ENABLE_WRITE in log <==> Exports(t, cprhStop) && osmStop > GateBeforeEnable(e))
            && (LOOP_WRITE in log <==> Armable(t, cprhStop) && osmStop >= 12)
            && (INTERFACE_WRITE in log <==> Armable(t, cprhStop) && osmStop >= 12)
  {
    var before, inited := BeforeStart(e, t, cprhStop), ThreadAfter(e, t, cprhStop).inited;
    var rest := StartActions() + ArmActions(inited, true);
    ScriptSplit(e, t, cprhStop);
    ReachesStart(e, t, osmStop, cprhStop);
    BeforeStartWritesNone(e, t, osmStop, cprhStop, ENABLE_WRITE);
    BeforeStartWritesNone(e, t, osmStop, cprhStop, LOOP_WRITE);
    BeforeStartWritesNone(e, t, osmStop, cprhStop, INTERFACE_WRITE);
    StartThenArm(inited, osmStop);
    hide Exec, BeforeStart, SetupScript, StartActions, ArmActions;
    ExecConcat(before, rest, osmStop);
  }

  /**
   * Stopping the CPRh set-up at phase 2 or 3 still hands the thresholds out, so the OSM is programmed and
   * enabled over a controller whose corner table was never written.
   */
  lemma EnabledWithoutTable(e: Env, osmStop: int, cprhStop: int)
    requires Healthy(e, FRESH) && osmStop >= 11 && cprhStop in {2, 3}
    ensures var log := Exec(SetupScript(e, FRESH, cprhStop), osmStop).log;
            ENABLE_WRITE in log && forall r: nat, v: u32 :: Write(CornerRow(r), v) !in log
  {
    GatesDecide(e, FRESH, osmStop, cprhStop);
    forall r: nat, v: u32 ensures Write(CornerRow(r), v) !in Exec(SetupScript(e, FRESH, cprhStop), osmStop).log {
      NoRowsBelow4(e, osmStop, cprhStop, Write(CornerRow(r), v));
    }
  }

  lemma NoRowsBelow4(e: Env, osmStop: int, cprhStop: int, w: Write)
    requires EnvOk(e) && w.reg.CornerRow? && cprhStop < 4
    ensures w !in Exec(SetupScript(e, FRESH, cprhStop), osmStop).log
  {
    var before, rest := BeforeStart(e, FRESH, cprhStop), StartActions() + ArmActions(false, e.enableLookup);
    assert !ThreadAfter(e, FRESH, cprhStop).inited;
    ScriptSplit(e, FRESH, cprhStop);
    CprhPartBelow4(e, cprhStop, w);
    hide StartActions, ArmActions, CprhPart, BeforeStart, SetupScript, Exec, LutPart;
    BeforeStartNever(e, FRESH, cprhStop, w);
    NeverBoth(before, rest, w);
    OnlyItsWrites(before + rest, osmStop, w);
  }

  lemma CprhPartBelow4(e: Env, cprhStop: int, w: Write)
    requires w.reg.CornerRow? && cprhStop < 4
    requires forall i :: 0 <= i < |e.attempt.setup| ==> e.attempt.setup[i].reg.CprReg?
    ensures NeverWrites(CprhPart(e, FRESH, cprhStop), w)
    ensures NeverWrites(StartActions() + ArmActions(false, e.enableLookup), w)
  {
    var a := e.attempt;
    var regs := if 2 >= cprhStop then [] else [Put(Write(OsmInterface, 0))] + (Puts(a.setup) + []);
    assert NeverWrites(regs, w);
    var s2 := if 1 >= cprhStop then [] else [Call(a.computed)] + regs;
    var s1 := if 0 >= cprhStop then [] else [Call(a.addTable)] + s2;
    assert CprhPart(e, FRESH, cprhStop) == [Call(a.lookup)] + ([Call(a.alloc)] + s1) by { hide Puts, CornerPhase; }
    hide CprhPart, Puts;
    OneCall(a.computed, regs, w);
    OneCall(a.addTable, s2, w);
    OneCall(a.alloc, s1, w);
    OneCall(a.lookup, [Call(a.alloc)] + s1, w);
  }

  lemma OneCall(ok: bool, rest: seq<Action>, w: Write)
    requires NeverWrites(rest, w)
    ensures NeverWrites([Call(ok)] + rest, w)
  {
  }

  /** Without failures and gates a script issues every write it holds. */
  lemma {:induction false} EveryWrite(s: seq<Action>, stop: int, w: Write)
    requires AllSucceed(s) && GateFree(s) && !NeverWrites(s, w)
    ensures w in Exec(s, stop).log
  {
    assert Succeeds(s[0]) && !s[0].Gate?;
    if !Writes(s[0], w) {
      assert AllSucceed(s[1..]) && GateFree(s[1..]);
      var i :| 0 <= i < |s| && Writes(s[i], w);
      assert Writes(s[1..][i - 1], w);
      EveryWrite(s[1..], stop, w);
    }
  }

  lemma StillWrites(a: seq<Action>, b: seq<Action>, w: Write)
    requires !NeverWrites(a, w) || !NeverWrites(b, w)
    ensures !NeverWrites(a + b, w)
  {
    if !NeverWrites(a, w) {
      var i :| 0 <= i < |a| && Writes(a[i], w);
      assert Writes((a + b)[i], w);
    } else {
      var i :| 0 <= i < |b| && Writes(b[i], w);
      assert Writes((a + b)[|a| + i], w);
    }
  }

  /** From phase 4 on the CPRh part of a fresh thread holds every corner row. */
  lemma CprhPartFrom4(e: Env, cprhStop: int, r: nat)
    requires cprhStop >= 4 && r < |e.attempt.rows|
    ensures !NeverWrites(CprhPart(e, FRESH, cprhStop), Write(CornerRow(r), e.attempt.rows[r]))
  {
    var a, w := e.attempt, Write(CornerRow(r), e.attempt.rows[r]);
    var rows := Puts(CornerWrites(a.rows));
    assert Writes(rows[r], w);
    var latch := [Call(|a.rows| == a.total)] + if 4 >= cprhStop then [] else [Latch(a.apmUV, a.accUV, a.rows, a.total)];
    var setup := [Put(Write(OsmInterface, 0))];
    assert CprhPart(e, FRESH, cprhStop)
        == [Call(a.lookup)] + ([Call(a.alloc)] + ([Call(a.addTable)] + ([Call(a.computed)]
           + (setup + (Puts(a.setup) + (rows + latch))))));
    hide *;
    assert !NeverWrites(rows, w) by { WritesAt(rows, r, w); }
    StillWrites(rows, latch, w);
    StillWrites(Puts(a.setup), rows + latch, w);
    StillWrites(setup, Puts(a.setup) + (rows + latch), w);
    StillWrites([Call(a.computed)], setup + (Puts(a.setup) + (rows + latch)), w);
    StillWrites([Call(a.addTable)], [Call(a.computed)] + (setup + (Puts(a.setup) + (rows + latch))), w);
    StillWrites([Call(a.alloc)], [Call(a.addTable)] + ([Call(a.computed)] + (setup + (Puts(a.setup) + (rows + latch)))), w);
    StillWrites([Call(a.lookup)], [Call(a.alloc)] + ([Call(a.addTable)]
      + ([Call(a.computed)] + (setup + (Puts(a.setup) + (rows + latch))))), w);
  }

  lemma WritesAt(s: seq<Action>, i: nat, w: Write)
    requires i < |s| && Writes(s[i], w)
    ensures !NeverWrites(s, w)
  {
  }

  /** When every call succeeds, a fresh thread's corner table is written exactly from CPRh gate 4 on, past OSM gate 0. */
  lemma RowsWrittenIff(e: Env, osmStop: int, cprhStop: int, r: nat)
    requires Healthy(e, FRESH) && r < |e.attempt.rows|
    ensures Write(CornerRow(r), e.attempt.rows[r]) in Exec(SetupScript(e, FRESH, cprhStop), osmStop).log
            <==> cprhStop >= 4 && osmStop >= 1
  {
    var w := Write(CornerRow(r), e.attempt.rows[r]);
    assert SetupScript(e, FRESH, cprhStop)
        == [Gate(0)] + (CprhPart(e, FRESH, cprhStop) + OsmPart(e, ThreadAfter(e, FRESH, cprhStop)));
    if osmStop < 1 {
      StoppedAtZero(SetupScript(e, FRESH, cprhStop), osmStop);
    } else if cprhStop < 4 {
      NoRowsBelow4(e, osmStop, cprhStop, w);
    } else {
      CprhPieces(e, FRESH, cprhStop);
      CprhPartFrom4(e, cprhStop, r);
      hide *;
      WrittenFirst(CprhPart(e, FRESH, cprhStop), OsmPart(e, ThreadAfter(e, FRESH, cprhStop)), osmStop, w);
    }
  }

  lemma WrittenFirst(first: seq<Action>, rest: seq<Action>, stop: int, w: Write)
    requires AllSucceed(first) && GateFree(first) && !NeverWrites(first, w) && stop >= 1
    ensures w in Exec([Gate(0)] + (first + rest), stop).log
  {
    assert Exec([Gate(0)], stop) == Run([], Done) by { assert [Gate(0)][1..] == []; }
    EveryWrite(first, stop, w);
    hide Exec, AllSucceed, GateFree, NeverWrites;
    ExecConcat([Gate(0)], first + rest, stop);
    ExecConcat(first, rest, stop);
  }

  lemma StoppedAtZero(s: seq<Action>, stop: int)
    requires 0 < |s| && s[0] == Gate(0) && stop < 1
    ensures Exec(s, stop).log == []
  {
  }

  /** At CPRh gate 4 the whole table is written, but neither the loop nor the interface is turned on. */
  lemma TableWithoutArming(e: Env, osmStop: int)
    requires Healthy(e, FRESH) && osmStop >= 1
    ensures var log := Exec(SetupScript(e, FRESH, 4), osmStop).log;
            && (forall r :: 0 <= r < |e.attempt.rows| ==> Write(CornerRow(r), e.attempt.rows[r]) in log)
            && LOOP_WRITE !in log && INTERFACE_WRITE !in log
  {
    GatesDecide(e, FRESH, osmStop, 4);
    forall r | 0 <= r < |e.attempt.rows|
      ensures Write(CornerRow(r), e.attempt.rows[r]) in Exec(SetupScript(e, FRESH, 4), osmStop).log
    {
      RowsWrittenIff(e, osmStop, 4, r);
    }
  }

  lemma LutHarmlessPart(e: Env, t: Thread, cprhStop: int)
    requires EnvOk(e)
    ensures Harmless(LutPart(e, ThreadAfter(e, t, cprhStop)))
  {
    var t1 := ThreadAfter(e, t, cprhStop);
    match ParamsSpec(e.opps, t1.apmUV, t1.accUV, e.cores, e.xoRate)
    case None =>
    case Some(p) =>
      LutPieces(p, e.hw);
      hide LutActions;
  }
}

/**
 * The drivers' code for one CPU cluster: corner set-up, OSM programming and arming, in place and
 * step by step, proved to issue exactly the writes of the scripts.
 */
module OsmProgram {
  import opened Arith
  import opened Bits
  import opened Script
  import opened MemAcc
  import opened OsmParams
  import opened OsmScript

  /** The bring-up instrument: true when nothing after `step` may run. */
  predicate StopAfter(step: int, stop: int) { step >= stop }

  class Cluster {
    /** Every register write of the cluster, oldest first. */
    var log: seq<Write>
    var thread: Thread

    constructor ()
      ensures log == [] && thread == FRESH
    {
      log, thread := [], FRESH;
    }

    method Writel(reg: Reg, val: u32)
      modifies this`log
      ensures log == old(log) + [Write(reg, val)]
    {
      log := log + [Write(reg, val)];
    }

    /** A write through the secure monitor, which may refuse it. */
    method ScmWritel(n: nat, val: int, hw: Hardware) returns (ok: bool)
      modifies this`log
      ensures log == old(log) + [Write(Sequencer(n), ToU32(val))] && ok == hw.scm(n)
    {
      log := log + [Write(Sequencer(n), ToU32(val))];
      ok := hw.scm(n);
    }

    /** The five registers of one table row. */
    method WriteRow(i: nat, entry: HwParams)
      modifies this`log
      ensures log == old(log) + RowWrites(i, entry)
    {
      Writel(Index(i), ToU32(i));
      Writel(Volt(i), ToU32(entry.volt));
      Writel(Freq(i), ToU32(entry.freq));
      Writel(Override(i), entry.override);
      Writel(Spare(i), entry.spare);
    }

    /** Writes the 40 table rows and records MEM-ACC pairs on the way. */
    method FillTable(p: Params, accVal: array<int>) returns (accIdx: nat)
      requires Writable(p) && accVal.Length == 4
      modifies this`log, accVal
      ensures log == old(log) + LutWrites(p, LUT_ROWS)
      ensures accIdx == |Detected(p)| && accVal[..accIdx] == Detected(p)
    {
      hide RowWrites, ToU32, SparesOf;
      ghost var spares := SparesOf(p);
      var lastSpare := 1;
      accIdx := 0;
      for i := 0 to LUT_ROWS
        invariant log == old(log) + LutWrites(p, i)
        invariant accIdx == |AccRun(spares, i).vals| && accIdx <= 4
        invariant accVal[..accIdx] == AccRun(spares, i).vals
        invariant lastSpare == AccRun(spares, i).last
      {
        var entry := if i < p.numEntries then p.table[i] else p.table[p.numEntries - 1];
        WriteRow(i, entry);
        if entry.spare <= lastSpare || accIdx >= 3 { continue; }
        lastSpare := entry.spare;
        accVal[accIdx] := i - 1;
        accIdx := accIdx + 1;
        accVal[accIdx] := i;
        accIdx := accIdx + 1;
      }
    }

    /** Custom MEM-ACC corner: moves the recorded corners in place. */
    method CustomiseCorners(accVal: array<int>, accVc: int)
      requires accVal.Length == 4
      modifies accVal
      ensures accVal[..] == Customise(old(accVal[..]), accVc)
    {
      var vc := accVc - 1;
      if vc < accVal[3] {
        accVal[2] := vc - 1;
        accVal[3] := vc;
      }
      if accVal[2] <= accVal[1] { accVal[1] := accVal[2] - 1; }
      if accVal[1] <= accVal[0] { accVal[0] := accVal[1] - 1; }
      assert accVal[..] == [accVal[0], accVal[1], accVal[2], accVal[3]];
    }

    /** The four corner registers; the first refused write ends the set-up. */
    method WriteCorners(accVal: array<int>, hw: Hardware) returns (ok: bool)
      requires accVal.Length == 4
      modifies this`log
      ensures var r := Exec(AccWrites(accVal[..], hw), 0);
              log == old(log) + r.log && ok == (r.out == Done) && (!ok ==> r.out == Failed)
      ensures forall stop :: Exec(AccWrites(accVal[..], hw), stop) == Exec(AccWrites(accVal[..], hw), 0)
    {
      ghost var s := AccWrites(accVal[..], hw);
      forall stop ensures Exec(s, stop) == Exec(s, 0) { NoGates(s, stop, 0); }
      ghost var whole := Onto(log, s, 0);
      assert s[0..] == s;
      for i := 0 to 4
        invariant Progress(whole, log, s[i..], 0)
      {
        assert s[i..] == [s[i]] + s[i + 1..] && s[i] == SecureSeq(55 + i, accVal[i], hw);
        Advance(whole, log, s[i], s[i + 1..], 0);
        ok := ScmWritel(55 + i, accVal[i], hw);
        if !ok { return; }
      }
      assert s[4..] == [];
      Finish(whole, log, 0);
      ok := true;
    }

    /** The APM corner registers and the third gate. */
    method WriteApm(p: Params, hw: Hardware, stop: int) returns (out: Outcome)
      modifies this`log
      ensures var r := Exec(ApmWrites(p, hw) + [Gate(3)], stop); log == old(log) + r.log && out == r.out
    {
      var apmVc := p.apmVc;
      if apmVc == INT_MAX { apmVc := LUT_ROWS - 1; }
      var param := ApmParam(apmVc);
      ghost var a := ApmWrites(p, hw);
      assert a[0] == Put(Write(Seq1, ToU32(apmVc)));
      assert a[1] == SecureSeq(72, p.numEntries, hw) && a[2] == SecureSeq(15, apmVc, hw);
      assert a[3] == SecureSeq(31, apmVc - 1, hw) && a[4] == SecureSeq(76, param, hw);
      ghost var whole := Onto(log, a + [Gate(3)], stop);
      ghost var r5 := [Gate(3)];
      ghost var r4 := [a[4]] + r5;
      ghost var r3 := [a[3]] + r4;
      ghost var r2 := [a[2]] + r3;
      ghost var r1 := [a[1]] + r2;
      assert a + [Gate(3)] == [a[0]] + r1;
      hide Exec, ApmParam, Progress, ToU32, ApmWrites, ApmCorner;
      Advance(whole, log, a[0], r1, stop);
      Writel(Seq1, ToU32(apmVc));
      Advance(whole, log, a[1], r2, stop);
      var ok := ScmWritel(72, p.numEntries, hw);
      if !ok { return Failed; }
      Advance(whole, log, a[2], r3, stop);
      ok := ScmWritel(15, apmVc, hw);
      if !ok { return Failed; }
      Advance(whole, log, a[3], r4, stop);
      ok := ScmWritel(31, apmVc - 1, hw);
      if !ok { return Failed; }
      Advance(whole, log, a[4], r5, stop);
      ok := ScmWritel(76, param, hw);
      if !ok { return Failed; }
      assert r5 == [Gate(3)] + [];
      Advance(whole, log, Gate(3), [], stop);
      if StopAfter(3, stop) { return Stopped; }
      Finish(whole, log, stop);
      return Done;
    }

    /** MEM-ACC and APM crossovers, through the secure monitor. */
    method ProgramSequencer(p: Params, accVal: array<int>, hw: Hardware, stop: int) returns (out: Outcome)
      requires Writable(p) && |Detected(p)| == 4 && accVal.Length == 4 && accVal[..] == Detected(p)
      modifies this`log, accVal
      ensures var r := Exec(SequencerActions(p, hw), stop); log == old(log) + r.log && out == r.out
    {
      DetectedInTable(p);
      ghost var c := MemAccCorners(p);
      ghost var rest4 := ApmWrites(p, hw) + [Gate(3)];
      ghost var rest3 := LvalWrite(p, c, hw) + rest4;
      ghost var rest2 := AccWrites(c, hw) + rest3;
      ghost var s := CrossoverWrite(p, hw) + rest2;
      ghost var whole := Onto(log, s, stop);
      hide Exec, Progress, ToU32, ApmWrites, AccWrites, LValOf;
      if p.accVc > 0 && p.accVc != U8_MAX {
        Advance(whole, log, SecureSeq(88, p.numEntries + 1, hw), rest2, stop);
        var ok := ScmWritel(88, p.numEntries + 1, hw);
        if !ok { return Failed; }
        CustomiseCorners(accVal, p.accVc);
      } else {
        assert s == rest2;
      }
      assert accVal[..] == c;
      AdvanceBy(whole, log, AccWrites(c, hw), rest3, stop);
      var wrote := WriteCorners(accVal, hw);
      if !wrote { return Failed; }
      var lval := LValOf(p.table[accVal[3]].freq);
      assert accVal[3] == c[3] by { assert accVal[..][3] == c[3]; }
      Advance(whole, log, SecureSeq(32, lval, hw), rest4, stop);
      wrote := ScmWritel(32, lval, hw);
      if !wrote { return Failed; }
      AdvanceBy(whole, log, rest4, [], stop) by { assert rest4 + [] == rest4; }
      out := WriteApm(p, hw, stop);
      if out == Done { Finish(whole, log, stop); }
    }

    /** qcom_cpufreq_hw_write_lut() once its parameters are generated. */
    method WriteLut(p: Params, hw: Hardware, stop: int) returns (out: Outcome)
      requires p.numEntries <= |p.table| && (p.accVc == U8_MAX || 3 <= p.accVc)
      modifies this`log
      ensures var r := Exec(LutActions(p, hw), stop); log == old(log) + r.log && out == r.out
    {
      ghost var s := LutActions(p, hw);
      ghost var whole := Onto(log, s, stop);
      if p.numEntries < 2 {
        assert s == [Call(false)] + [];
        Advance(whole, log, Call(false), [], stop);
        return Failed;
      }
      ghost var tail := if |Detected(p)| < 3 then [Call(false)] else [Gate(2)] + SequencerActions(p, hw);
      hide Exec, Progress, Detected, SequencerActions, LutWrites;
      Advance(whole, log, Gate(1), Puts(LutWrites(p, LUT_ROWS)) + tail, stop);
      if StopAfter(1, stop) { return Stopped; }
      ghost var rows := LutWrites(p, LUT_ROWS);
      AdvanceBy(whole, log, Puts(rows), tail, stop);
      ExecPuts(rows, stop);
      var accVal := new int[4](_ => 0);
      var accIdx := FillTable(p, accVal);
      if accIdx < 3 {
        assert tail == [Call(false)] + [];
        Advance(whole, log, Call(false), [], stop);
        return Failed;
      }
      Advance(whole, log, Gate(2), SequencerActions(p, hw), stop);
      if StopAfter(2, stop) { return Stopped; }
      AdvanceBy(whole, log, SequencerActions(p, hw), [], stop) by {
        assert SequencerActions(p, hw) + [] == SequencerActions(p, hw);
      }
      out := ProgramSequencer(p, accVal, hw, stop);
      if out == Done { Finish(whole, log, stop); }
    }

    /** Cycle counter, hysteresis, and core-count and LLM DCVS policy. */
    method DcvsPolicy(soc: Soc)
      modifies this`log
      ensures log == old(log) + DcvsWrites(soc)
    {
      Writel(Tunable(0xF00), 275);
      Writel(Tunable(0x1C), Timer(200, 200));
      Writel(Tunable(0x0C), soc.ccZeroBehav);
      Writel(Tunable(0x24), 0);
      Writel(Tunable(0x20), 0);
      Writel(Tunable(0x2C), Timer(65535, 65535));
      Writel(Tunable(0x30), Timer(65535, 65535));
      Writel(Tunable(0x34), 0);
    }

    /** qcom_cpufreq_hw_boost_setup() */
    method BoostSetup(base: nat)
      modifies this`log
      ensures log == old(log) + BoostTimer(base)
    {
      Writel(Tunable(base), Timer(2000, 1000));
      Writel(Tunable(base + 4), Timer(2000, 2000));
      Writel(Tunable(base + 8), Timer(200, 0));
    }

    method BoostTimers()
      modifies this`log
      ensures log == old(log) + BoostWrites()
    {
      hide BoostTimer;
      BoostSetup(0x74);
      BoostSetup(0x84);
      BoostSetup(0x94);
      Writel(Tunable(0xA0), 5);
    }

    /** Droop timers; the control register keeps the bits it had. */
    method DroopTimers(hw: Hardware)
      modifies this`log
      ensures log == old(log) + DroopWrites(hw)
    {
      hide BitOr;
      Writel(Tunable(0xAC), Timer(100, 100));
      Writel(Tunable(0xB0), Timer(50, 50));
      Writel(Tunable(0xBC), 1);
      Writel(Tunable(0xA8), 1);
      Writel(Tunable(0xB8), 100);
      Writel(Tunable(0xA4), ToU32(BitOr(hw.droopCtrl, DROOP_CTRL)));
    }

    method EnableFsms(soc: Soc, hw: Hardware)
      modifies this`log
      ensures log == old(log) + FsmWrites(soc, hw)
    {
      hide BitOr;
      Writel(Tunable(0x70), ToU32(BitOr(hw.pdnFsmCtrl, soc.pdnFsmEn)));
      Writel(Tunable(0xC0), 1);
    }

    /** Steps 4 to 7 of qcom_cpufreq_hw_osm_setup(). */
    method Tune(soc: Soc, hw: Hardware, stop: int) returns (out: Outcome)
      modifies this`log
      ensures var r := Exec(TuningActions(soc, hw), stop); log == old(log) + r.log && out == r.out
    {
      ghost var a4, a5 := Puts(DcvsWrites(soc)) + [Gate(4)], Puts(BoostWrites()) + [Gate(5)];
      ghost var a6, a7 := Puts(DroopWrites(hw)) + [Gate(6)], Puts(FsmWrites(soc, hw)) + [Gate(7)];
      ghost var whole := Onto(log, TuningActions(soc, hw), stop);
      hide Exec, Progress, DcvsWrites, BoostWrites, DroopWrites, FsmWrites, Puts;
      PutsThenGate(DcvsWrites(soc), 4, stop);
      AdvanceBy(whole, log, a4, a5 + (a6 + a7), stop);
      DcvsPolicy(soc);
      if StopAfter(4, stop) { return Stopped; }
      PutsThenGate(BoostWrites(), 5, stop);
      AdvanceBy(whole, log, a5, a6 + a7, stop);
      BoostTimers();
      if StopAfter(5, stop) { return Stopped; }
      PutsThenGate(DroopWrites(hw), 6, stop);
      AdvanceBy(whole, log, a6, a7, stop);
      DroopTimers(hw);
      if StopAfter(6, stop) { return Stopped; }
      PutsThenGate(FsmWrites(soc, hw), 7, stop);
      AdvanceBy(whole, log, a7, [], stop) by { assert a7 + [] == a7; }
      EnableFsms(soc, hw);
      if StopAfter(7, stop) { return Stopped; }
      Finish(whole, log, stop);
      return Done;
    }

    /** qcom_cpufreq_hw_acd_write_autoxfer() */
    method AcdAutoTransfer(hw: Hardware) returns (ok: bool)
      modifies this`log
      ensures log == old(log) + [Write(Acd(0x80), ACD_MASK), Write(Acd(0x84), 0), Write(Acd(0x84), 1)]
      ensures ok == hw.autoTransfer
    {
      Writel(Acd(0x80), ACD_MASK);
      Writel(Acd(0x84), 0);
      Writel(Acd(0x84), 1);
      ok := hw.autoTransfer;
    }

    /** qcom_cpufreq_hw_acd_write_xfer() */
    method AcdTransfer(k: nat, reg: nat, val: u32, hw: Hardware, stop: int) returns (ok: bool)
      requires reg < 0x100
      modifies this`log
      ensures var r := Exec(Transfer(k, reg, val, hw), stop);
              log == old(log) + r.log && r.out == (if ok then Done else Failed)
    {
      ghost var ws := [Write(Acd(reg), val), Write(Acd(0x90), 0), Write(Acd(0x90), reg / 4 * 2 + 1)];
      PutsThenCall(ws, hw.transfer(k), stop);
      Writel(Acd(reg), val);
      Writel(Acd(0x90), 0);
      Writel(Acd(0x90), reg / 4 * 2 + 1);
      ok := hw.transfer(k);
    }

    /** qcom_cpufreq_hw_acd_init() */
    method AcdInit(hw: Hardware, gated: bool, stop: int) returns (out: Outcome)
      modifies this`log
      ensures var r := Exec(AcdActions(hw, gated), stop); log == old(log) + r.log && out == r.out
    {
      ghost var whole := Onto(log, AcdActions(hw, gated), stop);
      if !hw.acdRegion {
        if gated {
          assert AcdActions(hw, gated) == [Gate(10)] + [];
          Advance(whole, log, Gate(10), [], stop);
          if StopAfter(10, stop) { return Stopped; }
        }
        Finish(whole, log, stop);
        return Done;
      }
      if !hw.acdMapped {
        assert AcdActions(hw, gated) == [Call(false)] + [];
        Advance(whole, log, Call(false), [], stop);
        return Failed;
      }
      out := AcdSequence(hw, stop);
    }

    method AcdRegisters()
      modifies this`log
      ensures log == old(log) + AcdRegWrites()
    {
      Writel(Acd(0x8), 38417);
      Writel(Acd(0x4), 0x2b5ffd);
      Writel(Acd(0x28), 0x501);
      Writel(Acd(0x30), 0x2cf9ae8);
      Writel(Acd(0x88), 0x15);
    }

    /** qcom_cpufreq_hw_acd_init() where an ACD region is mapped. */
    method AcdSequence(hw: Hardware, stop: int) returns (out: Outcome)
      requires hw.acdRegion && hw.acdMapped
      modifies this`log
      ensures var r := Exec(AcdActions(hw, false), stop); log == old(log) + r.log && out == r.out
    {
      ghost var whole := Onto(log, AcdActions(hw, false), stop);
      ghost var rest9 := [Gate(9)] + AcdFinish(hw);
      ghost var rest8 := [Gate(8)] + (Transfer(0, 0x3C, 1, hw) + rest9);
      hide Exec, Progress, AcdFinish, Transfer, Puts, AcdRegWrites;
      AdvanceBy(whole, log, Puts(AcdRegWrites()), AutoTransfer(hw) + rest8, stop);
      ExecPuts(AcdRegWrites(), stop);
      AcdRegisters();
      AdvanceBy(whole, log, AutoTransfer(hw), rest8, stop);
      PutsThenCall([Write(Acd(0x80), ACD_MASK), Write(Acd(0x84), 0), Write(Acd(0x84), 1)], hw.autoTransfer, stop);
      var ok := AcdAutoTransfer(hw);
      if !ok { return Failed; }
      Advance(whole, log, Gate(8), Transfer(0, 0x3C, 1, hw) + rest9, stop);
      if StopAfter(8, stop) { return Stopped; }
      AdvanceBy(whole, log, Transfer(0, 0x3C, 1, hw), rest9, stop);
      ok := AcdTransfer(0, 0x3C, 1, hw, stop);
      if !ok { return Failed; }
      Advance(whole, log, Gate(9), AcdFinish(hw), stop);
      if StopAfter(9, stop) { return Stopped; }
      AdvanceBy(whole, log, AcdFinish(hw), [], stop) by { assert AcdFinish(hw) + [] == AcdFinish(hw); }
      out := FinishAcd(hw, stop);
      if out == Done { Finish(whole, log, stop); }
    }

    /** DCVS_SW toggle, final interface value and the last transfer of qcom_cpufreq_hw_acd_init(). */
    method FinishAcd(hw: Hardware, stop: int) returns (out: Outcome)
      modifies this`log
      ensures var r := Exec(AcdFinish(hw), stop); log == old(log) + r.log && out == r.out
    {
      ghost var t1, t2, t3 := Transfer(1, 0x34, 1, hw), Transfer(2, 0x34, 0, hw), Transfer(3, 0x30, 0x2cf9afe, hw);
      ghost var final := Write(Acd(0x80), ACD_MASK + 0x8000);
      ghost var last := [Put(final), Gate(10)];
      ghost var whole := Onto(log, AcdFinish(hw), stop);
      hide Exec, Progress, Transfer;
      AdvanceBy(whole, log, t1, t2 + (t3 + last), stop);
      var ok := AcdTransfer(1, 0x34, 1, hw, stop);
      if !ok { return Failed; }
      AdvanceBy(whole, log, t2, t3 + last, stop);
      ok := AcdTransfer(2, 0x34, 0, hw, stop);
      if !ok { return Failed; }
      AdvanceBy(whole, log, t3, last, stop);
      ok := AcdTransfer(3, 0x30, 0x2cf9afe, hw, stop);
      if !ok { return Failed; }
      assert last == [Put(final)] + [Gate(10)] && [Gate(10)] == [Gate(10)] + [];
      Advance(whole, log, Put(final), [Gate(10)], stop);
      Writel(Acd(0x80), ACD_MASK + 0x8000);
      Advance(whole, log, Gate(10), [], stop);
      if StopAfter(10, stop) { return Stopped; }
      Finish(whole, log, stop);
      return Done;
    }

    /** The corner rows, one register each. */
    method WriteCornerRows(rows: seq<u32>)
      modifies this`log
      ensures log == old(log) + CornerWrites(rows)
    {
      for i := 0 to |rows|
        invariant log == old(log) + CornerWrites(rows)[..i]
      {
        Writel(CornerRow(i), rows[i]);
      }
    }

    /** The register set-up phase of cpr3_corner_init(). */
    method WriteSetup(setup: seq<Write>)
      modifies this`log
      ensures log == old(log) + setup
    {
      for i := 0 to |setup|
        invariant log == old(log) + setup[..i]
      {
        Writel(setup[i].reg, setup[i].val);
      }
    }

    /**
     * qcom_cpr3_cprh_init(): a thread already set up is left alone; otherwise the pass runs up to
     * the first failing call or the gate, and only a complete one latches the thread.
     */
    method CprhInit(e: Env, cprhStop: int) returns (ok: bool)
      modifies this
      ensures var r := Exec(CprhPart(e, old(thread), cprhStop), 0);
              && log == old(log) + r.log
              && r.out == (if ok then Done else Failed)
              && (ok ==> thread == ThreadAfter(e, old(thread), cprhStop))
              && (thread.inited ==> old(thread).inited || ok)
              && (old(thread).inited ==> thread == old(thread))
    {
      var a := e.attempt;
      ghost var part := CprhPart(e, thread, cprhStop);
      ghost var whole := Onto(log, part, 0);
      if !a.lookup {
        assert part == [Call(false)] + part[1..];
        Advance(whole, log, Call(false), part[1..], 0);
        return false;
      }
      assert part == [Call(true)] + part[1..];
      Advance(whole, log, Call(true), part[1..], 0);
      if thread.inited {
        Finish(whole, log, 0);
        return true;
      }
      thread := thread.(apmUV := -1, accUV := -1);
      ok := Pass(a, cprhStop, whole, part[1..]);
    }

    /** The part of qcom_cpr3_cprh_init() that runs for a thread not yet set up. */
    method Pass(a: Attempt, cprhStop: int, ghost whole: Run, ghost rest: seq<Action>) returns (ok: bool)
      requires a.lookup && !thread.inited && thread.apmUV == -1 && thread.accUV == -1
      requires Progress(whole, log, rest, 0) && [Call(true)] + rest == CprhActions(a, cprhStop)
      modifies this
      ensures whole.log == log && whole.out == (if ok then Done else Failed)
      ensures ok ==> thread == Thread(Latches(cprhStop), ThresholdsAfter(a, cprhStop).0, ThresholdsAfter(a, cprhStop).1)
      ensures !ok ==> !thread.inited
    {
      ghost var s0 := CprhActions(a, cprhStop)[1..];
      assert rest == s0;
      ghost var s1 := s0[1..];
      assert s0 == [Call(a.alloc)] + s1;
      Advance(whole, log, Call(a.alloc), s1, 0);
      if !a.alloc { return false; }
      if StopAfter(0, cprhStop) {
        Finish(whole, log, 0);
        return true;
      }
      ghost var s2 := s1[1..];
      assert s1 == [Call(a.addTable)] + s2;
      Advance(whole, log, Call(a.addTable), s2, 0);
      if !a.addTable { return false; }
      if StopAfter(1, cprhStop) {
        Finish(whole, log, 0);
        return true;
      }
      ghost var s3 := s2[1..];
      assert s2 == [Call(a.computed)] + s3;
      Advance(whole, log, Call(a.computed), s3, 0);
      if !a.computed { return false; }
      thread := thread.(apmUV := a.apmUV, accUV := a.accUV);
      if StopAfter(2, cprhStop) {
        Finish(whole, log, 0);
        return true;
      }
      ghost var corners := if 3 >= cprhStop then [] else CornerPhase(a, cprhStop);
      assert s3 == [Put(Write(OsmInterface, 0))] + (Puts(a.setup) + corners);
      hide Exec, Progress, CprhActions, CornerPhase;
      Advance(whole, log, Put(Write(OsmInterface, 0)), Puts(a.setup) + corners, 0);
      Writel(OsmInterface, 0);
      AdvanceBy(whole, log, Puts(a.setup), corners, 0);
      ExecPuts(a.setup, 0);
      WriteSetup(a.setup);
      if StopAfter(3, cprhStop) {
        Finish(whole, log, 0);
        return true;
      }
      ok := WriteTable(a, cprhStop, whole);
    }

    /** Corner rows, then the latch unless the gate stops at phase 4. */
    method WriteTable(a: Attempt, cprhStop: int, ghost whole: Run) returns (ok: bool)
      requires cprhStop >= 4 && !thread.inited && Progress(whole, log, CornerPhase(a, cprhStop), 0)
      modifies this
      ensures whole.log == log && whole.out == (if ok then Done else Failed)
      ensures ok ==> thread == old(thread).(inited := Latches(cprhStop))
      ensures !ok ==> thread == old(thread)
    {
      ghost var latch := if 4 >= cprhStop then [] else [Latch(a.apmUV, a.accUV, a.rows, a.total)];
      ghost var rest := [Call(|a.rows| == a.total)] + latch;
      AdvanceBy(whole, log, Puts(CornerWrites(a.rows)), rest, 0);
      ExecPuts(CornerWrites(a.rows), 0);
      WriteCornerRows(a.rows);
      Advance(whole, log, Call(|a.rows| == a.total), latch, 0);
      if |a.rows| != a.total { return false; }
      if StopAfter(4, cprhStop) {
        Finish(whole, log, 0);
        return true;
      }
      assert latch == [Latch(a.apmUV, a.accUV, a.rows, a.total)] + [];
      Advance(whole, log, Latch(a.apmUV, a.accUV, a.rows, a.total), [], 0);
      thread := thread.(inited := true);
      Finish(whole, log, 0);
      return true;
    }

    /** qcom_cpr3_cprh_enable(): arms the loop and opens the interface of a thread that was set up. */
    method CprhEnable(lookup: bool, stop: int) returns (ok: bool)
      modifies this`log
      ensures var r := Exec(ArmActions(thread.inited, lookup), stop);
              log == old(log) + r.log && r.out == (if ok then Done else Failed)
    {
      ghost var whole := Onto(log, ArmActions(thread.inited, lookup), stop);
      if !lookup || !thread.inited {
        assert ArmActions(thread.inited, lookup) == [Call(false)] + [];
        Advance(whole, log, Call(false), [], stop);
        return false;
      }
      assert ArmActions(true, true) == [Put(LOOP_WRITE)] + [Put(INTERFACE_WRITE)];
      assert [Put(INTERFACE_WRITE)] == [Put(INTERFACE_WRITE)] + [];
      Advance(whole, log, Put(LOOP_WRITE), [Put(INTERFACE_WRITE)], stop);
      Writel(LoopEnable, 1);
      Advance(whole, log, Put(INTERFACE_WRITE), [], stop);
      Writel(OsmInterface, 1);
      Finish(whole, log, stop);
      return true;
    }

    /** Request of performance state 0, OSM enable and step 11. */
    method Start(stop: int) returns (out: Outcome)
      modifies this`log
      ensures var r := Exec(StartActions(), stop); log == old(log) + r.log && out == r.out
    {
      PutsThenGate([REQUEST_WRITE, ENABLE_WRITE], 11, stop);
      assert StartActions() == Puts([REQUEST_WRITE, ENABLE_WRITE]) + [Gate(11)];
      Writel(PerfState, 0);
      Writel(OsmEnable, 1);
      out := if StopAfter(11, stop) then Stopped else Done;
    }

    /** Generate the parameters, then write the table and the sequencer. */
    method GenerateAndWrite(e: Env, stop: int) returns (out: Outcome)
      requires EnvOk(e) && thread.accUV < INT_MAX
      modifies this`log
      ensures var r := Exec(LutPart(e, thread), stop); log == old(log) + r.log && out == r.out
    {
      var params := GenParams(e.opps, thread.apmUV, thread.accUV, e.cores, e.xoRate);
      if params.Err? {
        assert LutPart(e, thread) == [Call(false)] + [];
        ghost var whole := Onto(log, [Call(false)] + [], stop);
        Advance(whole, log, Call(false), [], stop);
        return Failed;
      }
      SpecOf(e.opps, thread.apmUV, thread.accUV, e.cores, e.xoRate, params.value);
      out := WriteLut(params.value, e.hw, stop);
    }

    /**
     * qcom_cpufreq_hw_osm_setup(): issues the writes of the set-up script, cut at `osmStop`, and
     * leaves the thread as the CPRh part left it.
     */
    method OsmSetup(e: Env, osmStop: int, cprhStop: int) returns (out: Outcome)
      requires EnvOk(e) && thread.accUV < INT_MAX
      modifies this
      ensures var r := Exec(SetupScript(e, old(thread), cprhStop), osmStop);
              log == old(log) + r.log && out == r.out
      ensures thread.inited ==> old(thread).inited || (osmStop > 0 && Latches(cprhStop) && AttemptSucceeds(e.attempt))
      ensures old(thread).inited ==> thread == old(thread)
    {
      ghost var t0 := thread;
      ghost var t1 := ThreadAfter(e, t0, cprhStop);
      ghost var cprh, osm := CprhPart(e, t0, cprhStop), OsmPart(e, t1);
      ghost var whole := Onto(log, SetupScript(e, t0, cprhStop), osmStop);
      hide Exec, Progress, CprhPart, LutPart, TuningActions, AcdActions, StartActions, ArmActions;
      Advance(whole, log, Gate(0), cprh + osm, osmStop);
      if StopAfter(0, osmStop) { return Stopped; }
      AdvanceBy(whole, log, cprh, osm, osmStop);
      CprhNoGates(e, t0, cprhStop, osmStop);
      var ok := CprhInit(e, cprhStop);
      if !ok { return Failed; }
      CprhDone(e, t0, cprhStop);
      out := ProgramOsm(e, osmStop, whole);
    }

    /** The part of qcom_cpufreq_hw_osm_setup() after the CPRh thread: table, tuning, ACD, start and arming. */
    method ProgramOsm(e: Env, osmStop: int, ghost whole: Run) returns (out: Outcome)
      requires EnvOk(e) && thread.accUV < INT_MAX && Progress(whole, log, OsmPart(e, thread), osmStop)
      modifies this`log
      ensures whole == Run(log, out)
    {
      ghost var arm := ArmActions(thread.inited, e.enableLookup);
      hide Exec, Progress, LutPart, TuningActions, AcdActions, StartActions, ArmActions;
      ghost var acd := AcdActions(e.hw, e.acdGated) + (StartActions() + arm);
      AdvanceBy(whole, log, LutPart(e, thread), TuningActions(e.soc, e.hw) + acd, osmStop);
      out := GenerateAndWrite(e, osmStop);
      if out != Done { return; }
      AdvanceBy(whole, log, TuningActions(e.soc, e.hw), acd, osmStop);
      out := Tune(e.soc, e.hw, osmStop);
      if out != Done { return; }
      AdvanceBy(whole, log, AcdActions(e.hw, e.acdGated), StartActions() + arm, osmStop);
      out := AcdInit(e.hw, e.acdGated, osmStop);
      if out != Done { return; }
      AdvanceBy(whole, log, StartActions(), arm, osmStop);
      out := Start(osmStop);
      if out != Done { return; }
      AdvanceBy(whole, log, arm, [], osmStop) by { assert arm + [] == arm; }
      var ok := CprhEnable(e.enableLookup, osmStop);
      if !ok { return Failed; }
      Finish(whole, log, osmStop);
      return Done;
    }
  }

  lemma {:induction false} PutsThenCall(ws: seq<Write>, ok: bool, stop: int)
    ensures Exec(Puts(ws) + [Call(ok)], stop) == Run(ws, if ok then Done else Failed)
  {
    ExecConcat(Puts(ws), [Call(ok)], stop);
    ExecPuts(ws, stop);
    assert [Call(ok)][1..] == [];
  }

  /** The CPRh part has its own gate and none of the OSM's. */
  lemma CprhNoGates(e: Env, t: Thread, cprhStop: int, stop: int)
    ensures Exec(CprhPart(e, t, cprhStop), stop) == Exec(CprhPart(e, t, cprhStop), 0)
  {
    hide Exec, CornerPhase, Puts, CornerWrites;
    var a := e.attempt;
    assert GateFree(CornerPhase(a, cprhStop)) by { CornerPhaseGateFree(a, cprhStop); }
    var s4 := Puts(a.setup) + if 3 >= cprhStop then [] else CornerPhase(a, cprhStop);
    assert GateFree(s4);
    var s3 := [Call(a.computed)] + if 2 >= cprhStop then [] else [Put(Write(OsmInterface, 0))] + s4;
    assert GateFree(s3);
    var s2 := [Call(a.addTable)] + if 1 >= cprhStop then [] else s3;
    assert GateFree(s2);
    NoGates(CprhPart(e, t, cprhStop), stop, 0);
  }

  lemma CornerPhaseGateFree(a: Attempt, cprhStop: int)
    ensures GateFree(CornerPhase(a, cprhStop))
  {
    hide CornerWrites;
  }

  /** A pass that completes with the latch set made every one of its calls succeed. */
  lemma CprhDone(e: Env, t: Thread, cprhStop: int)
    requires Exec(CprhPart(e, t, cprhStop), 0).out == Done
    ensures !t.inited && Latches(cprhStop) ==> AttemptSucceeds(e.attempt)
  {
    if !t.inited && Latches(cprhStop) {
      var a := e.attempt;
      var s := CprhActions(a, cprhStop);
      forall i | 0 <= i < |s| && s[i].Call? ensures s[i].ok { DoneCalls(s, i); }
      assert s[0] == Call(a.lookup) && s[1] == Call(a.alloc) && s[2] == Call(a.addTable) && s[3] == Call(a.computed);
      assert s[5 + |a.setup| + |a.rows|] == Call(|a.rows| == a.total);
    }
  }

  lemma {:induction false} DoneCalls(s: seq<Action>, i: nat)
    requires Exec(s, 0).out == Done && i < |s| && s[i].Call?
    ensures s[i].ok
  {
    if i > 0 { DoneCalls(s[1..], i - 1); }
  }

}

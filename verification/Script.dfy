/**
 * Register writes of one CPU cluster, and the scripts that issue them: sequences of writes,
 * calls that may fail, bring-up gates, and the latch that records a complete CPRh setup.
 */
module Script {
  import opened Arith
  import opened Wrappers

  /** Registers of one frequency domain's OSM and of the CPRh thread that supplies it. */
  datatype Reg =
    | Index(row: nat) | Volt(row: nat) | Freq(row: nat) | Override(row: nat) | Spare(row: nat)
    | Seq1
    | Sequencer(n: nat)
    | Tunable(offset: nat)
    | Acd(offset: nat)
    | PerfState
    | OsmEnable
    | CprReg(k: nat)
    | CornerRow(row: nat)
    | LoopEnable
    | OsmInterface

  datatype Write = Write(reg: Reg, val: u32)

  datatype Action =
    | Put(w: Write)
    | Secure(w: Write, ok: bool)
    | Call(ok: bool)
    | Gate(step: int)
    | Latch(apmUV: int, accUV: int, rows: seq<u32>, total: nat)

  datatype Outcome = Done | Failed | Stopped

  datatype Run = Run(log: seq<Write>, out: Outcome)

  /** The writes a script issues when it is cut at gate `stop`, and how it ends. */
  function Exec(s: seq<Action>, stop: int): Run {
    if |s| == 0 then Run([], Done) else
      match s[0]
      case Put(w) => var r := Exec(s[1..], stop); Run([w] + r.log, r.out)
      case Secure(w, ok) =>
        if ok then var r := Exec(s[1..], stop); Run([w] + r.log, r.out) else Run([w], Failed)
      case Call(ok) => if ok then Exec(s[1..], stop) else Run([], Failed)
      case Gate(step) => if step >= stop then Run([], Stopped) else Exec(s[1..], stop)
      case Latch(_, _, _, _) => Exec(s[1..], stop)
  }

  function Puts(ws: seq<Write>): (s: seq<Action>)
    ensures |s| == |ws| && forall i :: 0 <= i < |ws| ==> s[i] == Put(ws[i])
  {
    seq(|ws|, i requires 0 <= i < |ws| => Put(ws[i]))
  }

  function Then(a: Run, b: Run): Run {
    if a.out == Done then Run(a.log + b.log, b.out) else a
  }

  lemma {:induction false} ExecConcat(a: seq<Action>, b: seq<Action>, stop: int)
    ensures Exec(a + b, stop) == Then(Exec(a, stop), Exec(b, stop))
  {
    if |a| == 0 {
      assert a + b == b;
    } else {
      ExecConcat(a[1..], b, stop);
      assert (a + b)[1..] == a[1..] + b;
    }
  }

  lemma {:induction false} ExecPuts(ws: seq<Write>, stop: int)
    ensures Exec(Puts(ws), stop) == Run(ws, Done)
  {
    if |ws| > 0 {
      assert Puts(ws)[1..] == Puts(ws[1..]);
      ExecPuts(ws[1..], stop);
    }
  }

  lemma {:induction false} PutsThenGate(ws: seq<Write>, step: int, stop: int)
    ensures Exec(Puts(ws) + [Gate(step)], stop) == Run(ws, if step >= stop then Stopped else Done)
  {
    ExecConcat(Puts(ws), [Gate(step)], stop);
    ExecPuts(ws, stop);
    assert Exec([Gate(step)], stop) == Run([], if step >= stop then Stopped else Done) by {
      assert [Gate(step)][1..] == [];
    }
  }

  /** `whole` is the log and outcome to be reached once `rest` has run on top of `log`. */
  predicate Progress(whole: Run, log: seq<Write>, rest: seq<Action>, stop: int) {
    whole == Run(log + Exec(rest, stop).log, Exec(rest, stop).out)
  }

  /** What running `s` on top of `log` leads to. */
  ghost function Onto(log: seq<Write>, s: seq<Action>, stop: int): (whole: Run)
    ensures Progress(whole, log, s, stop)
    ensures whole.log == log + Exec(s, stop).log && whole.out == Exec(s, stop).out
  {
    Run(log + Exec(s, stop).log, Exec(s, stop).out)
  }

  /** One action further. */
  lemma {:induction false} Advance(whole: Run, sofar: seq<Write>, a: Action, rest: seq<Action>, stop: int)
    requires Progress(whole, sofar, [a] + rest, stop)
    ensures match a
            case Put(w) => Progress(whole, sofar + [w], rest, stop)
            case Secure(w, ok) =>
              if ok then Progress(whole, sofar + [w], rest, stop) else whole == Run(sofar + [w], Failed)
            case Call(ok) => if ok then Progress(whole, sofar, rest, stop) else whole == Run(sofar, Failed)
            case Gate(step) => if step >= stop then whole == Run(sofar, Stopped) else Progress(whole, sofar, rest, stop)
            case Latch(_, _, _, _) => Progress(whole, sofar, rest, stop)
  {
    assert ([a] + rest)[1..] == rest;
    match a
    case Put(w) => assert sofar + ([w] + Exec(rest, stop).log) == sofar + [w] + Exec(rest, stop).log;
    case Secure(w, ok) => assert sofar + ([w] + Exec(rest, stop).log) == sofar + [w] + Exec(rest, stop).log;
    case Call(ok) => assert !ok ==> sofar + [] == sofar;
    case Gate(step) => assert step >= stop ==> sofar + [] == sofar;
    case Latch(_, _, _, _) =>
  }

  /** A whole piece further. */
  lemma {:induction false} AdvanceBy(whole: Run, sofar: seq<Write>, piece: seq<Action>, rest: seq<Action>, stop: int)
    requires Progress(whole, sofar, piece + rest, stop)
    ensures var r := Exec(piece, stop);
            if r.out == Done then Progress(whole, sofar + r.log, rest, stop) else whole == Run(sofar + r.log, r.out)
  {
    ExecConcat(piece, rest, stop);
    var r := Exec(piece, stop);
    assert sofar + (r.log + Exec(rest, stop).log) == sofar + r.log + Exec(rest, stop).log;
  }

  lemma Finish(whole: Run, sofar: seq<Write>, stop: int)
    requires Progress(whole, sofar, [], stop)
    ensures whole == Run(sofar, Done)
  {
    assert sofar + [] == sofar;
  }

  /** Gates only ever cut: what a script writes at a lower stop is a prefix of what it writes at a higher one. */
  lemma {:induction false} GatePrefix(s: seq<Action>, n: int, m: int)
    requires n <= m
    ensures Exec(s, n).log <= Exec(s, m).log
    ensures Exec(s, n).out != Stopped ==> Exec(s, n) == Exec(s, m)
  {
    if |s| > 0 { GatePrefix(s[1..], n, m); }
  }

  /** Every call and every secure write of the script succeeds. */
  predicate AllSucceed(s: seq<Action>) {
    forall i :: 0 <= i < |s| ==> Succeeds(s[i])
  }

  predicate Succeeds(a: Action) {
    match a
    case Secure(_, ok) => ok
    case Call(ok) => ok
    case _ => true
  }

  /** Highest gate of a script, or -1. */
  function TopGate(s: seq<Action>): int {
    if |s| == 0 then -1 else
      Max(if s[0].Gate? then s[0].step else -1, TopGate(s[1..]))
  }

  lemma {:induction false} TopGateConcat(a: seq<Action>, b: seq<Action>)
    ensures TopGate(a + b) == Max(TopGate(a), TopGate(b))
  {
    if |a| == 0 {
      assert a + b == b;
      GateAtLeast(b);
    } else {
      TopGateConcat(a[1..], b);
      assert (a + b)[1..] == a[1..] + b;
    }
  }

  predicate GateFree(s: seq<Action>) {
    forall i :: 0 <= i < |s| ==> !s[i].Gate?
  }

  lemma {:induction false} TopGateFree(s: seq<Action>)
    requires GateFree(s)
    ensures TopGate(s) == -1
  {
    if |s| > 0 { TopGateFree(s[1..]); }
  }

  /** A script without gates runs the same under every stop. */
  lemma {:induction false} NoGates(s: seq<Action>, n: int, m: int)
    requires GateFree(s)
    ensures Exec(s, n) == Exec(s, m)
  {
    if |s| > 0 { NoGates(s[1..], n, m); }
  }

  lemma {:induction false} GateAtLeast(s: seq<Action>)
    ensures TopGate(s) >= -1
  {
    if |s| > 0 { GateAtLeast(s[1..]); }
  }

  /** When nothing fails, a script runs to its end exactly when every gate is open. */
  lemma {:induction false} DoneIff(s: seq<Action>, stop: int)
    requires AllSucceed(s) && 0 <= stop
    ensures Exec(s, stop).out == Done <==> TopGate(s) < stop
    ensures Exec(s, stop).out != Failed
  {
    if |s| > 0 {
      assert AllSucceed(s[1..]);
      assert Succeeds(s[0]);
      DoneIff(s[1..], stop);
    }
  }

  predicate Writes(a: Action, w: Write) {
    match a
    case Put(v) => v == w
    case Secure(v, _) => v == w
    case _ => false
  }

  /** A write can only come from an action that makes it. */
  lemma {:induction false} OnlyItsWrites(s: seq<Action>, stop: int, w: Write)
    requires forall i :: 0 <= i < |s| ==> !Writes(s[i], w)
    ensures w !in Exec(s, stop).log
  {
    if |s| > 0 {
      assert !Writes(s[0], w);
      OnlyItsWrites(s[1..], stop, w);
    }
  }

  /** Last value written to a register. */
  function LastWrite(log: seq<Write>, reg: Reg): Option<u32> {
    if |log| == 0 then None
    else if log[|log| - 1].reg == reg then Some(log[|log| - 1].val)
    else LastWrite(log[..|log| - 1], reg)
  }

  lemma {:induction false} LastWriteConcat(a: seq<Write>, b: seq<Write>, reg: Reg)
    ensures LastWrite(a + b, reg) == if LastWrite(b, reg).Some? then LastWrite(b, reg) else LastWrite(a, reg)
  {
    if |b| == 0 {
      assert a + b == a;
    } else {
      LastWriteConcat(a, b[..|b| - 1], reg);
      assert (a + b)[..|a + b| - 1] == a + b[..|b| - 1];
    }
  }
}

/**
 * Arming safety over whole runs: any number of clusters, each issuing any number of set-up calls
 * (from several CPUs, with failing calls and any gate values), interleaved action by action.
 */
module Arming {
  import opened Arith
  import opened Wrappers
  import opened Script
  import opened OsmScript
  import opened Bringup

  /** The history of a run: register writes of a cluster, and its thread marked set up after a pass with these rows. */
  datatype Event =
    | Wrote(cluster: nat, w: Write)
    | Latched(cluster: nat, rows: seq<u32>, total: nat)

  /** A cluster is idle or in the middle of a set-up call. */
  datatype Proc = Idle | Busy(rest: seq<Action>, stop: int)

  datatype Cluster = Cluster(thread: Thread, proc: Proc)

  datatype System = System(clusters: seq<Cluster>, trace: seq<Event>)

  /** A run is driven by moves: some CPU of an idle cluster starts a call, or a cluster performs its next action. */
  datatype Move = Begin(cluster: nat, env: Env, osmStop: int, cprhStop: int) | Act(cluster: nat)

  ghost function Apply(s: System, m: Move): System {
    match m
    case Begin(c, e, osmStop, cprhStop) =>
      if c < |s.clusters| && s.clusters[c].proc.Idle? && EnvOk(e) then
        With(s, c, s.clusters[c].(proc := Busy(SetupScript(e, s.clusters[c].thread, cprhStop), osmStop)))
      else s
    case Act(c) =>
      if c < |s.clusters| && s.clusters[c].proc.Busy? then Perform(s, c) else s
  }

  function With(s: System, c: nat, k: Cluster): System
    requires c < |s.clusters|
  {
    s.(clusters := s.clusters[c := k])
  }

  /** One action of a busy cluster. */
  function Perform(s: System, c: nat): System
    requires c < |s.clusters| && s.clusters[c].proc.Busy?
  {
    var k := s.clusters[c];
    var idle := k.(proc := Idle);
    if |k.proc.rest| == 0 then With(s, c, idle) else
      var next := k.(proc := Busy(k.proc.rest[1..], k.proc.stop));
      match k.proc.rest[0]
      case Put(w) => With(s, c, next).(trace := s.trace + [Wrote(c, w)])
      case Secure(w, ok) => With(s, c, if ok then next else idle).(trace := s.trace + [Wrote(c, w)])
      case Call(ok) => With(s, c, if ok then next else idle)
      case Gate(step) => With(s, c, if step >= k.proc.stop then idle else next)
      case Latch(apmUV, accUV, rows, total) =>
        With(s, c, next.(thread := Thread(true, apmUV, accUV))).(trace := s.trace + [Latched(c, rows, total)])
  }

  function Initial(n: nat): System {
    System(seq(n, _ => Cluster(FRESH, Idle)), [])
  }

  ghost function RunFrom(s: System, moves: seq<Move>): System
    decreases |moves|
  {
    if |moves| == 0 then s else Apply(RunFrom(s, moves[..|moves| - 1]), moves[|moves| - 1])
  }

  // ------------------------------------------------- a call alone is its script

  /** A busy cluster left alone until its call ends. */
  function ToIdle(s: System, c: nat): System
    requires c < |s.clusters|
    decreases if s.clusters[c].proc.Busy? then 1 + |s.clusters[c].proc.rest| else 0
  {
    if s.clusters[c].proc.Idle? then s else ToIdle(Perform(s, c), c)
  }

  /** The register writes among the events. */
  function Issued(es: seq<Event>): seq<Write> {
    if |es| == 0 then [] else (if es[0].Wrote? then [es[0].w] else []) + Issued(es[1..])
  }

  lemma IssuedFirst(e: Event, es: seq<Event>)
    ensures Issued([e] + es) == (if e.Wrote? then [e.w] else []) + Issued(es)
  {
    assert ([e] + es)[1..] == es;
  }

  /** Undisturbed, a call issues exactly the writes of its script under its gate, and leaves the other clusters alone. */
  lemma {:induction false} CallIsScript(s: System, c: nat) returns (es: seq<Event>)
    requires c < |s.clusters| && s.clusters[c].proc.Busy?
    ensures ToIdle(s, c).trace == s.trace + es
    ensures Issued(es) == Exec(s.clusters[c].proc.rest, s.clusters[c].proc.stop).log
    ensures |ToIdle(s, c).clusters| == |s.clusters| && ToIdle(s, c).clusters[c].proc.Idle?
    ensures forall d :: 0 <= d < |s.clusters| && d != c ==> ToIdle(s, c).clusters[d] == s.clusters[d]
    decreases |s.clusters[c].proc.rest|
  {
    var rest, stop, next := s.clusters[c].proc.rest, s.clusters[c].proc.stop, Perform(s, c);
    var first := FirstEvents(rest, c);
    assert next.trace == s.trace + first;
    var more: seq<Event> := [];
    if next.clusters[c].proc.Busy? {
      more := CallIsScript(next, c);
    }
    es := first + more;
    assert s.trace + first + more == s.trace + es;
    IssuedStep(rest, stop, c, more);
  }

  /** The event of a script's first action. */
  function FirstEvents(rest: seq<Action>, c: nat): seq<Event> {
    if |rest| == 0 then [] else
      match rest[0]
      case Put(w) => [Wrote(c, w)]
      case Secure(w, _) => [Wrote(c, w)]
      case Latch(_, _, rows, total) => [Latched(c, rows, total)]
      case _ => []
  }

  /** Does the call go on after its first action? */
  predicate GoesOn(rest: seq<Action>, stop: int) {
    && |rest| > 0 && Succeeds(rest[0])
    && (rest[0].Gate? ==> rest[0].step < stop)
  }

  lemma IssuedStep(rest: seq<Action>, stop: int, c: nat, more: seq<Event>)
    requires if GoesOn(rest, stop) then Issued(more) == Exec(rest[1..], stop).log else more == []
    ensures Issued(FirstEvents(rest, c) + more) == Exec(rest, stop).log
  {
    var first := FirstEvents(rest, c);
    if |first| == 0 {
      assert first + more == more;
    } else {
      assert first == [first[0]];
      IssuedFirst(first[0], more);
      hide Issued;
    }
  }

  // --------------------------------------------------------------------- facts

  /**
   * What the history says about one cluster: words of the leading corner rows written since the interface was
   * last closed (None before that), words of the table it was latched with, performance state 0
   * requested, the OSM enabled after such a request, and the loop enabled after the latch.
   */
  datatype Facts = Facts(rows: Option<seq<u32>>, latched: Option<seq<u32>>, requested: bool, enabled: bool, looped: bool)

  const NOTHING := Facts(None, None, false, false, false)

  /** The leading rows after a write to row r; a row past the next one is not leading. */
  function WithRow(rows: seq<u32>, r: nat, val: u32): seq<u32> {
    if r < |rows| then rows[r := val] else if r == |rows| then rows + [val] else rows
  }

  function AfterWrite(f: Facts, w: Write): Facts {
    match w.reg
    case OsmInterface => if w.val == 0 then f.(rows := Some([])) else f
    case CornerRow(r) => if f.rows.Some? then f.(rows := Some(WithRow(f.rows.value, r, w.val))) else f
    case PerfState => if w.val == 0 then f.(requested := true) else f
    case OsmEnable => if w.val == 1 && f.requested then f.(enabled := true) else f
    case LoopEnable => if w.val == 1 && f.latched.Some? then f.(looped := true) else f
    case _ => f
  }

  function AfterEvent(f: Facts, e: Event, c: nat): Facts {
    if e.cluster != c then f else
      match e
      case Wrote(_, w) => AfterWrite(f, w)
      case Latched(_, rows, _) => f.(latched := Some(rows))
  }

  function FactsOf(trace: seq<Event>, c: nat): Facts {
    if |trace| == 0 then NOTHING else AfterEvent(FactsOf(trace[..|trace| - 1], c), trace[|trace| - 1], c)
  }

  predicate TableWrite(w: Write) {
    w.reg.CprReg? || w.reg.CornerRow? || (w.reg.OsmInterface? && w.val != 1)
  }

  predicate ArmWrite(w: Write) {
    w.reg.LoopEnable? || (w.reg.OsmInterface? && w.val == 1)
  }

  /** Turning the OSM interface on. */
  predicate Opens(w: Write) { w.reg.OsmInterface? && w.val == 1 }

  /** The safety rule of one event, given what happened before it. */
  predicate Allowed(e: Event, f: Facts) {
    match e
    case Wrote(_, w) =>
      && (ArmWrite(w) ==> f.latched.Some? && f.enabled)
      && (Opens(w) ==> f.looped)
      && (TableWrite(w) ==> f.latched.None?)
    case Latched(_, rows, total) => f.latched.None? && f.rows == Some(rows) && |rows| == total
  }

  /** Every way of running `rest` from facts f obeys the rule. */
  predicate Safe(rest: seq<Action>, f: Facts)
    decreases |rest|
  {
    |rest| == 0 ||
    match rest[0]
    case Put(w) => Allowed(Wrote(0, w), f) && Safe(rest[1..], AfterWrite(f, w))
    case Secure(w, ok) => Allowed(Wrote(0, w), f) && (ok ==> Safe(rest[1..], AfterWrite(f, w)))
    case Call(ok) => ok ==> Safe(rest[1..], f)
    case Gate(_) => Safe(rest[1..], f)
    case Latch(_, _, rows, total) => Allowed(Latched(0, rows, total), f) && Safe(rest[1..], f.(latched := Some(rows)))
  }

  /** Facts after a script that ran to its end. */
  function After(s: seq<Action>, f: Facts): Facts
    decreases |s|
  {
    if |s| == 0 then f else
      match s[0]
      case Put(w) => After(s[1..], AfterWrite(f, w))
      case Secure(w, _) => After(s[1..], AfterWrite(f, w))
      case Latch(_, _, rows, _) => After(s[1..], f.(latched := Some(rows)))
      case _ => After(s[1..], f)
  }

  lemma {:induction false} SafeConcat(a: seq<Action>, b: seq<Action>, f: Facts)
    requires Safe(a, f) && (AllSucceed(a) ==> Safe(b, After(a, f)))
    ensures Safe(a + b, f)
    decreases |a|
  {
    if |a| == 0 {
      assert a + b == b;
    } else {
      assert (a + b)[1..] == a[1..] + b;
      assert AllSucceed(a) <==> Succeeds(a[0]) && AllSucceed(a[1..]) by {
        assert a == [a[0]] + a[1..];
      }
      if Succeeds(a[0]) {
        match a[0]
        case Put(w) => SafeConcat(a[1..], b, AfterWrite(f, w));
        case Secure(w, ok) => SafeConcat(a[1..], b, AfterWrite(f, w));
        case Call(ok) => SafeConcat(a[1..], b, f);
        case Gate(_) => SafeConcat(a[1..], b, f);
        case Latch(_, _, rows, _) => SafeConcat(a[1..], b, f.(latched := Some(rows)));
      }
    }
  }

  lemma {:induction false} AfterConcat(a: seq<Action>, b: seq<Action>, f: Facts)
    ensures After(a + b, f) == After(b, After(a, f))
    decreases |a|
  {
    if |a| == 0 {
      assert a + b == b;
    } else {
      assert (a + b)[1..] == a[1..] + b;
      match a[0]
      case Put(w) => AfterConcat(a[1..], b, AfterWrite(f, w));
      case Secure(w, _) => AfterConcat(a[1..], b, AfterWrite(f, w));
      case Latch(_, _, rows, _) => AfterConcat(a[1..], b, f.(latched := Some(rows)));
      case _ => AfterConcat(a[1..], b, f);
    }
  }

  /** Writes to other registers change no fact and are always allowed. */
  lemma {:induction false} HarmlessIsSafe(s: seq<Action>, f: Facts)
    requires Harmless(s)
    ensures Safe(s, f) && After(s, f) == f
    decreases |s|
  {
    if |s| > 0 {
      assert Harmless(s[1..]);
      HarmlessIsSafe(s[1..], f);
      assert match s[0] case Put(w) => Inert(w.reg) case Secure(w, _) => Inert(w.reg) case Latch(_, _, _, _) => false case _ => true;
    }
  }

  /** Set-up registers of an unlatched thread: allowed, and no fact changes. */
  lemma {:induction false} SetupIsSafe(setup: seq<Write>, f: Facts)
    requires f.latched.None? && forall i :: 0 <= i < |setup| ==> setup[i].reg.CprReg?
    ensures Safe(Puts(setup), f) && After(Puts(setup), f) == f
    decreases |setup|
  {
    if |setup| > 0 {
      assert Puts(setup)[1..] == Puts(setup[1..]);
      assert setup[0].reg.CprReg?;
      SetupIsSafe(setup[1..], f);
    }
  }

  /** Corner rows written in order onto a closed interface are recorded word by word. */
  lemma {:induction false} RowsAreSafe(rows: seq<u32>, k: nat, f: Facts)
    requires k <= |rows| && f.latched.None? && f.rows == Some(rows[..k])
    ensures Safe(Puts(CornerWrites(rows)[k..]), f)
    ensures After(Puts(CornerWrites(rows)[k..]), f) == f.(rows := Some(rows))
    decreases |rows| - k
  {
    var ws := CornerWrites(rows);
    if k < |rows| {
      assert Puts(ws[k..])[0] == Put(ws[k]) && Puts(ws[k..])[1..] == Puts(ws[k + 1..]);
      assert rows[..k] + [rows[k]] == rows[..k + 1];
      RowsAreSafe(rows, k + 1, f.(rows := Some(rows[..k + 1])));
    } else {
      assert ws[k..] == [] && rows[..k] == rows;
    }
  }

  // ---------------------------------------------------------- every script is safe

  predicate Agrees(t: Thread, f: Facts) {
    t.inited <==> f.latched.Some?
  }

  lemma CornerPhaseSafe(a: Attempt, stop: int, f: Facts)
    requires f.latched.None? && f.rows == Some([])
    ensures Safe(CornerPhase(a, stop), f)
    ensures AllSucceed(CornerPhase(a, stop)) ==> (After(CornerPhase(a, stop), f).latched.Some? <==> stop >= 5)
  {
    var rows, check := Puts(CornerWrites(a.rows)), [Call(|a.rows| == a.total)];
    var latch := if 4 >= stop then [] else [Latch(a.apmUV, a.accUV, a.rows, a.total)];
    var g := f.(rows := Some(a.rows));
    assert a.rows[..0] == [];
    RowsAreSafe(a.rows, 0, f);
    assert CornerWrites(a.rows)[0..] == CornerWrites(a.rows);
    assert check[1..] == [];
    assert latch != [] ==> latch[1..] == [];
    assert |a.rows| == a.total ==> Safe(latch, g);
    assert AllSucceed(check) ==> Succeeds(check[0]);
    SafeConcat(check, latch, g);
    SafeConcat(rows, check + latch, f);
    AfterConcat(rows, check + latch, f);
    AfterConcat(check, latch, g);
  }

  lemma TailSucceeds(a: seq<Action>, b: seq<Action>)
    requires AllSucceed(a + b)
    ensures AllSucceed(b)
  {
    assert forall i :: 0 <= i < |b| ==> b[i] == (a + b)[|a| + i];
  }

  lemma ProgrammedSafe(a: Attempt, stop: int, f: Facts)
    requires f.latched.None? && forall i :: 0 <= i < |a.setup| ==> a.setup[i].reg.CprReg?
    ensures var corners := if 3 >= stop then [] else CornerPhase(a, stop);
            var s := [Put(Write(OsmInterface, 0))] + (Puts(a.setup) + corners);
            Safe(s, f) && (AllSucceed(s) ==> (After(s, f).latched.Some? <==> stop >= 5))
  {
    var close, setup := [Put(Write(OsmInterface, 0))], Puts(a.setup);
    var corners := if 3 >= stop then [] else CornerPhase(a, stop);
    var g := f.(rows := Some([]));
    assert close[1..] == [];
    SetupIsSafe(a.setup, g);
    CornerPhaseSafe(a, stop, g);
    assert Safe(corners, g);
    assert After(close, f) == g && Safe(close, f);
    hide CornerPhase, Puts, Safe;
    SafeConcat(setup, corners, g);
    SafeConcat(close, setup + corners, f);
    AfterConcat(close, setup + corners, f);
    AfterConcat(setup, corners, g);
    if AllSucceed(close + (setup + corners)) {
      TailSucceeds(close, setup + corners);
      TailSucceeds(setup, corners);
    }
  }

  /** The CPRh part obeys the rule, and a pass that completes leaves thread and history in agreement. */
  lemma CprhSafe(e: Env, t: Thread, stop: int, f: Facts)
    requires EnvOk(e) && Agrees(t, f)
    ensures Safe(CprhPart(e, t, stop), f)
    ensures AllSucceed(CprhPart(e, t, stop)) ==> Agrees(ThreadAfter(e, t, stop), After(CprhPart(e, t, stop), f))
  {
    if !t.inited {
      var a := e.attempt;
      var close, setup := [Put(Write(OsmInterface, 0))], Puts(a.setup);
      var corners := if 3 >= stop then [] else CornerPhase(a, stop);
      var programmed := close + (setup + corners);
      ProgrammedSafe(a, stop, f);
      var s3 := if 2 >= stop then [] else programmed;
      var s2 := if 1 >= stop then [] else [Call(a.computed)] + s3;
      var s1 := if 0 >= stop then [] else [Call(a.addTable)] + s2;
      assert CprhPart(e, t, stop) == [Call(a.lookup)] + ([Call(a.alloc)] + s1);
      hide CprhPart, CprhActions, CornerPhase, Puts;
      CallThen(a.computed, s3, f);
      CallThen(a.addTable, s2, f);
      CallThen(a.alloc, s1, f);
      CallThen(a.lookup, [Call(a.alloc)] + s1, f);
    } else {
      assert [Call(e.attempt.lookup)][1..] == [];
    }
  }

  lemma CallThen(ok: bool, rest: seq<Action>, f: Facts)
    ensures Safe(rest, f) ==> Safe([Call(ok)] + rest, f)
    ensures After([Call(ok)] + rest, f) == After(rest, f)
    ensures AllSucceed([Call(ok)] + rest) ==> AllSucceed(rest)
  {
    assert ([Call(ok)] + rest)[1..] == rest;
    assert forall i :: 0 <= i < |rest| ==> rest[i] == ([Call(ok)] + rest)[i + 1];
  }

  lemma StartAndArmSafe(inited: bool, lookup: bool, f: Facts)
    requires inited <==> f.latched.Some?
    ensures Safe(StartActions() + ArmActions(inited, lookup), f)
  {
    var start, arm := StartActions(), ArmActions(inited, lookup);
    assert start[1..] == [Put(ENABLE_WRITE), Gate(11)] && start[1..][1..] == [Gate(11)] && start[1..][1..][1..] == [];
    var g := After(start, f);
    assert g == f.(requested := true, enabled := true);
    if lookup && inited {
      assert arm[1..] == [Put(INTERFACE_WRITE)] && arm[1..][1..] == [];
    }
    SafeConcat(start, arm, f);
  }

  /** Whatever the environment answers and whatever the gates are, a set-up script obeys the rule. */
  lemma SetupSafe(e: Env, t: Thread, stop: int, f: Facts)
    requires EnvOk(e) && Agrees(t, f)
    ensures Safe(SetupScript(e, t, stop), f)
  {
    var t1 := ThreadAfter(e, t, stop);
    var cprh, lut := CprhPart(e, t, stop), LutPart(e, t1);
    var tune, acd := TuningActions(e.soc, e.hw), AcdActions(e.hw, e.acdGated);
    var tail := StartActions() + ArmActions(t1.inited, e.enableLookup);
    TuningPieces(e.soc, e.hw);
    AcdPieces(e.hw, e.acdGated);
    LutHarmlessPart(e, t, stop);
    CprhSafe(e, t, stop, f);
    var g := After(cprh, f);
    hide CprhPart, LutPart, TuningActions, AcdActions, StartActions, ArmActions, Harmless, AllSucceed;
    if AllSucceed(cprh) {
      StartAndArmSafe(t1.inited, e.enableLookup, g);
      HarmlessIsSafe(acd, g);
      HarmlessIsSafe(tune, g);
      HarmlessIsSafe(lut, g);
      SafeConcat(acd, tail, g);
      SafeConcat(tune, acd + tail, g);
      SafeConcat(lut, tune + (acd + tail), g);
    }
    SafeConcat(cprh, lut + (tune + (acd + tail)), f);
    var body := cprh + (lut + (tune + (acd + tail)));
    assert SetupScript(e, t, stop) == [Gate(0)] + body;
    assert ([Gate(0)] + body)[1..] == body;
  }

  // ------------------------------------------------------------------ invariant

  predicate TraceAllowed(trace: seq<Event>) {
    forall k :: 0 <= k < |trace| ==> Allowed(trace[k], FactsOf(trace[..k], trace[k].cluster))
  }

  ghost predicate ClusterOk(k: Cluster, f: Facts) {
    Agrees(k.thread, f) && (k.proc.Busy? ==> Safe(k.proc.rest, f))
  }

  ghost predicate Inv(s: System) {
    && TraceAllowed(s.trace)
    && forall c :: 0 <= c < |s.clusters| ==> ClusterOk(s.clusters[c], FactsOf(s.trace, c))
  }

  lemma Snoc(trace: seq<Event>, e: Event)
    requires TraceAllowed(trace) && Allowed(e, FactsOf(trace, e.cluster))
    ensures TraceAllowed(trace + [e])
    ensures forall c :: FactsOf(trace + [e], c) == AfterEvent(FactsOf(trace, c), e, c)
  {
    var t := trace + [e];
    assert t[..|trace|] == trace;
    forall k | 0 <= k < |t| ensures Allowed(t[k], FactsOf(t[..k], t[k].cluster)) {
      if k < |trace| { assert t[..k] == trace[..k]; }
    }
  }

  /** A cluster whose new state suits its new facts can be put back, whatever the others are. */
  lemma ReplaceKeepsInv(s: System, c: nat, k: Cluster)
    requires Inv(s) && c < |s.clusters| && ClusterOk(k, FactsOf(s.trace, c))
    ensures Inv(With(s, c, k))
  {
    hide ClusterOk, FactsOf, TraceAllowed;
  }

  lemma EventKeepsInv(s: System, c: nat, k: Cluster, e: Event)
    requires Inv(s) && c < |s.clusters| && e.cluster == c && Allowed(e, FactsOf(s.trace, c))
    requires ClusterOk(k, AfterEvent(FactsOf(s.trace, c), e, c))
    ensures Inv(With(s, c, k).(trace := s.trace + [e]))
  {
    Snoc(s.trace, e);
    hide ClusterOk, FactsOf, TraceAllowed, Allowed;
    var t := s.trace + [e];
    forall d | 0 <= d < |s.clusters| && d != c ensures ClusterOk(s.clusters[d], FactsOf(t, d)) {
      assert ClusterOk(s.clusters[d], FactsOf(s.trace, d));
      assert FactsOf(t, d) == AfterEvent(FactsOf(s.trace, d), e, d);
    }
  }

  /** Every action of every cluster keeps the invariant. */
  lemma PerformKeepsInv(s: System, c: nat)
    requires Inv(s) && c < |s.clusters| && s.clusters[c].proc.Busy?
    ensures Inv(Perform(s, c))
  {
    var k := s.clusters[c];
    var rest, f := k.proc.rest, FactsOf(s.trace, c);
    assert ClusterOk(k, f);
    hide FactsOf, Inv, AfterWrite;
    var idle := k.(proc := Idle);
    if |rest| == 0 {
      ReplaceKeepsInv(s, c, idle);
    } else {
      var next := k.(proc := Busy(rest[1..], k.proc.stop));
      match rest[0]
      case Put(w) => EventKeepsInv(s, c, next, Wrote(c, w));
      case Secure(w, ok) => EventKeepsInv(s, c, if ok then next else idle, Wrote(c, w));
      case Call(ok) => ReplaceKeepsInv(s, c, if ok then next else idle);
      case Gate(step) => ReplaceKeepsInv(s, c, if step >= k.proc.stop then idle else next);
      case Latch(apm, acc, rows, total) =>
        EventKeepsInv(s, c, next.(thread := Thread(true, apm, acc)), Latched(c, rows, total));
    }
  }

  lemma ApplyKeepsInv(s: System, m: Move)
    requires Inv(s)
    ensures Inv(Apply(s, m))
  {
    match m
    case Begin(c, e, osmStop, cprhStop) =>
      if c < |s.clusters| && s.clusters[c].proc.Idle? && EnvOk(e) {
        hide SetupScript, FactsOf;
        assert ClusterOk(s.clusters[c], FactsOf(s.trace, c));
        SetupSafe(e, s.clusters[c].thread, cprhStop, FactsOf(s.trace, c));
      }
    case Act(c) =>
      if c < |s.clusters| && s.clusters[c].proc.Busy? { PerformKeepsInv(s, c); }
  }

  lemma {:induction false} RunKeepsInv(n: nat, moves: seq<Move>)
    ensures Inv(RunFrom(Initial(n), moves))
    decreases |moves|
  {
    if |moves| > 0 {
      RunKeepsInv(n, moves[..|moves| - 1]);
      ApplyKeepsInv(RunFrom(Initial(n), moves[..|moves| - 1]), moves[|moves| - 1]);
    }
  }

  // -------------------------------------------------------- what the facts mean

  /** The register writes of one cluster. */
  function WritesOf(trace: seq<Event>, c: nat): seq<Write> {
    if |trace| == 0 then [] else
      var last := trace[|trace| - 1];
      WritesOf(trace[..|trace| - 1], c) + if last.Wrote? && last.cluster == c then [last.w] else []
  }

  /** Since the interface of c was closed at j, each row register was last written with its word. */
  predicate RowsHold(trace: seq<Event>, c: nat, rows: seq<u32>, j: nat)
    requires j < |trace|
  {
    && trace[j] == Wrote(c, Write(OsmInterface, 0))
    && forall r :: 0 <= r < |rows| ==> LastWrite(WritesOf(trace[j..], c), CornerRow(r)) == Some(rows[r])
  }

  predicate TableComplete(trace: seq<Event>, c: nat, rows: seq<u32>) {
    exists j :: 0 <= j < |trace| && RowsHold(trace, c, rows, j)
  }

  lemma LastWriteSnoc(ws: seq<Write>, w: Write, reg: Reg)
    ensures LastWrite(ws + [w], reg) == if w.reg == reg then Some(w.val) else LastWrite(ws, reg)
  {
    assert (ws + [w])[..|ws + [w]| - 1] == ws;
  }

  /** The leading rows after one more event. */
  function RowsAfter(e: Event, c: nat, rows: seq<u32>): seq<u32> {
    if e.Wrote? && e.cluster == c && e.w.reg.CornerRow? then WithRow(rows, e.w.reg.row, e.w.val) else rows
  }

  /** One event further, the leading rows as recorded hold. */
  lemma RowsStep(trace: seq<Event>, c: nat, rows: seq<u32>, j: nat)
    requires 0 < |trace| && j < |trace| - 1 && RowsHold(trace[..|trace| - 1], c, rows, j)
    ensures var last := trace[|trace| - 1];
            RowsHold(trace, c, RowsAfter(last, c, rows), j)
  {
    var m := |trace| - 1;
    var last := trace[m];
    assert trace[j..][..|trace[j..]| - 1] == trace[..m][j..];
    var before := WritesOf(trace[..m][j..], c);
    var after := WritesOf(trace[j..], c);
    assert after == before + (if last.Wrote? && last.cluster == c then [last.w] else []);
    var next := RowsAfter(last, c, rows);
    forall r | 0 <= r < |next| ensures LastWrite(after, CornerRow(r)) == Some(next[r]) {
      hide LastWrite, WritesOf;
      if last.Wrote? && last.cluster == c {
        LastWriteSnoc(before, last.w, CornerRow(r));
      } else {
        assert after == before;
      }
    }
  }

  lemma {:induction false} RowsMean(trace: seq<Event>, c: nat)
    requires FactsOf(trace, c).rows.Some?
    ensures TableComplete(trace, c, FactsOf(trace, c).rows.value)
    decreases |trace|
  {
    var m := |trace| - 1;
    hide RowsHold, WithRow, TableComplete;
    if trace[m] == Wrote(c, Write(OsmInterface, 0)) {
      JustClosed(trace, c);
    } else {
      var before := FactsOf(trace[..m], c).rows.value;
      RowsMean(trace[..m], c);
      CompleteStep(trace, c, before);
    }
  }

  lemma JustClosed(trace: seq<Event>, c: nat)
    requires |trace| > 0 && trace[|trace| - 1] == Wrote(c, Write(OsmInterface, 0))
    ensures TableComplete(trace, c, [])
  {
    assert RowsHold(trace, c, [], |trace| - 1);
  }

  lemma CompleteStep(trace: seq<Event>, c: nat, rows: seq<u32>)
    requires |trace| > 0 && TableComplete(trace[..|trace| - 1], c, rows)
    ensures TableComplete(trace, c, RowsAfter(trace[|trace| - 1], c, rows))
  {
    var m := |trace| - 1;
    var j :| 0 <= j < m && RowsHold(trace[..m], c, rows, j);
    RowsStep(trace, c, rows, j);
    hide RowsHold;
  }

  /** After a latch the recorded rows are the latched ones: none is written again. */
  lemma {:induction false} LatchedRows(trace: seq<Event>, c: nat)
    requires TraceAllowed(trace) && FactsOf(trace, c).latched.Some?
    ensures FactsOf(trace, c).rows == FactsOf(trace, c).latched
    decreases |trace|
  {
    var m := |trace| - 1;
    assert Allowed(trace[m], FactsOf(trace[..m], trace[m].cluster));
    if FactsOf(trace[..m], c).latched.Some? {
      forall k | 0 <= k < m ensures Allowed(trace[..m][k], FactsOf(trace[..m][..k], trace[..m][k].cluster)) {
        assert trace[..m][..k] == trace[..k];
      }
      LatchedRows(trace[..m], c);
    }
  }

  lemma {:induction false} LatchedMeans(trace: seq<Event>, c: nat) returns (i: nat)
    requires FactsOf(trace, c).latched.Some?
    ensures i < |trace| && trace[i].Latched? && trace[i].cluster == c && trace[i].rows == FactsOf(trace, c).latched.value
    decreases |trace|
  {
    var m := |trace| - 1;
    if trace[m].Latched? && trace[m].cluster == c { i := m; } else { i := LatchedMeans(trace[..m], c); }
  }

  /** The OSM was enabled at q, after performance state 0 was requested at p. */
  predicate EnabledAfterRequest(trace: seq<Event>, c: nat, k: nat)
    requires k <= |trace|
  {
    exists p, q :: 0 <= p < q < k && trace[p] == Wrote(c, Write(PerfState, 0)) && trace[q] == Wrote(c, Write(OsmEnable, 1))
  }

  lemma {:induction false} RequestedMeans(trace: seq<Event>, c: nat) returns (p: nat)
    requires FactsOf(trace, c).requested
    ensures p < |trace| && trace[p] == Wrote(c, Write(PerfState, 0))
    decreases |trace|
  {
    var m := |trace| - 1;
    if trace[m] == Wrote(c, Write(PerfState, 0)) { p := m; } else { p := RequestedMeans(trace[..m], c); }
  }

  lemma {:induction false} EnabledMeans(trace: seq<Event>, c: nat)
    requires FactsOf(trace, c).enabled
    ensures EnabledAfterRequest(trace, c, |trace|)
    decreases |trace|
  {
    var m := |trace| - 1;
    if trace[m] == Wrote(c, Write(OsmEnable, 1)) && FactsOf(trace[..m], c).requested {
      var p := RequestedMeans(trace[..m], c);
      assert trace[p] == Wrote(c, Write(PerfState, 0));
    } else {
      EnabledMeans(trace[..m], c);
      var p, q :| 0 <= p < q < m && trace[..m][p] == Wrote(c, Write(PerfState, 0))
                  && trace[..m][q] == Wrote(c, Write(OsmEnable, 1));
      assert trace[p] == trace[..m][p] && trace[q] == trace[..m][q];
    }
  }

  /** The loop of c was enabled at q, when it was latched. */
  lemma {:induction false} LoopedMeans(trace: seq<Event>, c: nat) returns (q: nat)
    requires FactsOf(trace, c).looped
    ensures q < |trace| && trace[q] == Wrote(c, Write(LoopEnable, 1)) && FactsOf(trace[..q], c).latched.Some?
    decreases |trace|
  {
    var m := |trace| - 1;
    if trace[m] == Wrote(c, Write(LoopEnable, 1)) && FactsOf(trace[..m], c).latched.Some? {
      q := m;
    } else {
      q := LoopedMeans(trace[..m], c);
      assert trace[..m][..q] == trace[..q];
    }
  }

  /** A latch stays. */
  lemma {:induction false} LatchStays(trace: seq<Event>, c: nat, i: nat, k: nat)
    requires i < k <= |trace| && trace[i].Latched? && trace[i].cluster == c
    ensures FactsOf(trace[..k], c).latched.Some?
    decreases k
  {
    assert trace[..k][..k - 1] == trace[..k - 1];
    if i < k - 1 { LatchStays(trace, c, i, k - 1); }
  }

  /** A cluster is latched once. */
  lemma OneLatch(trace: seq<Event>, c: nat, i: nat, k: nat)
    requires TraceAllowed(trace) && i < |trace| && k < |trace|
    requires trace[i].Latched? && trace[k].Latched? && trace[i].cluster == trace[k].cluster == c
    ensures i == k
  {
    assert Allowed(trace[i], FactsOf(trace[..i], c)) && Allowed(trace[k], FactsOf(trace[..k], c));
    hide FactsOf;
    if i < k { LatchStays(trace, c, i, k); }
    if k < i { LatchStays(trace, c, k, i); }
  }

  /** Between the latch at i and the interface write at k the loop was enabled. */
  predicate LoopFirst(trace: seq<Event>, c: nat, i: nat, k: nat)
    requires k <= |trace|
  {
    exists q :: i < q < k && trace[q] == Wrote(c, Write(LoopEnable, 1))
  }

  lemma LoopBefore(trace: seq<Event>, k: nat, c: nat, i: nat)
    requires TraceAllowed(trace) && k < |trace| && trace[k].Wrote? && Opens(trace[k].w) && trace[k].cluster == c
    requires i < k && trace[i].Latched? && trace[i].cluster == c
    ensures LoopFirst(trace, c, i, k)
  {
    var past := trace[..k];
    assert Allowed(trace[k], FactsOf(past, c));
    var q := LoopedMeans(past, c);
    assert trace[q] == past[q] && past[..q] == trace[..q];
    var l := LatchedMeans(trace[..q], c);
    assert trace[..q][l] == trace[l];
    hide FactsOf, TraceAllowed;
    OneLatch(trace, c, i, l);
  }

  /**
   * The latch at i is that of a pass with all its rows, which were in place then and are at k; and an interface
   * opened at k finds the loop enabled in between.
   */
  predicate ArmedFrom(trace: seq<Event>, c: nat, i: nat, k: nat)
    requires i < k < |trace| && trace[k].Wrote?
  {
    && trace[i].Latched? && trace[i].cluster == c && |trace[i].rows| == trace[i].total
    && TableComplete(trace[..i], c, trace[i].rows) && TableComplete(trace[..k], c, trace[i].rows)
    && (Opens(trace[k].w) ==> LoopFirst(trace, c, i, k))
  }

  /**
   * Arming safety: in every run, wherever a thread's loop or OSM interface is turned on, the thread had been
   * latched after a pass with all its rows, the interface had been closed before that pass and each row register
   * last written with its word of that pass, at the latch and still now; and the OSM of its cluster had been
   * enabled after performance state 0 was requested. The interface is only turned on after the loop, and that after
   * the latch.
   */
  lemma ArmingIsSafe(n: nat, moves: seq<Move>, k: nat)
    requires var trace := RunFrom(Initial(n), moves).trace;
             k < |trace| && trace[k].Wrote? && ArmWrite(trace[k].w)
    ensures var trace := RunFrom(Initial(n), moves).trace;
            var c := trace[k].cluster;
            && EnabledAfterRequest(trace, c, k)
            && exists i :: 0 <= i < k && ArmedFrom(trace, c, i, k)
  {
    var trace := RunFrom(Initial(n), moves).trace;
    var c := trace[k].cluster;
    RunKeepsInv(n, moves);
    hide RunFrom, FactsOf, Inv;
    assert TraceAllowed(trace) by { InvTrace(RunFrom(Initial(n), moves), n, moves); }
    ArmedAt(trace, k, c);
  }

  lemma InvTrace(s: System, n: nat, moves: seq<Move>)
    requires Inv(s)
    ensures TraceAllowed(s.trace)
  {
  }

  lemma EnabledBefore(trace: seq<Event>, k: nat, c: nat)
    requires k <= |trace| && FactsOf(trace[..k], c).enabled
    ensures EnabledAfterRequest(trace, c, k)
  {
    var past := trace[..k];
    EnabledMeans(past, c);
    var p, q :| 0 <= p < q < k && past[p] == Wrote(c, Write(PerfState, 0)) && past[q] == Wrote(c, Write(OsmEnable, 1));
    assert trace[p] == past[p] && trace[q] == past[q];
  }

  /** A latched cluster was latched with rows that held then and hold still. */
  lemma LatchedBefore(trace: seq<Event>, k: nat, c: nat) returns (i: nat)
    requires TraceAllowed(trace) && k < |trace| && FactsOf(trace[..k], c).latched.Some?
    ensures i < k && trace[i].Latched?
    ensures trace[i] == Latched(c, trace[i].rows, |trace[i].rows|)
    ensures TableComplete(trace[..i], c, trace[i].rows) && TableComplete(trace[..k], c, trace[i].rows)
  {
    var past := trace[..k];
    i := LatchedMeans(past, c);
    assert trace[i] == past[i] && Allowed(trace[i], FactsOf(trace[..i], c));
    RowsMean(trace[..i], c);
    PrefixAllowed(trace, k);
    hide TableComplete, FactsOf, TraceAllowed;
    LatchedRows(past, c);
    RowsMean(past, c);
  }

  lemma PrefixAllowed(trace: seq<Event>, k: nat)
    requires TraceAllowed(trace) && k <= |trace|
    ensures TraceAllowed(trace[..k])
  {
    var past := trace[..k];
    hide Allowed, FactsOf;
    forall l | 0 <= l < k ensures Allowed(past[l], FactsOf(past[..l], past[l].cluster)) {
      assert past[..l] == trace[..l];
    }
  }

  lemma ArmedAt(trace: seq<Event>, k: nat, c: nat)
    requires TraceAllowed(trace) && k < |trace| && trace[k].Wrote? && ArmWrite(trace[k].w) && trace[k].cluster == c
    ensures EnabledAfterRequest(trace, c, k)
    ensures exists i :: 0 <= i < k && ArmedFrom(trace, c, i, k)
  {
    assert Allowed(trace[k], FactsOf(trace[..k], c));
    assert FactsOf(trace[..k], c).latched.Some? && FactsOf(trace[..k], c).enabled;
    hide *;
    EnabledBefore(trace, k, c);
    var i := LatchedBefore(trace, k, c);
    if Opens(trace[k].w) { LoopBefore(trace, k, c, i); }
    IsArmed(trace, c, i, k);
  }

  lemma IsArmed(trace: seq<Event>, c: nat, i: nat, k: nat)
    requires i < k < |trace| && trace[k].Wrote?
    requires trace[i].Latched? && trace[i] == Latched(c, trace[i].rows, |trace[i].rows|)
    requires TableComplete(trace[..i], c, trace[i].rows) && TableComplete(trace[..k], c, trace[i].rows)
    requires Opens(trace[k].w) ==> LoopFirst(trace, c, i, k)
    ensures ArmedFrom(trace, c, i, k)
  {
    hide TableComplete, LoopFirst, Opens;
  }

  /** After a complete set-up no retry, from whatever CPU, writes the thread's table again or latches it twice. */
  lemma TableWrittenOnce(n: nat, moves: seq<Move>, i: nat, k: nat)
    requires var trace := RunFrom(Initial(n), moves).trace;
             i < k < |trace| && trace[i].Latched? && trace[k].cluster == trace[i].cluster
    ensures var e := RunFrom(Initial(n), moves).trace[k];
            e.Wrote? && !TableWrite(e.w)
  {
    var trace := RunFrom(Initial(n), moves).trace;
    RunKeepsInv(n, moves);
    hide RunFrom, FactsOf;
    InvTrace(RunFrom(Initial(n), moves), n, moves);
    LatchStays(trace, trace[i].cluster, i, k);
    assert Allowed(trace[k], FactsOf(trace[..k], trace[k].cluster));
  }
}

/** Comparing two flattened device trees with phandle numbers resolved to node paths (dtb-semantic-diff.py). */
module PhandleDiff {
  import opened Wrappers
  import opened DeviceTree

  // ------------------------------------------------------------------- properties

  /** What follows a phandle: compared raw, no arguments, a fixed number, or as many as the target's property says. */
  datatype Spec = Raw | NoArgs | Fixed(n: nat) | CellsOf(prop: string)

  function EndsWith(s: string, t: string): bool {
    |t| <= |s| && s[|s| - |t|..] == t
  }

  predicate Digits(s: string) {
    0 < |s| && forall i :: 0 <= i < |s| ==> '0' <= s[i] <= '9'
  }

  /** pinctrl-0, pinctrl-1, ... */
  predicate IsPinctrl(key: string) {
    8 < |key| && key[..8] == "pinctrl-" && Digits(key[8..])
  }

  /** Listed properties whose targets name the number of cells, as the middle of "#...-cells". */
  function CellsStem(key: string): Option<string> {
    if key == "clocks" || key == "assigned-clocks" || key == "assigned-clock-parents" then Some("clock")
    else if key == "power-domains" then Some("power-domain")
    else if key == "interrupts-extended" then Some("interrupt")
    else if key == "resets" then Some("reset")
    else if key == "phys" then Some("phy")
    else if key == "iommus" then Some("iommu")
    else if key == "mboxes" then Some("mbox")
    else if key == "interconnects" then Some("interconnect")
    else if key == "thermal-sensors" then Some("thermal-sensor")
    else if key == "sound-dai" then Some("sound-dai")
    else if key == "dmas" then Some("dma")
    else if key == "io-channels" then Some("io-channel")
    else if key == "hwlocks" then Some("hwlock")
    else if key == "qcom,smem-states" then Some("qcom,smem-state")
    else if key == "cooling-device" then Some("cooling")
    else None
  }

  /** Listed properties whose phandles take no arguments. */
  predicate PlainPhandles(key: string) {
    || key == "interrupt-parent" || key == "cpu-idle-states" || key == "domain-idle-states"
    || key == "operating-points-v2" || key == "required-opps" || key == "next-level-cache"
    || key == "memory-region" || key == "remote-endpoint" || key == "trip" || key == "nvmem-cells"
    || key == "qcom,rpm-msg-ram" || key == "wakeup-parent" || key == "backlight"
    || key == "monitored-battery" || key == "power-supplies"
  }

  /** Listed properties whose phandles take a fixed number of arguments. */
  function FixedArgs(key: string): Option<nat> {
    if key == "qcom,freq-domain" || key == "qcom,tcsr-reg" then Some(1)
    else if key == "gpio-ranges" || key == "qcom,halt-regs" then Some(3)
    else None
  }

  function CellsName(stem: string): string { "#" + stem + "-cells" }

  /** spec_for() */
  function SpecFor(key: string): Spec {
    if CellsStem(key).Some? then CellsOf(CellsName(CellsStem(key).value))
    else if PlainPhandles(key) then NoArgs
    else if FixedArgs(key).Some? then Fixed(FixedArgs(key).value)
    else if EndsWith(key, "-supply") || IsPinctrl(key) then NoArgs
    else if EndsWith(key, "-gpios") || key == "gpios" then CellsOf(CellsName("gpio"))
    else Raw
  }

  /** A property that gives a number of cells is itself never listed: the stride of the walk is read from raw values. */
  lemma CellsNamesAreRaw(stem: string)
    ensures SpecFor(CellsName(stem)) == Raw
  {
    var name := CellsName(stem);
    HashHasNoStem(name);
    HashIsNotPlain(name);
    HashHasNoFixed(name);
    assert name[0] == '#' && name[|name| - 2] == 'l' && name[|name| - 1] == 's';
    hide CellsStem, PlainPhandles, FixedArgs, CellsName;
    if EndsWith(name, "-supply") { LastTwo(name, "-supply"); }
    if EndsWith(name, "-gpios") { LastTwo(name, "-gpios"); }
    NotPinctrl(name);
    hide EndsWith;
  }

  lemma LastTwo(s: string, t: string)
    requires EndsWith(s, t) && 2 <= |t|
    ensures s[|s| - 1] == t[|t| - 1] && s[|s| - 2] == t[|t| - 2]
  {
  }

  lemma NotPinctrl(s: string)
    requires 0 < |s| && s[0] != 'p'
    ensures !IsPinctrl(s)
  {
    if 8 < |s| { assert s[..8][0] == s[0]; }
  }

  lemma HashHasNoStem(name: string)
    requires 0 < |name| && name[0] == '#'
    ensures CellsStem(name).None?
  {
  }

  lemma HashIsNotPlain(name: string)
    requires 0 < |name| && name[0] == '#'
    ensures !PlainPhandles(name)
  {
  }

  lemma HashHasNoFixed(name: string)
    requires 0 < |name| && name[0] == '#'
    ensures FixedArgs(name).None?
  {
  }

  /** Where a target names the number of cells, it does so in a property of that kind. */
  lemma NamesOfCells(key: string) returns (stem: string)
    requires SpecFor(key).CellsOf?
    ensures SpecFor(key).prop == CellsName(stem)
  {
    hide CellsStem, PlainPhandles, FixedArgs, EndsWith, IsPinctrl, CellsName;
    stem := if CellsStem(key).Some? then CellsStem(key).value else "gpio";
  }

  /** A listed key with a stem takes as many cells as "#<stem>-cells" of the target says. */
  lemma ByStem(key: string, stem: string)
    requires CellsStem(key) == Some(stem)
    ensures SpecFor(key) == CellsOf("#" + stem + "-cells")
  {
    hide CellsStem;
  }

  /** The stem of every key listed with one. */
  lemma ClockStems()
    ensures CellsStem("clocks") == Some("clock") && CellsStem("assigned-clocks") == Some("clock")
    ensures CellsStem("assigned-clock-parents") == Some("clock") && CellsStem("power-domains") == Some("power-domain")
    ensures CellsStem("interrupts-extended") == Some("interrupt") && CellsStem("resets") == Some("reset")
  {
  }

  lemma BusStems()
    ensures CellsStem("phys") == Some("phy") && CellsStem("iommus") == Some("iommu")
    ensures CellsStem("mboxes") == Some("mbox") && CellsStem("interconnects") == Some("interconnect")
    ensures CellsStem("thermal-sensors") == Some("thermal-sensor")
  {
  }

  lemma SoundStems()
    ensures CellsStem("sound-dai") == Some("sound-dai") && CellsStem("dmas") == Some("dma")
    ensures CellsStem("io-channels") == Some("io-channel")
  {
  }

  lemma LockStems()
    ensures CellsStem("hwlocks") == Some("hwlock") && CellsStem("qcom,smem-states") == Some("qcom,smem-state")
    ensures CellsStem("cooling-device") == Some("cooling")
  {
  }

  /** Keys that take a fixed number of arguments. */
  lemma FixedKeys()
    ensures FixedArgs("qcom,freq-domain") == FixedArgs("qcom,tcsr-reg") == Some(1)
    ensures FixedArgs("gpio-ranges") == FixedArgs("qcom,halt-regs") == Some(3)
  {
  }

  /** Unlisted keys: supplies and numbered pin settings take no arguments, and GPIOs as many as "#gpio-cells" says. */
  lemma PatternKeys(name: string, n: char)
    requires '0' <= n <= '9'
    ensures EndsWith(name + "-supply", "-supply") && EndsWith(name + "-gpios", "-gpios") && IsPinctrl("pinctrl-" + [n])
  {
    assert ("pinctrl-" + [n])[..8] == "pinctrl-" && ("pinctrl-" + [n])[8..] == [n];
  }

  lemma UnlistedKey(key: string)
    requires CellsStem(key).None? && !PlainPhandles(key) && FixedArgs(key).None?
    ensures EndsWith(key, "-supply") || IsPinctrl(key) ==> SpecFor(key) == NoArgs
    ensures !EndsWith(key, "-supply") && !IsPinctrl(key) ==>
              SpecFor(key) == if EndsWith(key, "-gpios") || key == "gpios" then CellsOf("#gpio-cells") else Raw
  {
    hide CellsStem, PlainPhandles, FixedArgs, EndsWith, IsPinctrl;
    assert CellsName("gpio") == "#gpio-cells";
  }

  // -------------------------------------------------------------------- resolving

  datatype Tree = Tree(props: Props, phandles: Phandles)

  datatype Token = Null | Ref(path: string, args: seq<nat>)

  /** A property as it is compared. */
  datatype Out = Same(text: string) | Tokens(tokens: seq<Token>) | Unresolved(text: string)

  /** Arguments after a phandle to `target`; None when the target's property has no cell. */
  function Stride(sp: Spec, target: string, t: Tree): Option<nat> {
    match sp
    case CellsOf(name) =>
      if (target, name) !in t.props then Some(0)
      else if |t.props[(target, name)].cells| == 0 then None
      else Some(t.props[(target, name)].cells[0])
    case Fixed(n) => Some(n)
    case _ => Some(0)
  }

  function Take(cs: seq<nat>, n: nat): seq<nat> { if n < |cs| then cs[..n] else cs }

  function Drop(cs: seq<nat>, n: nat): (r: seq<nat>)
    ensures |r| <= |cs|
  {
    if n < |cs| then cs[n..] else []
  }

  function Prepend(a: seq<Token>, r: Option<seq<Token>>): Option<seq<Token>> {
    match r
    case None => None
    case Some(ts) => Some(a + ts)
  }

  /** The tokens of a cell list, or None where a phandle or the number of its arguments is not known. */
  function Walk(cs: seq<nat>, sp: Spec, t: Tree): Option<seq<Token>>
    decreases |cs|
  {
    if |cs| == 0 then Some([])
    else if cs[0] == 0 then Prepend([Null], Walk(cs[1..], sp, t))
    else if cs[0] !in t.phandles then None
    else
      var target := t.phandles[cs[0]];
      match Stride(sp, target, t)
      case None => None
      case Some(n) => Prepend([Ref(target, Take(cs[1..], n))], Walk(Drop(cs[1..], n), sp, t))
  }

  /** What a reference to `target` with these arguments looks like in a property of the kind. */
  predicate TakesArgs(sp: Spec, target: string, args: seq<nat>, t: Tree) {
    match sp
    case CellsOf(name) =>
      if (target, name) in t.props then 0 < |t.props[(target, name)].cells| && t.props[(target, name)].cells[0] == |args|
      else args == []
    case Fixed(n) => |args| == n
    case _ => args == []
  }

  /** A cell list is read from the left: a null phandle, or a phandle with as many arguments as its kind says. */
  lemma ReadsReference(h: nat, args: seq<nat>, rest: seq<nat>, sp: Spec, t: Tree)
    ensures Walk([], sp, t) == Some([])
    ensures Walk([0] + rest, sp, t) == Prepend([Null], Walk(rest, sp, t))
    ensures h != 0 && h !in t.phandles ==> Walk([h] + rest, sp, t) == None
    ensures h != 0 && h in t.phandles && TakesArgs(sp, t.phandles[h], args, t) ==>
              Walk([h] + args + rest, sp, t) == Prepend([Ref(t.phandles[h], args)], Walk(rest, sp, t))
  {
    assert ([0] + rest)[1..] == rest && ([h] + rest)[0] == h;
    var cs := [h] + args + rest;
    assert cs[1..] == args + rest && cs[0] == h;
    assert Take(args + rest, |args|) == args && Drop(args + rest, |args|) == rest;
    if h != 0 && h in t.phandles && TakesArgs(sp, t.phandles[h], args, t) {
      assert Stride(sp, t.phandles[h], t) == Some(|args|);
    }
    hide Prepend, Take, Drop, Stride, TakesArgs;
  }

  /** The cell walk of resolve(): an index that moves by a different stride for every target. */
  method WalkCells(cs: seq<nat>, sp: Spec, t: Tree) returns (r: Option<seq<Token>>)
    ensures r == Walk(cs, sp, t)
  {
    hide Stride, Prepend, Walk, Take, Drop;
    var res: seq<Token>, i := [], 0;
    WholeWalk(cs, sp, t);
    while i < |cs|
      invariant Walk(cs, sp, t) == Prepend(res, Walk(Drop(cs, i), sp, t))
      decreases |cs| - i
    {
      WalkAt(cs, i, sp, t);
      PrependEnd(res);
      if cs[i] == 0 {
        PrependTwice(res, [Null], Walk(Drop(cs, i + 1), sp, t));
        res, i := res + [Null], i + 1;
        continue;
      }
      if cs[i] !in t.phandles { return None; }
      var target := t.phandles[cs[i]];
      var n := Stride(sp, target, t);
      if n.None? { return None; }
      var token := Ref(target, Take(Drop(cs, i + 1), n.value));
      PrependTwice(res, [token], Walk(Drop(cs, i + 1 + n.value), sp, t));
      res, i := res + [token], i + 1 + n.value;
    }
    WalkOver(cs, i, sp, t);
    PrependEnd(res);
    return Some(res);
  }

  lemma WholeWalk(cs: seq<nat>, sp: Spec, t: Tree)
    ensures Walk(cs, sp, t) == Prepend([], Walk(Drop(cs, 0), sp, t))
  {
    assert Drop(cs, 0) == cs;
    PrependNothing(Walk(cs, sp, t));
  }

  lemma WalkOver(cs: seq<nat>, i: nat, sp: Spec, t: Tree)
    requires |cs| <= i
    ensures Walk(Drop(cs, i), sp, t) == Some([])
  {
  }

  /** The walk from position i, one token further. */
  lemma WalkAt(cs: seq<nat>, i: nat, sp: Spec, t: Tree)
    requires i < |cs|
    ensures Walk(Drop(cs, i), sp, t) ==
            if cs[i] == 0 then Prepend([Null], Walk(Drop(cs, i + 1), sp, t))
            else if cs[i] !in t.phandles then None
            else match Stride(sp, t.phandles[cs[i]], t)
                 case None => None
                 case Some(n) =>
                   Prepend([Ref(t.phandles[cs[i]], Take(Drop(cs, i + 1), n))], Walk(Drop(cs, i + 1 + n), sp, t))
  {
    hide Stride, Prepend;
    var rest := Drop(cs, i);
    assert rest[1..] == Drop(cs, i + 1);
    if cs[i] in t.phandles && Stride(sp, t.phandles[cs[i]], t).Some? {
      var n := Stride(sp, t.phandles[cs[i]], t).value;
      assert Drop(rest[1..], n) == Drop(cs, i + 1 + n);
    }
  }

  lemma PrependEnd(a: seq<Token>)
    ensures Prepend(a, Some([])) == Some(a) && Prepend(a, None) == None
  {
    assert a + [] == a;
  }

  lemma PrependNothing(r: Option<seq<Token>>)
    ensures Prepend([], r) == r
  {
    if r.Some? { assert [] + r.value == r.value; }
  }

  lemma PrependTwice(a: seq<Token>, b: seq<Token>, r: Option<seq<Token>>)
    ensures Prepend(a, Prepend(b, r)) == Prepend(a + b, r)
  {
    if r.Some? { assert a + (b + r.value) == a + b + r.value; }
  }

  predicate StartsWith(s: string, t: string) { |t| <= |s| && s[..|t|] == t }

  predicate Skipped(path: string) {
    StartsWith(path, "/__symbols__") || StartsWith(path, "/__fixups__") || StartsWith(path, "/__local_fixups__")
  }

  /** Only the three nodes of overlay bookkeeping are left out, with what begins like them. */
  lemma SkippedIff(path: string)
    ensures Skipped(path) <==>
      exists rest :: path == "/__symbols__" + rest || path == "/__fixups__" + rest || path == "/__local_fixups__" + rest
  {
    if StartsWith(path, "/__symbols__") { assert path == "/__symbols__" + path[12..]; }
    if StartsWith(path, "/__fixups__") { assert path == "/__fixups__" + path[11..]; }
    if StartsWith(path, "/__local_fixups__") { assert path == "/__local_fixups__" + path[17..]; }
  }

  /** Is the property walked cell by cell? */
  predicate Listed(key: string, val: Value) { SpecFor(key) != Raw && val.angled }

  function ResolveOne(key: string, val: Value, t: Tree): Out {
    if !Listed(key, val) then Same(val.text) else
      match Walk(val.cells, SpecFor(key), t)
      case None => Unresolved(val.text)
      case Some(ts) => Tokens(ts)
  }

  function Resolved(t: Tree): map<(string, string), Out> {
    map k | k in t.props && !Skipped(k.0) :: ResolveOne(k.1, t.props[k], t)
  }

  /** resolve() */
  method Resolve(t: Tree) returns (out: map<(string, string), Out>)
    ensures out == Resolved(t)
  {
    hide Walk, SpecFor, Skipped, Stride;
    out := map[];
    var todo := t.props.Keys;
    while todo != {}
      invariant todo <= t.props.Keys
      invariant out.Keys == set k | k in t.props.Keys - todo && !Skipped(k.0)
      invariant forall k :: k in out ==> out[k] == ResolveOne(k.1, t.props[k], t)
    {
      var k :| k in todo;
      todo := todo - {k};
      if Skipped(k.0) { continue; }
      var val := t.props[k];
      if !Listed(k.1, val) {
        out := out[k := Same(val.text)];
        continue;
      }
      var ts := WalkCells(val.cells, SpecFor(k.1), t);
      out := out[k := if ts.Some? then Tokens(ts.value) else Unresolved(val.text)];
    }
  }

  // -------------------------------------------------------------------- rendering

  const DIGITS := "0123456789abcdef"

  function Hex(n: nat): (s: string)
    ensures 0 < |s|
  {
    if n < 16 then [DIGITS[n]] else Hex(n / 16) + [DIGITS[n % 16]]
  }

  function ArgsText(args: seq<nat>): string {
    if |args| == 0 then "" else " 0x" + Hex(args[0]) + ArgsText(args[1..])
  }

  function TokenText(token: Token): (s: string)
    ensures 0 < |s|
  {
    match token
    case Null => "<null>"
    case Ref(path, args) => "&{" + path + "}" + ArgsText(args)
  }

  /** The tokens as text, joined by a comma and a space. */
  function TokensText(ts: seq<Token>): string {
    if |ts| == 0 then "" else TokenText(ts[0]) + RestText(ts[1..])
  }

  function RestText(ts: seq<Token>): string {
    if |ts| == 0 then "" else ", " + TokenText(ts[0]) + RestText(ts[1..])
  }

  /** What is compared and printed. */
  function Shown(o: Out): string {
    match o
    case Same(text) => text
    case Tokens(ts) => TokensText(ts)
    case Unresolved(text) => "UNRESOLVED " + text
  }

  /** Keys at which two resolved trees are shown differently. */
  function Differences(a: map<(string, string), Out>, b: map<(string, string), Out>): set<(string, string)> {
    set k | k in a.Keys + b.Keys && !(k in a && k in b && Shown(a[k]) == Shown(b[k]))
  }

  // ----------------------------------------------------------------- renumbering

  ghost predicate Renaming(rho: nat -> nat) {
    rho(0) == 0 && forall a, b :: rho(a) == rho(b) ==> a == b
  }

  /** A cell list with its phandles renamed and its arguments as they were. */
  function Renamed(cs: seq<nat>, sp: Spec, t: Tree, rho: nat -> nat): (r: seq<nat>)
    ensures |r| == |cs|
    decreases |cs|
  {
    if |cs| == 0 then []
    else if cs[0] == 0 then [0] + Renamed(cs[1..], sp, t, rho)
    else if cs[0] !in t.phandles || Stride(sp, t.phandles[cs[0]], t).None? then cs
    else
      var n := Stride(sp, t.phandles[cs[0]], t).value;
      [rho(cs[0])] + Take(cs[1..], n) + Renamed(Drop(cs[1..], n), sp, t, rho)
  }

  /**
   * u is t with its phandles renamed: in the phandle properties and wherever a listed property names a node.
   * The text of a listed property may be anything, and so may everything in a skipped node that is listed.
   */
  ghost predicate RenumberedBy(t: Tree, u: Tree, rho: nat -> nat) {
    && (forall h :: h in t.phandles ==> rho(h) in u.phandles && u.phandles[rho(h)] == t.phandles[h])
    && t.props.Keys == u.props.Keys
    && (forall k :: k in t.props && SpecFor(k.1) == Raw ==> u.props[k] == t.props[k])
    && forall k :: k in t.props && !Skipped(k.0) && SpecFor(k.1) != Raw ==>
         if t.props[k].angled
         then u.props[k].angled && u.props[k].cells == Renamed(t.props[k].cells, SpecFor(k.1), t, rho)
         else u.props[k] == t.props[k]
  }

  /** Every listed property that is compared resolves. */
  ghost predicate AllResolve(t: Tree) {
    forall k :: k in t.props && !Skipped(k.0) && Listed(k.1, t.props[k]) ==>
      Walk(t.props[k].cells, SpecFor(k.1), t).Some?
  }

  /** The stride to a target does not change. */
  lemma SameStride(key: string, target: string, t: Tree, u: Tree, rho: nat -> nat)
    requires RenumberedBy(t, u, rho)
    ensures Stride(SpecFor(key), target, u) == Stride(SpecFor(key), target, t)
  {
    hide SpecFor, CellsName;
    match SpecFor(key)
    case CellsOf(name) =>
      var stem := NamesOfCells(key);
      CellsNamesAreRaw(stem);
      assert (target, name) in t.props <==> (target, name) in u.props;
      if (target, name) in t.props { assert SpecFor((target, name).1) == Raw; }
    case _ =>
  }

  /** Walking the renamed cells gives the same tokens. */
  lemma {:induction false} WalkRenamed(key: string, cs: seq<nat>, t: Tree, u: Tree, rho: nat -> nat)
    requires Renaming(rho) && RenumberedBy(t, u, rho) && Walk(cs, SpecFor(key), t).Some?
    ensures Walk(Renamed(cs, SpecFor(key), t, rho), SpecFor(key), u) == Walk(cs, SpecFor(key), t)
    decreases |cs|
  {
    var sp := SpecFor(key);
    if |cs| > 0 {
      var ds := Renamed(cs, sp, t, rho);
      if cs[0] == 0 {
        WalkRenamed(key, cs[1..], t, u, rho);
        assert ds[1..] == Renamed(cs[1..], sp, t, rho);
      } else {
        var target := t.phandles[cs[0]];
        var n := Stride(sp, target, t).value;
        SameStride(key, target, t, u, rho);
        WalkRenamed(key, Drop(cs[1..], n), t, u, rho);
        assert ds[0] == rho(cs[0]) != 0;
        hide SpecFor, Stride, Renaming;
        RenamedParts(ds, cs, n, Renamed(Drop(cs[1..], n), sp, t, rho), rho);
      }
    }
  }

  lemma RenamedParts(ds: seq<nat>, cs: seq<nat>, n: nat, tail: seq<nat>, rho: nat -> nat)
    requires |cs| > 0 && ds == [rho(cs[0])] + Take(cs[1..], n) + tail && |tail| == |Drop(cs[1..], n)|
    ensures Take(ds[1..], n) == Take(cs[1..], n) && Drop(ds[1..], n) == tail
  {
    assert ds[1..] == Take(cs[1..], n) + tail;
  }

  /**
   * Renumbering invariance: when every listed property resolves, renaming the phandles of a tree in any
   * injective way that keeps 0 leaves the resolved tree as it was, so the comparison finds no difference.
   */
  lemma RenumberingInvisible(t: Tree, u: Tree, rho: nat -> nat)
    requires Renaming(rho) && RenumberedBy(t, u, rho) && AllResolve(t)
    ensures Resolved(u) == Resolved(t) && Differences(Resolved(t), Resolved(u)) == {}
  {
    forall k | k in t.props && !Skipped(k.0)
      ensures ResolveOne(k.1, u.props[k], u) == ResolveOne(k.1, t.props[k], t)
    {
      if Listed(k.1, t.props[k]) { WalkRenamed(k.1, t.props[k].cells, t, u, rho); }
      hide SpecFor, Walk, Skipped;
    }
    hide SpecFor, Walk, Skipped, ResolveOne;
  }

  // -------------------------------------------------------------------- converse

  /** One cell as the specification reads it: a null phandle, a node, or an argument of the node before it. */
  datatype Mark = NullMark | NodeMark(path: string) | ArgMark(cell: nat)

  /** Reading cell by cell; `left` counts the arguments still to come. */
  function Marks(cs: seq<nat>, left: nat, sp: Spec, t: Tree): Option<seq<Mark>>
    decreases |cs|
  {
    if |cs| == 0 then Some([])
    else if left > 0 then MarkFirst(ArgMark(cs[0]), Marks(cs[1..], left - 1, sp, t))
    else if cs[0] == 0 then MarkFirst(NullMark, Marks(cs[1..], 0, sp, t))
    else if cs[0] !in t.phandles then None
    else
      match Stride(sp, t.phandles[cs[0]], t)
      case None => None
      case Some(n) => MarkFirst(NodeMark(t.phandles[cs[0]]), Marks(cs[1..], n, sp, t))
  }

  function MarkFirst(m: Mark, r: Option<seq<Mark>>): Option<seq<Mark>> {
    match r
    case None => None
    case Some(ms) => Some([m] + ms)
  }

  /** A mark for every cell, which says what the cell is. */
  lemma {:induction false} MarksMean(cs: seq<nat>, left: nat, sp: Spec, t: Tree)
    requires Marks(cs, left, sp, t).Some?
    ensures var ms := Marks(cs, left, sp, t).value;
            && |ms| == |cs|
            && forall j :: 0 <= j < |cs| ==> MarkOf(ms[j], cs[j], t)
    decreases |cs|
  {
    if |cs| > 0 {
      if left > 0 { MarksMean(cs[1..], left - 1, sp, t); }
      else if cs[0] == 0 { MarksMean(cs[1..], 0, sp, t); }
      else { MarksMean(cs[1..], Stride(sp, t.phandles[cs[0]], t).value, sp, t); }
    }
  }

  predicate MarkOf(m: Mark, c: nat, t: Tree) {
    match m
    case NullMark => c == 0
    case NodeMark(path) => c != 0 && c in t.phandles && t.phandles[c] == path
    case ArgMark(a) => a == c
  }

  function ArgMarks(args: seq<nat>): seq<Mark> {
    if |args| == 0 then [] else [ArgMark(args[0])] + ArgMarks(args[1..])
  }

  function TokenMarks(token: Token): seq<Mark> {
    match token
    case Null => [NullMark]
    case Ref(path, args) => [NodeMark(path)] + ArgMarks(args)
  }

  /** The marks a token list stands for. */
  function MarksOf(ts: seq<Token>): seq<Mark> {
    if |ts| == 0 then [] else TokenMarks(ts[0]) + MarksOf(ts[1..])
  }

  function MarksAfter(a: seq<Mark>, r: Option<seq<Mark>>): Option<seq<Mark>> {
    match r
    case None => None
    case Some(ms) => Some(a + ms)
  }

  lemma {:induction false} ArgsThenHead(cs: seq<nat>, left: nat, sp: Spec, t: Tree)
    ensures Marks(cs, left, sp, t) == MarksAfter(ArgMarks(Take(cs, left)), Marks(Drop(cs, left), 0, sp, t))
    decreases |cs|
  {
    if |cs| == 0 {
    } else if left == 0 {
      assert Take(cs, 0) == [] && Drop(cs, 0) == cs;
      if Marks(cs, 0, sp, t).Some? { assert [] + Marks(cs, 0, sp, t).value == Marks(cs, 0, sp, t).value; }
    } else {
      ArgsThenHead(cs[1..], left - 1, sp, t);
      assert Take(cs, left)[0] == cs[0] && Take(cs, left)[1..] == Take(cs[1..], left - 1);
      assert Drop(cs, left) == Drop(cs[1..], left - 1);
      AfterFirst(ArgMark(cs[0]), ArgMarks(Take(cs[1..], left - 1)), Marks(Drop(cs, left), 0, sp, t));
    }
  }

  lemma AfterFirst(m: Mark, a: seq<Mark>, r: Option<seq<Mark>>)
    ensures MarkFirst(m, MarksAfter(a, r)) == MarksAfter([m] + a, r)
  {
    if r.Some? { assert [m] + (a + r.value) == [m] + a + r.value; }
  }

  /** The stride walk and the cell-by-cell reading agree. */
  lemma {:induction false} WalkReads(cs: seq<nat>, sp: Spec, t: Tree)
    ensures Marks(cs, 0, sp, t)
         == match Walk(cs, sp, t) case None => None case Some(ts) => Some(MarksOf(ts))
    decreases |cs|
  {
    if |cs| == 0 {
    } else if cs[0] == 0 {
      WalkReads(cs[1..], sp, t);
      MarksOfFirst(Null, Walk(cs[1..], sp, t));
    } else if cs[0] in t.phandles && Stride(sp, t.phandles[cs[0]], t).Some? {
      var target := t.phandles[cs[0]];
      var n := Stride(sp, target, t).value;
      ArgsThenHead(cs[1..], n, sp, t);
      WalkReads(Drop(cs[1..], n), sp, t);
      AfterFirst(NodeMark(target), ArgMarks(Take(cs[1..], n)), Marks(Drop(cs[1..], n), 0, sp, t));
      MarksOfFirst(Ref(target, Take(cs[1..], n)), Walk(Drop(cs[1..], n), sp, t));
    }
  }

  lemma MarksOfFirst(token: Token, r: Option<seq<Token>>)
    ensures r.Some? ==> MarksOf([token] + r.value) == TokenMarks(token) + MarksOf(r.value)
  {
    hide TokenMarks;
    if r.Some? { assert ([token] + r.value)[1..] == r.value; }
  }

  /** The first token of a list, as marks. */
  lemma MarksHead(ts: seq<Token>)
    ensures |ts| == 0 <==> MarksOf(ts) == []
    ensures StartsToken(MarksOf(ts))
    ensures |ts| > 0 ==>
      match ts[0]
      case Null => MarksOf(ts)[0] == NullMark && MarksOf(ts)[1..] == MarksOf(ts[1..])
      case Ref(path, args) => MarksOf(ts)[0] == NodeMark(path) && MarksOf(ts)[1..] == ArgMarks(args) + MarksOf(ts[1..])
  {
    hide ArgMarks;
    if |ts| > 0 {
      var rest := MarksOf(ts[1..]);
      var all := MarksOf(ts);
      assert all == TokenMarks(ts[0]) + rest;
      hide MarksOf;
      match ts[0]
      case Null => ConsThen(NullMark, [], rest);
      case Ref(path, args) => ConsThen(NodeMark(path), ArgMarks(args), rest);
    }
  }

  lemma ConsThen(m: Mark, a: seq<Mark>, b: seq<Mark>)
    ensures [m] + a + b == [m] + (a + b) && ([m] + a + b)[0] == m && ([m] + a + b)[1..] == a + b
    ensures [m] + [] == [m] && [] + b == b
  {
  }

  /** Marks fall apart into tokens in one way only. */
  lemma {:induction false} MarksDetermineTokens(a: seq<Token>, b: seq<Token>)
    requires MarksOf(a) == MarksOf(b)
    ensures a == b
    decreases |a|
  {
    hide MarksOf, ArgMarks;
    MarksHead(a);
    MarksHead(b);
    if |a| > 0 {
      MarksHead(a[1..]);
      MarksHead(b[1..]);
      if a[0].Ref? { SplitArgs(a[0].args, MarksOf(a[1..]), b[0].args, MarksOf(b[1..])); }
      MarksDetermineTokens(a[1..], b[1..]);
      assert a == [a[0]] + a[1..] && b == [b[0]] + b[1..];
    }
  }

  predicate StartsToken(ms: seq<Mark>) { |ms| > 0 ==> !ms[0].ArgMark? }

  /** Leading arguments end where the next token starts. */
  lemma {:induction false} SplitArgs(x: seq<nat>, a: seq<Mark>, y: seq<nat>, b: seq<Mark>)
    requires StartsToken(a) && StartsToken(b) && ArgMarks(x) + a == ArgMarks(y) + b
    ensures x == y && a == b
    decreases |x|
  {
    var l, r := ArgMarks(x) + a, ArgMarks(y) + b;
    ArgsFirst(x, a);
    ArgsFirst(y, b);
    if |x| > 0 && |y| > 0 {
      OneArgLess(x, a);
      OneArgLess(y, b);
      hide ArgMarks;
      SplitArgs(x[1..], a, y[1..], b);
      assert x == [x[0]] + x[1..] && y == [y[0]] + y[1..];
    }
  }

  lemma OneArgLess(x: seq<nat>, a: seq<Mark>)
    requires 0 < |x|
    ensures 0 < |ArgMarks(x) + a| && (ArgMarks(x) + a)[0] == ArgMark(x[0]) && (ArgMarks(x) + a)[1..] == ArgMarks(x[1..]) + a
  {
    var tail := ArgMarks(x[1..]);
    assert ArgMarks(x) == [ArgMark(x[0])] + tail;
    hide ArgMarks;
    ConsThen(ArgMark(x[0]), tail, a);
  }

  lemma ArgsFirst(x: seq<nat>, a: seq<Mark>)
    ensures |x| > 0 ==> |ArgMarks(x) + a| > 0 && (ArgMarks(x) + a)[0].ArgMark?
    ensures |x| == 0 ==> ArgMarks(x) + a == a
  {
  }

  /** Two cells are the same, or name the same node in their own trees. */
  predicate SameCell(c: nat, t: Tree, d: nat, u: Tree) {
    c == d || (c in t.phandles && d in u.phandles && t.phandles[c] == u.phandles[d])
  }

  /**
   * The converse: two resolving cell lists are shown alike exactly when their cell-by-cell readings are equal;
   * then they have the same length, and cell by cell they are equal or name the same node.
   */
  lemma ShownAlikeIff(cs: seq<nat>, ds: seq<nat>, sp: Spec, t: Tree, u: Tree)
    requires Walk(cs, sp, t).Some? && Walk(ds, sp, u).Some?
    ensures Walk(cs, sp, t) == Walk(ds, sp, u) <==> Marks(cs, 0, sp, t) == Marks(ds, 0, sp, u)
    ensures Walk(cs, sp, t) == Walk(ds, sp, u) ==>
      && |cs| == |ds|
      && forall j :: 0 <= j < |cs| ==> SameCell(cs[j], t, ds[j], u)
  {
    WalkReads(cs, sp, t);
    WalkReads(ds, sp, u);
    MarksMean(cs, 0, sp, t);
    MarksMean(ds, 0, sp, u);
    if Marks(cs, 0, sp, t) == Marks(ds, 0, sp, u) {
      MarksDetermineTokens(Walk(cs, sp, t).value, Walk(ds, sp, u).value);
      var ms := Marks(cs, 0, sp, t).value;
      hide Walk, Marks, MarksOf;
      forall j | 0 <= j < |cs| ensures SameCell(cs[j], t, ds[j], u) {
        assert MarkOf(ms[j], cs[j], t) && MarkOf(ms[j], ds[j], u);
      }
    }
  }

  /** What a comparison looks up: the text at a key, or nothing. */
  function LookUp(a: map<(string, string), Out>, k: (string, string)): Option<string> {
    if k in a then Some(Shown(a[k])) else None
  }

  /** A key is listed exactly when the two look-ups differ. */
  lemma DifferencesIff(a: map<(string, string), Out>, b: map<(string, string), Out>, k: (string, string))
    ensures k in Differences(a, b) <==> LookUp(a, k) != LookUp(b, k)
  {
    hide Shown;
  }

  /** The comparison finds nothing exactly when both trees have the same keys, all shown alike. */
  lemma NoDifferencesIff(a: map<(string, string), Out>, b: map<(string, string), Out>)
    ensures Differences(a, b) == {} <==> a.Keys == b.Keys && forall k :: k in a ==> Shown(a[k]) == Shown(b[k])
  {
    hide Shown;
    if Differences(a, b) == {} {
      forall k | k in a.Keys + b.Keys ensures k in a && k in b && Shown(a[k]) == Shown(b[k]) {
        assert k !in Differences(a, b);
      }
      assert a.Keys == b.Keys;
    }
  }

  /** The number a string of hexadecimal digits stands for. */
  function HexValue(s: string): nat {
    if |s| == 0 then 0 else 16 * HexValue(s[..|s| - 1]) + DigitValue(s[|s| - 1])
  }

  function DigitValue(c: char): nat {
    if '0' <= c <= '9' then c as int - '0' as int
    else if 'a' <= c <= 'f' then 10 + (c as int - 'a' as int)
    else 0
  }

  /** Numbers are printed in hexadecimal, without leading zeros. */
  lemma {:induction false} HexIsNumber(n: nat)
    ensures HexValue(Hex(n)) == n
    ensures n > 0 ==> Hex(n)[0] != '0'
  {
    DigitIs(n % 16);
    if n >= 16 {
      HexIsNumber(n / 16);
      HexEnds(n);
      assert Hex(n)[..|Hex(n)| - 1] == Hex(n / 16);
    } else {
      assert Hex(n)[..0] == "";
    }
  }

  lemma DigitIs(d: nat)
    requires d < 16
    ensures DigitValue(DIGITS[d]) == d && (d > 0 ==> DIGITS[d] != '0')
  {
  }

  /** Cells as they are printed: a null phandle, and a node's path with its arguments in hexadecimal. */
  lemma PrintedToken(path: string, a: nat, b: nat)
    ensures TokenText(Null) == "<null>"
    ensures TokenText(Ref(path, [a, b])) == "&{" + path + "}" + " 0x" + Hex(a) + " 0x" + Hex(b)
  {
    assert [a, b][1..] == [b] && [b][1..] == [];
    hide Hex;
    var x, y, head := Hex(a), Hex(b), "&{" + path + "}";
    assert ArgsText([b]) == " 0x" + y;
    assert ArgsText([a, b]) == " 0x" + x + (" 0x" + y);
    hide ArgsText;
    assert head + (" 0x" + x + (" 0x" + y)) == head + " 0x" + x + " 0x" + y;
  }

  lemma PrintedList(s: Token, t: Token)
    ensures TokensText([s, t]) == TokenText(s) + ", " + TokenText(t)
  {
    assert [s, t][1..] == [t] && [t][1..] == [];
    hide TokenText;
    var x, y := TokenText(s), TokenText(t);
    assert RestText([t]) == ", " + y + "" && RestText([]) == "";
    hide RestText;
    assert ", " + y + "" == ", " + y;
    assert x + (", " + y) == x + ", " + y;
  }

  lemma HexEnds(n: nat)
    ensures Hex(n)[|Hex(n)| - 1] == DIGITS[n % 16]
    ensures Hex(n)[..|Hex(n)| - 1] == if n < 16 then "" else Hex(n / 16)
  {
  }

  lemma DigitsDiffer(a: nat, b: nat)
    requires a < 16 && b < 16 && DIGITS[a] == DIGITS[b]
    ensures a == b
  {
  }

  /** Different numbers have different digits. */
  lemma {:induction false} HexInjective(a: nat, b: nat)
    requires Hex(a) == Hex(b)
    ensures a == b
  {
    hide Hex;
    HexEnds(a);
    HexEnds(b);
    DigitsDiffer(a % 16, b % 16);
    if a >= 16 && b >= 16 { HexInjective(a / 16, b / 16); }
  }

  /** A digit is neither a blank nor a comma. */
  lemma {:induction false} HexPlain(n: nat)
    ensures ' ' !in Hex(n) && ',' !in Hex(n)
  {
    if n >= 16 { HexPlain(n / 16); }
  }

  /** Empty, or starting with a character that ends a word. */
  predicate Cut(s: string, ends: string) { |s| > 0 ==> s[0] in ends }

  /** A word without the characters that end it is determined by what it starts. */
  lemma SameWord(u: string, r: string, v: string, s: string, ends: string)
    requires u + r == v + s && Cut(r, ends) && Cut(s, ends)
    requires forall c :: c in ends ==> c !in u && c !in v
    ensures u == v && r == s
  {
    var x, y := u + r, v + s;
    assert forall k :: 0 <= k < |u| ==> x[k] == u[k] && x[k] in u;
    assert forall k :: 0 <= k < |v| ==> y[k] == v[k] && y[k] in v;
    assert |r| > 0 ==> x[|u|] == r[0];
    assert |s| > 0 ==> y[|v|] == s[0];
    assert |u| == |v|;
    assert u == x[..|u|] && v == y[..|v|] && r == x[|u|..] && s == y[|v|..];
  }

  lemma ArgsCut(x: seq<nat>, r: string)
    requires Cut(r, ",")
    ensures Cut(ArgsText(x) + r, " ,")
    ensures |x| > 0 ==> |ArgsText(x) + r| > 3 && (ArgsText(x) + r)[0] == ' '
    ensures |x| > 0 ==> (ArgsText(x) + r)[3..] == Hex(x[0]) + (ArgsText(x[1..]) + r)
    ensures |x| == 0 ==> ArgsText(x) + r == r
  {
    if |x| > 0 {
      var p, h, tail := " 0x", Hex(x[0]), ArgsText(x[1..]);
      assert ArgsText(x) == p + h + tail;
      hide *;
      Regroup(p, h, tail, r);
    } else {
      assert "" + r == r;
    }
  }

  lemma Regroup(p: string, a: string, b: string, c: string)
    ensures p + a + b + c == p + (a + (b + c)) && p + a + b == p + (a + b)
    ensures (p + (a + (b + c)))[|p|..] == a + (b + c) && (p + (a + b))[|p|..] == a + b
    ensures |p| > 0 ==> (p + (a + (b + c)))[0] == p[0] && (p + (a + b))[0] == p[0]
  {
  }

  lemma {:induction false} ArgsInjective(x: seq<nat>, r: string, y: seq<nat>, s: string)
    requires ArgsText(x) + r == ArgsText(y) + s && Cut(r, ",") && Cut(s, ",")
    ensures x == y && r == s
    decreases |x|
  {
    hide ArgsText, Hex;
    ArgsCut(x, r);
    ArgsCut(y, s);
    if |x| > 0 && |y| > 0 {
      ArgsCut(x[1..], r);
      ArgsCut(y[1..], s);
      HexPlain(x[0]);
      HexPlain(y[0]);
      SameWord(Hex(x[0]), ArgsText(x[1..]) + r, Hex(y[0]), ArgsText(y[1..]) + s, " ,");
      HexInjective(x[0], y[0]);
      ArgsInjective(x[1..], r, y[1..], s);
      assert x == [x[0]] + x[1..] && y == [y[0]] + y[1..];
    }
  }

  /** Paths of nodes contain no closing brace. */
  predicate PlainPaths(ts: seq<Token>) {
    forall i :: 0 <= i < |ts| && ts[i].Ref? ==> '}' !in ts[i].path
  }

  /** How the text of a token starts, and where its path ends. */
  lemma TokenStart(a: Token, r: string)
    ensures |TokenText(a) + r| >= 2 && ((TokenText(a) + r)[0] == if a.Null? then '<' else '&')
    ensures a.Null? ==> (TokenText(a) + r)[6..] == r
    ensures a.Ref? ==> (TokenText(a) + r)[2..] == a.path + ("}" + (ArgsText(a.args) + r))
  {
    match a
    case Null =>
      var p := "<null>";
      assert |p| == 6 && TokenText(a) == p;
      hide *;
      assert (p + r)[6..] == r && (p + r)[0] == p[0];
    case Ref(path, args) =>
      var p, e, t := "&{", "}", ArgsText(args);
      assert TokenText(a) == p + path + e + t && |p| == 2;
      hide *;
      Regroup(p, path, e + t, r);
      Regroup(p, path, e, t);
      Regroup(e, t, r, "");
      Regroup(p + path, e, t, r);
  }

  lemma {:induction false} TokenInjective(a: Token, r: string, b: Token, s: string)
    requires TokenText(a) + r == TokenText(b) + s && Cut(r, ",") && Cut(s, ",") && PlainPaths([a, b])
    ensures a == b && r == s
  {
    assert [a, b][0] == a && [a, b][1] == b;
    hide TokenText, ArgsText;
    TokenStart(a, r);
    TokenStart(b, s);
    if a.Ref? {
      var u, v := "}" + (ArgsText(a.args) + r), "}" + (ArgsText(b.args) + s);
      assert u[1..] == ArgsText(a.args) + r && v[1..] == ArgsText(b.args) + s;
      SameWord(a.path, u, b.path, v, "}");
      ArgsInjective(a.args, r, b.args, s);
    }
  }

  lemma RestCut(ts: seq<Token>)
    ensures Cut(RestText(ts), ",") && (RestText(ts) == "" <==> |ts| == 0)
    ensures |ts| > 0 ==> RestText(ts)[2..] == TokenText(ts[0]) + RestText(ts[1..])
  {
    if |ts| > 0 {
      var p, t, rest := ", ", TokenText(ts[0]), RestText(ts[1..]);
      assert RestText(ts) == p + t + rest && |p| == 2 && p[0] == ',';
      hide TokenText, RestText;
      Regroup(p, t, rest, "");
    }
  }

  lemma {:induction false} RestInjective(a: seq<Token>, b: seq<Token>)
    requires RestText(a) == RestText(b) && PlainPaths(a) && PlainPaths(b)
    ensures a == b
    decreases |a|
  {
    hide RestText, TokenText;
    RestCut(a);
    RestCut(b);
    if |a| > 0 {
      RestCut(a[1..]);
      RestCut(b[1..]);
      TokenInjective(a[0], RestText(a[1..]), b[0], RestText(b[1..]));
      RestInjective(a[1..], b[1..]);
      assert a == [a[0]] + a[1..] && b == [b[0]] + b[1..];
    }
  }

  /** The text of a token list determines it. */
  lemma TextInjective(a: seq<Token>, b: seq<Token>)
    requires TokensText(a) == TokensText(b) && PlainPaths(a) && PlainPaths(b)
    ensures a == b
  {
    hide RestText, TokenText;
    if |a| > 0 && |b| > 0 {
      RestCut(a[1..]);
      RestCut(b[1..]);
      TokenInjective(a[0], RestText(a[1..]), b[0], RestText(b[1..]));
      RestInjective(a[1..], b[1..]);
      assert a == [a[0]] + a[1..] && b == [b[0]] + b[1..];
    }
  }

  predicate PlainNodes(t: Tree) {
    forall h :: h in t.phandles ==> '}' !in t.phandles[h]
  }

  lemma {:induction false} WalkPlain(cs: seq<nat>, sp: Spec, t: Tree)
    requires PlainNodes(t)
    ensures Walk(cs, sp, t).Some? ==> PlainPaths(Walk(cs, sp, t).value)
    decreases |cs|
  {
    hide Stride;
    if |cs| > 0 {
      if cs[0] == 0 {
        WalkPlain(cs[1..], sp, t);
      } else if cs[0] in t.phandles && Stride(sp, t.phandles[cs[0]], t).Some? {
        WalkPlain(Drop(cs[1..], Stride(sp, t.phandles[cs[0]], t).value), sp, t);
      }
    }
  }

  /**
   * The converse, on what is printed: two resolving properties of one key are shown as the same text exactly
   * when their cell-by-cell readings are equal (over node paths without a closing brace).
   */
  lemma ShownAsOneTextIff(key: string, v: Value, w: Value, t: Tree, u: Tree)
    requires Listed(key, v) && Listed(key, w) && PlainNodes(t) && PlainNodes(u)
    requires Walk(v.cells, SpecFor(key), t).Some? && Walk(w.cells, SpecFor(key), u).Some?
    ensures Shown(ResolveOne(key, v, t)) == Shown(ResolveOne(key, w, u))
            <==> Marks(v.cells, 0, SpecFor(key), t) == Marks(w.cells, 0, SpecFor(key), u)
  {
    var sp := SpecFor(key);
    ShownAlikeIff(v.cells, w.cells, sp, t, u);
    WalkPlain(v.cells, sp, t);
    WalkPlain(w.cells, sp, u);
    hide Walk, Marks, SpecFor, TokensText, PlainPaths;
    var a, b := Walk(v.cells, sp, t).value, Walk(w.cells, sp, u).value;
    if TokensText(a) == TokensText(b) { TextInjective(a, b); }
  }

  /**
   * Two properties of one key read alike: cell by cell when both are listed, as the same text when neither is,
   * and as text against tokens when only one is.
   */
  predicate ReadAlike(key: string, v: Value, w: Value, t: Tree, u: Tree) {
    if Listed(key, v) && Listed(key, w) then Marks(v.cells, 0, SpecFor(key), t) == Marks(w.cells, 0, SpecFor(key), u)
    else if !Listed(key, v) && !Listed(key, w) then v.text == w.text
    else Shown(ResolveOne(key, v, t)) == Shown(ResolveOne(key, w, u))
  }

  ghost predicate TreesAlike(t: Tree, u: Tree) {
    && (forall k: (string, string) :: !Skipped(k.0) ==> (k in t.props <==> k in u.props))
    && forall k: (string, string) :: k in t.props && !Skipped(k.0) && k in u.props ==>
         ReadAlike(k.1, t.props[k], u.props[k], t, u)
  }

  lemma ShownIffAlike(key: string, v: Value, w: Value, t: Tree, u: Tree)
    requires PlainNodes(t) && PlainNodes(u)
    requires Listed(key, v) ==> Walk(v.cells, SpecFor(key), t).Some?
    requires Listed(key, w) ==> Walk(w.cells, SpecFor(key), u).Some?
    ensures Shown(ResolveOne(key, v, t)) == Shown(ResolveOne(key, w, u)) <==> ReadAlike(key, v, w, t, u)
  {
    hide Walk, Marks, SpecFor, TokensText;
    if Listed(key, v) && Listed(key, w) { ShownAsOneTextIff(key, v, w, t, u); }
  }

  /**
   * What an empty comparison means: for two trees whose listed properties resolve, nothing is listed exactly
   * when, outside the skipped nodes, they have the same properties and all of them read alike.
   */
  lemma EmptyMeansAlike(t: Tree, u: Tree)
    requires AllResolve(t) && AllResolve(u) && PlainNodes(t) && PlainNodes(u)
    ensures Differences(Resolved(t), Resolved(u)) == {} <==> TreesAlike(t, u)
  {
    var a, b := Resolved(t), Resolved(u);
    NoDifferencesIff(a, b);
    hide Differences, Skipped, Walk, SpecFor, Shown, ReadAlike, ResolveOne, Listed, PlainNodes;
    forall k: (string, string) | k in a && k in b
      ensures Shown(a[k]) == Shown(b[k]) <==> ReadAlike(k.1, t.props[k], u.props[k], t, u)
    {
      ShownIffAlike(k.1, t.props[k], u.props[k], t, u);
    }
    assert a.Keys == b.Keys <==> forall k: (string, string) :: !Skipped(k.0) ==> (k in t.props <==> k in u.props);
  }

  function TreeOf(s: State): Tree { Tree(s.props, s.phandles) }

  /** The whole comparison: flatten both, resolve both, and list the keys that differ. */
  method Compare(a: seq<Line>, b: seq<Line>) returns (r: Option<set<(string, string)>>)
    ensures r.Some? <==> Run(EMPTY, a).Some? && Run(EMPTY, b).Some?
    ensures r.Some? ==>
      r.value == Differences(Resolved(TreeOf(Run(EMPTY, a).value)), Resolved(TreeOf(Run(EMPTY, b).value)))
  {
    hide Run, Resolved, Differences;
    var s := Flatten(a);
    var t := Flatten(b);
    if s.None? || t.None? { return None; }
    var x := Resolve(TreeOf(s.value));
    var y := Resolve(TreeOf(t.value));
    return Some(Differences(x, y));
  }

  // ------------------------------------------------------ two printed trees, renumbered

  /** The value of a property with its phandles renamed; the text of a walked one may be anything. */
  predicate ValueRenumbered(key: string, v: Value, w: Value, t: Tree, rho: nat -> nat) {
    if Listed(key, v) then w.angled && w.cells == Renamed(v.cells, SpecFor(key), t, rho) else w == v
  }

  /** c is b with every phandle property and every phandle named by a listed property renamed. */
  predicate BodyRenumbered(b: Body, c: Body, t: Tree, rho: nat -> nat) {
    match b
    case End => c.End?
    case Prop(k, v, rest) =>
      c.Prop? && c.key == k && ValueRenumbered(k, v, c.val, t, rho) && BodyRenumbered(rest, c.rest, t, rho)
    case Phandle(h, rest) => c.Phandle? && c.h == rho(h) && BodyRenumbered(rest, c.rest, t, rho)
    case Child(name, body, rest) =>
      c.Child? && c.name == name && BodyRenumbered(body, c.body, t, rho) && BodyRenumbered(rest, c.rest, t, rho)
  }

  lemma {:induction false} PropRenumbered(b: Body, c: Body, path: string, t: Tree, rho: nat -> nat, k: (string, string))
    requires BodyRenumbered(b, c, t, rho)
    ensures k in PropsOf(b, path) <==> k in PropsOf(c, path)
    ensures k in PropsOf(b, path) ==> ValueRenumbered(k.1, PropsOf(b, path)[k], PropsOf(c, path)[k], t, rho)
    decreases b
  {
    hide ValueRenumbered, Join;
    match b
    case End =>
    case Prop(_, _, rest) => PropRenumbered(rest, c.rest, path, t, rho, k);
    case Phandle(_, rest) => PropRenumbered(rest, c.rest, path, t, rho, k);
    case Child(name, body, rest) =>
      PropRenumbered(body, c.body, Join(path, name), t, rho, k);
      PropRenumbered(rest, c.rest, path, t, rho, k);
  }

  lemma {:induction false} PhandleRenumbered(b: Body, c: Body, path: string, t: Tree, rho: nat -> nat, h: nat)
    requires Renaming(rho) && BodyRenumbered(b, c, t, rho)
    ensures h in PhandlesOf(b, path) <==> rho(h) in PhandlesOf(c, path)
    ensures h in PhandlesOf(b, path) ==> PhandlesOf(c, path)[rho(h)] == PhandlesOf(b, path)[h]
    decreases b
  {
    hide ValueRenumbered, Join;
    match b
    case End =>
    case Prop(_, _, rest) => PhandleRenumbered(rest, c.rest, path, t, rho, h);
    case Phandle(_, rest) => PhandleRenumbered(rest, c.rest, path, t, rho, h);
    case Child(name, body, rest) =>
      PhandleRenumbered(body, c.body, Join(path, name), t, rho, h);
      PhandleRenumbered(rest, c.rest, path, t, rho, h);
  }

  lemma TreesRenumbered(a: Body, b: Body, rho: nat -> nat)
    requires var t := Tree(PropsOf(a, "/"), PhandlesOf(a, "/"));
             Renaming(rho) && BodyRenumbered(a, b, t, rho)
    ensures RenumberedBy(Tree(PropsOf(a, "/"), PhandlesOf(a, "/")), Tree(PropsOf(b, "/"), PhandlesOf(b, "/")), rho)
  {
    var t, u := Tree(PropsOf(a, "/"), PhandlesOf(a, "/")), Tree(PropsOf(b, "/"), PhandlesOf(b, "/"));
    hide PropsOf, PhandlesOf, BodyRenumbered;
    forall h | h in t.phandles ensures rho(h) in u.phandles && u.phandles[rho(h)] == t.phandles[h] {
      PhandleRenumbered(a, b, "/", t, rho, h);
    }
    forall k: (string, string)
      ensures k in t.props <==> k in u.props
      ensures k in t.props ==> ValueRenumbered(k.1, t.props[k], u.props[k], t, rho)
    {
      PropRenumbered(a, b, "/", t, rho, k);
    }
    Gathered(t, u, rho);
  }

  lemma Gathered(t: Tree, u: Tree, rho: nat -> nat)
    requires forall h :: h in t.phandles ==> rho(h) in u.phandles && u.phandles[rho(h)] == t.phandles[h]
    requires forall k: (string, string) :: k in t.props <==> k in u.props
    requires forall k: (string, string) :: k in t.props ==> ValueRenumbered(k.1, t.props[k], u.props[k], t, rho)
    ensures RenumberedBy(t, u, rho)
  {
    hide SpecFor, Skipped, Renamed;
  }

  /**
   * Renumbering is invisible from the printed lines on: comparing two printed trees that differ only by an
   * injective renaming of phandles, whose listed properties resolve, lists no difference.
   */
  lemma PrintedRenumbering(a: Body, b: Body, rho: nat -> nat, left: seq<Line>, right: seq<Line>)
    requires Relevant(left) == [Open("/")] + Print(a) + [Close] && Relevant(right) == [Open("/")] + Print(b) + [Close]
    requires var t := Tree(PropsOf(a, "/"), PhandlesOf(a, "/"));
             Renaming(rho) && BodyRenumbered(a, b, t, rho) && AllResolve(t)
    ensures Run(EMPTY, left).Some? && Run(EMPTY, right).Some?
    ensures Differences(Resolved(TreeOf(Run(EMPTY, left).value)), Resolved(TreeOf(Run(EMPTY, right).value))) == {}
  {
    var t, u := Tree(PropsOf(a, "/"), PhandlesOf(a, "/")), Tree(PropsOf(b, "/"), PhandlesOf(b, "/"));
    FlattenIsMeaning(left, a);
    FlattenIsMeaning(right, b);
    TreesRenumbered(a, b, rho);
    hide *;
    RenumberingInvisible(t, u, rho);
  }
}

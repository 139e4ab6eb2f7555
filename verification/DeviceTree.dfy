/** Flattening a printed device tree to properties by node path (flatten() of dtb-semantic-diff.py). */
module DeviceTree {
  import opened Wrappers

  /**
   * A property value: its text, whether it contains an opening angle bracket, and the cells between the
   * brackets (none without brackets).
   */
  datatype Value = Value(text: string, angled: bool, cells: seq<nat>)

  type Props = map<(string, string), Value>
  type Phandles = map<nat, string>

  /** A line of source, classified: blank lines, comments and anything unmatched are Other. */
  datatype Line = Open(name: string) | Close | Property(key: string, val: Value) | PhandleIs(h: nat) | Other

  datatype State = State(props: Props, phandles: Phandles, stack: seq<string>)

  const EMPTY := State(map[], map[], [])

  /** Python's rstrip('/'). */
  function StripSlashes(s: string): string {
    if |s| > 0 && s[|s| - 1] == '/' then StripSlashes(s[..|s| - 1]) else s
  }

  /** Path of a node below a parent. */
  function Join(parent: string, name: string): string {
    if name == "/" then "/" else StripSlashes(parent) + "/" + name
  }

  /** The root is "/", and a node's path is its parent's and its name behind a single slash. */
  lemma JoinIs(parent: string, name: string)
    requires name != "/" && (|parent| > 0 ==> parent[|parent| - 1] != '/')
    ensures Join(parent, "/") == "/" && Join("/", name) == "/" + name && Join(parent, name) == parent + "/" + name
  {
    assert "/"[..0] == "" && "" + "/" + name == "/" + name;
  }

  /** One line of the stack machine; closing with nothing open is an error. */
  function Step(s: State, line: Line): Option<State> {
    match line
    case Open(name) =>
      Some(s.(stack := s.stack + [Join(if |s.stack| > 0 then s.stack[|s.stack| - 1] else "", name)]))
    case Close =>
      if |s.stack| == 0 then None else Some(s.(stack := s.stack[..|s.stack| - 1]))
    case Property(key, val) =>
      if |s.stack| == 0 then Some(s) else Some(s.(props := s.props[(s.stack[|s.stack| - 1], key) := val]))
    case PhandleIs(h) =>
      if |s.stack| == 0 then Some(s) else Some(s.(phandles := s.phandles[h := s.stack[|s.stack| - 1]]))
    case Other => Some(s)
  }

  function Run(s: State, lines: seq<Line>): Option<State>
    decreases |lines|
  {
    if |lines| == 0 then Some(s) else
      match Step(s, lines[0])
      case None => None
      case Some(next) => Run(next, lines[1..])
  }

  /** flatten(): the loop over the lines, with its dictionaries and its stack. */
  method Flatten(lines: seq<Line>) returns (r: Option<State>)
    ensures r == Run(EMPTY, lines)
  {
    var props: Props, phandles: Phandles, stack: seq<string> := map[], map[], [];
    for i := 0 to |lines|
      invariant Run(EMPTY, lines) == Run(State(props, phandles, stack), lines[i..])
    {
      var line := lines[i];
      assert lines[i..][0] == line && lines[i..][1..] == lines[i + 1..];
      if line.Other? { continue; }
      if line.Open? {
        var parent := if |stack| > 0 then stack[|stack| - 1] else "";
        stack := stack + [if line.name == "/" then "/" else StripSlashes(parent) + "/" + line.name];
        continue;
      }
      if line.Close? {
        if |stack| == 0 { return None; }
        stack := stack[..|stack| - 1];
        continue;
      }
      if |stack| == 0 { continue; }
      if line.PhandleIs? {
        phandles := phandles[line.h := stack[|stack| - 1]];
        continue;
      }
      props := props[(stack[|stack| - 1], line.key) := line.val];
    }
    assert lines[|lines|..] == [];
    return Some(State(props, phandles, stack));
  }

  // --------------------------------------------------------------- the tree's meaning

  /** What stands between the braces of a node. */
  datatype Body =
    | End
    | Prop(key: string, val: Value, rest: Body)
    | Phandle(h: nat, rest: Body)
    | Child(name: string, body: Body, rest: Body)

  function Print(b: Body): seq<Line> {
    match b
    case End => []
    case Prop(k, v, rest) => [Property(k, v)] + Print(rest)
    case Phandle(h, rest) => [PhandleIs(h)] + Print(rest)
    case Child(name, body, rest) => [Open(name)] + Print(body) + [Close] + Print(rest)
  }

  /** Properties of a body and everything below it. */
  function PropsOf(b: Body, path: string): Props {
    match b
    case End => map[]
    case Prop(k, v, rest) => map[(path, k) := v] + PropsOf(rest, path)
    case Phandle(_, rest) => PropsOf(rest, path)
    case Child(name, body, rest) => PropsOf(body, Join(path, name)) + PropsOf(rest, path)
  }

  function PhandlesOf(b: Body, path: string): Phandles {
    match b
    case End => map[]
    case Prop(_, _, rest) => PhandlesOf(rest, path)
    case Phandle(h, rest) => map[h := path] + PhandlesOf(rest, path)
    case Child(name, body, rest) => PhandlesOf(body, Join(path, name)) + PhandlesOf(rest, path)
  }

  /** A state with the meaning of a body added. */
  function Added(s: State, b: Body, path: string): State {
    State(s.props + PropsOf(b, path), s.phandles + PhandlesOf(b, path), s.stack)
  }

  lemma AddedProp(s: State, k: string, v: Value, rest: Body, path: string)
    ensures Added(s.(props := s.props[(path, k) := v]), rest, path) == Added(s, Prop(k, v, rest), path)
  {
    assert s.props[(path, k) := v] + PropsOf(rest, path) == s.props + (map[(path, k) := v] + PropsOf(rest, path));
  }

  lemma AddedPhandle(s: State, h: nat, rest: Body, path: string)
    ensures Added(s.(phandles := s.phandles[h := path]), rest, path) == Added(s, Phandle(h, rest), path)
  {
    assert s.phandles[h := path] + PhandlesOf(rest, path) == s.phandles + (map[h := path] + PhandlesOf(rest, path));
  }

  lemma AddedChild(s: State, name: string, body: Body, rest: Body, path: string)
    ensures Added(Added(s, body, Join(path, name)), rest, path) == Added(s, Child(name, body, rest), path)
  {
    var below := Join(path, name);
    MergeAssoc(s.props, PropsOf(body, below), PropsOf(rest, path));
    MergeAssoc(s.phandles, PhandlesOf(body, below), PhandlesOf(rest, path));
  }

  lemma MergeAssoc<K, V>(a: map<K, V>, b: map<K, V>, c: map<K, V>)
    ensures a + b + c == a + (b + c)
  {
  }

  /** Running the lines of a body under an open node adds its meaning and leaves the stack as it was. */
  lemma {:induction false} RunBody(b: Body, s: State, path: string, more: seq<Line>)
    requires |s.stack| > 0 && s.stack[|s.stack| - 1] == path
    ensures Run(s, Print(b) + more) == Run(Added(s, b, path), more)
    decreases b
  {
    hide Run, Join, PropsOf, PhandlesOf;
    match b
    case End =>
      AddedEnd(s, path);
      assert Print(b) + more == more;
    case Prop(k, v, rest) =>
      RunFirst(s, Property(k, v), Print(rest), more);
      RunBody(rest, s.(props := s.props[(path, k) := v]), path, more);
      AddedProp(s, k, v, rest, path);
    case Phandle(h, rest) =>
      RunFirst(s, PhandleIs(h), Print(rest), more);
      RunBody(rest, s.(phandles := s.phandles[h := path]), path, more);
      AddedPhandle(s, h, rest, path);
    case Child(name, body, rest) =>
      var below, after := Join(path, name), [Close] + (Print(rest) + more);
      assert Print(b) + more == [Open(name)] + Print(body) + after;
      RunFirst(s, Open(name), Print(body), after);
      RunBody(body, s.(stack := s.stack + [below]), below, after);
      var back := Added(s, body, below);
      RunClose(back, below, Print(rest) + more);
      RunBody(rest, back, path, more);
      AddedChild(s, name, body, rest, path);
  }

  lemma AddedEnd(s: State, path: string)
    ensures Added(s, End, path) == s
  {
    assert s.props + map[] == s.props && s.phandles + map[] == s.phandles;
  }

  lemma RunClose(s: State, top: string, more: seq<Line>)
    ensures Run(s.(stack := s.stack + [top]), [Close] + more) == Run(s, more)
  {
    var t := s.(stack := s.stack + [top]);
    assert ([Close] + more)[1..] == more;
    assert t.stack[..|t.stack| - 1] == s.stack;
  }

  lemma RunFirst(s: State, line: Line, rest: seq<Line>, more: seq<Line>)
    requires Step(s, line).Some?
    ensures Run(s, [line] + rest + more) == Run(Step(s, line).value, rest + more)
  {
    assert ([line] + rest + more)[1..] == rest + more;
  }

  /** The lines that matter. */
  function Relevant(lines: seq<Line>): seq<Line> {
    if |lines| == 0 then [] else (if lines[0].Other? then [] else [lines[0]]) + Relevant(lines[1..])
  }

  lemma {:induction false} RunRelevant(s: State, lines: seq<Line>)
    ensures Run(s, lines) == Run(s, Relevant(lines))
    decreases |lines|
  {
    if |lines| > 0 {
      if lines[0].Other? {
        RunRelevant(s, lines[1..]);
        assert Relevant(lines) == Relevant(lines[1..]);
      } else {
        assert Relevant(lines)[1..] == Relevant(lines[1..]);
        if Step(s, lines[0]).Some? { RunRelevant(Step(s, lines[0]).value, lines[1..]); }
      }
    }
  }

  /**
   * The stack machine computes the meaning of the tree: a printed tree, with any other lines in between, yields
   * the properties and phandles of the tree by path, and ends with nothing open.
   */
  lemma FlattenIsMeaning(lines: seq<Line>, root: Body)
    requires Relevant(lines) == [Open("/")] + Print(root) + [Close]
    ensures Run(EMPTY, lines) == Some(State(PropsOf(root, "/"), PhandlesOf(root, "/"), []))
  {
    RunRelevant(EMPTY, lines);
    var s, done := EMPTY.(stack := ["/"]), State(PropsOf(root, "/"), PhandlesOf(root, "/"), []);
    assert Step(EMPTY, Open("/")) == Some(s) by { assert [] + ["/"] == ["/"]; }
    AddedToNothing(s, root, "/");
    assert Run(done, []) == Some(done);
    hide Run, Step, Print, Relevant, PropsOf, PhandlesOf;
    RunFirst(EMPTY, Open("/"), Print(root), [Close]);
    RunBody(root, s, "/", [Close]);
    RunClose(done, "/", []);
    assert [Close] + [] == [Close] && done.stack + ["/"] == ["/"];
  }

  lemma AddedToNothing(s: State, b: Body, path: string)
    requires s.props == map[] && s.phandles == map[]
    ensures Added(s, b, path) == State(PropsOf(b, path), PhandlesOf(b, path), s.stack)
  {
    assert map[] + PropsOf(b, path) == PropsOf(b, path) && map[] + PhandlesOf(b, path) == PhandlesOf(b, path);
  }

  // ------------------------------------------------------------------- full paths

  /** A node name: not empty, without a slash. */
  predicate NameOk(n: string) { n != "" && '/' !in n }

  predicate NamesOk(p: seq<string>) { forall i :: 0 <= i < |p| ==> NameOk(p[i]) }

  function Slashed(p: seq<string>): string {
    if |p| == 0 then "" else Slashed(p[..|p| - 1]) + "/" + p[|p| - 1]
  }

  /** The full path of the node reached by the names p. */
  function FullPath(p: seq<string>): string {
    if |p| == 0 then "/" else Slashed(p)
  }

  lemma JoinExtends(p: seq<string>, name: string)
    requires NamesOk(p) && NameOk(name)
    ensures Join(FullPath(p), name) == FullPath(p + [name])
  {
    assert (p + [name])[..|p|] == p;
    assert StripSlashes(FullPath(p)) == Slashed(p) by {
      if |p| == 0 {
        assert StripSlashes("/") == StripSlashes("/"[..0]);
      } else {
        var s, last := Slashed(p), p[|p| - 1];
        assert s[|s| - 1] == last[|last| - 1];
      }
    }
  }

  /** Different name paths are different strings. */
  lemma {:induction false} FullPathInjective(p: seq<string>, q: seq<string>)
    requires NamesOk(p) && NamesOk(q) && FullPath(p) == FullPath(q)
    ensures p == q
  {
    assert |p| > 0 ==> |Slashed(p)| >= 2;
    assert |q| > 0 ==> |Slashed(q)| >= 2;
    if |p| > 0 && |q| > 0 {
      SlashedInjective(p, q);
    }
  }

  lemma {:induction false} SlashedInjective(p: seq<string>, q: seq<string>)
    requires NamesOk(p) && NamesOk(q) && Slashed(p) == Slashed(q)
    ensures p == q
    decreases |p|
  {
    if |p| > 0 && |q| > 0 {
      LastSlash(Slashed(p[..|p| - 1]), p[|p| - 1], Slashed(q[..|q| - 1]), q[|q| - 1]);
      SlashedInjective(p[..|p| - 1], q[..|q| - 1]);
      assert p == p[..|p| - 1] + [p[|p| - 1]] && q == q[..|q| - 1] + [q[|q| - 1]];
    }
  }

  /** The last slash separates a path from its last name. */
  lemma LastSlash(a: string, m: string, b: string, n: string)
    requires '/' !in m && '/' !in n && a + "/" + m == b + "/" + n
    ensures a == b && m == n
  {
    var s, t := a + "/" + m, b + "/" + n;
    assert s[|a|] == '/' && t[|b|] == '/';
    assert forall k :: |a| < k < |s| ==> s[k] == m[k - |a| - 1];
    assert forall k :: |b| < k < |t| ==> t[k] == n[k - |b| - 1];
    assert |a| == |b|;
    assert a == s[..|a|] && b == t[..|b|] && m == s[|a| + 1..] && n == t[|b| + 1..];
  }

  // ---------------------------------------------------------- each property under its node

  /** The node reached by q from a body at p has property k with value v. */
  predicate HasProp(b: Body, p: seq<string>, q: seq<string>, k: string, v: Value) {
    match b
    case End => false
    case Prop(k2, v2, rest) => (q == p && k == k2 && v == v2) || HasProp(rest, p, q, k, v)
    case Phandle(_, rest) => HasProp(rest, p, q, k, v)
    case Child(name, body, rest) => HasProp(body, p + [name], q, k, v) || HasProp(rest, p, q, k, v)
  }

  predicate HasPhandle(b: Body, p: seq<string>, q: seq<string>, h: nat) {
    match b
    case End => false
    case Prop(_, _, rest) => HasPhandle(rest, p, q, h)
    case Phandle(h2, rest) => (q == p && h == h2) || HasPhandle(rest, p, q, h)
    case Child(name, body, rest) => HasPhandle(body, p + [name], q, h) || HasPhandle(rest, p, q, h)
  }

  predicate HasKey(b: Body, k: string) {
    match b
    case End => false
    case Prop(k2, _, rest) => k == k2 || HasKey(rest, k)
    case Phandle(_, rest) => HasKey(rest, k)
    case Child(_, _, rest) => HasKey(rest, k)
  }

  predicate HasChild(b: Body, n: string) {
    match b
    case End => false
    case Prop(_, _, rest) => HasChild(rest, n)
    case Phandle(_, rest) => HasChild(rest, n)
    case Child(name, _, rest) => n == name || HasChild(rest, n)
  }

  /** Sibling nodes have different names, properties of one node different keys, and names are well formed. */
  predicate Distinct(b: Body) {
    match b
    case End => true
    case Prop(k, _, rest) => !HasKey(rest, k) && Distinct(rest)
    case Phandle(_, rest) => Distinct(rest)
    case Child(name, body, rest) => NameOk(name) && !HasChild(rest, name) && Distinct(body) && Distinct(rest)
  }

  /** A property below p belongs to p itself or to one of its children. */
  lemma {:induction false} Below(b: Body, p: seq<string>, q: seq<string>, k: string, v: Value)
    requires HasProp(b, p, q, k, v) && Distinct(b) && NamesOk(p)
    ensures p <= q && NamesOk(q) && (q == p ==> HasKey(b, k)) && (q != p ==> HasChild(b, q[|p|]))
    decreases b
  {
    match b
    case Prop(k2, v2, rest) => if HasProp(rest, p, q, k, v) { Below(rest, p, q, k, v); }
    case Phandle(_, rest) => Below(rest, p, q, k, v);
    case Child(name, body, rest) =>
      if HasProp(rest, p, q, k, v) { Below(rest, p, q, k, v); }
      else { Below(body, p + [name], q, k, v); }
  }

  /** Every entry comes from a node of the tree. */
  lemma {:induction false} EntryFrom(b: Body, p: seq<string>, at: string, k: string) returns (q: seq<string>)
    requires Distinct(b) && NamesOk(p) && (at, k) in PropsOf(b, FullPath(p))
    ensures HasProp(b, p, q, k, PropsOf(b, FullPath(p))[(at, k)]) && at == FullPath(q)
    decreases b
  {
    match b
    case Prop(k2, v2, rest) =>
      if (at, k) in PropsOf(rest, FullPath(p)) { q := EntryFrom(rest, p, at, k); } else { q := p; }
    case Phandle(_, rest) => q := EntryFrom(rest, p, at, k);
    case Child(name, body, rest) =>
      JoinExtends(p, name);
      if (at, k) in PropsOf(rest, FullPath(p)) { q := EntryFrom(rest, p, at, k); }
      else { q := EntryFrom(body, p + [name], at, k); }
  }

  /** Every property of the tree is entered under its node's full path, and no other node overwrites it. */
  lemma {:induction false} Entered(b: Body, p: seq<string>, q: seq<string>, k: string, v: Value)
    requires Distinct(b) && NamesOk(p) && HasProp(b, p, q, k, v)
    ensures (FullPath(q), k) in PropsOf(b, FullPath(p)) && PropsOf(b, FullPath(p))[(FullPath(q), k)] == v
    decreases b
  {
    match b
    case Prop(k2, v2, rest) =>
      if HasProp(rest, p, q, k, v) {
        Entered(rest, p, q, k, v);
      } else {
        NotEntered(rest, p, p, k);
      }
    case Phandle(_, rest) => Entered(rest, p, q, k, v);
    case Child(name, body, rest) =>
      JoinExtends(p, name);
      if HasProp(rest, p, q, k, v) {
        Entered(rest, p, q, k, v);
      } else {
        Entered(body, p + [name], q, k, v);
        Below(body, p + [name], q, k, v);
        NotEntered(rest, p, q, k);
      }
  }

  /** Where a body has neither the key nor the child, it makes no entry. */
  lemma NotEntered(b: Body, p: seq<string>, q: seq<string>, k: string)
    requires Distinct(b) && NamesOk(p) && NamesOk(q) && p <= q
    requires if q == p then !HasKey(b, k) else !HasChild(b, q[|p|])
    ensures (FullPath(q), k) !in PropsOf(b, FullPath(p))
  {
    if (FullPath(q), k) in PropsOf(b, FullPath(p)) {
      var q2 := EntryFrom(b, p, FullPath(q), k);
      Below(b, p, q2, k, PropsOf(b, FullPath(p))[(FullPath(q), k)]);
      FullPathInjective(q, q2);
    }
  }

  /**
   * For every tree with distinct sibling names: the flattened properties are exactly the tree's, each under its
   * node's full path.
   */
  lemma PropsAreTrees(root: Body, q: seq<string>, k: string, v: Value)
    requires Distinct(root) && NamesOk(q)
    ensures HasProp(root, [], q, k, v)
            <==> (FullPath(q), k) in PropsOf(root, "/") && PropsOf(root, "/")[(FullPath(q), k)] == v
  {
    if HasProp(root, [], q, k, v) {
      Entered(root, [], q, k, v);
    } else if (FullPath(q), k) in PropsOf(root, "/") {
      var q2 := EntryFrom(root, [], FullPath(q), k);
      Below(root, [], q2, k, PropsOf(root, "/")[(FullPath(q), k)]);
      FullPathInjective(q, q2);
    }
  }

  lemma {:induction false} PhandleFrom(b: Body, p: seq<string>, h: nat) returns (q: seq<string>)
    requires Distinct(b) && NamesOk(p) && h in PhandlesOf(b, FullPath(p))
    ensures HasPhandle(b, p, q, h) && PhandlesOf(b, FullPath(p))[h] == FullPath(q)
    decreases b
  {
    match b
    case Prop(_, _, rest) => q := PhandleFrom(rest, p, h);
    case Phandle(h2, rest) =>
      if h in PhandlesOf(rest, FullPath(p)) { q := PhandleFrom(rest, p, h); } else { q := p; }
    case Child(name, body, rest) =>
      JoinExtends(p, name);
      if h in PhandlesOf(rest, FullPath(p)) { q := PhandleFrom(rest, p, h); }
      else { q := PhandleFrom(body, p + [name], h); }
  }

  lemma {:induction false} PhandleEntered(b: Body, p: seq<string>, q: seq<string>, h: nat)
    requires Distinct(b) && NamesOk(p) && HasPhandle(b, p, q, h)
    ensures h in PhandlesOf(b, FullPath(p))
    decreases b
  {
    match b
    case Prop(_, _, rest) => PhandleEntered(rest, p, q, h);
    case Phandle(h2, rest) => if HasPhandle(rest, p, q, h) { PhandleEntered(rest, p, q, h); }
    case Child(name, body, rest) =>
      JoinExtends(p, name);
      if HasPhandle(rest, p, q, h) { PhandleEntered(rest, p, q, h); }
      else { PhandleEntered(body, p + [name], q, h); }
  }

  /** A phandle that only one node has is mapped to that node's full path. */
  lemma PhandlesAreTrees(root: Body, q: seq<string>, h: nat)
    requires Distinct(root) && HasPhandle(root, [], q, h)
    requires forall r :: HasPhandle(root, [], r, h) ==> r == q
    ensures h in PhandlesOf(root, "/") && PhandlesOf(root, "/")[h] == FullPath(q)
  {
    PhandleEntered(root, [], q, h);
    var r := PhandleFrom(root, [], h);
  }
}

/** Memory-accelerator level transitions: the two detectors and the custom-corner correction. */
module MemAcc {

  /** Corner pairs recorded so far, and the level last recorded. */
  datatype Acc = Acc(vals: seq<int>, last: nat)

  /** The detector of qcom_cpufreq_hw_write_lut() over the first n rows. */
  function AccRun(spares: seq<nat>, n: nat): (a: Acc)
    requires n <= |spares|
    ensures |a.vals| in {0, 2, 4}
  {
    if n == 0 then Acc([], 1) else
      var a := AccRun(spares, n - 1);
      if spares[n - 1] <= a.last || |a.vals| >= 3 then a
      else Acc(a.vals + [n - 2, n - 1], spares[n - 1])
  }

  /** Row i asks for a higher level than level 1 and every row before it. */
  predicate Rise(spares: seq<nat>, i: nat)
    requires i < |spares|
  {
    spares[i] > 1 && forall j :: 0 <= j < i ==> spares[j] < spares[i]
  }

  /** While pairs are still being recorded the last level is the highest so far. */
  predicate Highest(spares: seq<nat>, n: nat, last: nat)
    requires n <= |spares|
  {
    && (forall j :: 0 <= j < n ==> spares[j] <= last)
    && 1 <= last && (last == 1 || exists j :: 0 <= j < n && spares[j] == last)
  }

  /** The detector brackets the first two rises, in order, and nothing else. */
  predicate Brackets(spares: seq<nat>, n: nat, vals: seq<int>)
    requires n <= |spares|
  {
    match |vals|
    case 0 => forall i :: 0 <= i < n ==> !Rise(spares, i)
    case 2 =>
      && 0 <= vals[1] < n && vals[0] == vals[1] - 1 && Rise(spares, vals[1])
      && forall i :: 0 <= i < n && i != vals[1] ==> !Rise(spares, i)
    case 4 =>
      && 0 <= vals[1] < vals[3] < n && vals[0] == vals[1] - 1 && vals[2] == vals[3] - 1
      && Rise(spares, vals[1]) && Rise(spares, vals[3])
      && forall i :: 0 <= i < vals[3] && i != vals[1] ==> !Rise(spares, i)
    case _ => false
  }

  lemma {:induction false} AccBrackets(spares: seq<nat>, n: nat)
    requires n <= |spares|
    ensures Brackets(spares, n, AccRun(spares, n).vals)
    ensures |AccRun(spares, n).vals| < 4 ==> Highest(spares, n, AccRun(spares, n).last)
  {
    if n > 0 {
      AccBrackets(spares, n - 1);
      var a := AccRun(spares, n - 1);
      if |a.vals| < 4 {
        assert Rise(spares, n - 1) <==> spares[n - 1] > a.last;
      }
    }
  }

  /** The run is accepted exactly when two rows rise. */
  lemma AcceptedIff(spares: seq<nat>, n: nat)
    requires n <= |spares|
    ensures |AccRun(spares, n).vals| == 4
            <==> exists i, j :: 0 <= i < j < n && Rise(spares, i) && Rise(spares, j)
  {
    AccBrackets(spares, n);
    var vals := AccRun(spares, n).vals;
    if |vals| == 4 { assert Rise(spares, vals[1]) && Rise(spares, vals[3]); }
  }

  /** A first row that asks for level 1 at most keeps every recorded corner non-negative. */
  lemma FirstRowLow(spares: seq<nat>, n: nat)
    requires 0 < n <= |spares| && spares[0] <= 1
    ensures forall k :: 0 <= k < |AccRun(spares, n).vals| ==> 0 <= AccRun(spares, n).vals[k]
  {
    AccBrackets(spares, n);
    assert !Rise(spares, 0);
  }

  /** Rows that repeat row n-1 never rise: padding records no pair. */
  lemma {:induction false} PaddingInert(spares: seq<nat>, n: nat, m: nat)
    requires 0 < n <= m <= |spares|
    requires forall i :: n <= i < m ==> spares[i] == spares[n - 1]
    ensures AccRun(spares, m) == AccRun(spares, n)
  {
    if n < m {
      PaddingInert(spares, n, m - 1);
      AccBrackets(spares, n);
    }
  }

  /** The correction for a customised MEM-ACC corner. */
  function Customise(vals: seq<int>, accVc: int): (r: seq<int>)
    requires |vals| == 4
    ensures |r| == 4
  {
    var vc := accVc - 1;
    var a3 := if vc < vals[3] then vc else vals[3];
    var a2 := if vc < vals[3] then vc - 1 else vals[2];
    var a1 := if a2 <= vals[1] then a2 - 1 else vals[1];
    var a0 := if a1 <= vals[0] then a1 - 1 else vals[0];
    [a0, a1, a2, a3]
  }

  /**
   * The corrected corners are strictly increasing and never above the detected ones. With a usable custom
   * corner (3 or more) the lowest of them is -1 exactly when that corner is 3, or rows 1 and 2 both rise.
   */
  lemma CustomisedIncreasing(spares: seq<nat>, n: nat, accVc: int)
    requires 0 < n <= |spares| && spares[0] <= 1
    requires |AccRun(spares, n).vals| == 4 && 3 <= accVc
    ensures var vals := AccRun(spares, n).vals;
            var r := Customise(vals, accVc);
            && r[0] < r[1] < r[2] < r[3] <= vals[3] < n
            && r[3] < accVc && 2 <= r[3] && -1 <= r[0]
            && (r[0] == -1 <==> accVc == 3 || (2 < n && Rise(spares, 1) && Rise(spares, 2)))
            && (forall k :: 0 <= k < 4 ==> r[k] <= vals[k])
  {
    AccBrackets(spares, n);
    assert !Rise(spares, 0);
    var vals := AccRun(spares, n).vals;
    assert 1 <= vals[1];
    assert vals[3] == 2 <==> 2 < n && Rise(spares, 1) && Rise(spares, 2);
  }

  /**
   * They are the highest such corners: whatever rises strictly, stays below the custom corner and lies nowhere above the
   * detected ones lies nowhere above them.
   */
  lemma CustomisedIsHighest(spares: seq<nat>, n: nat, accVc: int, s: seq<int>)
    requires n <= |spares| && |AccRun(spares, n).vals| == 4 && |s| == 4
    requires s[0] < s[1] < s[2] < s[3] < accVc && forall k :: 0 <= k < 4 ==> s[k] <= AccRun(spares, n).vals[k]
    ensures forall k :: 0 <= k < 4 ==> s[k] <= Customise(AccRun(spares, n).vals, accVc)[k]
  {
    AccBrackets(spares, n);
  }

  /** A four-row column and a custom corner that give corner -1. */
  lemma CornerMinusOne()
    ensures AccRun([1, 1, 2, 3], 4).vals == [1, 2, 2, 3]
    ensures Customise([1, 2, 2, 3], 3) == [-1, 0, 1, 2]
  {
    var s := [1, 1, 2, 3];
    assert AccRun(s, 1) == Acc([], 1);
    assert AccRun(s, 2) == Acc([], 1);
    assert AccRun(s, 3) == Acc([1, 2], 2);
    assert AccRun(s, 4) == Acc([1, 2, 2, 3], 3);
  }

  // ------------------------------------------------------------------ rising columns

  /** A column that starts at level 1 and rises one level at a time, to level 3. */
  predicate RisingColumn(spares: seq<nat>) {
    && 0 < |spares| && spares[0] == 1 && spares[|spares| - 1] == 3
    && forall i :: 0 < i < |spares| ==> spares[i - 1] <= spares[i] <= spares[i - 1] + 1
  }

  lemma {:induction false} RisingAtMost3(spares: seq<nat>, i: nat)
    requires RisingColumn(spares) && i < |spares|
    ensures spares[i] <= 3
    decreases |spares| - i
  {
    if i < |spares| - 1 { RisingAtMost3(spares, i + 1); }
  }
}

/** The shape of a whole diff: where runs of consecutive lines are split, and when it is as short as can be. */
module DiffShape {
  import opened Matching
  import opened Lookahead
  import opened ArrayDiff
  import opened DiffTheorems

  // ---------------------------------------------------------------- runs across the tail

  function Merged(a: seq<string>, b: seq<string>, rel: Relation, look: (nat, nat) -> nat, w: seq<string>): seq<Edit> {
    var m := Scan(a, b, rel, look, 0, 0);
    MergeRuns(MinusEdits(m.minus, w), PlusEdits(m.plus, b), -2, -2)
  }

  /** The scan stops at the end of a side, so at most one side has a tail. */
  lemma {:induction false} OneTail(a: seq<string>, b: seq<string>, rel: Relation, look: (nat, nat) -> nat, i: nat,
                                   j: nat)
    requires i <= |a| && j <= |b|
    ensures var m := Scan(a, b, rel, look, i, j); m.end1 == |a| || m.end2 == |b|
    decreases |a| - i + |b| - j
  {
    if i == |a| || j == |b| {
    } else {
      if rel(a[i], b[j]) {
        OneTail(a, b, rel, look, i + 1, j + 1);
      } else if look(i + 1, j) > look(i, j + 1) {
        OneTail(a, b, rel, look, i + 1, j);
      } else if look(i, j + 1) > 0 {
        OneTail(a, b, rel, look, i, j + 1);
      } else {
        OneTail(a, b, rel, look, i + 1, j + 1);
      }
    }
  }

  /** There is no tail from `end` on, or the line before it is unmarked, or the merged part ends with that line. */
  ghost predicate TailJoins(d: seq<Edit>, marked: seq<nat>, end: nat, n: nat, minus: bool) {
    || end == n || end == 0 || end - 1 !in marked
    || (d != [] && d[|d| - 1].Minus? == minus && d[|d| - 1].line == end - 1)
  }

  /** The entries of a tail: one side, consecutive lines. */
  ghost predicate IsTail(t: seq<Edit>, end: nat, minus: bool) {
    forall k :: 0 <= k < |t| ==> t[k].Minus? == minus && t[k].line == end + k
  }

  ghost predicate Below(d: seq<Edit>, end: nat, minus: bool) {
    forall k :: 0 <= k < |d| && d[k].Minus? == minus ==> d[k].line < end
  }

  lemma {:induction false} SideMembers(d: seq<Edit>, minus: bool, e: Edit)
    ensures e in Side(d, minus) <==> e in d && e.Minus? == minus
  {
    if d == [] {
    } else {
      SideMembers(d[1..], minus, e);
    }
  }

  /** A tail behind entries that keep runs together. */
  lemma TailKeepsRunsIff(d: seq<Edit>, t: seq<Edit>, end: nat, minus: bool)
    requires RunsTogether(d) && AscendingInPlace(d) && Below(d, end, minus) && IsTail(t, end, minus) && t != []
    ensures RunsTogether(d + t) <==>
            || (forall k :: 0 <= k < |d| && d[k].Minus? == minus ==> d[k].line != end - 1)
            || (d != [] && d[|d| - 1].Minus? == minus && d[|d| - 1].line == end - 1)
  {
    var all, n := d + t, |d|;
    assert forall k :: 0 <= k < n ==> all[k] == d[k];
    assert forall k :: n <= k < |all| ==> all[k] == t[k - n];
    if RunsTogether(all) {
      forall k | 0 <= k < n && d[k].Minus? == minus && d[k].line == end - 1 ensures k == n - 1 {
        assert all[k] == d[k] && all[n] == t[0];
      }
    } else {
      var x, y :| 0 <= x < |all| && 0 <= y < |all| && all[x].Minus? == all[y].Minus? && all[y].line == all[x].line + 1
          && y != x + 1;
      SplitAtTail(d, t, end, minus, x, y);
    }
  }

  /** A run can only be split between the last line before the tail and the tail. */
  lemma SplitAtTail(d: seq<Edit>, t: seq<Edit>, end: nat, minus: bool, x: nat, y: nat)
    requires RunsTogether(d) && AscendingInPlace(d) && Below(d, end, minus) && IsTail(t, end, minus) && t != []
    requires x < |d + t| && y < |d + t| && (d + t)[x].Minus? == (d + t)[y].Minus?
    requires (d + t)[y].line == (d + t)[x].line + 1 && y != x + 1
    ensures x < |d| - 1 && d[x].Minus? == minus && d[x].line == end - 1
    ensures d[|d| - 1].Minus? == minus ==> d[|d| - 1].line != end - 1
  {
  }

  lemma TailJoinsIff(d: seq<Edit>, marked: seq<nat>, t: seq<Edit>, end: nat, n: nat, minus: bool)
    requires RunsTogether(d) && AscendingInPlace(d) && IsTail(t, end, minus) && t != [] && end < n
    requires Carries(d, marked, minus) && forall x :: x in marked ==> x < end
    ensures RunsTogether(d + t) <==> TailJoins(d, marked, end, n, minus)
  {
    TailKeepsRunsIff(d, t, end, minus);
  }

  /** The lines of one side of `d`. */
  ghost predicate Carries(d: seq<Edit>, marked: seq<nat>, minus: bool) {
    && (forall k :: 0 <= k < |d| && d[k].Minus? == minus ==> d[k].line in marked)
    && (forall x :: x in marked ==> exists k :: 0 <= k < |d| && d[k].Minus? == minus && d[k].line == x)
  }

  /** Which lines of a side the merged part carries. */
  lemma MergedLines(a: seq<string>, b: seq<string>, rel: Relation, look: (nat, nat) -> nat, w: seq<string>)
    ensures var m, d := Scan(a, b, rel, look, 0, 0), Merged(a, b, rel, look, w);
            Carries(d, m.minus, true) && Carries(d, m.plus, false)
  {
    var m, d := Scan(a, b, rel, look, 0, 0), Merged(a, b, rel, look, w);
    MergeKeepsSides(MinusEdits(m.minus, w), PlusEdits(m.plus, b), -2, -2);
    SideCarries(d, MinusEdits(m.minus, w), m.minus, true);
    SideCarries(d, PlusEdits(m.plus, b), m.plus, false);
  }

  lemma SideCarries(d: seq<Edit>, es: seq<Edit>, marked: seq<nat>, minus: bool)
    requires Side(d, minus) == es && |es| == |marked| && forall k :: 0 <= k < |es| ==> es[k].line == marked[k]
    ensures Carries(d, marked, minus)
  {
    forall k | 0 <= k < |d| && d[k].Minus? == minus ensures d[k].line in marked {
      SideMembers(d, minus, d[k]);
    }
    forall x | x in marked ensures exists k :: 0 <= k < |d| && d[k].Minus? == minus && d[k].line == x {
      var i :| 0 <= i < |marked| && marked[i] == x;
      SideMembers(d, minus, es[i]);
    }
  }

  /** Marked lines lie before the tail of their side. */
  lemma MarksBelowTail(a: seq<string>, b: seq<string>, rel: Relation, look: (nat, nat) -> nat)
    ensures var m := Scan(a, b, rel, look, 0, 0);
            && (m.end1 < |a| ==> forall x :: x in m.minus ==> x < m.end1)
            && (m.end2 < |b| ==> forall x :: x in m.plus ==> x < m.end2)
  {
    var m := Scan(a, b, rel, look, 0, 0);
    var del, add := Deleted(a, b, rel, look, 0, 0), Added(a, b, rel, look, 0, 0);
    MarksIncrease(a, b, rel, look, 0, 0);
    if m.end1 < |a| { assert del[|m.minus|] == m.end1 && forall k :: 0 <= k < |m.minus| ==> m.minus[k] == del[k]; }
    if m.end2 < |b| { assert add[|m.plus|] == m.end2 && forall k :: 0 <= k < |m.plus| ==> m.plus[k] == add[k]; }
  }

  /** A whole diff keeps runs of consecutive lines together if and only if its tail joins the merged part. */
  lemma DiffKeepsRunsIff(a: seq<string>, b: seq<string>, rel: Relation, look: (nat, nat) -> nat, w: seq<string>)
    ensures var m, d := Scan(a, b, rel, look, 0, 0), Merged(a, b, rel, look, w);
            && (m.end1 == |a| || m.end2 == |b|)
            && (RunsTogether(Diff(a, b, rel, look, w)) <==>
                TailJoins(d, m.minus, m.end1, |a|, true) && TailJoins(d, m.plus, m.end2, |b|, false))
  {
    var m, d := Scan(a, b, rel, look, 0, 0), Merged(a, b, rel, look, w);
    var t1, t2 := MinusEdits(Range(m.end1, |a|), w), PlusEdits(Range(m.end2, |b|), b);
    OneTail(a, b, rel, look, 0, 0);
    MergedRunsInOrder(a, b, rel, look, w);
    MergedLines(a, b, rel, look, w);
    MarksBelowTail(a, b, rel, look);
    if m.end1 < |a| {
      assert t2 == [] && Diff(a, b, rel, look, w) == d + t1;
      TailJoinsIff(d, m.minus, t1, m.end1, |a|, true);
    } else if m.end2 < |b| {
      assert t1 == [] && Diff(a, b, rel, look, w) == d + t2;
      TailJoinsIff(d, m.plus, t2, m.end2, |b|, false);
    } else {
      assert Diff(a, b, rel, look, w) == d;
    }
  }

  /** It can fail: "x" expected, "z" and "y" printed.  The diff reports z, then x, then y. */
  lemma RunSplitByTail(a: seq<string>, b: seq<string>, rel: Relation)
    requires a == ["x"] && b == ["z", "y"] && forall x, y :: rel(x, y) <==> x == y
    ensures Diff(a, b, rel, Looker(a, b, rel), a) == [Plus(0, "z"), Minus(0, "x"), Plus(1, "y")]
    ensures !RunsTogether(Diff(a, b, rel, Looker(a, b, rel), a))
  {
    var look := Looker(a, b, rel);
    EstimateAtMostLcs(a, b, rel, 1, 0, BUDGET);
    EstimateAtMostLcs(a, b, rel, 0, 1, BUDGET);
    assert look(1, 0) == 0 && look(0, 1) == 0;
    assert Scan(a, b, rel, look, 1, 1) == Marks([], [], 1, 1);
    assert Scan(a, b, rel, look, 0, 0) == Marks([0], [0], 1, 1);
    var o1, o2 := MinusEdits([0], a), PlusEdits([0], b);
    assert o1 == [Minus(0, "x")] && o2 == [Plus(0, "z")] && o1[1..] == [] && o2[1..] == [];
    assert MergeRuns([], [], 0, 0) == [];
    assert MergeRuns(o1, [], -2, 0) == [o1[0]] + MergeRuns([], [], 0, 0);
    assert MergeRuns(o1, o2, -2, -2) == [o2[0]] + MergeRuns(o1, [], -2, 0);
    assert MinusEdits(Range(1, 1), a) == [] && PlusEdits(Range(1, 2), b) == [Plus(1, "y")];
    var d := Diff(a, b, rel, look, a);
    assert d[0].line + 1 == d[2].line;
  }

  // ---------------------------------------------------------------- shortest diffs

  lemma LcsMonotone(a: seq<string>, b: seq<string>, rel: Relation, i: nat, j: nat, x: nat, y: nat)
    requires i <= x <= |a| && j <= y <= |b|
    ensures Lcs(a, b, rel, x, y) <= Lcs(a, b, rel, i, j)
  {
    var m := LcsIsAttained(a, b, rel, x, y);
    LcsIsLargest(m, a, b, rel, i, j);
  }

  /** The lookahead is exact everywhere. */
  ghost predicate Exact(a: seq<string>, b: seq<string>, rel: Relation, look: (nat, nat) -> nat) {
    forall x: nat, y: nat :: x <= |a| && y <= |b| ==> look(x, y) == Lcs(a, b, rel, x, y)
  }

  /** With an exact lookahead all expected lines but those of a largest matching are reported, */
  lemma {:induction false} ExactDeleted(a: seq<string>, b: seq<string>, rel: Relation, look: (nat, nat) -> nat, i: nat,
                                        j: nat)
    requires i <= |a| && j <= |b| && Exact(a, b, rel, look)
    ensures |Deleted(a, b, rel, look, i, j)| == |a| - i - Lcs(a, b, rel, i, j)
    decreases |a| - i + |b| - j
  {
    if i == |a| || j == |b| {
    } else {
      var skip1, skip2 := look(i + 1, j), look(i, j + 1);
      assert skip1 == Lcs(a, b, rel, i + 1, j) && skip2 == Lcs(a, b, rel, i, j + 1);
      LcsStep(a, b, rel, i, j);
      if rel(a[i], b[j]) {
        ExactDeleted(a, b, rel, look, i + 1, j + 1);
        assert |Deleted(a, b, rel, look, i, j)| == |Deleted(a, b, rel, look, i + 1, j + 1)| by {
          MarksUnfold(a, b, rel, look, i, j);
        }
      } else if skip1 > skip2 {
        ExactDeleted(a, b, rel, look, i + 1, j);
        assert |Deleted(a, b, rel, look, i, j)| == 1 + |Deleted(a, b, rel, look, i + 1, j)| by {
          MarksUnfold(a, b, rel, look, i, j);
        }
      } else if skip2 > 0 {
        ExactDeleted(a, b, rel, look, i, j + 1);
        assert |Deleted(a, b, rel, look, i, j)| == |Deleted(a, b, rel, look, i, j + 1)| by {
          MarksUnfold(a, b, rel, look, i, j);
        }
      } else {
        ExactDeleted(a, b, rel, look, i + 1, j + 1);
        assert |Deleted(a, b, rel, look, i, j)| == 1 + |Deleted(a, b, rel, look, i + 1, j + 1)| by {
          MarksUnfold(a, b, rel, look, i, j);
        }
        LcsMonotone(a, b, rel, i + 1, j, i + 1, j + 1);
      }
    }
  }

  /** and so are all output lines but those. */
  lemma {:induction false} ExactAdded(a: seq<string>, b: seq<string>, rel: Relation, look: (nat, nat) -> nat, i: nat,
                                      j: nat)
    requires i <= |a| && j <= |b| && Exact(a, b, rel, look)
    ensures |Added(a, b, rel, look, i, j)| == |b| - j - Lcs(a, b, rel, i, j)
    decreases |a| - i + |b| - j
  {
    if i == |a| || j == |b| {
    } else {
      var skip1, skip2 := look(i + 1, j), look(i, j + 1);
      assert skip1 == Lcs(a, b, rel, i + 1, j) && skip2 == Lcs(a, b, rel, i, j + 1);
      LcsStep(a, b, rel, i, j);
      if rel(a[i], b[j]) {
        ExactAdded(a, b, rel, look, i + 1, j + 1);
        assert |Added(a, b, rel, look, i, j)| == |Added(a, b, rel, look, i + 1, j + 1)| by {
          MarksUnfold(a, b, rel, look, i, j);
        }
      } else if skip1 > skip2 {
        ExactAdded(a, b, rel, look, i + 1, j);
        assert |Added(a, b, rel, look, i, j)| == |Added(a, b, rel, look, i + 1, j)| by {
          MarksUnfold(a, b, rel, look, i, j);
        }
      } else if skip2 > 0 {
        ExactAdded(a, b, rel, look, i, j + 1);
        assert |Added(a, b, rel, look, i, j)| == 1 + |Added(a, b, rel, look, i, j + 1)| by {
          MarksUnfold(a, b, rel, look, i, j);
        }
      } else {
        ExactAdded(a, b, rel, look, i + 1, j + 1);
        assert |Added(a, b, rel, look, i, j)| == 1 + |Added(a, b, rel, look, i + 1, j + 1)| by {
          MarksUnfold(a, b, rel, look, i, j);
        }
        LcsMonotone(a, b, rel, i + 1, j, i + 1, j + 1);
      }
    }
  }

  lemma {:induction false} KeepSize(s: seq<string>, marked: seq<nat>, k: nat)
    requires k <= |s| && Increasing(marked, k, |s|)
    ensures |Keep(s, marked, k)| == |s| - k - |marked|
    decreases |s| - k
  {
    if k == |s| {
    } else if marked != [] && marked[0] == k {
      MarkedHere(marked, k, |s|);
      KeepDropsFirst(s, marked[1..], k);
      KeepSize(s, marked[1..], k + 1);
    } else {
      MarkedLater(marked, k, |s|);
      KeepSize(s, marked, k + 1);
    }
  }

  lemma MarkedHere(marked: seq<nat>, k: nat, hi: nat)
    requires Increasing(marked, k, hi) && marked != [] && marked[0] == k
    ensures Increasing(marked[1..], k + 1, hi) && marked == [k] + marked[1..]
  {
    var rest := marked[1..];
    forall l | 0 <= l < |rest| ensures k + 1 <= rest[l] < hi { assert rest[l] == marked[l + 1]; }
  }

  lemma MarkedLater(marked: seq<nat>, k: nat, hi: nat)
    requires Increasing(marked, k, hi) && (marked == [] || marked[0] != k)
    ensures Increasing(marked, k + 1, hi) && k !in marked
  {
    assert forall l :: 0 <= l < |marked| ==> marked[0] <= marked[l];
  }

  /** Lines that match one by one after dropping some are no more than a largest matching. */
  lemma {:induction false} KeptAtMostLcs(a: seq<string>, d: seq<nat>, i: nat, b: seq<string>, e: seq<nat>, j: nat,
                                         rel: Relation)
    requires i <= |a| && j <= |b| && Pairwise(Keep(a, d, i), Keep(b, e, j), rel)
    ensures |Keep(a, d, i)| <= Lcs(a, b, rel, i, j)
    decreases |a| - i + |b| - j
  {
    if i < |a| && i in d {
      KeptAtMostLcs(a, d, i + 1, b, e, j, rel);
      LcsMonotone(a, b, rel, i, j, i + 1, j);
    } else if j < |b| && j in e {
      KeptAtMostLcs(a, d, i, b, e, j + 1, rel);
      LcsMonotone(a, b, rel, i, j, i, j + 1);
    } else if i < |a| && j < |b| {
      var s, t := Keep(a, d, i), Keep(b, e, j);
      assert s[0] == a[i] && t[0] == b[j];
      assert s[1..] == Keep(a, d, i + 1) && t[1..] == Keep(b, e, j + 1);
      KeptAtMostLcs(a, d, i + 1, b, e, j + 1, rel);
    }
  }

  /** With an exact lookahead no choice of lines to report, on either side, explains the difference with fewer. */
  lemma ExactDiffIsShortest(a: seq<string>, b: seq<string>, rel: Relation, look: (nat, nat) -> nat, d: seq<nat>,
                            e: seq<nat>)
    requires Exact(a, b, rel, look)
    requires Increasing(d, 0, |a|) && Increasing(e, 0, |b|) && Pairwise(Keep(a, d, 0), Keep(b, e, 0), rel)
    ensures |Deleted(a, b, rel, look, 0, 0)| <= |d| && |Added(a, b, rel, look, 0, 0)| <= |e|
  {
    ExactDeleted(a, b, rel, look, 0, 0);
    ExactAdded(a, b, rel, look, 0, 0);
    KeptAtMostLcs(a, d, 0, b, e, 0, rel);
    KeepSize(a, d, 0);
    KeepSize(b, e, 0);
  }

  lemma {:induction false} EnoughStepsMonotone(n1: nat, n2: nat, m1: nat, m2: nat)
    requires m1 <= n1 && m2 <= n2
    ensures EnoughSteps(m1, m2) <= EnoughSteps(n1, n2)
    decreases n1 + n2
  {
    if m1 < n1 {
      EnoughStepsMonotone(n1 - 1, n2, m1, m2);
    } else if m2 < n2 {
      EnoughStepsMonotone(n1, n2 - 1, m1, m2);
    }
  }

  /** The program's own lookahead is exact on texts its budget is enough for, so their diff is a shortest one. */
  lemma SmallDiffIsShortest(a: seq<string>, b: seq<string>, rel: Relation, d: seq<nat>, e: seq<nat>)
    requires EnoughSteps(|a|, |b|) <= BUDGET
    requires Increasing(d, 0, |a|) && Increasing(e, 0, |b|) && Pairwise(Keep(a, d, 0), Keep(b, e, 0), rel)
    ensures var look := Looker(a, b, rel);
            |Deleted(a, b, rel, look, 0, 0)| <= |d| && |Added(a, b, rel, look, 0, 0)| <= |e|
  {
    var look := Looker(a, b, rel);
    forall x: nat, y: nat | x <= |a| && y <= |b| ensures look(x, y) == Lcs(a, b, rel, x, y) {
      EnoughStepsMonotone(|a|, |b|, |a| - x, |b| - y);
      EstimateIsExact(a, b, rel, x, y, BUDGET);
    }
    ExactDiffIsShortest(a, b, rel, look, d, e);
  }
}

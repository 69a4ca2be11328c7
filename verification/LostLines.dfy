/** How far the program's lookahead sees: six lines lost from the output, or ten lines added to it, are reported, and
    nothing else, but not seven or eleven. */
module LostLines {
  import opened Lookahead
  import opened ArrayDiff

  // ---------------------------------------------------------------- how far the lookahead sees

  /** Where the lookahead sees something there is a line that agrees, at most half the budget away. */
  lemma {:induction false} SightEnds(a: seq<string>, b: seq<string>, rel: Relation, x: nat, s: real) returns (m: nat)
    requires x <= |a| && |b| == 1 && Estimate(a, b, rel, x, 0, s) > 0
    ensures x <= m < |a| && rel(a[m], b[0]) && (m == x || (m - x) as real < (s + 1.0) / 2.0)
    decreases |a| - x
  {
    var n, v := CommonRun(a, b, rel, x, 0), Estimate(a, b, rel, x, 0, s);
    var k := EstimateAttained(a, b, rel, x, 0, s, v, n);
    if n > 0 {
      m := x;
    } else {
      assert FromExpected(a, b, rel, x, 0, Left(s, 0), 0, v, k);
      m := SightEnds(a, b, rel, k, Left(s, 0) / 2.0 - (k - x) as real);
    }
  }

  /** The program's lookahead for the only line of the output: it sees that line if it is one of the next six. */
  lemma SeesSixLines(a: seq<string>, b: seq<string>, rel: Relation, i: nat)
    requires i <= |a| && |b| == 1
    ensures Looker(a, b, rel)(i, 0) > 0 <==> exists m :: i <= m < |a| && m - i <= 5 && rel(a[m], b[0])
  {
    if Looker(a, b, rel)(i, 0) > 0 {
      var m := SightEnds(a, b, rel, i, BUDGET);
    }
    if m :| i <= m < |a| && m - i <= 5 && rel(a[m], b[0]) {
      assert CommonRun(a, b, rel, m, 0) >= 1;
      if rel(a[i], b[0]) {
        RunIsLowerBound(a, b, rel, i, 0, BUDGET);
      } else {
        assert CommonRun(a, b, rel, i, 0) == 0;
        LaterExpectedCounts(a, b, rel, i, 0, BUDGET, m);
      }
    }
  }

  // ---------------------------------------------------------------- lost lines

  lemma {:induction false} ScanFindsLine(a: seq<string>, b: seq<string>, rel: Relation, i: nat, m: nat)
    requires i <= m && |a| == m + 1 && m - i <= 6 && |b| == 1
    requires rel(a[m], b[0]) && forall k :: i <= k < m ==> !rel(a[k], b[0])
    ensures Scan(a, b, rel, Looker(a, b, rel), i, 0) == Marks(Range(i, m), [], m + 1, 1)
    decreases m - i
  {
    var look := Looker(a, b, rel);
    if i == m {
      assert Scan(a, b, rel, look, m + 1, 1) == Marks([], [], m + 1, 1);
      assert Range(m, m) == [];
    } else {
      SeesSixLines(a, b, rel, i + 1);
      EstimateAtMostLcs(a, b, rel, i, 1, BUDGET);
      ScanFindsLine(a, b, rel, i + 1, m);
      assert [i] + Range(i + 1, m) == Range(i, m);
    }
  }

  lemma {:induction false} MergeOneSide(o: seq<Edit>, l1: int, l2: int)
    ensures MergeRuns(o, [], l1, l2) == o
    decreases |o|
  {
    if o == [] {
    } else {
      MergeOneSide(o[1..], o[0].line, l2);
      assert o == [o[0]] + o[1..];
    }
  }

  /** Lines in front of the only line of the output are reported as missing, and nothing else, if and only if there
      are at most six of them. */
  lemma LostLinesReportedIff(lost: seq<string>, q: string, rel: Relation, a: seq<string>, b: seq<string>)
    requires a == lost + [q] && b == [q] && q !in lost && forall x, y :: rel(x, y) <==> x == y
    ensures Diff(a, b, rel, Looker(a, b, rel), a) == MinusEdits(Range(0, |lost|), a) <==> |lost| <= 6
  {
    var m := |lost|;
    forall k | 0 <= k < m ensures !rel(a[k], b[0]) { assert a[k] == lost[k] && lost[k] in lost; }
    if m <= 6 {
      ScanFindsLine(a, b, rel, 0, m);
      MergeOneSide(MinusEdits(Range(0, m), a), -2, -2);
      assert PlusEdits([], b) == [] && MinusEdits(Range(m + 1, m + 1), a) == [] && PlusEdits(Range(1, 1), b) == [];
    } else {
      SeesSixLines(a, b, rel, 1);
      EstimateAtMostLcs(a, b, rel, 0, 1, BUDGET);
      NothingSeen(a, b, rel, Looker(a, b, rel));
    }
  }

  /** Where neither side sees anything both first lines are reported. */
  lemma NothingSeen(a: seq<string>, b: seq<string>, rel: Relation, look: (nat, nat) -> nat)
    requires |a| >= 1 && |b| >= 1 && (|a| == 1 || |b| == 1) && !rel(a[0], b[0]) && look(1, 0) == look(0, 1) == 0
    ensures |Diff(a, b, rel, look, a)| == |a| + |b|
  {
    var zero: seq<nat> := [0];
    assert Scan(a, b, rel, look, 1, 1) == Marks([], [], 1, 1);
    assert zero + [] == zero;
    assert Scan(a, b, rel, look, 0, 0) == Marks(zero, zero, 1, 1);
    MergeOfOne(MinusEdits(zero, a), PlusEdits(zero, b));
  }

  lemma MergeOfOne(o1: seq<Edit>, o2: seq<Edit>)
    requires |o1| == |o2| == 1
    ensures |MergeRuns(o1, o2, -2, -2)| == 2
  {
    MergeOneSide(o1, -2, o2[0].line);
    MergeOutputSide(o2, o1[0].line, -2);
  }

  /** For instance five. */
  lemma FiveLostLines(a: seq<string>, b: seq<string>, rel: Relation)
    requires a == ["p0", "p1", "p2", "p3", "p4", "q"] && b == ["q"] && forall x, y :: rel(x, y) <==> x == y
    ensures Diff(a, b, rel, Looker(a, b, rel), a) ==
            [Minus(0, "p0"), Minus(1, "p1"), Minus(2, "p2"), Minus(3, "p3"), Minus(4, "p4")]
  {
    assert a == ["p0", "p1", "p2", "p3", "p4"] + ["q"];
    LostLinesReportedIff(["p0", "p1", "p2", "p3", "p4"], "q", rel, a, b);
  }

  // ---------------------------------------------------------------- added lines

  /** On the output side what the lookahead sees is less than the budget away. */
  lemma {:induction false} OutputSightEnds(a: seq<string>, b: seq<string>, rel: Relation, y: nat, s: real)
    returns (m: nat)
    requires y <= |b| && |a| == 1 && Estimate(a, b, rel, 0, y, s) > 0
    ensures y <= m < |b| && rel(a[0], b[m]) && (m == y || (m - y) as real < s)
    decreases |b| - y
  {
    var n, v := CommonRun(a, b, rel, 0, y), Estimate(a, b, rel, 0, y, s);
    var k := EstimateAttained(a, b, rel, 0, y, s, v, n);
    if n > 0 {
      m := y;
    } else {
      assert FromOutput(a, b, rel, 0, y, Left(s, 0), 0, v, k);
      m := OutputSightEnds(a, b, rel, k, Left(s, 0) - (k - y) as real);
    }
  }

  /** The program's lookahead for the only expected line: it sees that line if it is one of the next ten. */
  lemma SeesTenLines(a: seq<string>, b: seq<string>, rel: Relation, j: nat)
    requires j <= |b| && |a| == 1
    ensures Looker(a, b, rel)(0, j) > 0 <==> exists m :: j <= m < |b| && m - j <= 9 && rel(a[0], b[m])
  {
    if Looker(a, b, rel)(0, j) > 0 {
      var m := OutputSightEnds(a, b, rel, j, BUDGET);
    }
    if m :| j <= m < |b| && m - j <= 9 && rel(a[0], b[m]) {
      assert CommonRun(a, b, rel, 0, m) >= 1;
      if rel(a[0], b[j]) {
        RunIsLowerBound(a, b, rel, 0, j, BUDGET);
      } else {
        assert CommonRun(a, b, rel, 0, j) == 0;
        LaterOutputCounts(a, b, rel, 0, j, BUDGET, m);
      }
    }
  }

  lemma {:induction false} ScanFindsOutput(a: seq<string>, b: seq<string>, rel: Relation, j: nat, m: nat)
    requires j <= m && |b| == m + 1 && m - j <= 10 && |a| == 1
    requires rel(a[0], b[m]) && forall k :: j <= k < m ==> !rel(a[0], b[k])
    ensures Scan(a, b, rel, Looker(a, b, rel), 0, j) == Marks([], Range(j, m), 1, m + 1)
    decreases m - j
  {
    var look := Looker(a, b, rel);
    if j == m {
      assert Scan(a, b, rel, look, 1, m + 1) == Marks([], [], 1, m + 1);
      assert Range(m, m) == [];
    } else {
      SeesTenLines(a, b, rel, j + 1);
      EstimateAtMostLcs(a, b, rel, 1, j, BUDGET);
      ScanFindsOutput(a, b, rel, j + 1, m);
      assert [j] + Range(j + 1, m) == Range(j, m);
    }
  }

  lemma {:induction false} MergeOutputSide(o: seq<Edit>, l1: int, l2: int)
    ensures MergeRuns([], o, l1, l2) == o
    decreases |o|
  {
    if o == [] {
    } else {
      MergeOutputSide(o[1..], l1, o[0].line);
      assert o == [o[0]] + o[1..];
    }
  }

  /** Lines in front of the only expected line are reported as added, and nothing else, if and only if there are at most
      ten of them. */
  lemma AddedLinesReportedIff(added: seq<string>, q: string, rel: Relation, a: seq<string>, b: seq<string>)
    requires a == [q] && b == added + [q] && q !in added && forall x, y :: rel(x, y) <==> x == y
    ensures Diff(a, b, rel, Looker(a, b, rel), a) == PlusEdits(Range(0, |added|), b) <==> |added| <= 10
  {
    var m := |added|;
    forall k | 0 <= k < m ensures !rel(a[0], b[k]) { assert b[k] == added[k] && added[k] in added; }
    if m <= 10 {
      ScanFindsOutput(a, b, rel, 0, m);
      MergeOutputSide(PlusEdits(Range(0, m), b), -2, -2);
      assert MinusEdits([], a) == [] && MinusEdits(Range(1, 1), a) == [] && PlusEdits(Range(m + 1, m + 1), b) == [];
    } else {
      SeesTenLines(a, b, rel, 1);
      EstimateAtMostLcs(a, b, rel, 1, 0, BUDGET);
      NothingSeen(a, b, rel, Looker(a, b, rel));
    }
  }

  // ---------------------------------------------------------------- swapped lines

  /** Where both sides see equally much, the line of the output is reported first. */
  lemma SwappedLines(a: seq<string>, b: seq<string>, rel: Relation)
    requires a == ["x", "y"] && b == ["y", "x"] && forall x, y :: rel(x, y) <==> x == y
    ensures Diff(a, b, rel, Looker(a, b, rel), a) == [Plus(0, "y"), Minus(1, "y")]
  {
    var look := Looker(a, b, rel);
    assert look(1, 0) == look(0, 1) == 1 by {
      assert CommonRun(a, b, rel, 1, 0) >= 1 && CommonRun(a, b, rel, 0, 1) >= 1;
      RunIsLowerBound(a, b, rel, 1, 0, BUDGET);
      RunIsLowerBound(a, b, rel, 0, 1, BUDGET);
      EstimateAtMostLcs(a, b, rel, 1, 0, BUDGET);
      EstimateAtMostLcs(a, b, rel, 0, 1, BUDGET);
    }
    var zero: seq<nat> := [0];
    assert Scan(a, b, rel, look, 1, 2) == Marks([], [], 1, 2);
    assert Scan(a, b, rel, look, 0, 1) == Marks([], [], 1, 2);
    assert zero + [] == zero && Scan(a, b, rel, look, 0, 0) == Marks([], zero, 1, 2);
    MergeOutputSide(PlusEdits(zero, b), -2, -2);
    assert MinusEdits([], a) == [] && PlusEdits(Range(2, 2), b) == [] && Range(1, 2) == [1];
  }
}

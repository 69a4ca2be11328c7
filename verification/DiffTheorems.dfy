/** What the line diff guarantees, whatever the lookahead answers. */
module DiffTheorems {
  import opened ArrayDiff

  // ---------------------------------------------------------------- what is left unmarked agrees

  /** The lines of `s` from `k` on whose number is not in `marked`. */
  function Keep<T>(s: seq<T>, marked: seq<nat>, k: nat): seq<T>
    requires k <= |s|
    decreases |s| - k
  {
    if k == |s| then []
    else if k in marked then Keep(s, marked, k + 1)
    else [s[k]] + Keep(s, marked, k + 1)
  }

  /** A mark before `k` plays no part. */
  lemma {:induction false} KeepIgnoresEarlier(s: seq<string>, x: nat, marked: seq<nat>, k: nat)
    requires x < k <= |s|
    ensures Keep(s, [x] + marked, k) == Keep(s, marked, k)
    decreases |s| - k
  {
    if k == |s| {
    } else {
      KeepIgnoresEarlier(s, x, marked, k + 1);
    }
  }

  /** A mark at `k` removes that line. */
  lemma KeepDropsFirst(s: seq<string>, marked: seq<nat>, k: nat)
    requires k < |s|
    ensures Keep(s, [k] + marked, k) == Keep(s, marked, k + 1)
  {
    KeepIgnoresEarlier(s, k, marked, k + 1);
    assert ([k] + marked)[0] == k;
  }

  lemma {:induction false} KeepNothing(s: seq<string>, marked: seq<nat>, k: nat)
    requires k <= |s| && forall x :: k <= x < |s| ==> x in marked
    ensures Keep(s, marked, k) == []
    decreases |s| - k
  {
    if k == |s| {
    } else {
      KeepNothing(s, marked, k + 1);
    }
  }

  lemma {:induction false} KeepEverything(s: seq<string>, k: nat)
    requires k <= |s|
    ensures Keep(s, [], k) == s[k..]
    decreases |s| - k
  {
    if k == |s| {
    } else {
      KeepEverything(s, k + 1);
    }
  }

  ghost predicate Pairwise<A, B>(s: seq<A>, t: seq<B>, rel: (A, B) -> bool) {
    |s| == |t| && forall k :: 0 <= k < |s| ==> rel(s[k], t[k])
  }

  /** Dropping the deleted lines on one side and the added lines on the other leaves lines that match one by one. */
  lemma {:induction false} UnmarkedLinesAgree(a: seq<string>, b: seq<string>, rel: Relation, look: (nat, nat) -> nat,
                                              i: nat, j: nat)
    requires i <= |a| && j <= |b|
    ensures Pairwise(Keep(a, Deleted(a, b, rel, look, i, j), i), Keep(b, Added(a, b, rel, look, i, j), j), rel)
    decreases |a| - i + |b| - j
  {
    if i == |a| || j == |b| {
      NothingLeftInTails(a, b, rel, look, i, j);
      return;
    }
    MarksUnfold(a, b, rel, look, i, j);
    if rel(a[i], b[j]) {
      var d, e := Deleted(a, b, rel, look, i + 1, j + 1), Added(a, b, rel, look, i + 1, j + 1);
      UnmarkedLinesAgree(a, b, rel, look, i + 1, j + 1);
      MarksIncrease(a, b, rel, look, i + 1, j + 1);
      PairwiseCons(a[i], Keep(a, d, i + 1), b[j], Keep(b, e, j + 1), rel);
    } else if look(i + 1, j) > look(i, j + 1) {
      UnmarkedLinesAgree(a, b, rel, look, i + 1, j);
      KeepDropsFirst(a, Deleted(a, b, rel, look, i + 1, j), i);
    } else if look(i, j + 1) > 0 {
      UnmarkedLinesAgree(a, b, rel, look, i, j + 1);
      KeepDropsFirst(b, Added(a, b, rel, look, i, j + 1), j);
    } else {
      UnmarkedLinesAgree(a, b, rel, look, i + 1, j + 1);
      KeepDropsFirst(a, Deleted(a, b, rel, look, i + 1, j + 1), i);
      KeepDropsFirst(b, Added(a, b, rel, look, i + 1, j + 1), j);
    }
  }

  lemma PairwiseCons<A, B>(x: A, s: seq<A>, y: B, t: seq<B>, rel: (A, B) -> bool)
    requires rel(x, y) && Pairwise(s, t, rel)
    ensures Pairwise([x] + s, [y] + t, rel)
  {
  }

  lemma NothingLeftInTails(a: seq<string>, b: seq<string>, rel: Relation, look: (nat, nat) -> nat, i: nat, j: nat)
    requires i <= |a| && j <= |b| && (i == |a| || j == |b|)
    ensures Keep(a, Deleted(a, b, rel, look, i, j), i) == []
    ensures Keep(b, Added(a, b, rel, look, i, j), j) == []
  {
    var d, e := Deleted(a, b, rel, look, i, j), Added(a, b, rel, look, i, j);
    assert d == Range(i, |a|) && e == Range(j, |b|);
    forall x: nat | i <= x < |a| ensures x in d { assert d[x - i] == x; }
    forall x: nat | j <= x < |b| ensures x in e { assert e[x - j] == x; }
    KeepNothing(a, d, i);
    KeepNothing(b, e, j);
  }

  // ---------------------------------------------------------------- the diff as a patch

  function Lines(es: seq<Edit>): (ls: seq<nat>)
    ensures |ls| == |es| && forall k :: 0 <= k < |ls| ==> ls[k] == es[k].line
  {
    seq(|es|, k requires 0 <= k < |es| => es[k].line)
  }

  /** Insert the texts of `es` at their line numbers and fill the other positions from `kept`, from position `k` on. */
  function Fill(kept: seq<string>, es: seq<Edit>, k: nat): seq<string>
    decreases |kept| + |es|
  {
    if es != [] && es[0].line == k then [es[0].text] + Fill(kept, es[1..], k + 1)
    else if kept != [] then [kept[0]] + Fill(kept[1..], es, k + 1)
    else []
  }

  /** Remove the '-' lines and insert the '+' lines. */
  function ApplyDiff(w: seq<string>, d: seq<Edit>): seq<string> {
    Fill(Keep(w, Lines(Side(d, true)), 0), Side(d, false), 0)
  }

  /** Remove the '+' lines and insert the '-' lines. */
  function RevertDiff(o: seq<string>, d: seq<Edit>): seq<string> {
    Fill(Keep(o, Lines(Side(d, false)), 0), Side(d, true), 0)
  }

  /** Edits that carry lines of `s`. */
  ghost predicate Quotes(es: seq<Edit>, s: seq<string>) {
    forall k :: 0 <= k < |es| ==> es[k].line < |s| && es[k].text == s[es[k].line]
  }

  /** Taking lines out of a text and filling them in again gives the text back. */
  lemma {:induction false} FillUndoesKeep(s: seq<string>, es: seq<Edit>, k: nat)
    requires k <= |s| && Quotes(es, s) && Increasing(Lines(es), k, |s|)
    ensures Fill(Keep(s, Lines(es), k), es, k) == s[k..]
    decreases |s| - k
  {
    var ls := Lines(es);
    if k == |s| {
      return;
    }
    assert s[k..] == [s[k]] + s[k + 1..];
    if es != [] && es[0].line == k {
      assert ls == [k] + Lines(es[1..]);
      forall l | 0 <= l < |es[1..]| ensures k + 1 <= Lines(es[1..])[l] { assert ls[0] < ls[l + 1]; }
      KeepDropsFirst(s, Lines(es[1..]), k);
      FillUndoesKeep(s, es[1..], k + 1);
    } else {
      forall l | 0 <= l < |ls| ensures k + 1 <= ls[l] { assert ls[0] <= ls[l]; }
      FillUndoesKeep(s, es, k + 1);
      assert Keep(s, ls, k) == [s[k]] + Keep(s, ls, k + 1);
      FillTakesFirst(s[k], Keep(s, ls, k + 1), es, k);
    }
  }

  lemma FillTakesFirst(x: string, kept: seq<string>, es: seq<Edit>, k: nat)
    requires es == [] || es[0].line != k
    ensures Fill([x] + kept, es, k) == [x] + Fill(kept, es, k + 1)
  {
    assert ([x] + kept)[1..] == kept;
  }

  /** In literal mode the diff turns the expected lines into the output lines, and back. */
  lemma LiteralDiffIsPatch(w: seq<string>, o: seq<string>, rel: Relation, look: (nat, nat) -> nat)
    requires forall x, y :: rel(x, y) <==> x == y
    ensures var d := Diff(w, o, rel, look, w);
            ApplyDiff(w, d) == o && RevertDiff(o, d) == w
  {
    var d := Diff(w, o, rel, look, w);
    var del, add := Deleted(w, o, rel, look, 0, 0), Added(w, o, rel, look, 0, 0);
    DiffSides(w, o, rel, look, w);
    MarksIncrease(w, o, rel, look, 0, 0);
    UnmarkedLinesAgree(w, o, rel, look, 0, 0);
    assert Lines(Side(d, true)) == del && Lines(Side(d, false)) == add;
    assert Keep(w, del, 0) == Keep(o, add, 0);
    FillUndoesKeep(o, Side(d, false), 0);
    FillUndoesKeep(w, Side(d, true), 0);
  }

  /** In every mode: the '-' entries quote wanted lines, the '+' entries quote output lines, both in
      strictly increasing order, and the lines that no entry mentions match one by one. */
  lemma DiffIsSound(a: seq<string>, b: seq<string>, rel: Relation, look: (nat, nat) -> nat, w: seq<string>)
    requires |w| == |a|
    ensures var d := Diff(a, b, rel, look, w);
            && Quotes(Side(d, true), w) && Increasing(Lines(Side(d, true)), 0, |a|)
            && Quotes(Side(d, false), b) && Increasing(Lines(Side(d, false)), 0, |b|)
            && Pairwise(Keep(a, Lines(Side(d, true)), 0), Keep(b, Lines(Side(d, false)), 0), rel)
  {
    DiffSides(a, b, rel, look, w);
    MarksIncrease(a, b, rel, look, 0, 0);
    UnmarkedLinesAgree(a, b, rel, look, 0, 0);
    var d := Diff(a, b, rel, look, w);
    assert Lines(Side(d, true)) == Deleted(a, b, rel, look, 0, 0);
    assert Lines(Side(d, false)) == Added(a, b, rel, look, 0, 0);
  }

  /** The diff is empty exactly when the texts match line by line. */
  lemma EmptyDiffIffMatch(a: seq<string>, b: seq<string>, rel: Relation, look: (nat, nat) -> nat, w: seq<string>)
    ensures Diff(a, b, rel, look, w) == [] <==> Pairwise(a, b, rel)
  {
    if Pairwise(a, b, rel) {
      ScanOfMatch(a, b, rel, look, 0);
    }
    var d := Diff(a, b, rel, look, w);
    if d == [] {
      DiffSides(a, b, rel, look, w);
      UnmarkedLinesAgree(a, b, rel, look, 0, 0);
      assert Deleted(a, b, rel, look, 0, 0) == [] && Added(a, b, rel, look, 0, 0) == [];
      KeepEverything(a, 0);
      KeepEverything(b, 0);
    }
  }

  lemma {:induction false} ScanOfMatch(a: seq<string>, b: seq<string>, rel: Relation, look: (nat, nat) -> nat, i: nat)
    requires Pairwise(a, b, rel) && i <= |a|
    ensures Scan(a, b, rel, look, i, i) == Marks([], [], |a|, |b|)
    decreases |a| - i
  {
    if i == |a| {
    } else {
      ScanOfMatch(a, b, rel, look, i + 1);
    }
  }

  // ---------------------------------------------------------------- runs stay together

  ghost predicate Ascending(es: seq<Edit>) {
    forall k, l :: 0 <= k < l < |es| ==> es[k].line < es[l].line
  }

  /** A line and its successor, when both are reported on one side, are reported next to each other. */
  ghost predicate RunsTogether(d: seq<Edit>) {
    forall t, u :: 0 <= t < |d| && 0 <= u < |d| && d[t].Minus? == d[u].Minus? && d[u].line == d[t].line + 1
      ==> u == t + 1
  }

  ghost predicate AscendingInPlace(d: seq<Edit>) {
    forall t, u :: 0 <= t < u < |d| && d[t].Minus? == d[u].Minus? ==> d[t].line < d[u].line
  }

  lemma {:induction false} MergeMembers(o1: seq<Edit>, o2: seq<Edit>, l1: int, l2: int)
    ensures forall e :: e in MergeRuns(o1, o2, l1, l2) ==> e in o1 || e in o2
    decreases |o1| + |o2|
  {
    if o1 != [] { MergeMembers(o1[1..], o2, o1[0].line, l2); }
    if o2 != [] { MergeMembers(o1, o2[1..], l1, o2[0].line); }
  }

  /** The merge keeps runs of consecutive lines together and each side in order, though not the two sides in global
      order. */
  lemma {:induction false} MergeKeepsRuns(o1: seq<Edit>, o2: seq<Edit>, l1: int, l2: int)
    requires Ascending(o1) && Ascending(o2)
    requires forall k :: 0 <= k < |o1| ==> o1[k].Minus?
    requires forall k :: 0 <= k < |o2| ==> o2[k].Plus?
    ensures RunsTogether(MergeRuns(o1, o2, l1, l2)) && AscendingInPlace(MergeRuns(o1, o2, l1, l2))
    decreases |o1| + |o2|
  {
    var d := MergeRuns(o1, o2, l1, l2);
    if d == [] {
    } else {
      var rest := d[1..];
      if d[0].Minus? {
        assert rest == MergeRuns(o1[1..], o2, o1[0].line, l2);
        MergeKeepsRuns(o1[1..], o2, o1[0].line, l2);
        MinusLeads(o1, o2, l2);
      } else {
        assert rest == MergeRuns(o1, o2[1..], l1, o2[0].line);
        MergeKeepsRuns(o1, o2[1..], l1, o2[0].line);
        PlusLeads(o1, o2, l1);
      }
      RunsTogetherCons(d[0], rest);
      assert d == [d[0]] + rest;
    }
  }

  /** `e` is below its side of `d`, and its successor, if there is one, comes first. */
  ghost predicate Leads(e: Edit, d: seq<Edit>) {
    && (forall x :: x in d && x.Minus? == e.Minus? ==> e.line < x.line)
    && (forall x :: x in d && x.Minus? == e.Minus? && x.line == e.line + 1 ==> d[0] == x)
  }

  lemma MinusLeads(o1: seq<Edit>, o2: seq<Edit>, l2: int)
    requires o1 != [] && Ascending(o1)
    requires forall k :: 0 <= k < |o1| ==> o1[k].Minus?
    requires forall k :: 0 <= k < |o2| ==> o2[k].Plus?
    ensures Leads(o1[0], MergeRuns(o1[1..], o2, o1[0].line, l2))
  {
    var rest := MergeRuns(o1[1..], o2, o1[0].line, l2);
    MergeMembers(o1[1..], o2, o1[0].line, l2);
    forall x | x in rest && x.Minus? ensures x in o1[1..] && o1[0].line < x.line { }
    forall x | x in rest && x.Minus? && x.line == o1[0].line + 1 ensures rest[0] == x { NextInRun(o1, x); }
  }

  lemma PlusLeads(o1: seq<Edit>, o2: seq<Edit>, l1: int)
    requires o2 != [] && Ascending(o2) && (o1 == [] || o1[0].line != l1 + 1)
    requires forall k :: 0 <= k < |o1| ==> o1[k].Minus?
    requires forall k :: 0 <= k < |o2| ==> o2[k].Plus?
    ensures Leads(o2[0], MergeRuns(o1, o2[1..], l1, o2[0].line))
  {
    var rest := MergeRuns(o1, o2[1..], l1, o2[0].line);
    MergeMembers(o1, o2[1..], l1, o2[0].line);
    forall x | x in rest && x.Plus? ensures x in o2[1..] && o2[0].line < x.line { }
    forall x | x in rest && x.Plus? && x.line == o2[0].line + 1 ensures rest[0] == x { NextInRun(o2, x); }
  }

  lemma NextInRun(o: seq<Edit>, x: Edit)
    requires Ascending(o) && o != [] && x in o[1..] && x.line == o[0].line + 1
    ensures |o| > 1 && o[1] == x
  {
    var k :| 0 < k < |o| && o[k] == x;
    assert o[0].line < o[1].line <= o[k].line;
  }

  lemma RunsTogetherCons(e: Edit, d: seq<Edit>)
    requires RunsTogether(d) && AscendingInPlace(d) && Leads(e, d)
    ensures RunsTogether([e] + d) && AscendingInPlace([e] + d)
  {
    var all := [e] + d;
    forall t, u | 0 <= t < |all| && 0 <= u < |all| && all[t].Minus? == all[u].Minus? && all[u].line == all[t].line + 1
      ensures u == t + 1
    {
      if t > 0 { assert all[t] == d[t - 1]; }
      if u == 0 {
      } else if t == 0 {
        assert d[u - 1] in d && d[0] == d[u - 1];
      } else {
        assert d[t - 1] == all[t] && d[u - 1] == all[u];
      }
    }
    forall t, u | 0 <= t < u < |all| && all[t].Minus? == all[u].Minus? ensures all[t].line < all[u].line {
      assert d[u - 1] == all[u] && all[u] in d;
      if t > 0 { assert d[t - 1] == all[t]; }
    }
  }

  // ---------------------------------------------------------------- runs in order of their first lines

  /** No entry of the same side carries the line before. */
  ghost predicate StartsRun(d: seq<Edit>, t: nat)
    requires t < |d|
  {
    forall u :: 0 <= u < |d| && d[u].Minus? == d[t].Minus? ==> d[u].line + 1 != d[t].line
  }

  /** The last line taken on the side of an entry. */
  function LastOf(e: Edit, l1: int, l2: int): int { if e.Minus? then l1 else l2 }

  /** `x` may come before `y` of the other side: a smaller line first, and '+' first on equal lines. */
  predicate Before(x: Edit, y: Edit) { if x.Minus? then x.line < y.line else x.line <= y.line }

  /** An entry that starts a run comes before all later entries of the other side by line number. */
  ghost predicate RunsInOrder(d: seq<Edit>, l1: int, l2: int) {
    forall t, u :: 0 <= t < u < |d| && d[t].Minus? != d[u].Minus? && StartsRun(d, t)
        && d[t].line != LastOf(d[t], l1, l2) + 1
      ==> Before(d[t], d[u])
  }

  lemma {:induction false} MergeOrdersRuns(o1: seq<Edit>, o2: seq<Edit>, l1: int, l2: int)
    requires Ascending(o1) && Ascending(o2)
    requires forall k :: 0 <= k < |o1| ==> o1[k].Minus?
    requires forall k :: 0 <= k < |o2| ==> o2[k].Plus?
    ensures RunsInOrder(MergeRuns(o1, o2, l1, l2), l1, l2)
    decreases |o1| + |o2|
  {
    var d := MergeRuns(o1, o2, l1, l2);
    if d == [] {
    } else {
      var e, rest := d[0], d[1..];
      assert d == [e] + rest;
      if e.Minus? {
        assert rest == MergeRuns(o1[1..], o2, e.line, l2);
        MergeOrdersRuns(o1[1..], o2, e.line, l2);
        MergeMembers(o1[1..], o2, e.line, l2);
        forall y | y in rest && y.Plus? && e.line != l1 + 1 ensures Before(e, y) {
          var k :| 0 <= k < |o2| && o2[k] == y;
          assert o2[0].line <= o2[k].line;
        }
        RunsInOrderCons(e, rest, l1, l2, e.line, l2);
      } else {
        assert rest == MergeRuns(o1, o2[1..], l1, e.line);
        MergeOrdersRuns(o1, o2[1..], l1, e.line);
        MergeMembers(o1, o2[1..], l1, e.line);
        forall y | y in rest && y.Minus? && e.line != l2 + 1 ensures Before(e, y) {
          var k :| 0 <= k < |o1| && o1[k] == y;
          assert o1[0].line <= o1[k].line;
        }
        RunsInOrderCons(e, rest, l1, l2, l1, e.line);
      }
    }
  }

  lemma RunsInOrderCons(e: Edit, rest: seq<Edit>, l1: int, l2: int, m1: int, m2: int)
    requires RunsInOrder(rest, m1, m2)
    requires if e.Minus? then m1 == e.line && m2 == l2 else m1 == l1 && m2 == e.line
    requires forall y :: y in rest && y.Minus? != e.Minus? && e.line != LastOf(e, l1, l2) + 1 ==> Before(e, y)
    ensures RunsInOrder([e] + rest, l1, l2)
  {
    var d := [e] + rest;
    forall t, u | 0 <= t < u < |d| && d[t].Minus? != d[u].Minus? && StartsRun(d, t)
        && d[t].line != LastOf(d[t], l1, l2) + 1
      ensures Before(d[t], d[u])
    {
      assert d[u] == rest[u - 1];
      if t > 0 {
        assert d[t] == rest[t - 1];
        forall v | 0 <= v < |rest| && rest[v].Minus? == rest[t - 1].Minus?
          ensures rest[v].line + 1 != rest[t - 1].line
        {
          assert d[v + 1] == rest[v];
        }
        assert StartsRun(rest, t - 1);
        assert d[0] == e;
      }
    }
  }

  /** In the merged part of every diff a run is placed by its first line. */
  lemma MergedRunsInOrder(a: seq<string>, b: seq<string>, rel: Relation, look: (nat, nat) -> nat, w: seq<string>)
    ensures var m := Scan(a, b, rel, look, 0, 0);
            var d := MergeRuns(MinusEdits(m.minus, w), PlusEdits(m.plus, b), -2, -2);
            RunsTogether(d) && AscendingInPlace(d)
            && forall t, u :: 0 <= t < u < |d| && d[t].Minus? != d[u].Minus? && StartsRun(d, t) ==> Before(d[t], d[u])
  {
    var m := Scan(a, b, rel, look, 0, 0);
    var o1, o2 := MinusEdits(m.minus, w), PlusEdits(m.plus, b);
    MarksIncrease(a, b, rel, look, 0, 0);
    var del, add := Deleted(a, b, rel, look, 0, 0), Added(a, b, rel, look, 0, 0);
    assert forall k :: 0 <= k < |m.minus| ==> m.minus[k] == del[k];
    assert forall k :: 0 <= k < |m.plus| ==> m.plus[k] == add[k];
    MergeKeepsRuns(o1, o2, -2, -2);
    MergeOrdersRuns(o1, o2, -2, -2);
  }
}

/** The line diff itself, `generate_array_diff`: a two-cursor scan guided by the lookahead,
    a merge of the two edit lists that keeps runs together, and the two tails. */
module ArrayDiff {
  import opened Lookahead

  type Relation = (string, string) -> bool

  /** A line reported as missing from the output, or as extra in it; `line` counts from 0. */
  datatype Edit = Minus(line: nat, text: string) | Plus(line: nat, text: string)

  /** Reading past the end of a PHP array gives null, which prints as the empty string. */
  function LineAt(w: seq<string>, i: nat): string {
    if i < |w| then w[i] else ""
  }

  // ---------------------------------------------------------------- specification

  /** Line numbers marked on each side, and where the scan stopped. */
  datatype Marks = Marks(minus: seq<nat>, plus: seq<nat>, end1: nat, end2: nat)

  /** The scan from (i, j), for an arbitrary lookahead. */
  function Scan(a: seq<string>, b: seq<string>, rel: Relation, look: (nat, nat) -> nat, i: nat, j: nat): (m: Marks)
    requires i <= |a| && j <= |b|
    ensures m.end1 <= |a| && m.end2 <= |b|
    decreases |a| - i + |b| - j
  {
    if i == |a| || j == |b| then Marks([], [], i, j)
    else if rel(a[i], b[j]) then Scan(a, b, rel, look, i + 1, j + 1)
    else if look(i + 1, j) > look(i, j + 1) then
      var m := Scan(a, b, rel, look, i + 1, j); m.(minus := [i] + m.minus)
    else if look(i, j + 1) > 0 then
      var m := Scan(a, b, rel, look, i, j + 1); m.(plus := [j] + m.plus)
    else
      var m := Scan(a, b, rel, look, i + 1, j + 1); m.(minus := [i] + m.minus, plus := [j] + m.plus)
  }

  function MinusEdits(lines: seq<nat>, w: seq<string>): (es: seq<Edit>)
    ensures |es| == |lines| && forall k :: 0 <= k < |es| ==> es[k] == Minus(lines[k], LineAt(w, lines[k]))
  {
    seq(|lines|, k requires 0 <= k < |lines| => Minus(lines[k], LineAt(w, lines[k])))
  }

  function PlusEdits(lines: seq<nat>, b: seq<string>): (es: seq<Edit>)
    ensures |es| == |lines| && forall k :: 0 <= k < |es| ==> es[k] == Plus(lines[k], LineAt(b, lines[k]))
  {
    seq(|lines|, k requires 0 <= k < |lines| => Plus(lines[k], LineAt(b, lines[k])))
  }

  lemma EditsOfConcat(s: seq<nat>, t: seq<nat>, w: seq<string>)
    ensures MinusEdits(s + t, w) == MinusEdits(s, w) + MinusEdits(t, w)
    ensures PlusEdits(s + t, w) == PlusEdits(s, w) + PlusEdits(t, w)
  {
  }

  lemma EditsOfSnoc(s: seq<nat>, x: nat, w: seq<string>)
    ensures MinusEdits(s + [x], w) == MinusEdits(s, w) + [Minus(x, LineAt(w, x))]
    ensures PlusEdits(s + [x], w) == PlusEdits(s, w) + [Plus(x, LineAt(w, x))]
  {
  }

  /** The merge: stay on the side whose run goes on, otherwise take the smaller line number.
      `l1` and `l2` are the last line numbers taken, -2 at the start. */
  function MergeRuns(o1: seq<Edit>, o2: seq<Edit>, l1: int, l2: int): seq<Edit>
    decreases |o1| + |o2|
  {
    if o1 == [] && o2 == [] then []
    else if o2 == [] || (o1 != [] && o1[0].line == l1 + 1) then
      [o1[0]] + MergeRuns(o1[1..], o2, o1[0].line, l2)
    else if o1 == [] || o2[0].line == l2 + 1 then
      [o2[0]] + MergeRuns(o1, o2[1..], l1, o2[0].line)
    else if o1[0].line < o2[0].line then
      [o1[0]] + MergeRuns(o1[1..], o2, o1[0].line, l2)
    else
      [o2[0]] + MergeRuns(o1, o2[1..], l1, o2[0].line)
  }

  function Range(i: nat, n: nat): (r: seq<nat>)
    requires i <= n
    ensures |r| == n - i && forall k :: 0 <= k < |r| ==> r[k] == i + k
  {
    seq(n - i, k requires k >= 0 => i + k)
  }

  lemma RangeSnoc(i: nat, n: nat)
    requires i <= n
    ensures Range(i, n + 1) == Range(i, n) + [n]
  {
  }

  /** All lines of `a` reported missing, those of the tail included. */
  function Deleted(a: seq<string>, b: seq<string>, rel: Relation, look: (nat, nat) -> nat, i: nat, j: nat): seq<nat>
    requires i <= |a| && j <= |b|
  {
    var m := Scan(a, b, rel, look, i, j);
    m.minus + Range(m.end1, |a|)
  }

  function Added(a: seq<string>, b: seq<string>, rel: Relation, look: (nat, nat) -> nat, i: nat, j: nat): seq<nat>
    requires i <= |a| && j <= |b|
  {
    var m := Scan(a, b, rel, look, i, j);
    m.plus + Range(m.end2, |b|)
  }

  /** The whole diff for an arbitrary lookahead. */
  function Diff(a: seq<string>, b: seq<string>, rel: Relation, look: (nat, nat) -> nat, w: seq<string>): seq<Edit> {
    var m := Scan(a, b, rel, look, 0, 0);
    MergeRuns(MinusEdits(m.minus, w), PlusEdits(m.plus, b), -2, -2)
    + MinusEdits(Range(m.end1, |a|), w) + PlusEdits(Range(m.end2, |b|), b)
  }

  const BUDGET := 10.0

  /** The lookahead the program uses. */
  function Looker(a: seq<string>, b: seq<string>, rel: Relation): (nat, nat) -> nat {
    (i: nat, j: nat) => if i <= |a| && j <= |b| then Estimate(a, b, rel, i, j, BUDGET) else 0
  }

  // ---------------------------------------------------------------- the program

  /** `calls` counts the runs of the lookahead.  Array keys are the line numbers plus
      `shift`, since PHP may read the key before or after the cursor moves. */
  method GenerateArrayDiff(ar1: seq<string>, ar2: seq<string>, compLine: Relation, w: seq<string>, shift: nat)
    returns (diff: seq<Edit>, ghost calls: nat)
    ensures diff == Diff(ar1, ar2, compLine, Looker(ar1, ar2, compLine), w)
    ensures calls <= 2048 * (|ar1| + |ar2|)
  {
    ghost var m := Scan(ar1, ar2, compLine, Looker(ar1, ar2, compLine), 0, 0);
    var old1, old2, idx1, idx2;
    old1, old2, idx1, idx2, calls := ScanLines(ar1, ar2, compLine, w);
    diff := MergeEditLists(old1, old2, shift);
    ghost var merged := diff;
    while idx1 < |ar1|
      invariant m.end1 <= idx1 <= |ar1|
      invariant diff == merged + MinusEdits(Range(m.end1, idx1), w)
    {
      RangeSnoc(m.end1, idx1);
      EditsOfSnoc(Range(m.end1, idx1), idx1, w);
      diff := diff + [Minus(idx1, LineAt(w, idx1))];
      idx1 := idx1 + 1;
    }
    ghost var before := diff;
    while idx2 < |ar2|
      invariant m.end2 <= idx2 <= |ar2|
      invariant diff == before + PlusEdits(Range(m.end2, idx2), ar2)
    {
      RangeSnoc(m.end2, idx2);
      EditsOfSnoc(Range(m.end2, idx2), idx2, ar2);
      diff := diff + [Plus(idx2, LineAt(ar2, idx2))];
      idx2 := idx2 + 1;
    }
  }

  /** The two-cursor loop. */
  method ScanLines(ar1: seq<string>, ar2: seq<string>, compLine: Relation, w: seq<string>)
    returns (old1: seq<Edit>, old2: seq<Edit>, idx1: nat, idx2: nat, ghost calls: nat)
    ensures idx1 <= |ar1| && idx2 <= |ar2|
    ensures var m := Scan(ar1, ar2, compLine, Looker(ar1, ar2, compLine), 0, 0);
            old1 == MinusEdits(m.minus, w) && old2 == PlusEdits(m.plus, ar2) && idx1 == m.end1 && idx2 == m.end2
    ensures calls <= 2048 * (|ar1| + |ar2|)
  {
    ghost var look := Looker(ar1, ar2, compLine);
    ghost var all := Scan(ar1, ar2, compLine, look, 0, 0);
    ghost var lines1: seq<nat>, lines2: seq<nat> := [], [];
    old1, old2, idx1, idx2, calls := [], [], 0, 0, 0;
    assert [] + all.minus == all.minus && [] + all.plus == all.plus;
    while idx1 < |ar1| && idx2 < |ar2|
      invariant idx1 <= |ar1| && idx2 <= |ar2|
      invariant old1 == MinusEdits(lines1, w) && old2 == PlusEdits(lines2, ar2)
      invariant Resumes(all, lines1, lines2, Scan(ar1, ar2, compLine, look, idx1, idx2))
      invariant calls <= 2048 * (idx1 + idx2)
      decreases |ar1| - idx1 + |ar2| - idx2
    {
      var edits1, edits2, next1, next2;
      ghost var marks1, marks2, n;
      edits1, edits2, next1, next2, marks1, marks2, n := ScanRound(ar1, ar2, compLine, w, idx1, idx2);
      ResumesFurther(all, lines1, lines2, Scan(ar1, ar2, compLine, look, idx1, idx2), marks1, marks2,
                     Scan(ar1, ar2, compLine, look, next1, next2));
      EditsOfConcat(lines1, marks1, w);
      EditsOfConcat(lines2, marks2, ar2);
      old1, lines1, idx1 := old1 + edits1, lines1 + marks1, next1;
      old2, lines2, idx2 := old2 + edits2, lines2 + marks2, next2;
      calls := calls + n;
    }
    assert lines1 + [] == lines1 && lines2 + [] == lines2;
  }

  /** The body of the loop: the edits it adds on each side, and where it goes on. */
  method ScanRound(ar1: seq<string>, ar2: seq<string>, compLine: Relation, w: seq<string>, idx1: nat, idx2: nat)
    returns (edits1: seq<Edit>, edits2: seq<Edit>, next1: nat, next2: nat,
             ghost marks1: seq<nat>, ghost marks2: seq<nat>, ghost calls: nat)
    requires idx1 < |ar1| && idx2 < |ar2|
    ensures idx1 <= next1 <= |ar1| && idx2 <= next2 <= |ar2| && idx1 + idx2 < next1 + next2
    ensures edits1 == MinusEdits(marks1, w) && edits2 == PlusEdits(marks2, ar2)
    ensures calls <= 2048 * (next1 - idx1 + next2 - idx2)
    ensures var look := Looker(ar1, ar2, compLine);
            Resumes(Scan(ar1, ar2, compLine, look, idx1, idx2), marks1, marks2,
                    Scan(ar1, ar2, compLine, look, next1, next2))
  {
    if compLine(ar1[idx1], ar2[idx2]) {
      edits1, edits2, marks1, marks2, calls := [], [], [], [], 0;
      next1, next2 := idx1 + 1, idx2 + 1;
      ScanMatch(ar1, ar2, compLine, Looker(ar1, ar2, compLine), idx1, idx2);
    } else {
      edits1, edits2, marks1, marks2, calls := ReportSides(ar1, ar2, compLine, w, idx1, idx2);
      next1, next2 := idx1 + |edits1|, idx2 + |edits2|;
      ScanStep(ar1, ar2, compLine, Looker(ar1, ar2, compLine), idx1, idx2, marks1, marks2);
    }
  }

  /** The lines to report, by number. */
  ghost predicate MarksSides(look: (nat, nat) -> nat, i: nat, j: nat, minus: seq<nat>, plus: seq<nat>) {
    if look(i + 1, j) > look(i, j + 1) then minus == [i] && plus == []
    else if look(i, j + 1) > 0 then minus == [] && plus == [j]
    else minus == [i] && plus == [j]
  }

  /** Two differing lines: one of them is reported, or both. */
  method ReportSides(ar1: seq<string>, ar2: seq<string>, compLine: Relation, w: seq<string>, idx1: nat, idx2: nat)
    returns (edits1: seq<Edit>, edits2: seq<Edit>, ghost marks1: seq<nat>, ghost marks2: seq<nat>, ghost calls: nat)
    requires idx1 < |ar1| && idx2 < |ar2|
    ensures edits1 == MinusEdits(marks1, w) && edits2 == PlusEdits(marks2, ar2) && calls <= 2048
    ensures MarksSides(Looker(ar1, ar2, compLine), idx1, idx2, marks1, marks2)
  {
    var minus, plus;
    minus, plus, calls := ChooseSides(ar1, ar2, compLine, idx1, idx2);
    edits1, edits2, marks1, marks2 := [], [], [], [];
    if minus {
      edits1, marks1 := [Minus(idx1, LineAt(w, idx1))], [idx1];
    }
    if plus {
      edits2, marks2 := [Plus(idx2, LineAt(ar2, idx2))], [idx2];
    }
  }

  /** Which of two differing lines to report: the one whose removal looks better, or both. */
  method ChooseSides(ar1: seq<string>, ar2: seq<string>, compLine: Relation, idx1: nat, idx2: nat)
    returns (minus: bool, plus: bool, ghost calls: nat)
    requires idx1 < |ar1| && idx2 < |ar2|
    ensures var look := Looker(ar1, ar2, compLine);
            && plus == !(look(idx1 + 1, idx2) > look(idx1, idx2 + 1))
            && minus == (look(idx1 + 1, idx2) > look(idx1, idx2 + 1) || look(idx1, idx2 + 1) == 0)
    ensures calls <= 2048
  {
    var c1, c2;
    ghost var n1, n2;
    c1, n1 := CountArrayDiff(ar1, ar2, compLine, idx1 + 1, idx2, BUDGET);
    c2, n2 := CountArrayDiff(ar1, ar2, compLine, idx1, idx2 + 1, BUDGET);
    RoundsOfBudget();
    calls := n1 + n2;
    if c1 > c2 {
      minus, plus := true, false;
    } else if c2 > 0 {
      minus, plus := false, true;
    } else {
      minus, plus := true, true;
    }
  }

  /** `all` is what has been marked so far followed by what `rest` marks. */
  ghost predicate Resumes(all: Marks, minus: seq<nat>, plus: seq<nat>, rest: Marks) {
    all == Marks(minus + rest.minus, plus + rest.plus, rest.end1, rest.end2)
  }

  lemma ResumesFurther(all: Marks, minus: seq<nat>, plus: seq<nat>, m: Marks, more1: seq<nat>,
                       more2: seq<nat>, rest: Marks)
    requires Resumes(all, minus, plus, m) && Resumes(m, more1, more2, rest)
    ensures Resumes(all, minus + more1, plus + more2, rest)
  {
    assert minus + (more1 + rest.minus) == minus + more1 + rest.minus;
    assert plus + (more2 + rest.plus) == plus + more2 + rest.plus;
  }

  lemma ScanMatch(a: seq<string>, b: seq<string>, rel: Relation, look: (nat, nat) -> nat, i: nat, j: nat)
    requires i < |a| && j < |b| && rel(a[i], b[j])
    ensures Resumes(Scan(a, b, rel, look, i, j), [], [], Scan(a, b, rel, look, i + 1, j + 1))
  {
    var m := Scan(a, b, rel, look, i + 1, j + 1);
    assert [] + m.minus == m.minus && [] + m.plus == m.plus;
  }

  lemma ScanStep(a: seq<string>, b: seq<string>, rel: Relation, look: (nat, nat) -> nat, i: nat, j: nat,
                 more1: seq<nat>, more2: seq<nat>)
    requires i < |a| && j < |b| && !rel(a[i], b[j]) && MarksSides(look, i, j, more1, more2)
    ensures i + |more1| <= |a| && j + |more2| <= |b| && |more1| + |more2| > 0
    ensures Resumes(Scan(a, b, rel, look, i, j), more1, more2, Scan(a, b, rel, look, i + |more1|, j + |more2|))
  {
  }

  lemma RoundsOfBudget()
    ensures Rounds(BUDGET) == 10 && Pow2(10) == 1024
  {
    assert Pow2(4) == 16;
    assert Pow2(8) == 256;
    assert Rounds(5.0) == 5 by { assert Rounds(2.0) == 2; }
    assert Rounds(8.0) == 3 + Rounds(5.0);
  }

  /** The merge loop.  `rest1` and `rest2` are what PHP's array cursors have not passed yet. */
  method MergeEditLists(old1: seq<Edit>, old2: seq<Edit>, shift: nat) returns (diff: seq<Edit>)
    ensures diff == MergeRuns(old1, old2, -2, -2)
  {
    diff := [];
    var rest1, rest2, l1, l2 := old1, old2, -2, -2;
    assert [] + MergeRuns(old1, old2, -2, -2) == MergeRuns(old1, old2, -2, -2);
    ghost var g1, g2 := -2, -2;
    while rest1 != [] || rest2 != []
      invariant l1 == g1 == -2 || (g1 >= 0 && l1 == g1 + shift)
      invariant l2 == g2 == -2 || (g2 >= 0 && l2 == g2 + shift)
      invariant diff + MergeRuns(rest1, rest2, g1, g2) == MergeRuns(old1, old2, -2, -2)
      decreases |rest1| + |rest2|
    {
      if rest1 != [] { AppendAssoc(diff, rest1[0], MergeRuns(rest1[1..], rest2, rest1[0].line, g2)); }
      if rest2 != [] { AppendAssoc(diff, rest2[0], MergeRuns(rest1, rest2[1..], g1, rest2[0].line)); }
      if rest2 == [] || (rest1 != [] && rest1[0].line + shift == l1 + 1) {
        diff, l1, g1, rest1 := diff + [rest1[0]], rest1[0].line + shift, rest1[0].line, rest1[1..];
      } else if rest1 == [] || rest2[0].line + shift == l2 + 1 {
        diff, l2, g2, rest2 := diff + [rest2[0]], rest2[0].line + shift, rest2[0].line, rest2[1..];
      } else if rest1[0].line + shift < rest2[0].line + shift {
        diff, l1, g1, rest1 := diff + [rest1[0]], rest1[0].line + shift, rest1[0].line, rest1[1..];
      } else {
        diff, l2, g2, rest2 := diff + [rest2[0]], rest2[0].line + shift, rest2[0].line, rest2[1..];
      }
    }
    assert diff + [] == diff;
  }

  lemma AppendAssoc(d: seq<Edit>, x: Edit, rest: seq<Edit>)
    ensures d + ([x] + rest) == (d + [x]) + rest
  {
  }

  // ---------------------------------------------------------------- nothing lost, order kept

  /** The edits of one side, in order. */
  function Side(d: seq<Edit>, minus: bool): seq<Edit> {
    if d == [] then []
    else if d[0].Minus? == minus then [d[0]] + Side(d[1..], minus)
    else Side(d[1..], minus)
  }

  lemma {:induction false} SideOfConcat(d: seq<Edit>, e: seq<Edit>, minus: bool)
    ensures Side(d + e, minus) == Side(d, minus) + Side(e, minus)
  {
    if d == [] {
      assert d + e == e;
    } else {
      SideOfConcat(d[1..], e, minus);
      var x, rest := d[0], d[1..];
      assert d == [x] + rest && d + e == [x] + (rest + e);
      SideCons(x, rest, minus);
      SideCons(x, rest + e, minus);
      assert [x] + (Side(rest, minus) + Side(e, minus)) == [x] + Side(rest, minus) + Side(e, minus);
    }
  }

  lemma SideCons(x: Edit, d: seq<Edit>, minus: bool)
    ensures x.Minus? == minus ==> Side([x] + d, minus) == [x] + Side(d, minus)
    ensures x.Minus? != minus ==> Side([x] + d, minus) == Side(d, minus)
  {
    assert ([x] + d)[1..] == d;
  }

  lemma {:induction false} SideOfPure(d: seq<Edit>, minus: bool)
    requires forall k :: 0 <= k < |d| ==> d[k].Minus? == minus
    ensures Side(d, minus) == d && Side(d, !minus) == []
  {
    if d == [] {
    } else {
      SideOfPure(d[1..], minus);
    }
  }

  /** The merge emits every entry of both lists exactly once and keeps the order of each. */
  lemma {:induction false} MergeKeepsSides(o1: seq<Edit>, o2: seq<Edit>, l1: int, l2: int)
    requires forall k :: 0 <= k < |o1| ==> o1[k].Minus?
    requires forall k :: 0 <= k < |o2| ==> o2[k].Plus?
    ensures Side(MergeRuns(o1, o2, l1, l2), true) == o1
    ensures Side(MergeRuns(o1, o2, l1, l2), false) == o2
    decreases |o1| + |o2|
  {
    var d := MergeRuns(o1, o2, l1, l2);
    if d == [] {
    } else {
      if d[0].Minus? {
        MergeKeepsSides(o1[1..], o2, o1[0].line, l2);
      } else {
        MergeKeepsSides(o1, o2[1..], l1, o2[0].line);
      }
    }
  }

  /** The '-' entries of the diff are exactly the deleted lines and the '+' entries exactly the added ones. */
  lemma DiffSides(a: seq<string>, b: seq<string>, rel: Relation, look: (nat, nat) -> nat, w: seq<string>)
    ensures Side(Diff(a, b, rel, look, w), true) == MinusEdits(Deleted(a, b, rel, look, 0, 0), w)
    ensures Side(Diff(a, b, rel, look, w), false) == PlusEdits(Added(a, b, rel, look, 0, 0), b)
  {
    var m := Scan(a, b, rel, look, 0, 0);
    var tail1, tail2 := Range(m.end1, |a|), Range(m.end2, |b|);
    EditsOfConcat(m.minus, tail1, w);
    EditsOfConcat(m.plus, tail2, b);
    SidesOfParts(MinusEdits(m.minus, w), PlusEdits(m.plus, b), MinusEdits(tail1, w), PlusEdits(tail2, b));
  }

  lemma SidesOfParts(o1: seq<Edit>, o2: seq<Edit>, t1: seq<Edit>, t2: seq<Edit>)
    requires forall k :: 0 <= k < |o1| ==> o1[k].Minus?
    requires forall k :: 0 <= k < |o2| ==> o2[k].Plus?
    requires forall k :: 0 <= k < |t1| ==> t1[k].Minus?
    requires forall k :: 0 <= k < |t2| ==> t2[k].Plus?
    ensures Side(MergeRuns(o1, o2, -2, -2) + t1 + t2, true) == o1 + t1
    ensures Side(MergeRuns(o1, o2, -2, -2) + t1 + t2, false) == o2 + t2
  {
    MergeKeepsSides(o1, o2, -2, -2);
    SidesBeforeTails(MergeRuns(o1, o2, -2, -2), t1, t2);
  }

  lemma SidesBeforeTails(d: seq<Edit>, t1: seq<Edit>, t2: seq<Edit>)
    requires forall k :: 0 <= k < |t1| ==> t1[k].Minus?
    requires forall k :: 0 <= k < |t2| ==> t2[k].Plus?
    ensures Side(d + t1 + t2, true) == Side(d, true) + t1
    ensures Side(d + t1 + t2, false) == Side(d, false) + t2
  {
    SideOfPure(t1, true);
    SideOfPure(t2, false);
    SideOfConcat(d, t1, true);
    SideOfConcat(d, t1, false);
    SideOfConcat(d + t1, t2, true);
    SideOfConcat(d + t1, t2, false);
    assert Side(d, true) + t1 + [] == Side(d, true) + t1;
    assert Side(d, false) + [] == Side(d, false);
  }

  ghost predicate Increasing(s: seq<nat>, lo: nat, hi: nat) {
    && (forall k :: 0 <= k < |s| ==> lo <= s[k] < hi)
    && (forall k, l :: 0 <= k < l < |s| ==> s[k] < s[l])
  }

  lemma IncreasingCons(x: nat, s: seq<nat>, lo: nat, hi: nat)
    requires Increasing(s, x + 1, hi) && lo <= x < hi
    ensures Increasing([x] + s, lo, hi)
  {
  }

  ghost predicate MarksCons(a: seq<string>, b: seq<string>, rel: Relation, look: (nat, nat) -> nat, i: nat, j: nat)
    requires i < |a| && j < |b|
  {
    var d, e := Deleted(a, b, rel, look, i, j), Added(a, b, rel, look, i, j);
    if rel(a[i], b[j]) then
      d == Deleted(a, b, rel, look, i + 1, j + 1) && e == Added(a, b, rel, look, i + 1, j + 1)
    else if look(i + 1, j) > look(i, j + 1) then
      d == [i] + Deleted(a, b, rel, look, i + 1, j) && e == Added(a, b, rel, look, i + 1, j)
    else if look(i, j + 1) > 0 then
      d == Deleted(a, b, rel, look, i, j + 1) && e == [j] + Added(a, b, rel, look, i, j + 1)
    else
      d == [i] + Deleted(a, b, rel, look, i + 1, j + 1) && e == [j] + Added(a, b, rel, look, i + 1, j + 1)
  }

  /** How the marks from (i, j) arise from those further on; only the first case leaves both lines unmarked. */
  lemma MarksUnfold(a: seq<string>, b: seq<string>, rel: Relation, look: (nat, nat) -> nat, i: nat, j: nat)
    requires i < |a| && j < |b|
    ensures MarksCons(a, b, rel, look, i, j)
  {
  }

  /** Line numbers strictly increase on each side and lie inside the texts. */
  lemma {:induction false} MarksIncrease(a: seq<string>, b: seq<string>, rel: Relation, look: (nat, nat) -> nat,
                                         i: nat, j: nat)
    requires i <= |a| && j <= |b|
    ensures Increasing(Deleted(a, b, rel, look, i, j), i, |a|)
    ensures Increasing(Added(a, b, rel, look, i, j), j, |b|)
    decreases |a| - i + |b| - j
  {
    if i == |a| || j == |b| {
    } else {
      if rel(a[i], b[j]) {
        MarksIncrease(a, b, rel, look, i + 1, j + 1);
        MarksUnfold(a, b, rel, look, i, j);
      } else if look(i + 1, j) > look(i, j + 1) {
        MarksIncrease(a, b, rel, look, i + 1, j);
        MinusIncreases(a, b, rel, look, i, j);
      } else if look(i, j + 1) > 0 {
        MarksIncrease(a, b, rel, look, i, j + 1);
        PlusIncreases(a, b, rel, look, i, j);
      } else {
        MarksIncrease(a, b, rel, look, i + 1, j + 1);
        BothIncrease(a, b, rel, look, i, j);
      }
    }
  }

  lemma MinusIncreases(a: seq<string>, b: seq<string>, rel: Relation, look: (nat, nat) -> nat, i: nat, j: nat)
    requires i < |a| && j < |b| && !rel(a[i], b[j]) && look(i + 1, j) > look(i, j + 1)
    requires Increasing(Deleted(a, b, rel, look, i + 1, j), i + 1, |a|)
    requires Increasing(Added(a, b, rel, look, i + 1, j), j, |b|)
    ensures Increasing(Deleted(a, b, rel, look, i, j), i, |a|) && Increasing(Added(a, b, rel, look, i, j), j, |b|)
  {
    MarksUnfold(a, b, rel, look, i, j);
    IncreasingCons(i, Deleted(a, b, rel, look, i + 1, j), i, |a|);
  }

  lemma PlusIncreases(a: seq<string>, b: seq<string>, rel: Relation, look: (nat, nat) -> nat, i: nat, j: nat)
    requires i < |a| && j < |b| && !rel(a[i], b[j]) && look(i + 1, j) <= look(i, j + 1) && look(i, j + 1) > 0
    requires Increasing(Deleted(a, b, rel, look, i, j + 1), i, |a|)
    requires Increasing(Added(a, b, rel, look, i, j + 1), j + 1, |b|)
    ensures Increasing(Deleted(a, b, rel, look, i, j), i, |a|) && Increasing(Added(a, b, rel, look, i, j), j, |b|)
  {
    MarksUnfold(a, b, rel, look, i, j);
    IncreasingCons(j, Added(a, b, rel, look, i, j + 1), j, |b|);
  }

  lemma BothIncrease(a: seq<string>, b: seq<string>, rel: Relation, look: (nat, nat) -> nat, i: nat, j: nat)
    requires i < |a| && j < |b| && !rel(a[i], b[j]) && look(i + 1, j) <= look(i, j + 1) == 0
    requires Increasing(Deleted(a, b, rel, look, i + 1, j + 1), i + 1, |a|)
    requires Increasing(Added(a, b, rel, look, i + 1, j + 1), j + 1, |b|)
    ensures Increasing(Deleted(a, b, rel, look, i, j), i, |a|) && Increasing(Added(a, b, rel, look, i, j), j, |b|)
  {
    MarksUnfold(a, b, rel, look, i, j);
    IncreasingCons(i, Deleted(a, b, rel, look, i + 1, j + 1), i, |a|);
    IncreasingCons(j, Added(a, b, rel, look, i + 1, j + 1), j, |b|);
  }
}

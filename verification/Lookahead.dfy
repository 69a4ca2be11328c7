/** The budgeted lookahead of the line diff, `count_array_diff`.  The budget is halved
    with PHP's `/`, so it is a real number here. */
module Lookahead {
  import opened Matching

  /** How many lines agree one to one from (i, j) on, before the first disagreement. */
  function CommonRun<A, B>(a: seq<A>, b: seq<B>, rel: (A, B) -> bool, i: nat, j: nat): (n: nat)
    requires i <= |a| && j <= |b|
    ensures i + n <= |a| && j + n <= |b|
    decreases |a| - i
  {
    if i < |a| && j < |b| && rel(a[i], b[j]) then 1 + CommonRun(a, b, rel, i + 1, j + 1) else 0
  }

  /** The value of `count_array_diff` with the given step budget. */
  function Estimate<A, B>(a: seq<A>, b: seq<B>, rel: (A, B) -> bool, i: nat, j: nat, steps: real): nat
    requires i <= |a| && j <= |b|
    decreases |a| - i + |b| - j, 1
  {
    var n := CommonRun(a, b, rel, i, j);
    var left := steps - n as real - 1.0;
    if left <= 0.0 then n
    else n + Max(BestSkippingExpected(a, b, rel, i + n + 1, j + n, left / 2.0),
                 BestSkippingOutput(a, b, rel, i + n, j + n + 1, left))
  }

  /** Best estimate over starts at or after `i` in `a`, one step of budget per attempt. */
  function BestSkippingExpected<A, B>(a: seq<A>, b: seq<B>, rel: (A, B) -> bool, i: nat, j: nat, st: real): nat
    requires i <= |a| + 1 && j <= |b|
    decreases |a| + 1 - i + |b| - j, 0
  {
    if i >= |a| || st <= 0.0 then 0
    else Max(Estimate(a, b, rel, i, j, st - 1.0), BestSkippingExpected(a, b, rel, i + 1, j, st - 1.0))
  }

  function BestSkippingOutput<A, B>(a: seq<A>, b: seq<B>, rel: (A, B) -> bool, i: nat, j: nat, st: real): nat
    requires i <= |a| && j <= |b| + 1
    decreases |a| - i + |b| + 1 - j, 0
  {
    if j >= |b| || st <= 0.0 then 0
    else Max(Estimate(a, b, rel, i, j, st - 1.0), BestSkippingOutput(a, b, rel, i, j + 1, st - 1.0))
  }

  // ---------------------------------------------------------------- every start within reach counts

  /** The first inner loop tries every start from `i` on that its budget reaches. */
  lemma {:induction false} SkippedExpectedCounts<A, B>(a: seq<A>, b: seq<B>, rel: (A, B) -> bool, i: nat, j: nat,
                                                      st: real, k: nat)
    requires i <= k < |a| && j <= |b| && st - (k - i) as real > 0.0
    ensures Estimate(a, b, rel, k, j, st - (k - i) as real - 1.0) <= BestSkippingExpected(a, b, rel, i, j, st)
    decreases k - i
  {
    if k == i {
    } else {
      SkippedExpectedCounts(a, b, rel, i + 1, j, st - 1.0, k);
      assert st - 1.0 - (k - (i + 1)) as real == st - (k - i) as real;
    }
  }

  lemma {:induction false} SkippedOutputCounts<A, B>(a: seq<A>, b: seq<B>, rel: (A, B) -> bool, i: nat, j: nat,
                                                    st: real, k: nat)
    requires i <= |a| && j <= k < |b| && st - (k - j) as real > 0.0
    ensures Estimate(a, b, rel, i, k, st - (k - j) as real - 1.0) <= BestSkippingOutput(a, b, rel, i, j, st)
    decreases k - j
  {
    if k == j {
    } else {
      SkippedOutputCounts(a, b, rel, i, j + 1, st - 1.0, k);
      assert st - 1.0 - (k - (j + 1)) as real == st - (k - j) as real;
    }
  }

  lemma RunIsLowerBound<A, B>(a: seq<A>, b: seq<B>, rel: (A, B) -> bool, i: nat, j: nat, steps: real)
    requires i <= |a| && j <= |b|
    ensures CommonRun(a, b, rel, i, j) <= Estimate(a, b, rel, i, j, steps)
  {
  }

  /** What is left of a budget behind a common run. */
  function Left(steps: real, n: nat): real { steps - n as real - 1.0 }

  /** A later start on the expected side counts, with half of what is left, less one for every start up to it. */
  lemma LaterExpectedCounts<A, B>(a: seq<A>, b: seq<B>, rel: (A, B) -> bool, i: nat, j: nat, steps: real, k: nat)
    requires i <= |a| && j <= |b|
    requires var n := CommonRun(a, b, rel, i, j);
             i + n < k < |a| && Left(steps, n) / 2.0 - (k - i - n - 1) as real > 0.0
    ensures var n := CommonRun(a, b, rel, i, j);
            && n + CommonRun(a, b, rel, k, j + n) <= Estimate(a, b, rel, i, j, steps)
            && n + Estimate(a, b, rel, k, j + n, Left(steps, n) / 2.0 - (k - i - n) as real)
               <= Estimate(a, b, rel, i, j, steps)
  {
    var n := CommonRun(a, b, rel, i, j);
    var st := Left(steps, n) / 2.0;
    SkippedExpectedCounts(a, b, rel, i + n + 1, j + n, st, k);
    assert st - (k - (i + n + 1)) as real - 1.0 == st - (k - i - n) as real;
    RunIsLowerBound(a, b, rel, k, j + n, st - (k - i - n) as real);
  }

  /** A later start on the output side counts, with all that is left, less one for every start up to it. */
  lemma LaterOutputCounts<A, B>(a: seq<A>, b: seq<B>, rel: (A, B) -> bool, i: nat, j: nat, steps: real, k: nat)
    requires i <= |a| && j <= |b|
    requires var n := CommonRun(a, b, rel, i, j);
             j + n < k < |b| && Left(steps, n) - (k - j - n - 1) as real > 0.0
    ensures var n := CommonRun(a, b, rel, i, j);
            && n + CommonRun(a, b, rel, i + n, k) <= Estimate(a, b, rel, i, j, steps)
            && n + Estimate(a, b, rel, i + n, k, Left(steps, n) - (k - j - n) as real)
               <= Estimate(a, b, rel, i, j, steps)
  {
    var n := CommonRun(a, b, rel, i, j);
    var st := Left(steps, n);
    SkippedOutputCounts(a, b, rel, i + n, j + n + 1, st, k);
    assert st - (k - (j + n + 1)) as real - 1.0 == st - (k - j - n) as real;
    RunIsLowerBound(a, b, rel, i + n, k, st - (k - j - n) as real);
  }

  /** Every start within reach of (x, y), on either side, is taken into account: `v` is at least what it adds to `n`. */
  ghost predicate CountsStarts<A, B>(a: seq<A>, b: seq<B>, rel: (A, B) -> bool, x: nat, y: nat, left: real, n: nat,
                                     v: nat)
    requires x <= |a| && y <= |b|
  {
    && (forall k: nat :: x < k < |a| && left / 2.0 - (k - x - 1) as real > 0.0 ==> n + CommonRun(a, b, rel, k, y) <= v)
    && (forall k: nat :: y < k < |b| && left - (k - y - 1) as real > 0.0 ==> n + CommonRun(a, b, rel, x, k) <= v)
  }

  ghost predicate CountsLaterStarts<A, B>(a: seq<A>, b: seq<B>, rel: (A, B) -> bool, i: nat, j: nat, steps: real,
                                          v: nat)
    requires i <= |a| && j <= |b|
  {
    var n := CommonRun(a, b, rel, i, j);
    CountsStarts(a, b, rel, i + n, j + n, Left(steps, n), n, v)
  }

  lemma EstimateCountsLaterStarts<A, B>(a: seq<A>, b: seq<B>, rel: (A, B) -> bool, i: nat, j: nat, steps: real)
    requires i <= |a| && j <= |b|
    ensures CountsLaterStarts(a, b, rel, i, j, steps, Estimate(a, b, rel, i, j, steps))
  {
    var n := CommonRun(a, b, rel, i, j);
    var x, y, left := i + n, j + n, Left(steps, n);
    forall k: nat | x < k < |a| && left / 2.0 - (k - x - 1) as real > 0.0
      ensures n + CommonRun(a, b, rel, k, y) <= Estimate(a, b, rel, i, j, steps)
    {
      LaterExpectedCounts(a, b, rel, i, j, steps, k);
    }
    forall k: nat | y < k < |b| && left - (k - y - 1) as real > 0.0
      ensures n + CommonRun(a, b, rel, x, k) <= Estimate(a, b, rel, i, j, steps)
    {
      LaterOutputCounts(a, b, rel, i, j, steps, k);
    }
  }

  // ---------------------------------------------------------------- and nothing else does

  lemma {:induction false} SkippedExpectedAttained<A, B>(a: seq<A>, b: seq<B>, rel: (A, B) -> bool, i: nat, j: nat,
                                                        st: real)
    returns (k: nat)
    requires i <= |a| + 1 && j <= |b| && BestSkippingExpected(a, b, rel, i, j, st) > 0
    ensures i <= k < |a| && st - (k - i) as real > 0.0
    ensures BestSkippingExpected(a, b, rel, i, j, st) == Estimate(a, b, rel, k, j, st - (k - i) as real - 1.0)
    decreases |a| + 1 - i
  {
    if BestSkippingExpected(a, b, rel, i, j, st) == Estimate(a, b, rel, i, j, st - 1.0) {
      k := i;
    } else {
      k := SkippedExpectedAttained(a, b, rel, i + 1, j, st - 1.0);
      assert st - 1.0 - (k - (i + 1)) as real == st - (k - i) as real;
    }
  }

  lemma {:induction false} SkippedOutputAttained<A, B>(a: seq<A>, b: seq<B>, rel: (A, B) -> bool, i: nat, j: nat,
                                                      st: real)
    returns (k: nat)
    requires i <= |a| && j <= |b| + 1 && BestSkippingOutput(a, b, rel, i, j, st) > 0
    ensures j <= k < |b| && st - (k - j) as real > 0.0
    ensures BestSkippingOutput(a, b, rel, i, j, st) == Estimate(a, b, rel, i, k, st - (k - j) as real - 1.0)
    decreases |b| + 1 - j
  {
    if BestSkippingOutput(a, b, rel, i, j, st) == Estimate(a, b, rel, i, j, st - 1.0) {
      k := j;
    } else {
      k := SkippedOutputAttained(a, b, rel, i, j + 1, st - 1.0);
      assert st - 1.0 - (k - (j + 1)) as real == st - (k - j) as real;
    }
  }

  /** `v` is what the start at (`k`, y) gives behind `n` agreeing lines, within reach of `left`. */
  ghost predicate FromExpected<A, B>(a: seq<A>, b: seq<B>, rel: (A, B) -> bool, x: nat, y: nat, left: real, n: nat,
                                     v: nat, k: nat)
    requires y <= |b|
  {
    && x < k < |a| && left / 2.0 - (k - x - 1) as real > 0.0
    && v == n + Estimate(a, b, rel, k, y, left / 2.0 - (k - x) as real)
  }

  ghost predicate FromOutput<A, B>(a: seq<A>, b: seq<B>, rel: (A, B) -> bool, x: nat, y: nat, left: real, n: nat,
                                   v: nat, k: nat)
    requires x <= |a|
  {
    && y < k < |b| && left - (k - y - 1) as real > 0.0
    && v == n + Estimate(a, b, rel, x, k, left - (k - y) as real)
  }

  lemma ExpectedAttained<A, B>(a: seq<A>, b: seq<B>, rel: (A, B) -> bool, x: nat, y: nat, left: real, n: nat, v: nat)
    returns (k: nat)
    requires x < |a| && y <= |b| && BestSkippingExpected(a, b, rel, x + 1, y, left / 2.0) > 0
    requires v == n + BestSkippingExpected(a, b, rel, x + 1, y, left / 2.0)
    ensures FromExpected(a, b, rel, x, y, left, n, v, k)
  {
    k := SkippedExpectedAttained(a, b, rel, x + 1, y, left / 2.0);
    assert left / 2.0 - (k - (x + 1)) as real - 1.0 == left / 2.0 - (k - x) as real;
  }

  lemma OutputAttained<A, B>(a: seq<A>, b: seq<B>, rel: (A, B) -> bool, x: nat, y: nat, left: real, n: nat, v: nat)
    returns (k: nat)
    requires x <= |a| && y < |b| && BestSkippingOutput(a, b, rel, x, y + 1, left) > 0
    requires v == n + BestSkippingOutput(a, b, rel, x, y + 1, left)
    ensures FromOutput(a, b, rel, x, y, left, n, v, k)
  {
    k := SkippedOutputAttained(a, b, rel, x, y + 1, left);
    assert left - (k - (y + 1)) as real - 1.0 == left - (k - y) as real;
  }

  /** The estimate is the common run, or the common run and what one of the starts within reach gives. */
  lemma EstimateAttained<A, B>(a: seq<A>, b: seq<B>, rel: (A, B) -> bool, i: nat, j: nat, steps: real, v: nat, n: nat)
    returns (k: nat)
    requires i <= |a| && j <= |b| && v == Estimate(a, b, rel, i, j, steps) && n == CommonRun(a, b, rel, i, j)
    ensures || v == n
            || FromExpected(a, b, rel, i + n, j + n, Left(steps, n), n, v, k)
            || FromOutput(a, b, rel, i + n, j + n, Left(steps, n), n, v, k)
  {
    var x, y, left := i + n, j + n, Left(steps, n);
    k := 0;
    if v != n {
      var skip1 := BestSkippingExpected(a, b, rel, x + 1, y, left / 2.0);
      var skip2 := BestSkippingOutput(a, b, rel, x, y + 1, left);
      assert v == n + Max(skip1, skip2);
      if skip1 > skip2 {
        k := ExpectedAttained(a, b, rel, x, y, left, n, v);
      } else {
        k := OutputAttained(a, b, rel, x, y, left, n, v);
      }
    }
  }

  // ---------------------------------------------------------------- cost

  function Pow2(n: nat): (p: nat)
    ensures p >= 1
  {
    if n == 0 then 1 else 2 * Pow2(n - 1)
  }

  lemma {:induction false} Pow2Monotone(m: nat, n: nat)
    requires m <= n
    ensures Pow2(m) <= Pow2(n)
  {
    if m == n {
    } else {
      Pow2Monotone(m, n - 1);
    }
  }

  /** The number of times a budget can be lowered by one while it is positive. */
  function Rounds(st: real): nat
    decreases st
  {
    if st <= 0.0 then 0 else 1 + Rounds(st - 1.0)
  }

  lemma {:induction false} RoundsMonotone(x: real, y: real)
    requires x <= y
    ensures Rounds(x) <= Rounds(y)
    decreases y
  {
    if x <= 0.0 {
    } else {
      RoundsMonotone(x - 1.0, y - 1.0);
    }
  }

  /** One run of the lookahead.  `calls` counts the invocations it makes, itself included:
      at most two to the power of the budget, whatever the lines are. */
  method CountArrayDiff<A, B>(ar1: seq<A>, ar2: seq<B>, compLine: (A, B) -> bool, start1: nat, start2: nat,
                              budget: real)
    returns (equal: nat, ghost calls: nat)
    requires start1 <= |ar1| && start2 <= |ar2|
    ensures equal == Estimate(ar1, ar2, compLine, start1, start2, budget)
    ensures CountsLaterStarts(ar1, ar2, compLine, start1, start2, budget, equal)
    ensures calls <= Pow2(Rounds(budget))
    decreases |ar1| - start1 + |ar2| - start2, 1
  {
    equal, calls := 0, 1;
    var idx1, idx2, steps := start1, start2, budget;
    while idx1 < |ar1| && idx2 < |ar2| && compLine(ar1[idx1], ar2[idx2])
      invariant idx1 == start1 + equal <= |ar1| && idx2 == start2 + equal <= |ar2|
      invariant steps == budget - equal as real
      invariant equal + CommonRun(ar1, ar2, compLine, idx1, idx2) == CommonRun(ar1, ar2, compLine, start1, start2)
    {
      idx1, idx2, equal, steps := idx1 + 1, idx2 + 1, equal + 1, steps - 1.0;
    }
    steps := steps - 1.0;
    if steps > 0.0 {
      var eq1, eq2;
      ghost var calls1, calls2;
      eq1, calls1 := SkipExpectedLines(ar1, ar2, compLine, idx1, idx2, steps / 2.0);
      eq2, calls2 := SkipOutputLines(ar1, ar2, compLine, idx1, idx2, steps);
      calls := 1 + calls1 + calls2;
      CallsDouble(steps, budget);
      if eq1 > eq2 {
        equal := equal + eq1;
      } else if eq2 > 0 {
        equal := equal + eq2;
      }
    }
    EstimateCountsLaterStarts(ar1, ar2, compLine, start1, start2, budget);
  }

  lemma CallsDouble(steps: real, budget: real)
    requires 0.0 < steps <= budget - 1.0
    ensures Pow2(Rounds(steps / 2.0)) + Pow2(Rounds(steps)) <= Pow2(Rounds(budget))
    ensures 1 <= Pow2(Rounds(budget))
  {
    RoundsMonotone(steps / 2.0, steps);
    Pow2Monotone(Rounds(steps / 2.0), Rounds(steps));
    RoundsMonotone(steps + 1.0, budget);
    Pow2Monotone(Rounds(steps + 1.0), Rounds(budget));
  }

  /** The first inner loop: try starts after `idx1` in the expected lines. */
  method SkipExpectedLines<A, B>(ar1: seq<A>, ar2: seq<B>, compLine: (A, B) -> bool, idx1: nat, idx2: nat, budget: real)
    returns (eq1: nat, ghost calls: nat)
    requires idx1 <= |ar1| && idx2 <= |ar2|
    ensures eq1 == BestSkippingExpected(ar1, ar2, compLine, idx1 + 1, idx2, budget)
    ensures calls + 1 <= Pow2(Rounds(budget))
    decreases |ar1| - idx1 + |ar2| - idx2, 0
  {
    var st, ofs1 := budget, idx1 + 1;
    eq1, calls := 0, 0;
    while ofs1 < |ar1| && st > 0.0
      invariant idx1 + 1 <= ofs1 <= |ar1| + 1
      invariant Max(eq1, BestSkippingExpected(ar1, ar2, compLine, ofs1, idx2, st))
             == BestSkippingExpected(ar1, ar2, compLine, idx1 + 1, idx2, budget)
      invariant calls + Pow2(Rounds(st)) <= Pow2(Rounds(budget))
      decreases |ar1| - ofs1
    {
      st := st - 1.0;
      var eq;
      ghost var c;
      eq, c := CountArrayDiff(ar1, ar2, compLine, ofs1, idx2, st);
      calls := calls + c;
      if eq > eq1 { eq1 := eq; }
      ofs1 := ofs1 + 1;
    }
  }

  /** The second inner loop: try starts after `idx2` in the output lines. */
  method SkipOutputLines<A, B>(ar1: seq<A>, ar2: seq<B>, compLine: (A, B) -> bool, idx1: nat, idx2: nat, budget: real)
    returns (eq2: nat, ghost calls: nat)
    requires idx1 <= |ar1| && idx2 <= |ar2|
    ensures eq2 == BestSkippingOutput(ar1, ar2, compLine, idx1, idx2 + 1, budget)
    ensures calls + 1 <= Pow2(Rounds(budget))
    decreases |ar1| - idx1 + |ar2| - idx2, 0
  {
    var st, ofs2 := budget, idx2 + 1;
    eq2, calls := 0, 0;
    while ofs2 < |ar2| && st > 0.0
      invariant idx2 + 1 <= ofs2 <= |ar2| + 1
      invariant Max(eq2, BestSkippingOutput(ar1, ar2, compLine, idx1, ofs2, st))
             == BestSkippingOutput(ar1, ar2, compLine, idx1, idx2 + 1, budget)
      invariant calls + Pow2(Rounds(st)) <= Pow2(Rounds(budget))
      decreases |ar2| - ofs2
    {
      st := st - 1.0;
      var eq;
      ghost var c;
      eq, c := CountArrayDiff(ar1, ar2, compLine, idx1, ofs2, st);
      calls := calls + c;
      if eq > eq2 { eq2 := eq; }
      ofs2 := ofs2 + 1;
    }
  }

  // ---------------------------------------------------------------- never too high

  /** The one-to-one pairs of a common run, followed by a matching of what comes after. */
  lemma {:induction false} RunThenMatching<A, B>(a: seq<A>, b: seq<B>, rel: (A, B) -> bool, i: nat, j: nat,
                                                 rest: seq<(nat, nat)>)
    returns (m: seq<(nat, nat)>)
    requires i <= |a| && j <= |b|
    requires var n := CommonRun(a, b, rel, i, j); IsMatching(rest, a, b, rel, i + n, j + n)
    ensures IsMatching(m, a, b, rel, i, j) && |m| == CommonRun(a, b, rel, i, j) + |rest|
    decreases |a| - i
  {
    m := rest;
    if i == |a| || j == |b| || !rel(a[i], b[j]) {
    } else {
      m := RunThenMatching(a, b, rel, i + 1, j + 1, rest);
      m := [(i, j)] + m;
    }
  }

  lemma {:induction false} CommonRunIsOptimal<A, B>(a: seq<A>, b: seq<B>, rel: (A, B) -> bool, i: nat, j: nat)
    requires i <= |a| && j <= |b|
    ensures var n := CommonRun(a, b, rel, i, j);
            && (i + n < |a| && j + n < |b| ==> !rel(a[i + n], b[j + n]))
            && Lcs(a, b, rel, i, j) == n + Lcs(a, b, rel, i + n, j + n)
    decreases |a| - i
  {
    if i == |a| || j == |b| || !rel(a[i], b[j]) {
    } else {
      CommonRunIsOptimal(a, b, rel, i + 1, j + 1);
    }
  }

  /** For every budget and every relation the estimate is the size of some matching. */
  lemma {:induction false} EstimateIsMatching<A, B>(a: seq<A>, b: seq<B>, rel: (A, B) -> bool, i: nat, j: nat,
                                                    steps: real)
    returns (m: seq<(nat, nat)>)
    requires i <= |a| && j <= |b|
    ensures IsMatching(m, a, b, rel, i, j) && |m| == Estimate(a, b, rel, i, j, steps)
    decreases |a| - i + |b| - j, 1
  {
    var n := CommonRun(a, b, rel, i, j);
    var left := steps - n as real - 1.0;
    var rest := [];
    if left > 0.0 {
      var m1 := ExpectedSideIsMatching(a, b, rel, i + n + 1, j + n, left / 2.0);
      var m2 := OutputSideIsMatching(a, b, rel, i + n, j + n + 1, left);
      rest := if |m1| > |m2| then m1 else m2;
    }
    m := RunThenMatching(a, b, rel, i, j, rest);
  }

  lemma {:induction false} ExpectedSideIsMatching<A, B>(a: seq<A>, b: seq<B>, rel: (A, B) -> bool, i: nat, j: nat,
                                                        st: real)
    returns (m: seq<(nat, nat)>)
    requires i <= |a| + 1 && j <= |b|
    ensures IsMatching(m, a, b, rel, i, j) && |m| == BestSkippingExpected(a, b, rel, i, j, st)
    decreases |a| + 1 - i + |b| - j, 0
  {
    m := [];
    if i >= |a| || st <= 0.0 {
    } else {
      var m1 := EstimateIsMatching(a, b, rel, i, j, st - 1.0);
      var m2 := ExpectedSideIsMatching(a, b, rel, i + 1, j, st - 1.0);
      m := if |m1| > |m2| then m1 else m2;
    }
  }

  lemma {:induction false} OutputSideIsMatching<A, B>(a: seq<A>, b: seq<B>, rel: (A, B) -> bool, i: nat, j: nat,
                                                      st: real)
    returns (m: seq<(nat, nat)>)
    requires i <= |a| && j <= |b| + 1
    ensures IsMatching(m, a, b, rel, i, j) && |m| == BestSkippingOutput(a, b, rel, i, j, st)
    decreases |a| - i + |b| + 1 - j, 0
  {
    m := [];
    if j >= |b| || st <= 0.0 {
    } else {
      var m1 := EstimateIsMatching(a, b, rel, i, j, st - 1.0);
      var m2 := OutputSideIsMatching(a, b, rel, i, j + 1, st - 1.0);
      m := if |m1| > |m2| then m1 else m2;
    }
  }

  /** The lookahead never overestimates. */
  lemma EstimateAtMostLcs<A, B>(a: seq<A>, b: seq<B>, rel: (A, B) -> bool, i: nat, j: nat, steps: real)
    requires i <= |a| && j <= |b|
    ensures Estimate(a, b, rel, i, j, steps) <= Lcs(a, b, rel, i, j)
    ensures Estimate(a, b, rel, i, j, steps) <= |a| - i
    ensures Estimate(a, b, rel, i, j, steps) <= |b| - j
  {
    var m := EstimateIsMatching(a, b, rel, i, j, steps);
    LcsIsLargest(m, a, b, rel, i, j);
  }

  // ---------------------------------------------------------------- exact with enough budget

  /** A budget that makes the lookahead exact on `n1` expected and `n2` output lines.  It doubles
      for each expected line (whose loop gets half the budget) and grows by two for each output line. */
  function EnoughSteps(n1: nat, n2: nat): (s: real)
    ensures s >= 0.0
    decreases n1 + n2
  {
    if n1 == 0 || n2 == 0 then 0.0
    else
      var forExpected := if n1 > 1 then 2.0 * EnoughSteps(n1 - 1, n2) + 3.0 else 0.0;
      var forOutput := if n2 > 1 then EnoughSteps(n1, n2 - 1) + 2.0 else 0.0;
      if forExpected > forOutput then forExpected else forOutput
  }

  /** A pair of agreeing lines costs one step and lowers the need by at least that. */
  lemma {:induction false} EnoughForPair(n1: nat, n2: nat)
    requires n1 > 1 && n2 > 1
    ensures EnoughSteps(n1 - 1, n2 - 1) + 1.0 <= EnoughSteps(n1, n2)
  {
    assert EnoughSteps(n1 - 1, n2 - 1) + 2.0 <= EnoughSteps(n1 - 1, n2);
  }

  lemma {:induction false} EnoughAfterRun(n1: nat, n2: nat, n: nat)
    requires n < n1 && n < n2
    ensures EnoughSteps(n1 - n, n2 - n) + n as real <= EnoughSteps(n1, n2)
  {
    if n == 0 {
    } else {
      EnoughForPair(n1, n2);
      EnoughAfterRun(n1 - 1, n2 - 1, n - 1);
    }
  }

  /** What is left of enough budget after a common run is enough behind either first skip. */
  lemma EnoughToSkip(n1: nat, n2: nat, m1: nat, m2: nat, steps: real)
    requires 0 < m1 <= n1 && 0 < m2 <= n2 && n1 - m1 == n2 - m2 && steps >= EnoughSteps(n1, n2)
    ensures var left := steps - (n1 - m1) as real - 1.0;
            && (m1 > 1 ==> left / 2.0 - 1.0 >= EnoughSteps(m1 - 1, m2))
            && (m2 > 1 ==> left - 1.0 >= EnoughSteps(m1, m2 - 1))
  {
    EnoughAfterRun(n1, n2, n1 - m1);
  }

  /** The estimate is at least what either first skip finds. */
  lemma EstimateAtLeastFirstSkips<A, B>(a: seq<A>, b: seq<B>, rel: (A, B) -> bool, i: nat, j: nat, steps: real)
    requires i <= |a| && j <= |b|
    ensures var n := CommonRun(a, b, rel, i, j);
            var left := steps - n as real - 1.0;
            && n <= Estimate(a, b, rel, i, j, steps)
            && (left > 0.0 && i + n + 1 < |a| ==>
                  n + Estimate(a, b, rel, i + n + 1, j + n, left / 2.0 - 1.0) <= Estimate(a, b, rel, i, j, steps))
            && (left > 0.0 && j + n + 1 < |b| ==>
                  n + Estimate(a, b, rel, i + n, j + n + 1, left - 1.0) <= Estimate(a, b, rel, i, j, steps))
  {
  }

  /** What both first skips find is reached, when they are counted exactly. */
  lemma ExactSkipsBelow<A, B>(a: seq<A>, b: seq<B>, rel: (A, B) -> bool, i: nat, j: nat, steps: real, x: nat, y: nat,
                              left: real)
    requires i <= |a| && j <= |b|
    requires x == i + CommonRun(a, b, rel, i, j) && y == j + CommonRun(a, b, rel, i, j)
    requires left == steps - (x - i) as real - 1.0
    requires x + 1 < |a| && y < |b| ==>
               left > 0.0 && Estimate(a, b, rel, x + 1, y, left / 2.0 - 1.0) == Lcs(a, b, rel, x + 1, y)
    requires x < |a| && y + 1 < |b| ==>
               left > 0.0 && Estimate(a, b, rel, x, y + 1, left - 1.0) == Lcs(a, b, rel, x, y + 1)
    ensures x - i <= Estimate(a, b, rel, i, j, steps)
    ensures x < |a| && y < |b| ==> x - i + Lcs(a, b, rel, x + 1, y) <= Estimate(a, b, rel, i, j, steps)
    ensures x < |a| && y < |b| ==> x - i + Lcs(a, b, rel, x, y + 1) <= Estimate(a, b, rel, i, j, steps)
  {
    EstimateAtLeastFirstSkips(a, b, rel, i, j, steps);
    if x < |a| && y < |b| {
      LcsStep(a, b, rel, x + 1, y);
      LcsStep(a, b, rel, x, y + 1);
    }
  }

  /** If the first skip on either side is counted exactly, so is the whole. */
  lemma ExactSkipsSuffice<A, B>(a: seq<A>, b: seq<B>, rel: (A, B) -> bool, i: nat, j: nat, steps: real, x: nat, y: nat,
                                left: real)
    requires i <= |a| && j <= |b|
    requires x == i + CommonRun(a, b, rel, i, j) && y == j + CommonRun(a, b, rel, i, j)
    requires left == steps - (x - i) as real - 1.0
    requires x + 1 < |a| && y < |b| ==>
               left > 0.0 && Estimate(a, b, rel, x + 1, y, left / 2.0 - 1.0) == Lcs(a, b, rel, x + 1, y)
    requires x < |a| && y + 1 < |b| ==>
               left > 0.0 && Estimate(a, b, rel, x, y + 1, left - 1.0) == Lcs(a, b, rel, x, y + 1)
    ensures Estimate(a, b, rel, i, j, steps) == Lcs(a, b, rel, i, j)
  {
    var n, est := x - i, Estimate(a, b, rel, i, j, steps);
    assert est <= Lcs(a, b, rel, i, j) == n + Lcs(a, b, rel, x, y) by {
      EstimateAtMostLcs(a, b, rel, i, j, steps);
      CommonRunIsOptimal(a, b, rel, i, j);
    }
    ExactSkipsBelow(a, b, rel, i, j, steps, x, y, left);
    if x < |a| && y < |b| {
      assert Lcs(a, b, rel, x, y) == Max(Lcs(a, b, rel, x + 1, y), Lcs(a, b, rel, x, y + 1)) by {
        CommonRunIsOptimal(a, b, rel, i, j);
        LcsStep(a, b, rel, x, y);
      }
    } else {
      assert Lcs(a, b, rel, x, y) == 0;
    }
  }

  /** With enough budget the lookahead finds the size of a largest matching, for every relation. */
  lemma {:induction false} EstimateIsExact<A, B>(a: seq<A>, b: seq<B>, rel: (A, B) -> bool, i: nat, j: nat, steps: real)
    requires i <= |a| && j <= |b|
    requires steps >= EnoughSteps(|a| - i, |b| - j)
    ensures Estimate(a, b, rel, i, j, steps) == Lcs(a, b, rel, i, j)
    decreases |a| - i + |b| - j, 1
  {
    var n := CommonRun(a, b, rel, i, j);
    var x, y := i + n, j + n;
    var left := steps - n as real - 1.0;
    if x + 1 < |a| && y < |b| { SkipExpectedIsExact(a, b, rel, i, j, steps, x, y, left); }
    if x < |a| && y + 1 < |b| { SkipOutputIsExact(a, b, rel, i, j, steps, x, y, left); }
    ExactSkipsSuffice(a, b, rel, i, j, steps, x, y, left);
  }

  lemma {:induction false} SkipExpectedIsExact<A, B>(a: seq<A>, b: seq<B>, rel: (A, B) -> bool, i: nat, j: nat,
                                                     steps: real, x: nat, y: nat, left: real)
    requires i <= x && x + 1 < |a| && j <= y < |b| && x - i == y - j && steps >= EnoughSteps(|a| - i, |b| - j)
    requires left == steps - (x - i) as real - 1.0
    ensures left > 0.0 && Estimate(a, b, rel, x + 1, y, left / 2.0 - 1.0) == Lcs(a, b, rel, x + 1, y)
    decreases |a| - i + |b| - j, 0
  {
    EnoughToSkip(|a| - i, |b| - j, |a| - x, |b| - y, steps);
    EstimateIsExact(a, b, rel, x + 1, y, left / 2.0 - 1.0);
  }

  lemma {:induction false} SkipOutputIsExact<A, B>(a: seq<A>, b: seq<B>, rel: (A, B) -> bool, i: nat, j: nat,
                                                   steps: real, x: nat, y: nat, left: real)
    requires i <= x < |a| && j <= y && y + 1 < |b| && x - i == y - j && steps >= EnoughSteps(|a| - i, |b| - j)
    requires left == steps - (x - i) as real - 1.0
    ensures left > 0.0 && Estimate(a, b, rel, x, y + 1, left - 1.0) == Lcs(a, b, rel, x, y + 1)
    decreases |a| - i + |b| - j, 0
  {
    EnoughToSkip(|a| - i, |b| - j, |a| - x, |b| - y, steps);
    EstimateIsExact(a, b, rel, x, y + 1, left - 1.0);
  }

  /** A budget in the total number of remaining lines alone. */
  function EnoughForTotal(n: nat): (s: real)
    ensures s >= 0.0
  {
    if n == 0 then 0.0 else 2.0 * EnoughForTotal(n - 1) + n as real + 3.0
  }

  lemma {:induction false} EnoughForTotalIsEnough(n1: nat, n2: nat)
    ensures EnoughSteps(n1, n2) <= EnoughForTotal(n1 + n2)
    decreases n1 + n2
  {
    if n1 == 0 || n2 == 0 {
    } else {
      EnoughForTotalIsEnough(n1 - 1, n2);
      EnoughForTotalIsEnough(n1, n2 - 1);
      assert n1 - 1 + n2 == n1 + n2 - 1 && EnoughForTotal(n1 + n2 - 1) >= 0.0;
    }
  }

  lemma EstimateIsExactForTotal<A, B>(a: seq<A>, b: seq<B>, rel: (A, B) -> bool, i: nat, j: nat, steps: real)
    requires i <= |a| && j <= |b|
    requires steps >= EnoughForTotal(|a| - i + |b| - j)
    ensures Estimate(a, b, rel, i, j, steps) == Lcs(a, b, rel, i, j)
  {
    EnoughForTotalIsEnough(|a| - i, |b| - j);
    EstimateIsExact(a, b, rel, i, j, steps);
  }
}

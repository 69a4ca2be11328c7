/** The counters of the JUnit log after a run, in terms of how the calls of `run_test` ended. */
module RunCounters {
  import opened PhpStrings
  import opened Junit
  import opened Results
  import opened Runs
  import opened RunTheorems

  // ---------------------------------------------------------------- ends

  /** The mark a result is logged with.  A list holds the kinds of a test that ran and did not pass cleanly. */
  ghost predicate Fits(e: End) {
    match e.mark
    case One(SKIP) => e.outcome == SKIPPED
    case One(BORK) => e.outcome == BORKED
    case One(PASS) => e.outcome == PASSED || e.outcome == REDIR
    case One(_) => false
    case Many(ks) => ks != [] && e.outcome == OutcomeOf(ks[0]) && forall k :: k in ks ==> k in {LEAK, WARN, XFAIL, FAIL}
  }

  function EndCount(ended: seq<End>, x: Counter): nat {
    if ended == [] then 0
    else
      var e := ended[|ended| - 1];
      EndCount(ended[..|ended| - 1], x) + if x == Total || x == CounterOf(e.mark) then 1 else 0
  }

  /** Every end has its mark, and the log counts them. */
  ghost predicate Traced(env: Env, s: State) {
    && AllFit(s.ended)
    && (env.logging ==> forall x :: x != Time ==> Marks(s.history, x) == EndCount(s.ended, x))
  }

  /** So it stays, with `n` ends more than calls. */
  ghost predicate Traces(env: Env, s: State, t: State, n: int) {
    Traced(env, t) && |t.ended| - |s.ended| == t.clock - s.clock + n
  }

  /** The last end is that of a call with this result. */
  ghost predicate EndsAs(t: State, o: Outcome) { t.ended != [] && t.ended[|t.ended| - 1].outcome == o }

  lemma LoggedInitTraced(env: Env, s: State, suite: string)
    requires Traced(env, s)
    ensures Traces(env, s, Logged(env, s, Init(suite)), 0)
  {
    assert (s.history + [Init(suite)])[..|s.history|] == s.history;
  }

  lemma EndedTraced(env: Env, s: State, suite: string, mark: Mark, time: nat, o: Outcome)
    requires Traced(env, s) && Fits(End(o, mark))
    ensures var t := Ended(env, s, suite, mark, time, o); Traces(env, s, t, 1) && EndsAs(t, o)
  {
    var c, e := DoMark(suite, mark, time), End(o, mark);
    assert (s.history + [c])[..|s.history|] == s.history;
    assert (s.ended + [e])[..|s.ended|] == s.ended;
  }

  // ---------------------------------------------------------------- one call

  lemma BorkTraced(env: Env, s: State, name: string, suite: string, time: nat)
    requires Traced(env, s)
    ensures var r := BorkedAs(env, s, name, suite, time); Traces(env, s, r.0, 1) && EndsAs(r.0, r.1)
  {
    EndedTraced(env, ListedAs(s, BORKED, name), suite, One(BORK), time, BORKED);
  }

  lemma PreparedTraced(env: Env, s: State, text: map<string, string>, seen: World)
    requires Traced(env, s)
    ensures var t := Prepared(env, s, text, seen);
            Traces(env, s, t, if IsSkipped(text, seen) then 1 else 0) && (IsSkipped(text, seen) ==> EndsAs(t, SKIPPED))
  {
    var s1 := if NoCgi(text, seen) then Logged(env, s, Init(seen.suite))
              else s.(shown := s.shown + [(s.testIdx, s.testCnt)]);
    assert Traces(env, s, s1, 0) by { LoggedInitTraced(env, s, seen.suite); }
    var s2 := if !NoCgi(text, seen) && HasSkipScript(text) then Logged(env, s1, Init(seen.suite)) else s1;
    assert Traces(env, s, s2, 0) by { LoggedInitTraced(env, s1, seen.suite); }
    EndedTraced(env, s2, seen.suite, One(SKIP), SkipTime(text, seen), SKIPPED);
  }

  lemma ConcludedTraced(env: Env, s: State, kinds: seq<Kind>, name: string, seen: World)
    requires Traced(env, s) && forall k :: k in kinds ==> k in {LEAK, WARN, XFAIL, FAIL}
    ensures var r := Concluded(env, s, kinds, name, seen); Traces(env, s, r.0, 1) && EndsAs(r.0, r.1)
  {
    if kinds == [] {
      EndedTraced(env, s, seen.suite, One(PASS), seen.time, PASSED);
    } else {
      var t := s.(failed := ListingAll(s.failed, kinds, name));
      EndedTraced(env, t, seen.reportSuite, Many(kinds), seen.time, OutcomeOf(kinds[0]));
    }
  }

  lemma RestypeKinds(e: Evidence)
    ensures forall k :: k in Restype(e) ==> k in {LEAK, WARN, XFAIL, FAIL}
  {
    if !CleanPass(e) { KindsNotEmpty(e); }
  }

  lemma ExecutedTraced(env: Env, s: State, name: string, text: map<string, string>, seen: World)
    requires Traced(env, s)
    ensures var r := Executed(env, s, name, text, seen); Traces(env, s, r.0, 1) && EndsAs(r.0, r.1)
  {
    var s1 := s.(executed := s.executed + [text]);
    if NoRequest(text, seen) {
      EndedTraced(env, s1.(emptyRequests := s1.emptyRequests + 1), seen.suite, One(BORK), seen.time, BORKED);
    } else {
      LoggedInitTraced(env, s1, seen.suite);
      RestypeKinds(EvidenceOf(env, text, seen));
      ConcludedTraced(env, Logged(env, s1, Init(seen.suite)), Restype(EvidenceOf(env, text, seen)), name, seen);
    }
  }

  // ---------------------------------------------------------------- runs

  lemma {:induction false} FollowedTraced(env: Env, s: State, item: Item, text: map<string, string>, seen: World)
    requires Traced(env, s) && !s.inRedirect
    ensures var r := Followed(env, s, item, text, seen); Traces(env, s, r.0, 1) && EndsAs(r.0, r.1)
    decreases Rank(s), 0, 0
  {
    if seen.oneTarget {
      var tests := Targets(item, seen);
      var title := if "TEST" in text then Trim(text["TEST"]) else "";
      RunAllTraced(env, Entering(s, tests), tests, title);
      var t := RunAll(env, Entering(s, tests), tests, title);
      EndedTraced(env, t.(inRedirect := false), seen.suite, One(PASS), seen.time, REDIR);
    } else {
      BorkTraced(env, ListedAs(s.(inRedirect := true), BORKED, item.name), item.name, seen.suite, seen.time);
    }
  }

  lemma {:induction false} RunCheckedTraced(env: Env, s: State, item: Item, seen: World)
    requires Traced(env, s)
    ensures var r := RunChecked(env, s, item, seen); Traces(env, s, r.0, 1) && EndsAs(r.0, r.1)
    decreases Rank(s), 1, 0
  {
    var text := Runs.TextOf(seen, s.inRedirect);
    var t := Prepared(env, s, text, seen);
    PreparedTraced(env, s, text, seen);
    if IsSkipped(text, seen) {
    } else if IsRedirection(seen, s.inRedirect) {
      FollowedTraced(env, t, item, text, seen);
    } else if item.Pair? {
      BorkTraced(env, t, item.name, seen.suite, seen.time);
    } else {
      ExecutedTraced(env, t, item.name, text, seen);
    }
  }

  /** Every call ends once, with its result. */
  lemma {:induction false} RunOneTraced(env: Env, s: State, item: Item)
    requires Traced(env, s)
    ensures var r := RunOne(env, s, item); Traces(env, s, r.0, 0) && EndsAs(r.0, r.1)
    decreases Rank(s), 2, 0
  {
    var seen := env.world(item.name, s.clock);
    var t := s.(clock := s.clock + 1);
    RunCheckedTraced(env, t, item, seen);
    BorkTraced(env, t, item.name, seen.suite, 0);
    RunOneIs(env, s, item, seen, t);
  }

  lemma {:induction false} RunItemTraced(env: Env, s: State, item: Item, redirTested: string)
    requires Traced(env, s)
    ensures Traces(env, s, RunItem(env, s, item, redirTested), 0)
    decreases Rank(s), 4, 0
  {
    var one, s1 := Unwrapped(item, redirTested), s.(testIdx := s.testIdx + 1);
    RunOneTraced(env, s1, one);
    assert RunNextOf(env, s, one) == RunOne(env, s1, one);
  }

  /** Every call of a run ends once, and the log counts the ends. */
  lemma {:induction false} RunAllTraced(env: Env, s: State, items: seq<Item>, redirTested: string)
    requires Traced(env, s)
    ensures Traces(env, s, RunAll(env, s, items, redirTested), 0)
    decreases Rank(s), 5, |items|
  {
    if items == [] {
    } else {
      RunItemTraced(env, s, items[0], redirTested);
      RunAllTraced(env, RunItem(env, s, items[0], redirTested), items[1..], redirTested);
    }
  }

  // ---------------------------------------------------------------- the counters

  /** How many ends have a property. */
  function Number(ended: seq<End>, p: End -> bool): nat {
    if ended == [] then 0 else Number(ended[..|ended| - 1], p) + if p(ended[|ended| - 1]) then 1 else 0
  }

  lemma {:induction false} CountIsNumber(ended: seq<End>, x: Counter, p: End -> bool)
    requires forall k :: 0 <= k < |ended| ==> (p(ended[k]) <==> x == Total || x == CounterOf(ended[k].mark))
    ensures EndCount(ended, x) == Number(ended, p)
  {
    if ended == [] {
    } else {
      CountIsNumber(ended[..|ended| - 1], x, p);
    }
  }

  lemma {:induction false} NumberSplits(ended: seq<End>, p: End -> bool, q: End -> bool, r: End -> bool)
    requires forall k :: 0 <= k < |ended| ==>
               (p(ended[k]) <==> q(ended[k]) || r(ended[k])) && !(q(ended[k]) && r(ended[k]))
    ensures Number(ended, p) == Number(ended, q) + Number(ended, r)
  {
    if ended == [] {
    } else {
      NumberSplits(ended[..|ended| - 1], p, q, r);
    }
  }

  predicate Has(e: End, k: Kind) { e.mark.Many? && k in e.mark.kinds }

  predicate Skipped(e: End) { e.outcome == SKIPPED }
  predicate Borked(e: End) { e.outcome == BORKED }

  /** A test that leaked and did nothing else wrong. */
  predicate OnlyLeaked(e: End) { e.mark.Many? && forall k :: k in e.mark.kinds ==> k == LEAK }

  predicate InError(e: End) { Borked(e) || OnlyLeaked(e) }
  predicate Passing(e: End) { e.outcome == PASSED || e.outcome == REDIR || Has(e, XFAIL) }
  predicate Failing(e: End) { Has(e, FAIL) && !Has(e, XFAIL) }
  predicate Warning(e: End) { Has(e, WARN) && !Has(e, FAIL) && !Has(e, XFAIL) }

  lemma FitCounters(e: End)
    requires Fits(e)
    ensures CounterOf(e.mark) == Skips <==> Skipped(e)
    ensures CounterOf(e.mark) == Errors <==> InError(e)
    ensures CounterOf(e.mark) == Passes <==> Passing(e)
    ensures CounterOf(e.mark) == Failures <==> Failing(e)
    ensures CounterOf(e.mark) == Warnings <==> Warning(e)
    ensures OnlyLeaked(e) ==> e.outcome == LEAKED && !Borked(e)
  {
    if e.mark.Many? { assert e.mark.kinds[0] in e.mark.kinds; }
  }

  ghost predicate AllFit(ended: seq<End>) { forall k :: 0 <= k < |ended| ==> Fits(ended[k]) }

  lemma CounterIs(history: seq<Call>, ended: seq<End>, x: Counter, p: End -> bool)
    requires x != Time && x != Total && Marks(history, x) == EndCount(ended, x)
    requires forall k :: 0 <= k < |ended| ==> (p(ended[k]) <==> x == CounterOf(ended[k].mark))
    ensures Get(Replay(history).all, x) == Number(ended, p)
  {
    CountersCountMarks(history, "", x);
    CountIsNumber(ended, x, p);
  }

  /** The counters of a log go by the ends it counts. */
  ghost predicate CountsEnds(all: Counts, ended: seq<End>) {
    && Get(all, Skips) == Number(ended, Skipped)
    && Get(all, Errors) == Number(ended, Borked) + Number(ended, OnlyLeaked)
    && Get(all, Passes) == Number(ended, Passing)
    && Get(all, Failures) == Number(ended, Failing)
    && Get(all, Warnings) == Number(ended, Warning)
  }

  lemma CountersOfEnds(history: seq<Call>, ended: seq<End>)
    requires AllFit(ended) && forall x :: x != Time ==> Marks(history, x) == EndCount(ended, x)
    ensures CountsEnds(Replay(history).all, ended)
  {
    forall k | 0 <= k < |ended|
      ensures (Skipped(ended[k]) <==> Skips == CounterOf(ended[k].mark))
           && (InError(ended[k]) <==> Errors == CounterOf(ended[k].mark))
           && (Passing(ended[k]) <==> Passes == CounterOf(ended[k].mark))
           && (Failing(ended[k]) <==> Failures == CounterOf(ended[k].mark))
           && (Warning(ended[k]) <==> Warnings == CounterOf(ended[k].mark))
           && !(Borked(ended[k]) && OnlyLeaked(ended[k]))
    {
      FitCounters(ended[k]);
    }
    CounterIs(history, ended, Skips, Skipped);
    CounterIs(history, ended, Errors, InError);
    NumberSplits(ended, InError, Borked, OnlyLeaked);
    CounterIs(history, ended, Passes, Passing);
    CounterIs(history, ended, Failures, Failing);
    CounterIs(history, ended, Warnings, Warning);
  }

  /** After every run: each call of `run_test` has ended once with a fitting mark; skips are the calls that ended
      SKIPPED, errors those that ended BORKED and those LEAKED with nothing else wrong, and passes, failures and
      warnings go by the kinds. */
  lemma RunCounted(env: Env, items: seq<Item>)
    requires env.logging
    ensures var t := RunAll(env, Initial(items), items, "");
            |t.ended| == t.clock && AllFit(t.ended) && CountsEnds(Replay(t.history).all, t.ended)
  {
    var t := RunAll(env, Initial(items), items, "");
    RunAllTraced(env, Initial(items), items, "");
    CountersOfEnds(t.history, t.ended);
  }
}

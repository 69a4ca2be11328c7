/** The counters of the JUnit log: one aggregate and one set per suite, filled by `junit_mark_test_as`. */
module Junit {
  import opened MapSum

  datatype Kind = PASS | XFAIL | FAIL | WARN | LEAK | SKIP | BORK

  /** A result type: one kind, or the list a failed test collects. */
  datatype Mark = One(kind: Kind) | Many(kinds: seq<Kind>)

  /** What is counted; times are counted in ten-thousandths of a second. */
  datatype Counter = Total | Time | Passes | Failures | Errors | Skips | Warnings

  type Counts = map<Counter, nat>

  /** A counter that is not there reads as 0. */
  function Get(c: Counts, x: Counter): nat { if x in c then c[x] else 0 }

  /** The counter a result type adds to.  Of a list the first of XFAIL, FAIL, WARN counts. */
  function CounterOf(m: Mark): (c: Counter)
    ensures c != Total && c != Time
  {
    match m
    case One(PASS) => Passes
    case One(XFAIL) => Passes
    case One(SKIP) => Skips
    case One(WARN) => Warnings
    case One(FAIL) => Failures
    case One(_) => Errors
    case Many(ks) =>
      if XFAIL in ks then Passes else if FAIL in ks then Failures else if WARN in ks then Warnings else Errors
  }

  // ---------------------------------------------------------------- the state and its operations

  datatype Tally = Tally(all: Counts, suites: map<string, Counts>)

  const NO_COUNTS: Counts :=
    map[Total := 0, Time := 0, Passes := 0, Failures := 0, Errors := 0, Skips := 0, Warnings := 0]

  /** A fresh suite; the source forgets the warning counter. */
  const NEW_SUITE: Counts := map[Total := 0, Time := 0, Passes := 0, Failures := 0, Errors := 0, Skips := 0]

  const EMPTY: Tally := Tally(NO_COUNTS, map[])

  function SuiteOf(t: Tally, suite: string): Counts { if suite in t.suites then t.suites[suite] else map[] }

  function Recorded(t: Tally, suite: string, x: Counter, value: nat): Tally {
    var s := SuiteOf(t, suite);
    Tally(t.all[x := Get(t.all, x) + value], t.suites[suite := s[x := Get(s, x) + value]])
  }

  function Timed(t: Tally, suite: string, time: nat): Tally {
    Recorded(Recorded(t, suite, Total, 1), suite, Time, time)
  }

  function Marked(t: Tally, suite: string, m: Mark, time: nat): Tally {
    Recorded(Timed(t, suite, time), suite, CounterOf(m), 1)
  }

  function Inited(t: Tally, suite: string): Tally {
    if SuiteOf(t, suite) != map[] then t else t.(suites := t.suites[suite := NEW_SUITE])
  }

  /** Initialising creates a suite with six counters at 0, unless a test was recorded for it before. */
  lemma InitCreates(t: Tally, suite: string)
    ensures var s := SuiteOf(Inited(t, suite), suite);
            if SuiteOf(t, suite) != map[] then Inited(t, suite) == t
            else s.Keys == {Total, Time, Passes, Failures, Errors, Skips} && forall x :: Get(s, x) == 0
  {
  }

  /** A call on an enabled log, and the state after a sequence of them. */
  datatype Call = Init(suite: string) | DoMark(suite: string, mark: Mark, time: nat)

  function Replay(calls: seq<Call>): Tally {
    if calls == [] then EMPTY
    else
      var t := Replay(calls[..|calls| - 1]);
      match calls[|calls| - 1]
      case Init(s) => Inited(t, s)
      case DoMark(s, m, time) => Marked(t, s, m, time)
  }

  /** The log as the program keeps it. */
  class Log {
    var enabled: bool
    var all: Counts
    var suites: map<string, Counts>
    ghost var history: seq<Call>  // every call that reached an enabled log

    ghost predicate Valid()
      reads this
    {
      State() == Replay(history)
    }

    function State(): Tally
      reads this
    {
      Tally(all, suites)
    }

    constructor (wanted: bool)
      ensures Valid() && enabled == wanted && history == []
    {
      enabled, all, suites, history := wanted, NO_COUNTS, map[], [];
    }

    method SuiteRecord(suite: string, x: Counter, value: nat := 1)
      modifies this`all, this`suites
      ensures State() == Recorded(old(State()), suite, x, value)
    {
      all := all[x := (if x in all then all[x] else 0) + value];
      var s: Counts := if suite in suites then suites[suite] else map[];
      suites := suites[suite := s[x := (if x in s then s[x] else 0) + value]];
    }

    method InitSuite(suite: string)
      requires Valid()
      modifies this`suites, this`history
      ensures Valid() && history == if enabled then old(history) + [Init(suite)] else old(history)
    {
      if enabled {
        history := history + [Init(suite)];
        assert history[..|history| - 1] == old(history);
        if suite in suites && suites[suite] != map[] {
          return;
        }
        suites := suites[suite := NEW_SUITE];
      }
    }

    method MarkTestAs(m: Mark, suite: string, time: nat)
      requires Valid()
      modifies this`all, this`suites, this`history
      ensures Valid() && history == if enabled then old(history) + [DoMark(suite, m, time)] else old(history)
    {
      if !enabled {
        return;
      }
      RecordMark(m, suite, time);
      ReplayMark(history, suite, m, time);
      history := history + [DoMark(suite, m, time)];
    }

    method RecordMark(m: Mark, suite: string, time: nat)
      modifies this`all, this`suites
      ensures State() == Marked(old(State()), suite, m, time)
    {
      SuiteRecord(suite, Total);
      SuiteRecord(suite, Time, time);
      assert State() == Timed(old(State()), suite, time);
      var x := ChooseCounter(m);
      SuiteRecord(suite, x);
    }
  }

  lemma ReplayMark(calls: seq<Call>, suite: string, m: Mark, time: nat)
    ensures Replay(calls + [DoMark(suite, m, time)]) == Marked(Replay(calls), suite, m, time)
  {
    assert (calls + [DoMark(suite, m, time)])[..|calls|] == calls;
  }

  /** The branches of `junit_mark_test_as`. */
  method ChooseCounter(m: Mark) returns (x: Counter)
    ensures x == CounterOf(m)
  {
    var kind := m;
    if m.Many? {
      kind := if XFAIL in m.kinds then One(XFAIL) else if FAIL in m.kinds then One(FAIL)
              else if WARN in m.kinds then One(WARN) else One(LEAK);
    }
    if kind == One(PASS) || kind == One(XFAIL) {
      x := Passes;
    } else if kind == One(BORK) {
      x := Errors;
    } else if kind == One(SKIP) {
      x := Skips;
    } else if kind == One(WARN) {
      x := Warnings;
    } else if kind == One(FAIL) {
      x := Failures;
    } else {
      x := Errors;
    }
  }

  // ---------------------------------------------------------------- conservation over every history

  /** What a mark adds to a counter. */
  function Weight(m: Mark, time: nat, x: Counter): nat {
    if x == Time then time else if x == Total || x == CounterOf(m) then 1 else 0
  }

  /** What the marks of a history add to a counter: their number, or the sum of their times. */
  function Marks(calls: seq<Call>, x: Counter): nat {
    if calls == [] then 0
    else
      var c := calls[|calls| - 1];
      Marks(calls[..|calls| - 1], x) + if c.DoMark? then Weight(c.mark, c.time, x) else 0
  }

  /** The same for one suite. */
  function MarksIn(calls: seq<Call>, suite: string, x: Counter): nat {
    if calls == [] then 0
    else
      var c := calls[|calls| - 1];
      MarksIn(calls[..|calls| - 1], suite, x) + if c.DoMark? && c.suite == suite then Weight(c.mark, c.time, x) else 0
  }

  lemma RecordedGet(t: Tally, suite: string, x: Counter, value: nat, other: string, y: Counter)
    ensures var t' := Recorded(t, suite, x, value);
            && Get(t'.all, y) == Get(t.all, y) + (if x == y then value else 0)
            && Get(SuiteOf(t', other), y) == Get(SuiteOf(t, other), y) + (if suite == other && x == y then value else 0)
  {
  }

  /** A mark adds one to the total and to the counter of its kind, and its time, in the aggregate and in its suite. */
  lemma MarkedGet(t: Tally, suite: string, m: Mark, time: nat, other: string, y: Counter)
    ensures var t' := Marked(t, suite, m, time);
            && Get(t'.all, y) == Get(t.all, y) + Weight(m, time, y)
            && Get(SuiteOf(t', other), y) == Get(SuiteOf(t, other), y)
               + (if suite == other then Weight(m, time, y) else 0)
  {
    RecordedGet(t, suite, Total, 1, other, y);
    RecordedGet(Recorded(t, suite, Total, 1), suite, Time, time, other, y);
    RecordedGet(Timed(t, suite, time), suite, CounterOf(m), 1, other, y);
  }

  /** Every counter, of the aggregate and of each suite, is what the marks add to it. */
  lemma {:induction false} CountersCountMarks(calls: seq<Call>, suite: string, x: Counter)
    ensures Get(Replay(calls).all, x) == Marks(calls, x)
    ensures Get(SuiteOf(Replay(calls), suite), x) == MarksIn(calls, suite, x)
  {
    if calls == [] {
    } else {
      var before := calls[..|calls| - 1];
      CountersCountMarks(before, suite, x);
      match calls[|calls| - 1]
      case Init(s) => InitKeepsCounts(Replay(before), s, suite, x);
      case DoMark(s, m, time) => MarkedGet(Replay(before), s, m, time, suite, x);
    }
  }

  predicate Balanced(c: Counts) {
    Get(c, Total) == Get(c, Passes) + Get(c, Failures) + Get(c, Errors) + Get(c, Skips) + Get(c, Warnings)
  }

  function Column(t: Tally, x: Counter): map<string, nat> { map s | s in t.suites :: Get(t.suites[s], x) }

  lemma RecordedColumn(t: Tally, suite: string, x: Counter, value: nat, y: Counter)
    ensures Column(Recorded(t, suite, x, value), y) ==
            Column(t, y)[suite := Get(SuiteOf(t, suite), y) + (if x == y then value else 0)]
  {
  }

  /** The aggregate is the sum over the suites. */
  ghost predicate Summed(t: Tally) { forall x :: Get(t.all, x) == Sum(Column(t, x)) }

  lemma RecordedSummed(t: Tally, suite: string, x: Counter, value: nat)
    requires Summed(t)
    ensures Summed(Recorded(t, suite, x, value))
  {
    var t' := Recorded(t, suite, x, value);
    forall y ensures Get(t'.all, y) == Sum(Column(t', y)) {
      var v := Get(SuiteOf(t, suite), y) + if x == y then value else 0;
      RecordedColumn(t, suite, x, value, y);
      SumUpdate(Column(t, y), suite, v);
      assert Get(t.all, y) == Sum(Column(t, y));
    }
  }

  lemma InitedSummed(t: Tally, suite: string)
    requires Summed(t)
    ensures Summed(Inited(t, suite))
  {
    var t' := Inited(t, suite);
    if t' != t {
      forall y ensures Get(t'.all, y) == Sum(Column(t', y)) {
        assert Column(t', y) == Column(t, y)[suite := 0];
        SumUpdate(Column(t, y), suite, 0);
        assert Get(t.all, y) == Sum(Column(t, y));
      }
    }
  }

  /** A suite that has counted something is never reset, nor does initialising change any count. */
  lemma InitKeepsCounts(t: Tally, suite: string, other: string, x: Counter)
    ensures Get(SuiteOf(Inited(t, suite), other), x) == Get(SuiteOf(t, other), x)
    ensures Get(Inited(t, suite).all, x) == Get(t.all, x)
  {
  }

  /** Every mark adds to exactly one counter besides the total. */
  lemma {:induction false} MarksBalance(calls: seq<Call>, suite: string)
    ensures Marks(calls, Total) == Marks(calls, Passes) + Marks(calls, Failures) + Marks(calls, Errors)
                                 + Marks(calls, Skips) + Marks(calls, Warnings)
    ensures MarksIn(calls, suite, Total) == MarksIn(calls, suite, Passes) + MarksIn(calls, suite, Failures)
            + MarksIn(calls, suite, Errors) + MarksIn(calls, suite, Skips) + MarksIn(calls, suite, Warnings)
  {
    if calls == [] {
    } else {
      MarksBalance(calls[..|calls| - 1], suite);
    }
  }

  lemma {:induction false} ReplaySummed(calls: seq<Call>)
    ensures Summed(Replay(calls))
  {
    if calls == [] {
      forall x ensures Get(EMPTY.all, x) == Sum(Column(EMPTY, x)) { assert Column(EMPTY, x) == map[]; }
    } else {
      var t := Replay(calls[..|calls| - 1]);
      ReplaySummed(calls[..|calls| - 1]);
      match calls[|calls| - 1]
      case Init(s) => InitedSummed(t, s);
      case DoMark(s, m, time) =>
        RecordedSummed(t, s, Total, 1);
        RecordedSummed(Recorded(t, s, Total, 1), s, Time, time);
        RecordedSummed(Timed(t, s, time), s, CounterOf(m), 1);
    }
  }

  /** After any sequence of initialisations and marks, in any order: totals are conserved in the
      aggregate and in each suite, and the aggregate is the sum over the suites. */
  lemma Conserved(calls: seq<Call>, suite: string)
    ensures Balanced(Replay(calls).all) && Balanced(SuiteOf(Replay(calls), suite))
    ensures Summed(Replay(calls))
  {
    CountersCountMarks(calls, suite, Total);
    CountersCountMarks(calls, suite, Passes);
    CountersCountMarks(calls, suite, Failures);
    CountersCountMarks(calls, suite, Errors);
    CountersCountMarks(calls, suite, Skips);
    CountersCountMarks(calls, suite, Warnings);
    MarksBalance(calls, suite);
    ReplaySummed(calls);
  }
}

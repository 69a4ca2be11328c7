/** What holds over every run, whatever the outside does. */
module RunTheorems {
  import opened PhpStrings
  import opened Gate
  import opened Junit
  import opened Results
  import opened Runs

  /** The results that are listed among the failed tests. */
  predicate Listed(o: Outcome) { o == LEAKED || o == WARNED || o == XFAILED || o == FAILED || o == BORKED }

  /** Entries behind a result; a test given up for an empty request has none. */
  function Backing(failed: Failures, empties: nat, o: Outcome): nat {
    |EntriesOf(failed, o)| + if o == BORKED then empties else 0
  }

  ghost predicate Recorded(results: map<string, Outcome>, failed: Failures, empties: nat) {
    forall o :: Listed(o) ==> NumberOf(results, o) <= Backing(failed, empties, o)
  }

  /** Kept by every step: results are storable and backed by entries in the list of failures, progress
      never exceeded the count when shown, and every test that was run had its sections. */
  ghost predicate Sound(s: State) {
    && Storable(s.results)
    && Recorded(s.results, s.failed, s.emptyRequests)
    && (forall k :: 0 <= k < |s.shown| ==> 1 <= s.shown[k].0 <= s.shown[k].1)
    && (forall k :: 0 <= k < |s.executed| ==> Complete(s.executed[k]))
  }

  /** A listed result has its entry before it is stored. */
  ghost predicate Backed(s: State, r: Outcome) {
    Listed(r) ==> NumberOf(s.results, r) < Backing(s.failed, s.emptyRequests, r)
  }

  function MarkCount(s: State): nat { Marks(s.history, Total) }

  lemma LoggedMarks(env: Env, s: State, c: Call)
    ensures MarkCount(Logged(env, s, c)) == MarkCount(s) + if env.logging && c.DoMark? then 1 else 0
  {
    assert (s.history + [c])[..|s.history|] == s.history;
  }

  lemma EndedMarks(env: Env, s: State, suite: string, mark: Mark, time: nat, o: Outcome)
    ensures MarkCount(Ended(env, s, suite, mark, time, o)) == MarkCount(s) + if env.logging then 1 else 0
  {
    LoggedMarks(env, s.(ended := s.ended + [End(o, mark)]), DoMark(suite, mark, time));
  }

  // ---------------------------------------------------------------- the list of failures

  lemma ListingAdds(failed: Failures, o: Outcome, name: string, p: Outcome)
    ensures |EntriesOf(Listing(failed, o, name), p)| == |EntriesOf(failed, p)| + if o == p then 1 else 0
  {
  }

  lemma ListedRecorded(results: map<string, Outcome>, failed: Failures, empties: nat, o: Outcome, name: string)
    requires Recorded(results, failed, empties)
    ensures Recorded(results, Listing(failed, o, name), empties)
    ensures Listed(o) ==> NumberOf(results, o) < Backing(Listing(failed, o, name), empties, o)
  {
    forall p | Listed(p) ensures NumberOf(results, p) <= Backing(Listing(failed, o, name), empties, p) {
      ListingAdds(failed, o, name, p);
    }
    ListingAdds(failed, o, name, o);
  }

  /** Every kind of a failed test gets an entry, so the first does. */
  lemma {:induction false} ListingAllRecorded(results: map<string, Outcome>, failed: Failures, empties: nat,
                                              kinds: seq<Kind>, name: string)
    requires Recorded(results, failed, empties)
    ensures Recorded(results, ListingAll(failed, kinds, name), empties)
    ensures forall k :: k in kinds && Listed(OutcomeOf(k)) ==>
              NumberOf(results, OutcomeOf(k)) < Backing(ListingAll(failed, kinds, name), empties, OutcomeOf(k))
    decreases |kinds|
  {
    if kinds == [] {
    } else {
      var rest, last := kinds[..|kinds| - 1], kinds[|kinds| - 1];
      ListingAllRecorded(results, failed, empties, rest, name);
      var before := ListingAll(failed, rest, name);
      ListedRecorded(results, before, empties, OutcomeOf(last), name);
      forall k | k in kinds && Listed(OutcomeOf(k))
        ensures NumberOf(results, OutcomeOf(k)) < Backing(ListingAll(failed, kinds, name), empties, OutcomeOf(k))
      {
        ListingAdds(before, OutcomeOf(last), name, OutcomeOf(k));
        assert k == last || k in rest;
      }
    }
  }

  // ---------------------------------------------------------------- one test without redirections

  /** The counters and what has been stored stay as they are, and the log gets `n` more marks. */
  ghost predicate Quiet(env: Env, s: State, t: State, n: nat) {
    && Sound(t)
    && t.clock == s.clock && t.testCnt == s.testCnt && t.testIdx == s.testIdx && t.redirections == s.redirections
    && t.inRedirect == s.inRedirect && t.results == s.results
    && MarkCount(t) == MarkCount(s) + (if env.logging then n else 0)
  }

  lemma BorkQuiet(env: Env, s: State, name: string, suite: string, time: nat)
    requires Sound(s)
    ensures var r := BorkedAs(env, s, name, suite, time); Quiet(env, s, r.0, 1) && Backed(r.0, r.1)
  {
    ListedRecorded(s.results, s.failed, s.emptyRequests, BORKED, name);
    EndedMarks(env, ListedAs(s, BORKED, name), suite, One(BORK), time, BORKED);
  }

  lemma PreparedQuiet(env: Env, s: State, text: map<string, string>, seen: World)
    requires Sound(s) && 1 <= s.testIdx <= s.testCnt
    ensures Quiet(env, s, Prepared(env, s, text, seen), if IsSkipped(text, seen) then 1 else 0)
  {
    var s1 := if NoCgi(text, seen) then Logged(env, s, Init(seen.suite))
              else s.(shown := s.shown + [(s.testIdx, s.testCnt)]);
    assert Quiet(env, s, s1, 0) by { LoggedMarks(env, s, Init(seen.suite)); }
    var s2 := if !NoCgi(text, seen) && HasSkipScript(text) then Logged(env, s1, Init(seen.suite)) else s1;
    assert Quiet(env, s, s2, 0) by { LoggedMarks(env, s1, Init(seen.suite)); }
    EndedMarks(env, s2, seen.suite, One(SKIP), SkipTime(text, seen), SKIPPED);
  }

  lemma ExecutedQuiet(env: Env, s: State, name: string, text: map<string, string>, seen: World)
    requires Sound(s) && Complete(text)
    ensures var r := Executed(env, s, name, text, seen);
            Quiet(env, s, r.0, 1) && Backed(r.0, r.1) && r.1 != REDIR
  {
    var s0 := s.(executed := s.executed + [text]);
    if NoRequest(text, seen) {
      NoRequestQuiet(env, s, s0, seen.suite, seen.time);
      return;
    }
    var s1 := Logged(env, s0, Init(seen.suite));
    assert Quiet(env, s, s1, 0) by { LoggedMarks(env, s0, Init(seen.suite)); }
    ConcludedQuiet(env, s, s1, Restype(EvidenceOf(env, text, seen)), name, seen);
  }

  lemma NoRequestQuiet(env: Env, s: State, s0: State, suite: string, time: nat)
    requires Quiet(env, s, s0, 0)
    ensures var t := Ended(env, s0.(emptyRequests := s0.emptyRequests + 1), suite, One(BORK), time, BORKED);
            Quiet(env, s, t, 1) && Backed(t, BORKED)
  {
    EndedMarks(env, s0.(emptyRequests := s0.emptyRequests + 1), suite, One(BORK), time, BORKED);
    assert Listed(BORKED);
  }

  lemma ConcludedQuiet(env: Env, s: State, s1: State, kinds: seq<Kind>, name: string, seen: World)
    requires Quiet(env, s, s1, 0)
    ensures var r := Concluded(env, s1, kinds, name, seen);
            Quiet(env, s, r.0, 1) && Backed(r.0, r.1) && r.1 != REDIR
  {
    if kinds == [] {
      EndedMarks(env, s1, seen.suite, One(PASS), seen.time, PASSED);
    } else {
      ListingAllRecorded(s1.results, s1.failed, s1.emptyRequests, kinds, name);
      EndedMarks(env, s1.(failed := ListingAll(s1.failed, kinds, name)), seen.reportSuite, Many(kinds), seen.time,
                 OutcomeOf(kinds[0]));
      assert kinds[0] in kinds;
    }
  }

  // ---------------------------------------------------------------- progress

  /** Over one call of `run_test` the number of tests still to come does not change; each call counts
      once, except that a redirection hands its place to the tests behind it. */
  ghost predicate TestDone(env: Env, s: State, t: State, r: Outcome) {
    && Sound(t) && Backed(t, r)
    && t.testCnt - t.testIdx == s.testCnt - s.testIdx && t.testIdx >= 0
    && t.testIdx - s.testIdx == (t.clock - s.clock) - 1 - (t.redirections - s.redirections)
    && (s.inRedirect ==> t.redirections == s.redirections)
    && (env.logging ==> MarkCount(t) - MarkCount(s) == t.clock - s.clock)
  }

  /** The same once the clock has been advanced. */
  ghost predicate CheckedDone(env: Env, s: State, t: State, r: Outcome) {
    && Sound(t) && Backed(t, r)
    && t.testCnt - t.testIdx == s.testCnt - s.testIdx && t.testIdx >= 0
    && t.testIdx - s.testIdx == (t.clock - s.clock) - (t.redirections - s.redirections)
    && (s.inRedirect ==> t.redirections == s.redirections)
    && (env.logging ==> MarkCount(t) - MarkCount(s) == 1 + t.clock - s.clock)
  }

  ghost predicate TestsDone(env: Env, s: State, t: State, n: nat) {
    && Sound(t)
    && t.testCnt - t.testIdx == s.testCnt - s.testIdx - n && t.testIdx >= 0
    && t.testIdx - s.testIdx == (t.clock - s.clock) - (t.redirections - s.redirections)
    && (s.inRedirect ==> t.redirections == s.redirections)
    && (env.logging ==> MarkCount(t) - MarkCount(s) == t.clock - s.clock)
  }

  /** Running the tests behind a redirection in its place. */
  lemma {:induction false} FollowedDone(env: Env, s: State, item: Item, text: map<string, string>, seen: World)
    requires Sound(s) && 1 <= s.testIdx <= s.testCnt && !s.inRedirect
    ensures var r := Followed(env, s, item, text, seen); CheckedDone(env, s, r.0, r.1)
    decreases Rank(s), 0, 0
  {
    if seen.oneTarget {
      var tests := Targets(item, seen);
      var title := if "TEST" in text then Trim(text["TEST"]) else "";
      RunAllDone(env, Entering(s, tests), tests, title);
      LeavingDone(env, s, tests, RunAll(env, Entering(s, tests), tests, title), seen.suite, seen.time);
    } else {
      UnfollowedDone(env, s, item.name, seen.suite, seen.time);
    }
  }

  /** The tests behind a redirection took its place: the count grew by what the index grew. */
  lemma LeavingDone(env: Env, s: State, tests: seq<Item>, t: State, suite: string, time: nat)
    requires !s.inRedirect && TestsDone(env, Entering(s, tests), t, |tests|)
    ensures CheckedDone(env, s, Ended(env, t.(inRedirect := false), suite, One(PASS), time, REDIR), REDIR)
  {
    EndedMarks(env, t.(inRedirect := false), suite, One(PASS), time, REDIR);
    assert MarkCount(Entering(s, tests)) == MarkCount(s);
  }

  lemma UnfollowedDone(env: Env, s: State, name: string, suite: string, time: nat)
    requires Sound(s) && 1 <= s.testIdx <= s.testCnt && !s.inRedirect
    ensures var r := BorkedAs(env, ListedAs(s.(inRedirect := true), BORKED, name), name, suite, time);
            CheckedDone(env, s, r.0, r.1)
  {
    var s3 := s.(inRedirect := true);
    ListedRecorded(s3.results, s3.failed, s3.emptyRequests, BORKED, name);
    assert Sound(ListedAs(s3, BORKED, name)) && MarkCount(ListedAs(s3, BORKED, name)) == MarkCount(s);
    BorkQuiet(env, ListedAs(s3, BORKED, name), name, suite, time);
  }

  lemma {:induction false} RunCheckedDone(env: Env, s: State, item: Item, seen: World)
    requires Sound(s) && 1 <= s.testIdx <= s.testCnt
    requires IsRedirection(seen, s.inRedirect) || IsRunnable(seen)
    ensures var r := RunChecked(env, s, item, seen); CheckedDone(env, s, r.0, r.1)
    decreases Rank(s), 1, 0
  {
    var text := Runs.TextOf(seen, s.inRedirect);
    var t := Prepared(env, s, text, seen);
    PreparedQuiet(env, s, text, seen);
    if IsSkipped(text, seen) {
    } else if IsRedirection(seen, s.inRedirect) {
      FollowedDone(env, t, item, text, seen);
    } else if item.Pair? {
      BorkQuiet(env, t, item.name, seen.suite, seen.time);
    } else {
      RunnableIsComplete(Sections.Parsed(seen.lines).text, seen.dir, seen.files);
      ExecutedQuiet(env, t, item.name, text, seen);
    }
  }

  lemma {:induction false} RunOneDone(env: Env, s: State, item: Item)
    requires Sound(s) && 1 <= s.testIdx <= s.testCnt
    ensures var r := RunOne(env, s, item); TestDone(env, s, r.0, r.1)
    decreases Rank(s), 2, 0
  {
    var seen := env.world(item.name, s.clock);
    var t := s.(clock := s.clock + 1);
    if IsRedirection(seen, s.inRedirect) || IsRunnable(seen) {
      RunCheckedDone(env, t, item, seen);
    }
    RunOneIs(env, s, item, seen, t);
    RunOneDoneAs(env, s, item, seen, t, RunChecked(env, t, item, seen), RunOne(env, s, item));
  }

  lemma RunOneIs(env: Env, s: State, item: Item, seen: World, t: State)
    requires seen == env.world(item.name, s.clock) && t == s.(clock := s.clock + 1)
    ensures RunOne(env, s, item) ==
            if IsRedirection(seen, s.inRedirect) || IsRunnable(seen) then RunChecked(env, t, item, seen)
            else BorkedAs(env, t, item.name, seen.suite, 0)
  {
  }

  lemma RunOneDoneAs(env: Env, s: State, item: Item, seen: World, t: State, c: (State, Outcome), r: (State, Outcome))
    requires Sound(s) && 1 <= s.testIdx <= s.testCnt && t == s.(clock := s.clock + 1)
    requires (r == c && CheckedDone(env, t, c.0, c.1)) || r == BorkedAs(env, t, item.name, seen.suite, 0)
    ensures TestDone(env, s, r.0, r.1)
  {
    RefusedDone(env, t, item.name, seen.suite);
    ClockedDone(env, s, r.0, r.1);
  }

  lemma RefusedDone(env: Env, s: State, name: string, suite: string)
    requires Sound(s) && 1 <= s.testIdx <= s.testCnt
    ensures var r := BorkedAs(env, s, name, suite, 0); CheckedDone(env, s, r.0, r.1)
  {
    BorkQuiet(env, s, name, suite, 0);
  }

  lemma ClockedDone(env: Env, s: State, t: State, r: Outcome)
    requires CheckedDone(env, s.(clock := s.clock + 1), t, r)
    ensures TestDone(env, s, t, r)
  {
    assert MarkCount(s.(clock := s.clock + 1)) == MarkCount(s);
  }

  lemma RunItemDone(env: Env, s: State, item: Item, redirTested: string)
    requires Sound(s) && 0 <= s.testIdx < s.testCnt
    ensures TestsDone(env, s, RunItem(env, s, item, redirTested), 1)
    decreases Rank(s), 4, 0
  {
    var one := Unwrapped(item, redirTested);
    var s1 := s.(testIdx := s.testIdx + 1);
    RunOneDone(env, s1, one);
    ItemDoneAs(env, s, s1, item, redirTested, one, RunOne(env, s1, one), RunItem(env, s, item, redirTested));
  }

  lemma ItemDoneAs(env: Env, s: State, s1: State, item: Item, redirTested: string, one: Item,
                   r: (State, Outcome), t: State)
    requires s1 == s.(testIdx := s.testIdx + 1) && one == Unwrapped(item, redirTested)
    requires r == RunOne(env, s1, one) && t == RunItem(env, s, item, redirTested) && TestDone(env, s1, r.0, r.1)
    ensures TestsDone(env, s, t, 1)
  {
    assert RunNextOf(env, s, one) == r;
    assert t == Stored(r.0, one, IndexOf(item, redirTested), r.1);
    StoredSound(r.0, one, IndexOf(item, redirTested), r.1);
    assert MarkCount(s1) == MarkCount(s);
  }

  lemma StoredSound(s: State, item: Item, index: string, r: Outcome)
    requires Sound(s) && Backed(s, r)
    ensures Sound(Stored(s, item, index, r)) && MarkCount(Stored(s, item, index, r)) == MarkCount(s)
  {
    forall o | Listed(o) ensures NumberOf(s.results[index := r], o) <= Backing(s.failed, s.emptyRequests, o) {
      StoreCounts(s.results, index, r, o);
    }
  }

  /** Each item of a list lowers what is still to come by exactly one, whatever redirections do. */
  lemma {:induction false} RunAllDone(env: Env, s: State, items: seq<Item>, redirTested: string)
    requires Sound(s) && 0 <= s.testIdx && s.testIdx + |items| <= s.testCnt
    ensures TestsDone(env, s, RunAll(env, s, items, redirTested), |items|)
    decreases Rank(s), 5, |items|
  {
    if items == [] {
    } else {
      RunItemDone(env, s, items[0], redirTested);
      RunAllDone(env, RunItem(env, s, items[0], redirTested), items[1..], redirTested);
    }
  }

  /** Every run, with arbitrary redirections: the index ends at the count, never exceeded it when shown,
      the results are backed by entries, and the log has one mark for each call of `run_test`. */
  lemma WholeRun(env: Env, items: seq<Item>)
    ensures var t := RunAll(env, Initial(items), items, "");
            && t.testIdx == t.testCnt == t.clock - t.redirections
            && Sound(t)
            && (env.logging ==> MarkCount(t) == t.clock)
  {
    var s := Initial(items);
    assert forall o :: Having(s.results, o) == {};
    RunAllDone(env, s, items, "");
  }

  /** The summary of a run: seven counts that add up to the number of stored results; LEAKED, WARNED, XFAILED
      and FAILED never exceed their entries in the list of failures, BORKED only by empty requests. */
  lemma RunSummary(env: Env, items: seq<Item>)
    ensures var t := RunAll(env, Initial(items), items, "");
            && Storable(t.results)
            && SevenCounts(t.results) == |t.results|
            && (forall o :: Listed(o) && o != BORKED ==> NumberOf(t.results, o) <= |EntriesOf(t.failed, o)|)
            && NumberOf(t.results, BORKED) <= |EntriesOf(t.failed, BORKED)| + t.emptyRequests
  {
    var t := RunAll(env, Initial(items), items, "");
    WholeRun(env, items);
    CountsAddUp(t.results);
  }

  /** Inside a redirection no further one is entered: nesting stops at one level. */
  lemma NoNestedRedirection(env: Env, s: State, items: seq<Item>, redirTested: string)
    requires Sound(s) && 0 <= s.testIdx && s.testIdx + |items| <= s.testCnt && s.inRedirect
    ensures RunAll(env, s, items, redirTested).redirections == s.redirections
    ensures RunAll(env, s, items, redirTested).inRedirect
  {
    RunAllDone(env, s, items, redirTested);
  }

  /** The JUnit log of a run: totals conserved, in the aggregate and in every suite, and one test per call. */
  lemma RunLog(env: Env, items: seq<Item>, suite: string)
    requires env.logging
    ensures var t := RunAll(env, Initial(items), items, "");
            var tally := Replay(t.history);
            && Balanced(tally.all) && Balanced(SuiteOf(tally, suite)) && Summed(tally)
            && Get(tally.all, Total) == t.clock == t.testCnt + t.redirections
  {
    var t := RunAll(env, Initial(items), items, "");
    WholeRun(env, items);
    Conserved(t.history, suite);
    CountersCountMarks(t.history, suite, Total);
  }

  // ---------------------------------------------------------------- every test leaves a result

  lemma {:induction false} FollowedKeeps(env: Env, s: State, item: Item, text: map<string, string>, seen: World)
    requires !s.inRedirect
    ensures s.results.Keys <= Followed(env, s, item, text, seen).0.results.Keys
    decreases Rank(s), 0, 0
  {
    if seen.oneTarget {
      var tests := Targets(item, seen);
      RunAllKeeps(env, Entering(s, tests), tests, if "TEST" in text then Trim(text["TEST"]) else "");
    }
  }

  lemma {:induction false} RunCheckedKeeps(env: Env, s: State, item: Item, seen: World)
    ensures s.results.Keys <= RunChecked(env, s, item, seen).0.results.Keys
    decreases Rank(s), 1, 0
  {
    var text := Runs.TextOf(seen, s.inRedirect);
    var t := Prepared(env, s, text, seen);
    assert t.results == s.results;
    if IsSkipped(text, seen) {
    } else if IsRedirection(seen, s.inRedirect) {
      FollowedKeeps(env, t, item, text, seen);
    } else if item.Single? {
      assert Executed(env, t, item.name, text, seen).0.results == s.results;
    }
  }

  lemma {:induction false} RunOneKeeps(env: Env, s: State, item: Item)
    ensures s.results.Keys <= RunOne(env, s, item).0.results.Keys
    decreases Rank(s), 2, 0
  {
    RunCheckedKeeps(env, s.(clock := s.clock + 1), item, env.world(item.name, s.clock));
  }

  lemma {:induction false} RunItemKeeps(env: Env, s: State, item: Item, redirTested: string)
    ensures s.results.Keys <= RunItem(env, s, item, redirTested).results.Keys
    decreases Rank(s), 4, 0
  {
    var one, s1 := Unwrapped(item, redirTested), s.(testIdx := s.testIdx + 1);
    RunOneKeeps(env, s1, one);
    assert RunNextOf(env, s, one) == RunOne(env, s1, one);
  }

  /** Results are never lost, though one may be overwritten. */
  lemma {:induction false} RunAllKeeps(env: Env, s: State, items: seq<Item>, redirTested: string)
    ensures s.results.Keys <= RunAll(env, s, items, redirTested).results.Keys
    decreases Rank(s), 5, |items|
  {
    if items == [] {
    } else {
      RunItemKeeps(env, s, items[0], redirTested);
      RunAllKeeps(env, RunItem(env, s, items[0], redirTested), items[1..], redirTested);
    }
  }

  lemma {:induction false} RunAllConcat(env: Env, s: State, xs: seq<Item>, ys: seq<Item>, redirTested: string)
    ensures RunAll(env, s, xs + ys, redirTested) == RunAll(env, RunAll(env, s, xs, redirTested), ys, redirTested)
    decreases |xs|
  {
    if xs == [] {
      assert xs + ys == ys;
    } else {
      assert (xs + ys)[1..] == xs[1..] + ys && (xs + ys)[0] == xs[0];
      RunAllConcat(env, RunItem(env, s, xs[0], redirTested), xs[1..], ys, redirTested);
    }
  }
}

/** The run as the program carries it out, on shared variables. */
module Runner {
  import opened PhpStrings
  import opened Sections
  import opened Gate
  import opened Junit
  import opened Results
  import opened Runs
  import opened Requests
  import opened Expectations
  import opened RunTheorems
  import opened RunCounters

  lemma NextIs(env: Env, s: State, t: State, item: Item, r: (State, Outcome))
    requires t == s.(testIdx := s.testIdx + 1) && r == RunOne(env, t, item)
    ensures r == RunNextOf(env, s, item)
  {
  }

  lemma SameEntering(s: State, t: State, tests: seq<Item>)
    requires t == s.(inRedirect := true)
    ensures Entering(t, tests) == Entering(s, tests)
  {
  }

  /** What is known of a run from its final state. */
  lemma SelectedRun(env: Env, files: seq<Item>, t: State)
    requires t == RunAll(env, Initial(files), files, "")
    ensures t.testIdx == t.testCnt == t.clock - t.redirections && Sound(t) && SevenCounts(t.results) == |t.results|
    ensures env.logging ==> Get(Replay(t.history).all, Total) == t.clock && Balanced(Replay(t.history).all)
                            && Summed(Replay(t.history)) && CountsEnds(Replay(t.history).all, t.ended)
  {
    WholeRun(env, files);
    RunSummary(env, files);
    if env.logging {
      RunLog(env, files, "");
      RunCounted(env, files);
    }
  }

  class TestRunner {
    const world: (string, nat) -> World
    const meets: (Expectation, string) -> bool
    const logging: bool
    const log: Log                         // the JUnit log
    var clock: nat
    var testCnt: int
    var testIdx: int
    var inRedirect: bool
    var results: map<string, Outcome>
    var failed: Failures
    var shown: seq<(int, int)>
    ghost var history: seq<Call>           // what the log was told, in order
    ghost var executed: seq<map<string, string>>
    ghost var redirections: nat
    ghost var emptyRequests: nat
    ghost var ended: seq<End>

    ghost function S(): State
      reads this
    {
      State(clock, testCnt, testIdx, inRedirect, results, failed, shown, executed, redirections, emptyRequests, ended,
            history)
    }

    ghost function E(): Env { Env(world, meets, logging) }

    /** The log has been told what the history says, and its counters say so. */
    ghost predicate Linked()
      reads this, log
    {
      log.Valid() && log.enabled == logging && log.history == history
    }

    constructor (world: (string, nat) -> World, meets: (Expectation, string) -> bool, logging: bool)
      ensures Linked() && fresh(log)
      ensures E() == Env(world, meets, logging) && !inRedirect && results == map[] && failed == map[]
      ensures clock == 0 && shown == [] && executed == [] && redirections == emptyRequests == 0
      ensures history == [] && ended == []
    {
      this.world, this.meets, this.logging := world, meets, logging;
      log := new Log(logging);
      clock, testCnt, testIdx, inRedirect := 0, 0, 0, false;
      results, failed, shown, executed, redirections, history := map[], map[], [], [], 0, [];
      emptyRequests, ended := 0, [];
    }

    /** The entry points of the script. */
    method RunSelected(files: seq<Item>)
      requires history == [] && ended == [] && !inRedirect && results == map[] && failed == map[]
      requires clock == 0 && shown == [] && executed == [] && redirections == emptyRequests == 0
      requires Linked()
      modifies this, log
      ensures Linked()
      ensures S() == RunAll(E(), Initial(files), files, "")
      ensures testIdx == testCnt == clock - redirections && Sound(S()) && SevenCounts(results) == |results|
      ensures logging ==> Get(log.all, Total) == clock && Balanced(log.all) && Summed(log.State())
                          && CountsEnds(log.all, ended)
    {
      testCnt := |files|;
      testIdx := 0;
      assert S() == Initial(files);
      RunAllTests(files, "");
      SelectedRun(E(), files, S());
    }

    method RunAllTests(files: seq<Item>, redirTested: string)
      requires Linked()
      modifies this, log
      ensures Linked()
      ensures S() == RunAll(E(), old(S()), files, redirTested)
      decreases if inRedirect then 0 else 1, 5
    {
      var i := 0;
      while i < |files|
        invariant i <= |files|
        invariant Linked() && (old(inRedirect) ==> inRedirect)
        invariant RunAll(E(), S(), files[i..], redirTested) == RunAll(E(), old(S()), files, redirTested)
      {
        ghost var before := S();
        assert files[i..][0] == files[i] && files[i..][1..] == files[i + 1..];
        RunItemOf(files[i], redirTested);
        assert S() == RunItem(E(), before, files[i], redirTested);
        i := i + 1;
      }
    }

    /** The body of the loop. */
    method RunItemOf(entry: Item, redirTested: string)
      requires Linked()
      modifies this, log
      ensures Linked()
      ensures S() == RunItem(E(), old(S()), entry, redirTested)
      decreases if inRedirect then 0 else 1, 4
    {
      var item, index := NameItem(entry, redirTested);
      var result := RunNext(item);
      Store(item, index, result);
    }

    method RunNext(item: Item) returns (result: Outcome)
      requires Linked()
      modifies this, log
      ensures Linked()
      ensures (S(), result) == RunNextOf(E(), old(S()), item)
      decreases if inRedirect then 0 else 1, 3
    {
      ghost var before := S();
      Advance();
      ghost var advanced := S();
      result := RunTest(item);
      NextIs(E(), before, advanced, item, (S(), result));
    }

    method Advance()
      modifies this`testIdx
      ensures S() == old(S()).(testIdx := old(testIdx) + 1)
    {
      testIdx := testIdx + 1;
    }

    method Store(item: Item, index: string, result: Outcome)
      modifies this`results
      ensures S() == Stored(old(S()), item, index, result)
    {
      if item.Single? && result != REDIR {
        results := results[index := result];
      }
    }

    /** What an entry is run as, and the name its result is stored under. */
    static method NameItem(entry: Item, redirTested: string) returns (item: Item, index: string)
      ensures item == Unwrapped(entry, redirTested) && index == IndexOf(entry, redirTested)
    {
      item, index := entry, entry.name;
      if item.Pair? {
        index := "# " + item.via + ": " + item.name;
        if Truthy(redirTested) {
          item := Single(item.name);
        }
      } else if Truthy(redirTested) {
        index := "# " + redirTested + ": " + item.name;
      }
    }

    method RunTest(item: Item) returns (result: Outcome)
      requires Linked()
      modifies this, log
      ensures Linked()
      ensures (S(), result) == RunOne(E(), old(S()), item)
      decreases if inRedirect then 0 else 1, 2
    {
      var seen := world(item.name, clock);
      clock := clock + 1;
      var verdict := Examine(seen, inRedirect);
      if verdict.Borked? {
        result := ReportBork(item.name, seen.suite, 0);
      } else {
        result := GoOn(item, seen, verdict);
      }
    }

    /** Parse the file and check what it holds. */
    static method Examine(seen: World, inRedirect: bool) returns (verdict: Verdict)
      ensures verdict.Redirects? <==> IsRedirection(seen, inRedirect)
      ensures verdict.Runnable? <==> IsRunnable(seen)
      ensures !verdict.Borked? ==> verdict.text == Runs.TextOf(seen, inRedirect)
    {
      var parsed, bork := ParseSections(seen.lines);
      verdict := CheckSections(parsed, bork, seen.dir, seen.files, inRedirect);
    }

    method GoOn(item: Item, seen: World, verdict: Verdict) returns (result: Outcome)
      requires !verdict.Borked?
      requires verdict.Redirects? <==> IsRedirection(seen, inRedirect)
      requires verdict.text == Runs.TextOf(seen, inRedirect)
      requires Linked()
      modifies this, log
      ensures Linked()
      ensures (S(), result) == RunChecked(E(), old(S()), item, seen)
      decreases if inRedirect then 0 else 1, 1
    {
      var skipped := Prepare(verdict.text, seen);
      if skipped {
        result := SKIPPED;
      } else if verdict.Redirects? {
        result := FollowRedirection(item, verdict.text, seen);
      } else if item.Pair? {
        result := ReportBork(item.name, seen.suite, seen.time);
      } else {
        result := Execute(item.name, verdict.text, seen);
      }
    }

    method Prepare(text: map<string, string>, seen: World) returns (skipped: bool)
      requires Linked()
      modifies this`shown, this`ended, this`history, log
      ensures Linked()
      ensures S() == Prepared(E(), old(S()), text, seen) && skipped == IsSkipped(text, seen)
    {
      if NeedsCgi(text) && !seen.cgiAvailable {
        Tell(Init(seen.suite));
        Mark(seen.suite, One(SKIP), 0, SKIPPED);
        return true;
      }
      shown := shown + [(testIdx, testCnt)];
      assert S() == old(S()).(shown := old(shown) + [(old(testIdx), old(testCnt))]);
      if "SKIPIF" in text && Truthy(Trim(text["SKIPIF"])) {
        Tell(Init(seen.suite));
        if seen.skipWord.Skip? {
          Mark(seen.suite, One(SKIP), seen.time, SKIPPED);
          return true;
        }
      }
      skipped := !seen.zlibLoaded && ("GZIP_POST" in text || "DEFLATE_POST" in text);
      if skipped {
        Mark(seen.suite, One(SKIP), seen.time, SKIPPED);
      }
    }

    method FollowRedirection(item: Item, text: map<string, string>, seen: World) returns (result: Outcome)
      requires !inRedirect
      requires Linked()
      modifies this, log
      ensures Linked()
      ensures (S(), result) == Followed(E(), old(S()), item, text, seen)
      decreases 1, 0
    {
      inRedirect := true;
      if seen.oneTarget {
        var tests := if item.Pair? then [Single(item.via)]
                     else seq(|seen.targets|, k requires 0 <= k < |seen.targets| => Pair(seen.targets[k], item.name));
        assert tests == Targets(item, seen);
        SameEntering(old(S()), S(), tests);
        RunTargets(tests, if "TEST" in text then Trim(text["TEST"]) else "");
        Mark(seen.suite, One(PASS), seen.time, REDIR);
        return REDIR;
      }
      ListFailure(BORKED, item.name);
      result := ReportBork(item.name, seen.suite, seen.time);
    }

    /** The tests behind a redirection, in its place. */
    method RunTargets(tests: seq<Item>, tested: string)
      requires inRedirect
      requires Linked()
      modifies this, log
      ensures Linked()
      ensures S() == RunAll(E(), Entering(old(S()), tests), tests, tested).(inRedirect := false)
      decreases 0, 6
    {
      redirections := redirections + 1;
      testCnt := testCnt + |tests| - 1;
      testIdx := testIdx - 1;
      assert S() == Entering(old(S()), tests);
      RunAllTests(tests, tested);
      inRedirect := false;
    }

    method Execute(name: string, text: map<string, string>, seen: World) returns (result: Outcome)
      requires Linked()
      modifies this`failed, this`executed, this`emptyRequests, this`ended, this`history, log
      ensures Linked()
      ensures (S(), result) == Executed(E(), old(S()), name, text, seen)
    {
      executed := executed + [text];
      assert S() == old(S()).(executed := old(executed) + [text]);
      var empty := IsEmptyRequest(text, seen);
      if empty {
        result := GiveUp(seen);
      } else {
        result := RunProcess(name, text, seen);
      }
    }

    method RunProcess(name: string, text: map<string, string>, seen: World) returns (result: Outcome)
      requires Linked()
      modifies this`failed, this`ended, this`history, log
      ensures Linked()
      ensures (S(), result) ==
              Reported(E(), old(S()), name, text, seen)
    {
      Tell(Init(seen.suite));
      var warn := "SKIPIF" in text && Truthy(Trim(text["SKIPIF"])) && seen.skipWord.Warn?;
      var matched := meets(ExpectationOf(text), Cleaned(seen.printed, NeedsCgi(text)));
      var e := Evidence(matched, seen.leaked, seen.failedHeaders, warn, "XFAIL" in text);
      assert e == EvidenceOf(E(), text, seen);
      var restype := Judge(e);
      result := Conclude(restype, name, seen);
    }

    method GiveUp(seen: World) returns (result: Outcome)
      requires Linked()
      modifies this`emptyRequests, this`ended, this`history, log
      ensures Linked() && result == BORKED
      ensures S() == Ended(E(), old(S()).(emptyRequests := old(emptyRequests) + 1), seen.suite, One(BORK), seen.time,
                           BORKED)
    {
      emptyRequests := emptyRequests + 1;
      assert S() == old(S()).(emptyRequests := old(emptyRequests) + 1);
      Mark(seen.suite, One(BORK), seen.time, BORKED);
      result := BORKED;
    }

    /** Whether nothing is left of a raw request. */
    static method IsEmptyRequest(text: map<string, string>, seen: World) returns (empty: bool)
      ensures empty == NoRequest(text, seen)
    {
      if "POST_RAW" in text && Truthy(text["POST_RAW"]) {
        var request := BuildRequest(text["POST_RAW"], seen.typed);
        return !Truthy(request);
      } else if "PUT" in text && Truthy(text["PUT"]) {
        var request := BuildRequest(text["PUT"], seen.typed);
        return !Truthy(request);
      }
      empty := false;
    }

    /** Report what was found. */
    method Conclude(restype: seq<Kind>, name: string, seen: World) returns (result: Outcome)
      requires Linked()
      modifies this`failed, this`ended, this`history, log
      ensures Linked()
      ensures (S(), result) == Concluded(E(), old(S()), restype, name, seen)
    {
      if restype == [] {
        Mark(seen.suite, One(PASS), seen.time, PASSED);
        return PASSED;
      }
      ListFailures(restype, name);
      Mark(seen.reportSuite, Many(restype), seen.time, OutcomeOf(restype[0]));
      result := OutcomeOf(restype[0]);
    }

    method ListFailures(restype: seq<Kind>, name: string)
      modifies this`failed
      ensures failed == ListingAll(old(failed), restype, name)
    {
      var k := 0;
      while k < |restype|
        invariant k <= |restype| && failed == ListingAll(old(failed), restype[..k], name)
      {
        ListFailure(OutcomeOf(restype[k]), name);
        k := k + 1;
        assert restype[..k][..k - 1] == restype[..k - 1];
      }
      assert restype[..|restype|] == restype;
    }

    method ListFailure(o: Outcome, name: string)
      modifies this`failed
      ensures failed == Listing(old(failed), o, name)
    {
      failed := failed[o := (if o in failed then failed[o] else []) + [name]];
    }

    method ReportBork(name: string, suite: string, time: nat) returns (result: Outcome)
      requires Linked()
      modifies this`failed, this`ended, this`history, log
      ensures Linked()
      ensures (S(), result) == BorkedAs(E(), old(S()), name, suite, time)
    {
      ListFailure(BORKED, name);
      Mark(suite, One(BORK), time, BORKED);
      result := BORKED;
    }

    /** The end of a test. */
    method Mark(suite: string, mark: Mark, time: nat, ghost o: Outcome)
      requires Linked()
      modifies this`ended, this`history, log
      ensures Linked()
      ensures S() == Ended(E(), old(S()), suite, mark, time, o)
    {
      ended := ended + [End(o, mark)];
      assert S() == old(S()).(ended := old(ended) + [End(o, mark)]);
      Tell(DoMark(suite, mark, time));
    }

    /** A call on the JUnit log; without a log nothing happens. */
    method Tell(c: Call)
      requires Linked()
      modifies this`history, log
      ensures Linked()
      ensures S() == Logged(E(), old(S()), c)
    {
      match c {
        case Init(suite) => log.InitSuite(suite);
        case DoMark(suite, mark, time) => log.MarkTestAs(mark, suite, time);
      }
      if logging {
        history := history + [c];
      }
    }
  }
}

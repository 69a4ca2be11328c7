/** What one call of `run_test` that follows nothing adds to the shared variables: one end, one mark for the right
    suite with the right time, and one entry under each kind. */
module RunCalls {
  import opened PhpStrings
  import opened Junit
  import opened Results
  import opened Requests
  import opened Runs
  import opened RunTheorems
  import opened RunAnomalies
  import opened RunCounters

  /** The log as it grows. */
  function Told(env: Env, history: seq<Call>, calls: seq<Call>): seq<Call> {
    if env.logging then history + calls else history
  }

  function Inits(suite: string, n: nat): seq<Call> { seq(n, k => Init(suite)) }

  /** Marks of failures go to the suite of the report, all others to the suite of the test. */
  function MarkOf(seen: World, mark: Mark, time: nat): Call {
    DoMark(if mark.Many? then seen.reportSuite else seen.suite, mark, time)
  }

  predicate Leads(kinds: seq<Kind>, o: Outcome) { exists k :: 0 <= k < |kinds| && OutcomeOf(kinds[k]) == o }

  /** The name is listed once under each of the kinds. */
  ghost predicate Lists(before: Failures, after: Failures, name: string, kinds: seq<Kind>) {
    forall o :: EntriesOf(after, o) == EntriesOf(before, o) + if Leads(kinds, o) then [name] else []
  }

  /** The kinds a mark stands for in the list of failures. */
  function KindsOf(mark: Mark): seq<Kind> {
    if mark.Many? then mark.kinds else if mark == One(BORK) then [BORK] else []
  }

  /** What a call does on its way. */
  datatype Trace = Trace(shows: bool, inits: nat, runs: bool, givenUp: bool, time: nat)

  /** Progress is shown from the CGI check on; the suite is initialised for each process and for the missing binary;
      a refused test and a missing binary take no time. */
  function TraceOf(seen: World, inRedirect: bool, item: Item, text: map<string, string>): Trace {
    var goesOn := IsRedirection(seen, inRedirect) || IsRunnable(seen);
    var shows := goesOn && !NoCgi(text, seen);
    var runs := shows && !IsSkipped(text, seen) && item.Single?;
    var scripts := if shows && HasSkipScript(text) then 1 else 0;
    var processes := if runs && !NoRequest(text, seen) then 1 else 0;
    Trace(shows, if goesOn && !shows then 1 else scripts + processes, runs, runs && NoRequest(text, seen),
          if shows then seen.time else 0)
  }

  /** The call shows progress, tells the log of its suite and marks the test, ends once, and lists the test as its
      mark says, unless it was given up. */
  ghost predicate Adds(env: Env, s: State, t: State, name: string, seen: World, text: map<string, string>, end: End,
                       trace: Trace) {
    && t.ended == s.ended + [end] && Fits(end) && end.outcome != REDIR
    && t.history == Told(env, s.history, Inits(seen.suite, trace.inits) + [MarkOf(seen, end.mark, trace.time)])
    && Lists(s.failed, t.failed, name, if trace.givenUp then [] else KindsOf(end.mark))
    && t.shown == s.shown + (if trace.shows then [(s.testIdx, s.testCnt)] else [])
    && t.executed == s.executed + (if trace.runs then [text] else [])
    && t.emptyRequests == s.emptyRequests + (if trace.givenUp then 1 else 0)
    && t.results == s.results && t.inRedirect == s.inRedirect && t.clock == s.clock
  }

  // ---------------------------------------------------------------- the entries

  lemma ListsNothing(f: Failures, name: string)
    ensures Lists(f, f, name, [])
  {
  }

  ghost predicate Differ(kinds: seq<Kind>) {
    forall k, l :: 0 <= k < l < |kinds| ==> OutcomeOf(kinds[k]) != OutcomeOf(kinds[l])
  }

  lemma LeadsLast(front: seq<Kind>, last: Kind, o: Outcome)
    ensures Leads(front + [last], o) <==> Leads(front, o) || OutcomeOf(last) == o
  {
    var kinds := front + [last];
    if Leads(front, o) {
      var k :| 0 <= k < |front| && OutcomeOf(front[k]) == o;
      assert kinds[k] == front[k];
    }
    assert kinds[|front|] == last;
  }

  lemma {:induction false} ListingAllLists(failed: Failures, kinds: seq<Kind>, name: string)
    requires Differ(kinds)
    ensures Lists(failed, ListingAll(failed, kinds, name), name, kinds)
  {
    if kinds == [] {
    } else {
      var n := |kinds| - 1;
      ListingAllLists(failed, kinds[..n], name);
      assert kinds == kinds[..n] + [kinds[n]];
      OneMoreListed(failed, ListingAll(failed, kinds[..n], name), kinds[..n], kinds[n], name);
    }
  }

  lemma OneMoreListed(failed: Failures, f: Failures, front: seq<Kind>, last: Kind, name: string)
    requires Lists(failed, f, name, front) && !Leads(front, OutcomeOf(last))
    ensures Lists(failed, Listing(f, OutcomeOf(last), name), name, front + [last])
  {
    forall o
      ensures EntriesOf(Listing(f, OutcomeOf(last), name), o) ==
              EntriesOf(failed, o) + if Leads(front + [last], o) then [name] else []
    {
      LeadsLast(front, last, o);
    }
  }

  lemma KindsDiffer(e: Evidence)
    ensures Differ(Restype(e))
  {
  }

  // ---------------------------------------------------------------- the parts of a call

  /** A state on the way: nothing but the log, the progress and the tests run have grown. */
  ghost predicate OnTheWay(env: Env, s: State, u: State, suite: string, inits: nat) {
    u == s.(history := Told(env, s.history, Inits(suite, inits)), shown := u.shown, executed := u.executed,
            emptyRequests := u.emptyRequests)
  }

  lemma InitsOnce(env: Env, s: State, u: State, suite: string, inits: nat)
    requires OnTheWay(env, s, u, suite, inits)
    ensures OnTheWay(env, s, Logged(env, u, Init(suite)), suite, inits + 1)
  {
    assert s.history + Inits(suite, inits) + [Init(suite)] == s.history + Inits(suite, inits + 1);
  }

  /** The end of a call that came so far. */
  lemma EndsSo(env: Env, s: State, u: State, name: string, seen: World, text: map<string, string>, end: End,
               trace: Trace, suite: string)
    requires OnTheWay(env, s, u.(failed := s.failed), seen.suite, trace.inits)
    requires Fits(end) && end.outcome != REDIR && suite == if end.mark.Many? then seen.reportSuite else seen.suite
    requires Lists(s.failed, u.failed, name, if trace.givenUp then [] else KindsOf(end.mark))
    requires u.shown == s.shown + (if trace.shows then [(s.testIdx, s.testCnt)] else [])
    requires u.executed == s.executed + (if trace.runs then [text] else [])
    requires u.emptyRequests == s.emptyRequests + (if trace.givenUp then 1 else 0)
    ensures Adds(env, s, Ended(env, u, suite, end.mark, trace.time, end.outcome), name, seen, text, end, trace)
  {
    var call := MarkOf(seen, end.mark, trace.time);
    assert s.history + Inits(seen.suite, trace.inits) + [call] == s.history + (Inits(seen.suite, trace.inits) + [call]);
  }

  /** A borked test is listed once. */
  lemma BorksSo(env: Env, s: State, u: State, name: string, seen: World, text: map<string, string>, trace: Trace)
    requires OnTheWay(env, s, u, seen.suite, trace.inits) && !trace.givenUp
    requires u.shown == s.shown + (if trace.shows then [(s.testIdx, s.testCnt)] else [])
    requires u.executed == s.executed + (if trace.runs then [text] else []) && u.emptyRequests == s.emptyRequests
    ensures Adds(env, s, BorkedAs(env, u, name, seen.suite, trace.time).0, name, seen, text, End(BORKED, One(BORK)),
                 trace)
  {
    ListsNothing(s.failed, name);
    OneMoreListed(s.failed, s.failed, [], BORK, name);
    assert [] + [BORK] == [BORK];
    EndsSo(env, s, ListedAs(u, BORKED, name), name, seen, text, End(BORKED, One(BORK)), trace, seen.suite);
  }

  /** A test that passed or failed is listed under its kinds. */
  lemma ConcludesSo(env: Env, s: State, u: State, kinds: seq<Kind>, name: string, seen: World,
                    text: map<string, string>, trace: Trace)
    returns (end: End)
    requires OnTheWay(env, s, u, seen.suite, trace.inits) && !trace.givenUp && trace.time == seen.time
    requires u.shown == s.shown + (if trace.shows then [(s.testIdx, s.testCnt)] else [])
    requires u.executed == s.executed + (if trace.runs then [text] else []) && u.emptyRequests == s.emptyRequests
    requires Differ(kinds) && forall k :: k in kinds ==> k in {LEAK, WARN, XFAIL, FAIL}
    ensures var r := Concluded(env, u, kinds, name, seen);
            Adds(env, s, r.0, name, seen, text, end, trace) && end.outcome == r.1
  {
    if kinds == [] {
      end := End(PASSED, One(PASS));
      ListsNothing(s.failed, name);
      EndsSo(env, s, u, name, seen, text, end, trace, seen.suite);
    } else {
      end := End(OutcomeOf(kinds[0]), Many(kinds));
      assert kinds[0] in kinds;
      ListingAllLists(s.failed, kinds, name);
      EndsSo(env, s, u.(failed := ListingAll(u.failed, kinds, name)), name, seen, text, end, trace, seen.reportSuite);
    }
  }

  /** From "run the test" on. */
  lemma ExecutesSo(env: Env, s: State, u: State, name: string, seen: World, text: map<string, string>, trace: Trace,
                   scripts: nat)
    returns (end: End)
    requires OnTheWay(env, s, u, seen.suite, scripts) && u.emptyRequests == s.emptyRequests
    requires u.shown == s.shown + (if trace.shows then [(s.testIdx, s.testCnt)] else []) && u.executed == s.executed
    requires trace.runs && trace.time == seen.time && trace.givenUp == NoRequest(text, seen)
    requires trace.inits == scripts + if trace.givenUp then 0 else 1
    ensures var r := Executed(env, u, name, text, seen);
            Adds(env, s, r.0, name, seen, text, end, trace) && end.outcome == r.1
  {
    var v := u.(executed := u.executed + [text]);
    if NoRequest(text, seen) {
      end := End(BORKED, One(BORK));
      ListsNothing(s.failed, name);
      EndsSo(env, s, v.(emptyRequests := v.emptyRequests + 1), name, seen, text, end, trace, seen.suite);
    } else {
      var e := EvidenceOf(env, text, seen);
      InitsOnce(env, s, v, seen.suite, scripts);
      KindsDiffer(e);
      RestypeKinds(e);
      end := ConcludesSo(env, s, Logged(env, v, Init(seen.suite)), Restype(e), name, seen, text, trace);
    }
  }

  /** Up to the check for skipping. */
  lemma PreparesSo(env: Env, s: State, item: Item, seen: World, text: map<string, string>, trace: Trace)
    requires IsRedirection(seen, s.inRedirect) || IsRunnable(seen)
    requires trace == TraceOf(seen, s.inRedirect, item, text)
    ensures var u, scripts := Prepared(env, s, text, seen), if trace.shows && HasSkipScript(text) then 1 else 0;
            if IsSkipped(text, seen) then Adds(env, s, u, item.name, seen, text, End(SKIPPED, One(SKIP)), trace)
            else OnTheWay(env, s, u, seen.suite, scripts) && u.emptyRequests == s.emptyRequests
                 && u.executed == s.executed && trace.shows && u.shown == s.shown + [(s.testIdx, s.testCnt)]
  {
    var s1 := if trace.shows then s.(shown := s.shown + [(s.testIdx, s.testCnt)]) else Logged(env, s, Init(seen.suite));
    if trace.shows {
      assert OnTheWay(env, s, s1, seen.suite, 0) by { assert s.history + Inits(seen.suite, 0) == s.history; }
    } else {
      assert OnTheWay(env, s, s, seen.suite, 0) by { assert s.history + Inits(seen.suite, 0) == s.history; }
      InitsOnce(env, s, s, seen.suite, 0);
    }
    var s2 := s1;
    if trace.shows && HasSkipScript(text) {
      s2 := Logged(env, s1, Init(seen.suite));
      InitsOnce(env, s, s1, seen.suite, 0);
    }
    if IsSkipped(text, seen) {
      ListsNothing(s.failed, item.name);
      EndsSo(env, s, s2, item.name, seen, text, End(SKIPPED, One(SKIP)), trace, seen.suite);
    }
  }

  lemma ChecksSo(env: Env, s: State, item: Item, seen: World, text: map<string, string>, trace: Trace,
                 r: (State, Outcome))
    returns (end: End)
    requires if IsRedirection(seen, s.inRedirect) then IsSkipped(text, seen) else IsRunnable(seen)
    requires text == Runs.TextOf(seen, s.inRedirect) && trace == TraceOf(seen, s.inRedirect, item, text)
    requires r == RunChecked(env, s, item, seen)
    ensures Adds(env, s, r.0, item.name, seen, text, end, trace) && end.outcome == r.1
  {
    var u, scripts := Prepared(env, s, text, seen), if HasSkipScript(text) then 1 else 0;
    PreparesSo(env, s, item, seen, text, trace);
    if IsSkipped(text, seen) {
      end := End(SKIPPED, One(SKIP));
    } else {
      CheckedEnds(env, s, item, seen, text, u);
      if item.Pair? {
        end := End(BORKED, One(BORK));
        BorksSo(env, s, u, item.name, seen, text, trace);
      } else {
        end := ExecutesSo(env, s, u, item.name, seen, text, trace, scripts);
      }
    }
  }

  // ---------------------------------------------------------------- one call

  /** A call that follows no redirection, from outside or inside: all that it adds. */
  lemma OneCall(env: Env, s: State, item: Item, seen: World, text: map<string, string>)
    returns (end: End)
    requires seen == env.world(item.name, s.clock) && text == Runs.TextOf(seen, s.inRedirect)
    requires IsRedirection(seen, s.inRedirect) ==> IsSkipped(text, seen)
    ensures var r := RunOne(env, s, item);
            && Adds(env, s.(clock := s.clock + 1), r.0, item.name, seen, text, end,
                    TraceOf(seen, s.inRedirect, item, text))
            && end.outcome == r.1
  {
    var t, trace := s.(clock := s.clock + 1), TraceOf(seen, s.inRedirect, item, text);
    RunOneIs(env, s, item, seen, t);
    if IsRedirection(seen, s.inRedirect) || IsRunnable(seen) {
      end := ChecksSo(env, t, item, seen, text, trace, RunChecked(env, t, item, seen));
    } else {
      end := End(BORKED, One(BORK));
      assert OnTheWay(env, t, t, seen.suite, 0) by { assert t.history + Inits(seen.suite, 0) == t.history; }
      BorksSo(env, t, t, item.name, seen, text, trace);
    }
  }

  /** The sections for which a test needs the CGI binary, when they are neither empty nor 0. */
  predicate WantsCgi(text: map<string, string>, name: string) { name in text && text[name] != "" && text[name] != "0" }

  lemma NeedsCgiIff(text: map<string, string>)
    ensures NeedsCgi(text) <==>
            || WantsCgi(text, "GET") || WantsCgi(text, "POST") || WantsCgi(text, "GZIP_POST")
            || WantsCgi(text, "DEFLATE_POST") || WantsCgi(text, "POST_RAW") || WantsCgi(text, "PUT")
            || WantsCgi(text, "COOKIE") || WantsCgi(text, "EXPECTHEADERS")
  {
    var names := CGI_SECTIONS;
    assert names[0] == "GET" && names[1] == "POST" && names[2] == "GZIP_POST" && names[3] == "DEFLATE_POST";
    assert names[4] == "POST_RAW" && names[5] == "PUT" && names[6] == "COOKIE" && names[7] == "EXPECTHEADERS";
  }

  /** A test is given up if and only if nothing but "" or "0" is left of its raw request, or, without one, of what it
      puts. */
  lemma NoRequestIff(text: map<string, string>, seen: World)
    ensures NoRequest(text, seen) <==>
            || (WantsCgi(text, "POST_RAW") && RequestOf(text["POST_RAW"], seen.typed) in {"", "0"})
            || (!WantsCgi(text, "POST_RAW") && WantsCgi(text, "PUT") && RequestOf(text["PUT"], seen.typed) in {"", "0"})
  {
  }

  /** A call ends SKIPPED if and only if the test passes the checks and lacks the CGI binary, or its script says
      so, or a compressed request lacks zlib. */
  lemma SkippedIff(env: Env, s: State, item: Item, seen: World, text: map<string, string>)
    requires seen == env.world(item.name, s.clock) && text == Runs.TextOf(seen, s.inRedirect)
    ensures RunOne(env, s, item).1 == SKIPPED <==>
            && (IsRedirection(seen, s.inRedirect) || IsRunnable(seen))
            && (|| (NeedsCgi(text) && !seen.cgiAvailable)
                || ("SKIPIF" in text && Trim(text["SKIPIF"]) != "" && Trim(text["SKIPIF"]) != "0"
                    && seen.skipWord.Skip?)
                || (("GZIP_POST" in text || "DEFLATE_POST" in text) && !seen.zlibLoaded))
  {
    if IsRedirection(seen, s.inRedirect) {
      RedirectionEnds(env, s, item);
    } else {
      SkippedAs(env, s.(clock := s.clock + 1), item, seen, text);
      RunOneIs(env, s, item, seen, s.(clock := s.clock + 1));
    }
  }

  lemma SkippedAs(env: Env, s: State, item: Item, seen: World, text: map<string, string>)
    requires !IsRedirection(seen, s.inRedirect) && text == Runs.TextOf(seen, s.inRedirect)
    ensures RunChecked(env, s, item, seen).1 == SKIPPED <==> IsSkipped(text, seen)
  {
    var u := Prepared(env, s, text, seen);
    CheckedEnds(env, s, item, seen, text, u);
    ExecutedEnds(env, u, item.name, text, seen);
    var e := EvidenceOf(env, text, seen);
    RestypeKinds(e);
    assert Restype(e) != [] ==> Restype(e)[0] in Restype(e);
  }
}

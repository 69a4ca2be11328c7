/** What every call of `run_test` ends with, from what it sees. */
module RunOutcomes {
  import opened PhpStrings
  import opened Sections
  import opened Gate
  import opened Results
  import opened Runs
  import opened RunTheorems
  import opened RunAnomalies
  import opened RunMeaning

  /** The file is in order but for what REDIRECTTEST asks for. */
  predicate IsAccepted(seen: World, inRedirect: bool) {
    var p := Parsed(seen.lines);
    p.bork.None? && if "REDIRECTTEST" in p.text then !inRedirect else Acceptable(p.text, seen.dir, seen.files)
  }

  lemma AcceptedIs(seen: World, inRedirect: bool)
    ensures IsAccepted(seen, inRedirect) <==> IsRedirection(seen, inRedirect) || IsRunnable(seen)
  {
  }

  /** A call borks its test if and only if the file is refused, or it redirects to anything but one target, or it is
      not skipped and is a pair or given up. */
  lemma BorkedIff(env: Env, s: State, item: Item, seen: World, text: map<string, string>)
    requires seen == env.world(item.name, s.clock) && text == Runs.TextOf(seen, s.inRedirect)
    ensures RunOne(env, s, item).1 == BORKED <==>
            || !IsAccepted(seen, s.inRedirect)
            || (!IsSkipped(text, seen) && if "REDIRECTTEST" in Parsed(seen.lines).text then !seen.oneTarget
                                          else item.Pair? || NoRequest(text, seen))
  {
    AcceptedIs(seen, s.inRedirect);
    if IsRedirection(seen, s.inRedirect) {
      RedirectionEnds(env, s, item);
    } else {
      OtherOutcomes(env, s, item, seen, text);
    }
  }

  /** A call ends REDIR if and only if it follows a redirection: outside, not skipped, to one target. */
  lemma RedirIff(env: Env, s: State, item: Item, seen: World, text: map<string, string>)
    requires seen == env.world(item.name, s.clock) && text == Runs.TextOf(seen, s.inRedirect)
    ensures RunOne(env, s, item).1 == REDIR <==>
            && Parsed(seen.lines).bork.None? && "REDIRECTTEST" in Parsed(seen.lines).text && !s.inRedirect
            && !IsSkipped(text, seen) && seen.oneTarget
  {
    if IsRedirection(seen, s.inRedirect) {
      RedirectionEnds(env, s, item);
    } else {
      OtherOutcomes(env, s, item, seen, text);
    }
  }

  lemma OtherOutcomes(env: Env, s: State, item: Item, seen: World, text: map<string, string>)
    requires seen == env.world(item.name, s.clock) && text == Runs.TextOf(seen, s.inRedirect)
    requires !IsRedirection(seen, s.inRedirect)
    ensures RunOne(env, s, item).1 != REDIR
    ensures RunOne(env, s, item).1 == BORKED <==>
            !IsRunnable(seen) || (!IsSkipped(text, seen) && (item.Pair? || NoRequest(text, seen)))
  {
    var t := s.(clock := s.clock + 1);
    RunOneIs(env, s, item, seen, t);
    if IsRunnable(seen) {
      var u := Prepared(env, t, text, seen);
      CheckedEnds(env, t, item, seen, text, u);
      ExecutedEnds(env, u, item.name, text, seen);
    }
  }

  /** The SKIPIF script warned. */
  predicate IsWarned(seen: World, text: map<string, string>) {
    "SKIPIF" in text && Trim(text["SKIPIF"]) != "" && Trim(text["SKIPIF"]) != "0" && seen.skipWord.Warn?
  }

  /** What a test ends with whose output is compared: a leak counts before a warning, and a warning before a failure;
      a test that should fail and does not is a warning. */
  lemma ComparedEnds(env: Env, s: State, item: Item, seen: World, text: map<string, string>, met: bool, warned: bool)
    requires seen == env.world(item.name, s.clock) && text == Runs.TextOf(seen, s.inRedirect)
    requires IsCompared(seen, item, text) && met == IsMet(env, seen, text) && warned == IsWarned(seen, text)
    ensures RunOne(env, s, item).1 ==
            var passed := met && !seen.failedHeaders;
            if passed && !seen.leaked && "XFAIL" !in text then PASSED
            else if seen.leaked then LEAKED
            else if warned || (passed && "XFAIL" in text) then WARNED
            else if "XFAIL" in text then XFAILED else FAILED
  {
    var t := s.(clock := s.clock + 1);
    RunOneIs(env, s, item, seen, t);
    var u := Prepared(env, t, text, seen);
    CheckedEnds(env, t, item, seen, text, u);
    var e := Evidence(met, seen.leaked, seen.failedHeaders, warned, "XFAIL" in text);
    ExecutedAs(env, u, item.name, text, seen, e);
    FirstKind(e);
  }

  lemma FirstKind(e: Evidence)
    ensures (if Restype(e) == [] then PASSED else OutcomeOf(Restype(e)[0])) ==
            var passed := e.matched && !e.failedHeaders;
            if passed && !e.leaked && !e.xfail then PASSED
            else if e.leaked then LEAKED
            else if e.warned || (passed && e.xfail) then WARNED
            else if e.xfail then XFAILED else FAILED
  {
  }

  lemma ExecutedAs(env: Env, s: State, name: string, text: map<string, string>, seen: World, e: Evidence)
    requires !NoRequest(text, seen) && e == EvidenceOf(env, text, seen)
    ensures Executed(env, s, name, text, seen).1 == if Restype(e) == [] then PASSED else OutcomeOf(Restype(e)[0])
  {
  }

  // ---------------------------------------------------------------- a redirection that is not followed

  /** The last call on the log, if there is one. */
  function Last(history: seq<Junit.Call>): seq<Junit.Call> { if history == [] then [] else history[|history| - 1..] }

  /** Without exactly one target a redirection is listed twice, marked once, and not left. */
  lemma UnfollowedAdds(env: Env, s: State, item: Item, seen: World, r: (State, Outcome))
    requires seen == env.world(item.name, s.clock) && !s.inRedirect && LeavesInside(seen)
    requires r == RunOne(env, s, item)
    ensures r.1 == BORKED && r.0.inRedirect && r.0.results == s.results && r.0.clock == s.clock + 1
    ensures r.0.ended == s.ended + [End(BORKED, Junit.One(Junit.BORK))]
    ensures EntriesOf(r.0.failed, BORKED) == EntriesOf(s.failed, BORKED) + [item.name, item.name]
    ensures env.logging ==> [Junit.DoMark(seen.suite, Junit.One(Junit.BORK), seen.time)] == Last(r.0.history)
  {
    var t, text := s.(clock := s.clock + 1), Parsed(seen.lines).text;
    var u := Prepared(env, t, text, seen);
    RunOneIs(env, s, item, seen, t);
    RedirectionGoesOn(env, t, item, seen, text, u);
    UnfollowedAs(env, u, item, text, seen, r);
  }

  lemma UnfollowedAs(env: Env, s: State, item: Item, text: map<string, string>, seen: World, r: (State, Outcome))
    requires !s.inRedirect && !seen.oneTarget && r == Followed(env, s, item, text, seen)
    ensures r.1 == BORKED && r.0.inRedirect && r.0.results == s.results && r.0.clock == s.clock
    ensures r.0.ended == s.ended + [End(BORKED, Junit.One(Junit.BORK))]
    ensures EntriesOf(r.0.failed, BORKED) == EntriesOf(s.failed, BORKED) + [item.name, item.name]
    ensures env.logging ==> [Junit.DoMark(seen.suite, Junit.One(Junit.BORK), seen.time)] == Last(r.0.history)
  {
  }
}

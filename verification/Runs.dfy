/** A whole run as a function: `run_all_tests` and `run_test` call each other over shared counters.
    What a test file holds and what its process does is outside, and may differ each time it is looked at. */
module Runs {
  import opened PhpStrings
  import opened Sections
  import opened Gate
  import opened Junit
  import opened Results
  import opened Requests
  import opened Expectations

  /** An entry of a list of tests: a file, or a file together with the one that redirects to it. */
  datatype Item = Single(name: string) | Pair(name: string, via: string)

  /** What the SKIPIF script says. */
  datatype SkipWord = Nothing | Skip | Warn

  /** Everything outside that one call of `run_test` looks at. */
  datatype World = World(
    lines: seq<string>,            // of the test file
    dir: string,                   // its directory
    files: map<string, string>,    // the files that exist
    suite: string,                 // its JUnit suite
    time: nat,                     // its JUnit time, as `+=` reads it: from 1000 s on only up to the comma
    reportSuite: string,           // the suite a failure is reported under
    cgiAvailable: bool,
    skipWord: SkipWord,
    zlibLoaded: bool,
    oneTarget: bool,               // the redirection names exactly one target
    targets: seq<string>,          // the tests found there, in order
    typed: bool,                   // a content type is set in the environment
    printed: string,               // the output of the test
    leaked: bool, failedHeaders: bool)

  /** The outside by file and time, when an output meets an expectation, and whether a JUnit log is wanted. */
  datatype Env = Env(world: (string, nat) -> World, meets: (Expectation, string) -> bool, logging: bool)

  /** The result of a call of `run_test` and the mark it is logged with. */
  datatype End = End(outcome: Outcome, mark: Mark)

  /** The shared variables. */
  datatype State = State(
    clock: nat,                            // calls of run_test so far; time for the outside
    testCnt: int,
    testIdx: int,
    inRedirect: bool,
    results: map<string, Outcome>,
    failed: map<Outcome, seq<string>>,     // PHP_FAILED_TESTS, by name
    shown: seq<(int, int)>,                // index and count each time progress is shown
    executed: seq<map<string, string>>,    // the sections of each test that got as far as being run
    redirections: nat,
    emptyRequests: nat,                    // tests given up for an empty request
    ended: seq<End>,                       // how each call of run_test ended
    history: seq<Call>)                    // calls on the JUnit log

  function Initial(items: seq<Item>): State {
    State(0, |items|, 0, false, map[], map[], [], [], 0, 0, [], [])
  }

  // ---------------------------------------------------------------- one test

  const CGI_SECTIONS: seq<string> :=
    ["GET", "POST", "GZIP_POST", "DEFLATE_POST", "POST_RAW", "PUT", "COOKIE", "EXPECTHEADERS"]

  predicate NeedsCgi(text: map<string, string>) {
    exists k :: 0 <= k < |CGI_SECTIONS| && CGI_SECTIONS[k] in text && Truthy(text[CGI_SECTIONS[k]])
  }

  function Logged(env: Env, s: State, c: Call): State {
    if env.logging then s.(history := s.history + [c]) else s
  }

  /** The end of a call. */
  function Ended(env: Env, s: State, suite: string, mark: Mark, time: nat, o: Outcome): State {
    Logged(env, s.(ended := s.ended + [End(o, mark)]), DoMark(suite, mark, time))
  }

  type Failures = map<Outcome, seq<string>>

  function EntriesOf(failed: Failures, o: Outcome): seq<string> { if o in failed then failed[o] else [] }

  function Listing(failed: Failures, o: Outcome, name: string): Failures {
    failed[o := EntriesOf(failed, o) + [name]]
  }

  function ListingAll(failed: Failures, kinds: seq<Kind>, name: string): Failures {
    if kinds == [] then failed
    else Listing(ListingAll(failed, kinds[..|kinds| - 1], name), OutcomeOf(kinds[|kinds| - 1]), name)
  }

  function ListedAs(s: State, o: Outcome, name: string): State { s.(failed := Listing(s.failed, o, name)) }

  function BorkedAs(env: Env, s: State, name: string, suite: string, time: nat): (State, Outcome) {
    (Ended(env, ListedAs(s, BORKED, name), suite, One(BORK), time, BORKED), BORKED)
  }

  predicate HasSkipScript(text: map<string, string>) { "SKIPIF" in text && Truthy(Trim(text["SKIPIF"])) }

  predicate NoCgi(text: map<string, string>, seen: World) { NeedsCgi(text) && !seen.cgiAvailable }

  predicate NoZlib(text: map<string, string>, seen: World) {
    !seen.zlibLoaded && ("GZIP_POST" in text || "DEFLATE_POST" in text)
  }

  /** When a test is skipped instead of being run or followed. */
  predicate IsSkipped(text: map<string, string>, seen: World) {
    NoCgi(text, seen) || (HasSkipScript(text) && seen.skipWord.Skip?) || NoZlib(text, seen)
  }

  function SkipTime(text: map<string, string>, seen: World): nat { if NoCgi(text, seen) then 0 else seen.time }

  /** Progress is shown unless the CGI binary is missing; the suite is initialised when a script runs. */
  function Prepared(env: Env, s: State, text: map<string, string>, seen: World): (t: State)
    ensures t.inRedirect == s.inRedirect
  {
    var s1 := if NoCgi(text, seen) then Logged(env, s, Init(seen.suite))
              else s.(shown := s.shown + [(s.testIdx, s.testCnt)]);
    var s2 := if !NoCgi(text, seen) && HasSkipScript(text) then Logged(env, s1, Init(seen.suite)) else s1;
    if IsSkipped(text, seen) then Ended(env, s2, seen.suite, One(SKIP), SkipTime(text, seen), SKIPPED) else s2
  }

  function EvidenceOf(env: Env, text: map<string, string>, seen: World): Evidence {
    Evidence(env.meets(ExpectationOf(text), Cleaned(seen.printed, NeedsCgi(text))), seen.leaked, seen.failedHeaders,
             HasSkipScript(text) && seen.skipWord.Warn?, "XFAIL" in text)
  }

  /** The report on a test that ran; no kind stands for a clean pass. */
  function Concluded(env: Env, s: State, kinds: seq<Kind>, name: string, seen: World): (r: (State, Outcome))
    ensures r.0.inRedirect == s.inRedirect && r.0.results == s.results
  {
    if kinds == [] then (Ended(env, s, seen.suite, One(PASS), seen.time, PASSED), PASSED)
    else
      var t := s.(failed := ListingAll(s.failed, kinds, name));
      (Ended(env, t, seen.reportSuite, Many(kinds), seen.time, OutcomeOf(kinds[0])), OutcomeOf(kinds[0]))
  }

  /** Run the process and report on it. */
  function Reported(env: Env, s: State, name: string, text: map<string, string>, seen: World): (r: (State, Outcome))
    ensures r.0.inRedirect == s.inRedirect && r.0.results == s.results
  {
    Concluded(env, Logged(env, s, Init(seen.suite)), Restype(EvidenceOf(env, text, seen)), name, seen)
  }

  /** A raw request body of which nothing is left. */
  predicate NoRequest(text: map<string, string>, seen: World) {
    if "POST_RAW" in text && Truthy(text["POST_RAW"]) then !Truthy(RequestOf(text["POST_RAW"], seen.typed))
    else "PUT" in text && Truthy(text["PUT"]) && !Truthy(RequestOf(text["PUT"], seen.typed))
  }

  /** From "run the test" on.  A test given up for an empty request is borked without being listed. */
  function Executed(env: Env, s: State, name: string, text: map<string, string>, seen: World): (r: (State, Outcome))
    ensures r.0.inRedirect == s.inRedirect && r.0.results == s.results
  {
    var s1 := s.(executed := s.executed + [text]);
    if NoRequest(text, seen) then
      (Ended(env, s1.(emptyRequests := s1.emptyRequests + 1), seen.suite, One(BORK), seen.time, BORKED), BORKED)
    else
      Reported(env, s1, name, text, seen)
  }

  predicate IsRedirection(seen: World, inRedirect: bool) {
    Parsed(seen.lines).bork.None? && "REDIRECTTEST" in Parsed(seen.lines).text && !inRedirect
  }

  predicate IsRunnable(seen: World) {
    Parsed(seen.lines).bork.None? && Acceptable(Parsed(seen.lines).text, seen.dir, seen.files)
  }

  /** The sections a test goes on with. */
  function TextOf(seen: World, inRedirect: bool): map<string, string> {
    var parsed := Parsed(seen.lines).text;
    if IsRedirection(seen, inRedirect) then parsed else Loaded(|PREFIXES|, Renamed(parsed), seen.dir, seen.files)
  }

  function Targets(item: Item, seen: World): seq<Item> {
    if item.Pair? then [Single(item.via)]
    else seq(|seen.targets|, k requires 0 <= k < |seen.targets| => Pair(seen.targets[k], item.name))
  }

  /** The state in which the tests behind a redirection are run. */
  function Entering(s: State, tests: seq<Item>): State {
    s.(inRedirect := true, redirections := s.redirections + 1,
       testCnt := s.testCnt + |tests| - 1, testIdx := s.testIdx - 1)
  }

  function Rank(s: State): nat { if s.inRedirect then 0 else 1 }

  /** Follow a redirection.  Without exactly one target it is borked, and the runner stays inside. */
  function Followed(env: Env, s: State, item: Item, text: map<string, string>, seen: World): (State, Outcome)
    requires !s.inRedirect
    decreases Rank(s), 0, 0
  {
    if seen.oneTarget then
      var tests := Targets(item, seen);
      var t := RunAll(env, Entering(s, tests), tests, if "TEST" in text then Trim(text["TEST"]) else "");
      (Ended(env, t.(inRedirect := false), seen.suite, One(PASS), seen.time, REDIR), REDIR)
    else
      BorkedAs(env, ListedAs(s.(inRedirect := true), BORKED, item.name), item.name, seen.suite, seen.time)
  }

  /** A test that passed the checks. */
  function RunChecked(env: Env, s: State, item: Item, seen: World): (r: (State, Outcome))
    ensures s.inRedirect ==> r.0.inRedirect
    decreases Rank(s), 1, 0
  {
    var text := TextOf(seen, s.inRedirect);
    var t := Prepared(env, s, text, seen);
    if IsSkipped(text, seen) then (t, SKIPPED)
    else if IsRedirection(seen, s.inRedirect) then Followed(env, t, item, text, seen)
    else if item.Pair? then BorkedAs(env, t, item.name, seen.suite, seen.time)
    else Executed(env, t, item.name, text, seen)
  }

  /** `run_test`.  Inside a redirection no other one is entered. */
  function RunOne(env: Env, s: State, item: Item): (r: (State, Outcome))
    ensures s.inRedirect ==> r.0.inRedirect
    decreases Rank(s), 2, 0
  {
    var seen := env.world(item.name, s.clock);
    var t := s.(clock := s.clock + 1);
    if IsRedirection(seen, s.inRedirect) || IsRunnable(seen) then RunChecked(env, t, item, seen)
    else BorkedAs(env, t, item.name, seen.suite, 0)
  }

  // ---------------------------------------------------------------- a list of tests

  function Unwrapped(item: Item, redirTested: string): Item {
    if item.Pair? && Truthy(redirTested) then Single(item.name) else item
  }

  function IndexOf(item: Item, redirTested: string): string {
    if item.Pair? then "# " + item.via + ": " + item.name
    else if Truthy(redirTested) then "# " + redirTested + ": " + item.name
    else item.name
  }

  function Stored(s: State, item: Item, index: string, r: Outcome): State {
    if item.Single? && r != REDIR then s.(results := s.results[index := r]) else s
  }

  /** `run_test` on the next index. */
  function RunNextOf(env: Env, s: State, item: Item): (r: (State, Outcome))
    ensures s.inRedirect ==> r.0.inRedirect
    decreases Rank(s), 3, 0
  {
    RunOne(env, s.(testIdx := s.testIdx + 1), item)
  }

  /** One round of `run_all_tests`. */
  function RunItem(env: Env, s: State, item: Item, redirTested: string): (t: State)
    ensures s.inRedirect ==> t.inRedirect
    decreases Rank(s), 4, 0
  {
    var one := Unwrapped(item, redirTested);
    var r := RunNextOf(env, s, one);
    Stored(r.0, one, IndexOf(item, redirTested), r.1)
  }

  /** `run_all_tests`. */
  function RunAll(env: Env, s: State, items: seq<Item>, redirTested: string): (t: State)
    ensures s.inRedirect ==> t.inRedirect
    decreases Rank(s), 5, |items|
  {
    if items == [] then s
    else RunAll(env, RunItem(env, s, items[0], redirTested), items[1..], redirTested)
  }
}

/** Two places where a run does not do what one would expect, and exactly when: a borked redirection
    leaves the runner inside, and a test given up for an empty request is borked without being listed. */
module RunAnomalies {
  import opened PhpStrings
  import opened Sections
  import opened Gate
  import opened Requests
  import opened Results
  import opened Runs
  import opened RunTheorems

  // ---------------------------------------------------------------- staying inside a redirection

  /** A redirection that is neither skipped nor has exactly one target. */
  predicate LeavesInside(seen: World) {
    IsRedirection(seen, false) && !IsSkipped(Parsed(seen.lines).text, seen) && !seen.oneTarget
  }

  /** The test is given up because nothing is left of its request. */
  predicate GivenUp(seen: World, inRedirect: bool, item: Item) {
    var text := Runs.TextOf(seen, inRedirect);
    IsRunnable(seen) && item.Single? && !IsSkipped(text, seen) && NoRequest(text, seen)
  }

  /** What a run sees of its item `i`. */
  function SeenOf(env: Env, s: State, items: seq<Item>, redirTested: string, i: nat): World
    requires i < |items|
  {
    env.world(items[i].name, RunAll(env, s, items[..i], redirTested).clock)
  }

  /** Following a redirection: without exactly one target it is borked, listed, and not left. */
  lemma FollowedEnds(env: Env, s: State, item: Item, text: map<string, string>, seen: World)
    requires !s.inRedirect
    ensures var r := Followed(env, s, item, text, seen);
            && (r.0.inRedirect <==> !seen.oneTarget) && r.1 == (if seen.oneTarget then REDIR else BORKED)
            && (!seen.oneTarget ==> |EntriesOf(r.0.failed, BORKED)| > |EntriesOf(s.failed, BORKED)|)
  {
  }

  /** A test that is run. */
  lemma ExecutedEnds(env: Env, s: State, name: string, text: map<string, string>, seen: World)
    ensures var r := Executed(env, s, name, text, seen);
            && r.0.inRedirect == s.inRedirect && r.1 != REDIR
            && (r.1 == BORKED <==> NoRequest(text, seen))
            && (NoRequest(text, seen) ==> r.0.failed == s.failed)
            && r.0.emptyRequests == s.emptyRequests + if NoRequest(text, seen) then 1 else 0
  {
    if !NoRequest(text, seen) {
      var e := EvidenceOf(env, text, seen);
      RestypeIsListed(e);
      var kinds := Restype(e);
      assert kinds != [] ==> kinds[0] in kinds;
    }
  }

  lemma RestypeIsListed(e: Evidence)
    ensures forall k :: k in Restype(e) ==> OutcomeOf(k) != BORKED && OutcomeOf(k) != REDIR
  {
    if !CleanPass(e) { KindsNotEmpty(e); }
  }

  /** A test that redirects, outside of a redirection. */
  lemma RedirectionEnds(env: Env, s: State, item: Item)
    requires IsRedirection(env.world(item.name, s.clock), s.inRedirect)
    ensures var r, seen := RunOne(env, s, item), env.world(item.name, s.clock);
            var skipped := IsSkipped(Parsed(seen.lines).text, seen);
            && (r.0.inRedirect <==> LeavesInside(seen))
            && r.1 == (if skipped then SKIPPED else if seen.oneTarget then REDIR else BORKED)
            && (r.1 == BORKED ==> |EntriesOf(r.0.failed, BORKED)| > |EntriesOf(s.failed, BORKED)|)
  {
    var seen := env.world(item.name, s.clock);
    var t := s.(clock := s.clock + 1);
    var text := Parsed(seen.lines).text;
    var u := Prepared(env, t, text, seen);
    RunOneIs(env, s, item, seen, t);
    RedirectionGoesOn(env, t, item, seen, text, u);
    if !IsSkipped(text, seen) { FollowedEnds(env, u, item, text, seen); }
  }

  lemma RedirectionGoesOn(env: Env, s: State, item: Item, seen: World, text: map<string, string>, u: State)
    requires IsRedirection(seen, s.inRedirect) && text == Parsed(seen.lines).text && u == Prepared(env, s, text, seen)
    ensures !u.inRedirect && u.failed == s.failed
    ensures RunChecked(env, s, item, seen) ==
            if IsSkipped(text, seen) then (u, SKIPPED) else Followed(env, u, item, text, seen)
  {
  }

  lemma CheckedEnds(env: Env, s: State, item: Item, seen: World, text: map<string, string>, u: State)
    requires !IsRedirection(seen, s.inRedirect) && text == Runs.TextOf(seen, s.inRedirect)
            && u == Prepared(env, s, text, seen)
    ensures RunChecked(env, s, item, seen) ==
            if IsSkipped(text, seen) then (u, SKIPPED)
            else if item.Pair? then BorkedAs(env, u, item.name, seen.suite, seen.time)
            else Executed(env, u, item.name, text, seen)
    ensures u.inRedirect == s.inRedirect && u.failed == s.failed && u.emptyRequests == s.emptyRequests
  {
  }

  lemma BorkEnds(env: Env, s: State, name: string, suite: string, time: nat)
    ensures var r := BorkedAs(env, s, name, suite, time);
            && r.0.inRedirect == s.inRedirect && r.1 == BORKED && r.0.emptyRequests == s.emptyRequests
            && |EntriesOf(r.0.failed, BORKED)| > |EntriesOf(s.failed, BORKED)|
  {
  }

  /** A call that ended outside of redirections: nothing entered or left, and when it borked without an entry. */
  ghost predicate EndsQuietly(s: State, t: State, o: Outcome, givenUp: bool) {
    && t.inRedirect == s.inRedirect && o != REDIR
    && (o == BORKED && EntriesOf(t.failed, BORKED) == EntriesOf(s.failed, BORKED) <==> givenUp)
    && (t.emptyRequests != s.emptyRequests <==> givenUp)
  }

  lemma RunnableEnds(env: Env, s: State, item: Item, seen: World, r: (State, Outcome))
    requires IsRunnable(seen) && !IsRedirection(seen, s.inRedirect) && r == RunChecked(env, s, item, seen)
    ensures EndsQuietly(s, r.0, r.1, GivenUp(seen, s.inRedirect, item))
  {
    var text := Runs.TextOf(seen, s.inRedirect);
    var u := Prepared(env, s, text, seen);
    CheckedEnds(env, s, item, seen, text, u);
    BorkEnds(env, u, item.name, seen.suite, seen.time);
    ExecutedEnds(env, u, item.name, text, seen);
  }

  lemma OthersEndAs(env: Env, s: State, item: Item, seen: World, r: (State, Outcome))
    requires seen == env.world(item.name, s.clock) && !IsRedirection(seen, s.inRedirect) && r == RunOne(env, s, item)
    ensures EndsQuietly(s, r.0, r.1, GivenUp(seen, s.inRedirect, item))
  {
    var t := s.(clock := s.clock + 1);
    if IsRunnable(seen) {
      RunnableEnds(env, t, item, seen, r);
    } else {
      BorkEnds(env, t, item.name, seen.suite, 0);
    }
  }

  /** Any other test neither enters nor leaves a redirection. */
  lemma OthersEnd(env: Env, s: State, item: Item)
    requires !IsRedirection(env.world(item.name, s.clock), s.inRedirect)
    ensures var r := RunOne(env, s, item);
            EndsQuietly(s, r.0, r.1, GivenUp(env.world(item.name, s.clock), s.inRedirect, item))
  {
    OthersEndAs(env, s, item, env.world(item.name, s.clock), RunOne(env, s, item));
  }

  /** A test leaves the runner inside a redirection if and only if it is a borked redirection. */
  lemma LeavesInsideIff(env: Env, s: State, item: Item)
    requires !s.inRedirect
    ensures RunOne(env, s, item).0.inRedirect <==> LeavesInside(env.world(item.name, s.clock))
  {
    if IsRedirection(env.world(item.name, s.clock), false) {
      RedirectionEnds(env, s, item);
    } else {
      OthersEnd(env, s, item);
    }
  }

  lemma ItemLeavesInsideIff(env: Env, s: State, item: Item, redirTested: string)
    ensures RunItem(env, s, item, redirTested).inRedirect <==>
            s.inRedirect || LeavesInside(env.world(item.name, s.clock))
  {
    if !s.inRedirect {
      LeavesInsideIff(env, s.(testIdx := s.testIdx + 1), Unwrapped(item, redirTested));
    }
  }

  /** Some item of the list leaves the runner inside. */
  ghost predicate SomeLeaves(env: Env, s: State, items: seq<Item>, redirTested: string) {
    exists i :: 0 <= i < |items| && LeavesInside(SeenOf(env, s, items, redirTested, i))
  }

  lemma SomeLeavesLast(env: Env, s: State, front: seq<Item>, item: Item, redirTested: string)
    ensures SomeLeaves(env, s, front + [item], redirTested) <==>
            SomeLeaves(env, s, front, redirTested) ||
            LeavesInside(env.world(item.name, RunAll(env, s, front, redirTested).clock))
  {
    var items := front + [item];
    forall i | 0 <= i < |front|
      ensures SeenOf(env, s, items, redirTested, i) == SeenOf(env, s, front, redirTested, i)
    {
      assert items[..i] == front[..i];
    }
    assert items[..|front|] == front;
    assert SeenOf(env, s, items, redirTested, |front|)
        == env.world(item.name, RunAll(env, s, front, redirTested).clock);
  }

  /** Over a whole list: the runner is inside at the end if and only if it began so or some item left it there. */
  lemma {:induction false} StuckIff(env: Env, s: State, items: seq<Item>, redirTested: string)
    ensures RunAll(env, s, items, redirTested).inRedirect <==> s.inRedirect || SomeLeaves(env, s, items, redirTested)
    decreases |items|
  {
    if items == [] {
    } else {
      var n := |items| - 1;
      var front := items[..n];
      StuckIff(env, s, front, redirTested);
      var before := RunAll(env, s, front, redirTested);
      assert items == front + [items[n]];
      RunAllConcat(env, s, front, [items[n]], redirTested);
      RunAllOne(env, before, items[n], redirTested);
      ItemLeavesInsideIff(env, before, items[n], redirTested);
      SomeLeavesLast(env, s, front, items[n], redirTested);
    }
  }

  lemma RunAllOne(env: Env, s: State, item: Item, redirTested: string)
    ensures RunAll(env, s, [item], redirTested) == RunItem(env, s, item, redirTested)
  {
    assert [item][1..] == [];
  }

  /** Inside, every test that redirects is borked. */
  lemma InsideIsBorked(env: Env, s: State, item: Item)
    requires s.inRedirect && "REDIRECTTEST" in Parsed(env.world(item.name, s.clock).lines).text
    ensures RunOne(env, s, item).1 == BORKED
  {
  }

  /** What becomes of item `i` of a list. */
  function OutcomeAt(env: Env, s: State, items: seq<Item>, redirTested: string, i: nat): Outcome
    requires i < |items|
  {
    var before := RunAll(env, s, items[..i], redirTested);
    RunNextOf(env, before, Unwrapped(items[i], redirTested)).1
  }

  /** A redirection with one target, which would be followed on its own, is followed in a run if and only if no
      earlier item left the runner inside; otherwise it is borked. */
  lemma FollowedIff(env: Env, s: State, items: seq<Item>, redirTested: string, i: nat)
    requires !s.inRedirect && i < |items|
    requires var seen := SeenOf(env, s, items, redirTested, i);
             IsRedirection(seen, false) && !IsSkipped(Parsed(seen.lines).text, seen) && seen.oneTarget
    ensures OutcomeAt(env, s, items, redirTested, i) ==
            if SomeLeaves(env, s, items[..i], redirTested) then BORKED else REDIR
  {
    var front := items[..i];
    StuckIff(env, s, front, redirTested);
    var before := RunAll(env, s, front, redirTested);
    var s1 := before.(testIdx := before.testIdx + 1);
    var item := Unwrapped(items[i], redirTested);
    assert env.world(item.name, s1.clock) == SeenOf(env, s, items, redirTested, i);
    if before.inRedirect { InsideIsBorked(env, s1, item); } else { RedirectionEnds(env, s1, item); }
  }

  // ---------------------------------------------------------------- borked without an entry

  /** A call borks a test without listing it if and only if the test is given up for an empty request. */
  lemma UnlistedIff(env: Env, s: State, item: Item)
    ensures var r := RunOne(env, s, item);
            r.1 == BORKED && EntriesOf(r.0.failed, BORKED) == EntriesOf(s.failed, BORKED) <==>
            GivenUp(env.world(item.name, s.clock), s.inRedirect, item)
  {
    if IsRedirection(env.world(item.name, s.clock), s.inRedirect) {
      RedirectionEnds(env, s, item);
    } else {
      OthersEnd(env, s, item);
    }
  }

  // ---------------------------------------------------------------- runs where it happens

  /** A file with the given sections behind --TEST--, all that a test may need at hand. */
  function Example(ss: seq<Section>, oneTarget: bool): World {
    World(PrintSections([Section("TEST", [])] + ss), "", map[], "", 0, "", true, Nothing, true, oneTarget, [], false,
          "", false, false)
  }

  lemma ExampleParsed(ss: seq<Section>, oneTarget: bool)
    requires Printable(ss) && NewNames({"TEST"}, Names(ss))
    ensures var p := Parsed(Example(ss, oneTarget).lines);
            p.bork == None && p.text == SectionMap(ss)["TEST" := ""]
  {
    var test := Section("TEST", []);
    assert Printable([test] + ss) by {
      assert IsName("TEST");
      assert forall k :: 0 < k < |[test] + ss| ==> ([test] + ss)[k] == ss[k - 1];
    }
    ParsePrinted(test, ss);
    assert Concat(test.body) == "";
  }

  /** Two files that redirect; only "b" names exactly one target. */
  function TwoRedirections(): Env {
    Env((name, clock) => Example([Section("REDIRECTTEST", [])], name == "b"), (e, output) => true, false)
  }

  lemma RedirectionExample(oneTarget: bool)
    ensures IsRedirection(Example([Section("REDIRECTTEST", [])], oneTarget), false)
  {
    var ss := [Section("REDIRECTTEST", [])];
    assert Printable(ss) by { assert IsName("REDIRECTTEST"); }
    assert Names(ss) == ["REDIRECTTEST"];
    ExampleParsed(ss, oneTarget);
  }

  /** On its own the second file is followed; behind the first it is borked. */
  lemma SecondRedirectionBorked(items: seq<Item>)
    requires items == [Single("a"), Single("b")]
    ensures OutcomeAt(TwoRedirections(), Initial(items), items, "", 1) == BORKED
    ensures OutcomeAt(TwoRedirections(), Initial(items[1..]), items[1..], "", 0) == REDIR
  {
    var env := TwoRedirections();
    RedirectionExample(true);
    RedirectionExample(false);
    assert LeavesInside(SeenOf(env, Initial(items), items[..1], "", 0));
    FollowedIff(env, Initial(items), items, "", 1);
    FollowedIff(env, Initial(items[1..]), items[1..], "", 0);
  }

  /** A file whose raw request is nothing but a content type. */
  function EmptyRequest(post: string): seq<Section> {
    [Section("FILE", []), Section("EXPECT", []), Section("POST_RAW", [post])]
  }

  lemma EmptyRequestText(post: string)
    requires Header(post).None?
    ensures var p := Parsed(Example(EmptyRequest(post), true).lines);
            && p.bork == None && p.text.Keys == {"TEST", "FILE", "EXPECT", "POST_RAW"} && p.text["POST_RAW"] == post
  {
    var ss := EmptyRequest(post);
    EmptyRequestNames(ss, post);
    ExampleParsed(ss, true);
    SectionMapKeys(ss);
    LastSection(post);
  }

  lemma EmptyRequestNames(ss: seq<Section>, post: string)
    requires Header(post).None? && ss == EmptyRequest(post)
    ensures Printable(ss) && Names(ss) == ["FILE", "EXPECT", "POST_RAW"] && NewNames({"TEST"}, Names(ss))
  {
    assert IsName("FILE") && IsName("EXPECT") && IsName("POST_RAW");
  }

  lemma LastSection(post: string)
    ensures var m := SectionMap(EmptyRequest(post)); "POST_RAW" in m && m["POST_RAW"] == post
  {
    var ss := EmptyRequest(post);
    assert ss[1..][1..] == [ss[2]] && ss[2] == Section("POST_RAW", [post]);
    assert Kept(false, [post]) == [post] && Concat([post]) == post + "" == post;
    assert SectionMap([ss[2]]) == map["POST_RAW" := post];
  }

  lemma NothingToLoad(n: nat, text: map<string, string>, dir: string, files: map<string, string>)
    requires n <= |PREFIXES| && forall k :: 0 <= k < |PREFIXES| ==> External(PREFIXES[k]) !in text
    ensures AllFound(n, text, dir, files) && Loaded(n, text, dir, files) == text
  {
  }

  lemma OnlyType(post: string)
    requires post == "Content-Type: a"
    ensures RequestOf(post, false) == "" && Truthy(post) && Header(post).None?
  {
    assert Trim(post) == post;
    ExplodeOneLine(post);
    assert post[..|TYPE_HEADER|] == TYPE_HEADER;
    assert [post][1..] == [];
    assert BodyLines([post], false) == [];
  }

  lemma EmptyRequestGivenUp(post: string)
    requires post == "Content-Type: a"
    ensures GivenUp(Example(EmptyRequest(post), true), false, Single("a"))
  {
    var seen := Example(EmptyRequest(post), true);
    OnlyType(post);
    EmptyRequestText(post);
    var text := Parsed(seen.lines).text;
    NotExternal(text);
    NothingToLoad(|PREFIXES|, text, seen.dir, seen.files);
  }

  lemma NotExternal(text: map<string, string>)
    requires text.Keys == {"TEST", "FILE", "EXPECT", "POST_RAW"}
    ensures forall k :: 0 <= k < |PREFIXES| ==> External(PREFIXES[k]) !in text
    ensures FileCount(text) == 1 && GivenCount(text) == 1 && "REDIRECTTEST" !in text && Renamed(text) == text
  {
    assert forall k :: 0 <= k < 4 ==> |External(PREFIXES[k])| == |PREFIXES[k]| + 9;
  }

  function OneRequest(post: string): Env {
    Env((name, clock) => Example(EmptyRequest(post), true), (e, output) => true, false)
  }

  /** The run of this one file: its result is BORKED and the list of failures is empty. */
  lemma BorkedWithoutEntry(items: seq<Item>, post: string)
    requires items == [Single("a")] && post == "Content-Type: a"
    ensures var t := RunAll(OneRequest(post), Initial(items), items, "");
            NumberOf(t.results, BORKED) == 1 && EntriesOf(t.failed, BORKED) == []
  {
    var env := OneRequest(post);
    EmptyRequestGivenUp(post);
    var s, one := Initial(items).(testIdx := 1), Single("a");
    UnlistedIff(env, s, one);
    RunAllOne(env, Initial(items), one, "");
    RunTheorems.RunOneKeeps(env, s, one);
    StoredAlone(env, Initial(items), one, RunNextOf(env, Initial(items), one), RunItem(env, Initial(items), one, ""));
  }

  /** The first result of a run, when it is BORKED without an entry. */
  lemma StoredAlone(env: Env, s: State, one: Item, r: (State, Outcome), t: State)
    requires one.Single? && s.results == map[] && r == RunNextOf(env, s, one) && t == RunItem(env, s, one, "")
    requires r.1 == BORKED && EntriesOf(r.0.failed, BORKED) == [] && r.0.results == map[]
    ensures NumberOf(t.results, BORKED) == 1 && EntriesOf(t.failed, BORKED) == []
  {
    assert t == Stored(r.0, one, one.name, BORKED);
    assert Having(t.results, BORKED) == {one.name};
  }
}

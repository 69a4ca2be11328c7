/** The results of the entries of a list, and of the tests behind a redirection: each of these is run once, in order,
    and leaves its own result, if the redirection has a title. */
module RedirectedTests {
  import opened PhpStrings
  import opened Sections
  import opened Results
  import opened Runs
  import opened RunTheorems
  import opened RunAnomalies
  import opened RunMeaning
  import opened RunCalls

  // ---------------------------------------------------------------- one entry

  /** A title that PHP takes for true. */
  predicate Titled(title: string) { title != "" && title != "0" }

  /** The name under which an entry leaves its result.  A pair leaves none in a list without a title. */
  predicate WritesKey(item: Item, title: string, key: string) {
    match item
    case Pair(f, via) => Titled(title) && key == "# " + via + ": " + f
    case Single(f) => key == if Titled(title) then "# " + title + ": " + f else f
  }

  /** A call that follows no redirection stores nothing by itself. */
  lemma CallStoresNothing(env: Env, s: State, item: Item, r: (State, Outcome))
    requires r == RunOne(env, s, item) && r.1 != REDIR
    ensures r.0.results == s.results
  {
    var seen := env.world(item.name, s.clock);
    var text := Runs.TextOf(seen, s.inRedirect);
    if IsRedirection(seen, s.inRedirect) && !IsSkipped(text, seen) {
      RedirectionEnds(env, s, item);
      UnfollowedStoresNothing(env, s, item, seen, text, r);
    } else {
      var end := OneCall(env, s, item, seen, text);
    }
  }

  lemma UnfollowedStoresNothing(env: Env, s: State, item: Item, seen: World, text: map<string, string>,
                                r: (State, Outcome))
    requires seen == env.world(item.name, s.clock) && IsRedirection(seen, s.inRedirect) && !seen.oneTarget
    requires text == Runs.TextOf(seen, s.inRedirect) && !IsSkipped(text, seen)
    requires r == RunOne(env, s, item)
    ensures r.0.results == s.results
  {
    var t := s.(clock := s.clock + 1);
    RunOneIs(env, s, item, seen, t);
    RedirectionGoesOn(env, t, item, seen, text, Prepared(env, t, text, seen));
  }

  /** An entry that leaves a result is run as a file. */
  lemma EntryIs(env: Env, s: State, item: Item, title: string, key: string, r: (State, Outcome))
    requires WritesKey(item, title, key) && r == RunOne(env, s.(testIdx := s.testIdx + 1), Single(item.name))
    ensures RunNextOf(env, s, Unwrapped(item, title)) == r
    ensures RunItem(env, s, item, title) == if r.1 == REDIR then r.0 else r.0.(results := r.0.results[key := r.1])
  {
    assert Unwrapped(item, title) == Single(item.name);
    assert RunNextOf(env, s, Single(item.name)) == r;
  }

  /** A pair in a list without a title is not, and leaves no result. */
  lemma UntitledPairIs(env: Env, s: State, item: Item, title: string, r: (State, Outcome))
    requires item.Pair? && !Titled(title) && r == RunOne(env, s.(testIdx := s.testIdx + 1), item)
    ensures RunNextOf(env, s, Unwrapped(item, title)) == r && RunItem(env, s, item, title) == r.0
  {
    assert RunNextOf(env, s, item) == r;
  }

  lemma EntryStoresItsOwn(env: Env, s: State, item: Item, title: string, key: string)
    requires RunNextOf(env, s, Unwrapped(item, title)).1 != REDIR
    requires !WritesKey(item, title, key)
    ensures var t := RunItem(env, s, item, title);
            (key in t.results <==> key in s.results) && (key in s.results ==> t.results[key] == s.results[key])
  {
    var s1 := s.(testIdx := s.testIdx + 1);
    if item.Pair? && !Titled(title) {
      UntitledPairIs(env, s, item, title, RunOne(env, s1, item));
      CallStoresNothing(env, s1, item, RunOne(env, s1, item));
    } else {
      var own := if item.Pair? then "# " + item.via + ": " + item.name
                 else if Titled(title) then "# " + title + ": " + item.name else item.name;
      var r := RunOne(env, s1, Single(item.name));
      EntryIs(env, s, item, title, own, r);
      CallStoresNothing(env, s1, Single(item.name), r);
    }
  }

  // ---------------------------------------------------------------- a list

  /** No entry from `i` on writes the key or follows a redirection. */
  ghost predicate LeavesAlone(env: Env, s: State, items: seq<Item>, title: string, i: nat, key: string) {
    forall j :: i <= j < |items| ==> !WritesKey(items[j], title, key) && OutcomeAt(env, s, items, title, j) != REDIR
  }

  lemma OutcomeOfRest(env: Env, s: State, items: seq<Item>, title: string, j: nat)
    requires 1 <= j < |items|
    ensures OutcomeAt(env, s, items, title, j)
         == OutcomeAt(env, RunItem(env, s, items[0], title), items[1..], title, j - 1)
  {
    assert items[..j][0] == items[0] && items[..j][1..] == items[1..][..j - 1] && items[1..][j - 1] == items[j];
  }

  lemma {:induction false} ResultStays(env: Env, s: State, items: seq<Item>, title: string, key: string)
    requires LeavesAlone(env, s, items, title, 0, key)
    ensures var t := RunAll(env, s, items, title);
            (key in t.results <==> key in s.results) && (key in s.results ==> t.results[key] == s.results[key])
    decreases |items|
  {
    if items == [] {
    } else {
      var t := RunItem(env, s, items[0], title);
      assert OutcomeAt(env, s, items, title, 0) == RunNextOf(env, s, Unwrapped(items[0], title)).1 by {
        assert items[..0] == [];
      }
      EntryStoresItsOwn(env, s, items[0], title, key);
      forall j | 0 <= j < |items[1..]|
        ensures !WritesKey(items[1..][j], title, key) && OutcomeAt(env, t, items[1..], title, j) != REDIR
      {
        OutcomeOfRest(env, s, items, title, j + 1);
        assert items[1..][j] == items[j + 1];
      }
      ResultStays(env, t, items[1..], title, key);
    }
  }

  lemma RunAllFrom(env: Env, s: State, items: seq<Item>, title: string, i: nat)
    requires i < |items|
    ensures var before := RunAll(env, s, items[..i], title);
            RunAll(env, s, items, title) == RunAll(env, RunItem(env, before, items[i], title), items[i + 1..], title)
  {
    assert items == items[..i] + items[i..];
    RunAllConcat(env, s, items[..i], items[i..], title);
    assert items[i..][0] == items[i] && items[i..][1..] == items[i + 1..];
  }

  lemma OutcomeFrom(env: Env, s: State, items: seq<Item>, title: string, i: nat, j: nat)
    requires i < |items| && j < |items| - i - 1
    ensures var t := RunItem(env, RunAll(env, s, items[..i], title), items[i], title);
            OutcomeAt(env, t, items[i + 1..], title, j) == OutcomeAt(env, s, items, title, i + 1 + j)
  {
    var front := items[..i + 1 + j];
    RunAllFrom(env, s, front, title, i);
    assert front[..i] == items[..i] && front[i] == items[i] && front[i + 1..] == items[i + 1..][..j];
    assert items[i + 1..][j] == items[i + 1 + j];
  }

  lemma RestLeavesAlone(env: Env, s: State, items: seq<Item>, title: string, i: nat, key: string, u: State,
                        rest: seq<Item>)
    requires i < |items| && LeavesAlone(env, s, items, title, i + 1, key) && rest == items[i + 1..]
    requires u == RunItem(env, RunAll(env, s, items[..i], title), items[i], title)
    ensures LeavesAlone(env, u, rest, title, 0, key)
  {
    forall j | 0 <= j < |rest|
      ensures !WritesKey(rest[j], title, key) && OutcomeAt(env, u, rest, title, j) != REDIR
    {
      OutcomeFrom(env, s, items, title, i, j);
      assert rest[j] == items[i + 1 + j];
    }
  }

  /** An entry that leaves a result is run as a file, has a result under its key at the end, unless it redirected,
      and it is its own result, when no later entry writes the key or follows a redirection. */
  lemma EntryLeavesResult(env: Env, s: State, items: seq<Item>, title: string, i: nat, key: string, before: State,
                          o: Outcome)
    requires i < |items| && WritesKey(items[i], title, key) && before == RunAll(env, s, items[..i], title)
    requires o == RunOne(env, before.(testIdx := before.testIdx + 1), Single(items[i].name)).1
    ensures OutcomeAt(env, s, items, title, i) == o
    ensures o != REDIR ==> key in RunAll(env, s, items, title).results
    ensures o != REDIR && LeavesAlone(env, s, items, title, i + 1, key) ==>
              RunAll(env, s, items, title).results[key] == o
  {
    var r := RunOne(env, before.(testIdx := before.testIdx + 1), Single(items[i].name));
    EntryIs(env, before, items[i], title, key, r);
    RunAllFrom(env, s, items, title, i);
    ResultAtEnd(env, s, items, title, i, key, RunItem(env, before, items[i], title), items[i + 1..]);
  }

  lemma ResultAtEnd(env: Env, s: State, items: seq<Item>, title: string, i: nat, key: string, u: State,
                    rest: seq<Item>)
    requires i < |items| && rest == items[i + 1..]
    requires u == RunItem(env, RunAll(env, s, items[..i], title), items[i], title)
    ensures key in u.results ==> key in RunAll(env, u, rest, title).results
    ensures key in u.results && LeavesAlone(env, s, items, title, i + 1, key) ==>
              RunAll(env, u, rest, title).results[key] == u.results[key]
  {
    RunAllKeeps(env, u, rest, title);
    if LeavesAlone(env, s, items, title, i + 1, key) {
      RestLeavesAlone(env, s, items, title, i, key, u, rest);
      ResultStays(env, u, rest, title, key);
    }
  }

  /** For instance a pair in a list with a title. */
  lemma PairLeavesResult(env: Env, s: State, items: seq<Item>, title: string, i: nat, f: string, via: string,
                         before: State, o: Outcome)
    requires i < |items| && items[i] == Pair(f, via) && title != "" && title != "0"
    requires before == RunAll(env, s, items[..i], title)
    requires o == RunOne(env, before.(testIdx := before.testIdx + 1), Single(f)).1
    ensures OutcomeAt(env, s, items, title, i) == o
    ensures o != REDIR ==> "# " + via + ": " + f in RunAll(env, s, items, title).results
    ensures o != REDIR && LeavesAlone(env, s, items, title, i + 1, "# " + via + ": " + f) ==>
              RunAll(env, s, items, title).results["# " + via + ": " + f] == o
  {
    EntryLeavesResult(env, s, items, title, i, "# " + via + ": " + f, before, o);
  }

  /** A pair in a list without a title leaves no result: nothing at all is stored by a list of them, inside a
      redirection. */
  lemma UntitledPairStoresNothing(env: Env, s: State, item: Item, title: string)
    requires s.inRedirect && item.Pair? && !Titled(title)
    ensures RunItem(env, s, item, title).results == s.results
  {
    var s1 := s.(testIdx := s.testIdx + 1);
    var r := RunOne(env, s1, item);
    UntitledPairIs(env, s, item, title, r);
    InsideCall(env, s1, item, r);
  }

  // ---------------------------------------------------------------- inside a redirection

  /** A call inside a redirection ends once and stays inside. */
  lemma InsideCall(env: Env, s: State, item: Item, r: (State, Outcome))
    requires s.inRedirect && r == RunOne(env, s, item)
    ensures r.0.inRedirect && r.0.clock == s.clock + 1 && r.0.results == s.results && r.1 != REDIR
    ensures |r.0.ended| == |s.ended| + 1 && r.0.ended[..|s.ended|] == s.ended && r.0.ended[|s.ended|].outcome == r.1
  {
    var seen := env.world(item.name, s.clock);
    var end := OneCall(env, s, item, seen, Runs.TextOf(seen, s.inRedirect));
  }

  lemma ItemIs(env: Env, s: State, item: Item, title: string, one: Item, r: (State, Outcome))
    requires one == Unwrapped(item, title) && r == RunOne(env, s.(testIdx := s.testIdx + 1), one)
    ensures RunNextOf(env, s, one) == r
    ensures RunItem(env, s, item, title) == Stored(r.0, one, IndexOf(item, title), r.1)
  {
    assert RunNextOf(env, s, one) == r;
  }

  lemma InsideItem(env: Env, s: State, item: Item, title: string, t: State, o: Outcome)
    requires s.inRedirect && t == RunItem(env, s, item, title) && o == RunNextOf(env, s, Unwrapped(item, title)).1
    ensures t.inRedirect && t.clock == s.clock + 1
    ensures |t.ended| == |s.ended| + 1 && t.ended[..|s.ended|] == s.ended && t.ended[|s.ended|].outcome == o != REDIR
  {
    var one, s1 := Unwrapped(item, title), s.(testIdx := s.testIdx + 1);
    var r := RunOne(env, s1, one);
    InsideCall(env, s1, one, r);
    ItemIs(env, s, item, title, one, r);
    var index := IndexOf(item, title);
    assert t.ended == r.0.ended && t.inRedirect == r.0.inRedirect && t.clock == r.0.clock;
  }

  /** A list inside a redirection: one call for each entry. */
  lemma {:induction false} InsideList(env: Env, s: State, items: seq<Item>, title: string)
    requires s.inRedirect
    ensures var t := RunAll(env, s, items, title);
            t.inRedirect && t.clock == s.clock + |items| && |t.ended| == |s.ended| + |items|
            && t.ended[..|s.ended|] == s.ended
    decreases |items|
  {
    if items == [] {
      assert s.ended[..|s.ended|] == s.ended;
    } else {
      var u := RunItem(env, s, items[0], title);
      InsideItem(env, s, items[0], title, u, RunNextOf(env, s, Unwrapped(items[0], title)).1);
      InsideList(env, u, items[1..], title);
      assert RunAll(env, s, items, title).ended[..|u.ended|][..|s.ended|] == s.ended;
    }
  }

  lemma InsideCount(env: Env, s: State, items: seq<Item>, title: string, t: State)
    requires s.inRedirect && t == RunAll(env, s, items, title)
    ensures t.inRedirect && t.clock == s.clock + |items| && |t.ended| == |s.ended| + |items|
  {
    InsideList(env, s, items, title);
  }

  lemma InsideItemAt(env: Env, s: State, items: seq<Item>, title: string, i: nat, before: State, u: State, o: Outcome)
    requires i < |items| && before == RunAll(env, s, items[..i], title) && before.inRedirect
    requires u == RunItem(env, before, items[i], title) && o == OutcomeAt(env, s, items, title, i)
    ensures u.inRedirect && |u.ended| == |before.ended| + 1 && u.ended[|before.ended|].outcome == o != REDIR
  {
    InsideItem(env, before, items[i], title, u, o);
  }

  /** The end of the call for entry `i`. */
  lemma InsideEnd(env: Env, s: State, items: seq<Item>, title: string, i: nat, t: State, o: Outcome)
    requires s.inRedirect && i < |items| && t == RunAll(env, s, items, title)
    requires o == OutcomeAt(env, s, items, title, i)
    ensures |t.ended| == |s.ended| + |items| && t.ended[|s.ended| + i].outcome == o != REDIR
  {
    var before := RunAll(env, s, items[..i], title);
    var u := RunItem(env, before, items[i], title);
    InsideCount(env, s, items, title, t);
    InsideCount(env, s, items[..i], title, before);
    InsideItemAt(env, s, items, title, i, before, u, o);
    EndAt(env, s, items, title, i, before, u, t);
  }

  lemma EndAt(env: Env, s: State, items: seq<Item>, title: string, i: nat, before: State, u: State, t: State)
    requires i < |items| && before == RunAll(env, s, items[..i], title) && t == RunAll(env, s, items, title)
    requires u == RunItem(env, before, items[i], title) && u.inRedirect && |before.ended| < |u.ended|
    ensures |before.ended| < |t.ended| && t.ended[|before.ended|] == u.ended[|before.ended|]
  {
    RunAllFrom(env, s, items, title, i);
    EndStays(env, u, items[i + 1..], title, |before.ended|, t);
  }

  lemma EndStays(env: Env, s: State, items: seq<Item>, title: string, e: nat, t: State)
    requires s.inRedirect && e < |s.ended| && t == RunAll(env, s, items, title)
    ensures e < |t.ended| && t.ended[e] == s.ended[e]
  {
    InsideList(env, s, items, title);
    assert t.ended[..|s.ended|][e] == s.ended[e];
  }

  lemma InsideLeavesAlone(env: Env, s: State, items: seq<Item>, title: string, i: nat, key: string)
    requires s.inRedirect && forall j :: i <= j < |items| ==> !WritesKey(items[j], title, key)
    ensures LeavesAlone(env, s, items, title, i, key)
  {
    forall j | i <= j < |items| ensures OutcomeAt(env, s, items, title, j) != REDIR {
      InsideEnd(env, s, items, title, j, RunAll(env, s, items, title), OutcomeAt(env, s, items, title, j));
    }
  }

  lemma {:induction false} UntitledListStoresNothing(env: Env, s: State, items: seq<Item>, title: string)
    requires s.inRedirect && !Titled(title) && forall k :: 0 <= k < |items| ==> items[k].Pair?
    ensures RunAll(env, s, items, title).results == s.results
    decreases |items|
  {
    if items == [] {
    } else {
      UntitledPairStoresNothing(env, s, items[0], title);
      InsideItem(env, s, items[0], title, RunItem(env, s, items[0], title),
                 RunNextOf(env, s, Unwrapped(items[0], title)).1);
      UntitledListStoresNothing(env, RunItem(env, s, items[0], title), items[1..], title);
    }
  }

  // ---------------------------------------------------------------- a redirection that is followed

  /** Outside, the file redirects, is not skipped and names one target. */
  predicate IsFollowed(seen: World) {
    IsRedirection(seen, false) && !IsSkipped(Parsed(seen.lines).text, seen) && seen.oneTarget
  }

  /** The title of a file; every parsed file has one. */
  function TitleOf(seen: World): string {
    var text := Parsed(seen.lines).text; if "TEST" in text then Trim(text["TEST"]) else ""
  }

  /** The runner before the first test behind a redirection, and after the last. */
  lemma FollowedRuns(env: Env, s: State, item: Item, seen: World, title: string, tests: seq<Item>,
                     r: (State, Outcome))
    returns (inside: State)
    requires !s.inRedirect && seen == env.world(item.name, s.clock) && IsFollowed(seen)
    requires title == TitleOf(seen) && tests == Targets(item, seen) && r == RunOne(env, s, item)
    ensures inside.inRedirect && inside.clock == s.clock + 1 && inside.results == s.results && inside.ended == s.ended
    ensures inside.testIdx == s.testIdx - 1 && inside.testCnt == s.testCnt + |tests| - 1
    ensures inside.shown == s.shown + [(s.testIdx, s.testCnt)] && inside.failed == s.failed
    ensures inside.executed == s.executed && inside.redirections == s.redirections + 1
    ensures var t := RunAll(env, inside, tests, title);
            && r.1 == REDIR && r.0.results == t.results && r.0.clock == t.clock && !r.0.inRedirect
            && r.0.ended == t.ended + [End(REDIR, Junit.One(Junit.PASS))]
            && (env.logging ==> r.0.history == t.history + [Junit.DoMark(seen.suite, Junit.One(Junit.PASS), seen.time)])
  {
    var t, text := s.(clock := s.clock + 1), Parsed(seen.lines).text;
    var u := Prepared(env, t, text, seen);
    RunOneIs(env, s, item, seen, t);
    RedirectionGoesOn(env, t, item, seen, text, u);
    inside := Entering(u, tests);
    FollowedAs(env, u, item, text, seen, tests, r);
  }

  lemma FollowedAs(env: Env, s: State, item: Item, text: map<string, string>, seen: World, tests: seq<Item>,
                   r: (State, Outcome))
    requires !s.inRedirect && seen.oneTarget && tests == Targets(item, seen)
    requires r == Followed(env, s, item, text, seen)
    ensures var t := RunAll(env, Entering(s, tests), tests, if "TEST" in text then Trim(text["TEST"]) else "");
            r == (Ended(env, t.(inRedirect := false), seen.suite, Junit.One(Junit.PASS), seen.time, REDIR), REDIR)
  {
  }

  /** The entries behind a redirection. */
  function Pairs(targets: seq<string>, via: string): (tests: seq<Item>)
    ensures |tests| == |targets| && forall k :: 0 <= k < |tests| ==> tests[k] == Pair(targets[k], via)
  {
    seq(|targets|, k requires 0 <= k < |targets| => Pair(targets[k], via))
  }

  /** The same, as far as the results go. */
  lemma TargetsRun(env: Env, s: State, via: string, seen: World, title: string, tests: seq<Item>, r: (State, Outcome))
    returns (inside: State, t: State)
    requires !s.inRedirect && seen == env.world(via, s.clock) && IsFollowed(seen)
    requires title == TitleOf(seen) && r == RunOne(env, s, Single(via)) && |tests| == |seen.targets|
    requires forall k :: 0 <= k < |tests| ==> tests[k] == Pair(seen.targets[k], via)
    ensures inside.inRedirect && inside.clock == s.clock + 1 && inside.results == s.results && inside.ended == s.ended
    ensures t == RunAll(env, inside, tests, title)
    ensures r.1 == REDIR && r.0.results == t.results && r.0.clock == t.clock
    ensures t.ended <= r.0.ended && |r.0.ended| == |t.ended| + 1
  {
    assert tests == Targets(Single(via), seen);
    inside := FollowedRuns(env, s, Single(via), seen, title, tests, r);
    t := RunAll(env, inside, tests, title);
  }

  /** The test passes inside a redirection. */
  predicate PassesInside(env: Env, seen: World, f: string) {
    var text := Runs.TextOf(seen, true);
    IsCompared(seen, Single(f), text) && IsClean(seen, text) && IsMet(env, seen, text)
  }

  lemma KeysDiffer(via: string, f: string, g: string)
    requires f != g
    ensures "# " + via + ": " + f != "# " + via + ": " + g
  {
    var start := "# " + via + ": ";
    assert (start + f)[|start|..] == f && (start + g)[|start|..] == g;
  }

  lemma TargetPasses(env: Env, s: State, tests: seq<Item>, title: string, k: nat, f: string, via: string, time: nat,
                     seen: World, passes: bool, o: Outcome)
    requires s.inRedirect && Titled(title) && k < |tests| && tests[k] == Pair(f, via)
    requires time == s.clock + k && seen == env.world(f, time)
    requires passes == PassesInside(env, seen, f) && o == OutcomeAt(env, s, tests, title, k)
    ensures o == PASSED <==> passes
  {
    var before := RunAll(env, s, tests[..k], title);
    InsideCount(env, s, tests[..k], title, before);
    OutcomePasses(env, s, tests, title, k, before, f, via, time, seen, passes, o);
  }

  lemma OutcomePasses(env: Env, s: State, tests: seq<Item>, title: string, k: nat, before: State, f: string,
                      via: string, time: nat, seen: World, passes: bool, o: Outcome)
    requires k < |tests| && tests[k] == Pair(f, via) && Titled(title) && o == OutcomeAt(env, s, tests, title, k)
    requires before == RunAll(env, s, tests[..k], title) && before.inRedirect
    requires time == before.clock && seen == env.world(f, time) && passes == PassesInside(env, seen, f)
    ensures o == PASSED <==> passes
  {
    PairPasses(env, before, f, via, title, time, seen, passes, o);
  }

  lemma PairPasses(env: Env, s: State, f: string, via: string, title: string, time: nat, seen: World, passes: bool,
                   o: Outcome)
    requires s.inRedirect && Titled(title) && time == s.clock && seen == env.world(f, time)
    requires passes == PassesInside(env, seen, f)
    requires o == RunNextOf(env, s, Unwrapped(Pair(f, via), title)).1
    ensures o == PASSED <==> passes
  {
    var s1 := s.(testIdx := s.testIdx + 1);
    PassedIff(env, s1, Single(f));
    ItemIs(env, s, Pair(f, via), title, Single(f), RunOne(env, s1, Single(f)));
  }

  lemma TargetLeavesResult(env: Env, s: State, targets: seq<string>, tests: seq<Item>, title: string, k: nat,
                           f: string, via: string, key: string, t: State)
    requires s.inRedirect && Titled(title) && k < |targets| == |tests| && f == targets[k]
    requires key == "# " + via + ": " + f && t == RunAll(env, s, tests, title)
    requires forall j :: 0 <= j < |tests| ==> tests[j] == Pair(targets[j], via)
    ensures key in t.results && |t.ended| == |s.ended| + |tests|
    ensures (forall j :: k < j < |targets| ==> targets[j] != f) ==>
              t.results[key] == t.ended[|s.ended| + k].outcome
  {
    var before := RunAll(env, s, tests[..k], title);
    InsideEnd(env, s, tests, title, k, t, OutcomeAt(env, s, tests, title, k));
    var o := RunOne(env, before.(testIdx := before.testIdx + 1), Single(f)).1;
    PairLeavesResult(env, s, tests, title, k, f, via, before, o);
    if forall j :: k < j < |targets| ==> targets[j] != f {
      forall j | k + 1 <= j < |tests| ensures !WritesKey(tests[j], title, key) { KeysDiffer(via, f, targets[j]); }
      InsideLeavesAlone(env, s, tests, title, k + 1, key);
    }
  }

  /** Test `k` behind a redirection ended once; its result is there, and stays, if the test is not named again. */
  ghost predicate HasResult(s: State, t: State, targets: seq<string>, k: nat, key: string)
    requires k < |targets|
  {
    && key in t.results && |s.ended| + k < |t.ended|
    && ((forall j :: k < j < |targets| ==> targets[j] != targets[k]) ==>
          t.results[key] == t.ended[|s.ended| + k].outcome)
  }

  lemma TargetHasResult(env: Env, s: State, via: string, targets: seq<string>, title: string, k: nat,
                        tests: seq<Item>, t: State, u: State)
    requires s.inRedirect && Titled(title)
    requires k < |targets| == |tests| && forall j :: 0 <= j < |tests| ==> tests[j] == Pair(targets[j], via)
    requires t == RunAll(env, s, tests, title) && u.results == t.results && t.ended <= u.ended
    ensures HasResult(s, u, targets, k, "# " + via + ": " + targets[k])
    ensures t.clock == s.clock + |targets| && |t.ended| == |s.ended| + |targets|
  {
    TargetLeavesResult(env, s, targets, tests, title, k, targets[k], via, "# " + via + ": " + targets[k], t);
    InsideCount(env, s, tests, title, t);
  }

  /** Every test behind a redirection with a title is run once, in order, and has its result under the name of the
      redirection. */
  lemma EveryTargetRuns(env: Env, s: State, via: string, seen: World, title: string, k: nat, r: (State, Outcome))
    requires !s.inRedirect && seen == env.world(via, s.clock) && IsFollowed(seen)
    requires title == TitleOf(seen) && title != "" && title != "0" && r == RunOne(env, s, Single(via))
    requires k < |seen.targets|
    ensures r.1 == REDIR && r.0.clock == s.clock + 1 + |seen.targets|
    ensures |r.0.ended| == |s.ended| + |seen.targets| + 1
    ensures HasResult(s, r.0, seen.targets, k, "# " + via + ": " + seen.targets[k])
  {
    var tests := Pairs(seen.targets, via);
    var inside, t := TargetsRun(env, s, via, seen, title, tests, r);
    TargetHasResult(env, inside, via, seen.targets, title, k, tests, t, r.0);
  }

  /** It ended PASSED if and only if its file, looked at in its turn, passes. */
  lemma EveryTargetPassesIff(env: Env, s: State, via: string, seen: World, title: string, k: nat, f: string,
                             time: nat, target: World, passes: bool, r: (State, Outcome), e: nat)
    requires !s.inRedirect && seen == env.world(via, s.clock) && IsFollowed(seen)
    requires title == TitleOf(seen) && title != "" && title != "0" && r == RunOne(env, s, Single(via))
    requires k < |seen.targets| && f == seen.targets[k] && time == s.clock + 1 + k && target == env.world(f, time)
    requires passes == PassesInside(env, target, f)
    requires e == |s.ended| + k
    ensures e < |r.0.ended| && (r.0.ended[e].outcome == PASSED <==> passes)
  {
    var tests := Pairs(seen.targets, via);
    var inside, t := TargetsRun(env, s, via, seen, title, tests, r);
    EndPasses(env, inside, tests, title, k, f, via, time, target, passes, t, r.0, e);
  }

  lemma EndPasses(env: Env, s: State, tests: seq<Item>, title: string, k: nat, f: string, via: string, time: nat,
                  seen: World, passes: bool, t: State, u: State, e: nat)
    requires s.inRedirect && Titled(title) && k < |tests| && tests[k] == Pair(f, via)
    requires t == RunAll(env, s, tests, title) && time == s.clock + k && seen == env.world(f, time)
    requires passes == PassesInside(env, seen, f) && t.ended <= u.ended && e == |s.ended| + k
    ensures e < |u.ended| && (u.ended[e].outcome == PASSED <==> passes)
  {
    var o := OutcomeAt(env, s, tests, title, k);
    InsideEnd(env, s, tests, title, k, t, o);
    assert u.ended[e] == t.ended[e];
    TargetPasses(env, s, tests, title, k, f, via, time, seen, passes, o);
  }

  /** Behind a redirection whose title is empty or 0 no test leaves a result. */
  lemma UntitledTargetsStoreNothing(env: Env, s: State, via: string, seen: World, title: string,
                                    r: (State, Outcome))
    requires !s.inRedirect && seen == env.world(via, s.clock) && IsFollowed(seen) && title == TitleOf(seen)
    requires (title == "" || title == "0") && r == RunOne(env, s, Single(via))
    ensures r.1 == REDIR && r.0.results == s.results
  {
    var tests := Pairs(seen.targets, via);
    var inside, t := TargetsRun(env, s, via, seen, title, tests, r);
    UntitledListStoresNothing(env, inside, tests, title);
  }

  /** A pair that redirects runs the file it names, and that alone. */
  lemma PairsTargetRuns(env: Env, s: State, f: string, via: string, seen: World, title: string, key: string,
                        r: (State, Outcome))
    requires !s.inRedirect && seen == env.world(f, s.clock) && IsFollowed(seen)
    requires title == TitleOf(seen) && r == RunOne(env, s, Pair(f, via))
    requires key == if title != "" && title != "0" then "# " + title + ": " + via else via
    ensures r.1 == REDIR && r.0.clock == s.clock + 2 && |r.0.ended| == |s.ended| + 2
    ensures key in r.0.results && r.0.results[key] == r.0.ended[|s.ended|].outcome
  {
    var tests := [Single(via)];
    var inside := FollowedRuns(env, s, Pair(f, via), seen, title, tests, r);
    OnlyTargetRuns(env, inside, via, title, key, tests, RunAll(env, inside, tests, title));
  }

  lemma OnlyTargetRuns(env: Env, s: State, via: string, title: string, key: string, tests: seq<Item>, t: State)
    requires s.inRedirect && tests == [Single(via)] && t == RunAll(env, s, tests, title)
    requires WritesKey(Single(via), title, key)
    ensures t.clock == s.clock + 1 && |t.ended| == |s.ended| + 1
    ensures key in t.results && t.results[key] == t.ended[|s.ended|].outcome
  {
    var before := RunAll(env, s, tests[..0], title);
    InsideCount(env, s, tests, title, t);
    InsideEnd(env, s, tests, title, 0, t, OutcomeAt(env, s, tests, title, 0));
    EntryLeavesResult(env, s, tests, title, 0, key, before,
                      RunOne(env, before.(testIdx := before.testIdx + 1), Single(via)).1);
  }

  /** A pair that does not redirect, in a list without a title, is skipped or borked. */
  lemma PairEnds(env: Env, s: State, item: Item, seen: World, text: map<string, string>)
    requires item.Pair? && seen == env.world(item.name, s.clock) && text == Runs.TextOf(seen, s.inRedirect)
    requires !IsRedirection(seen, s.inRedirect)
    ensures RunOne(env, s, item).1 == if IsRunnable(seen) && IsSkipped(text, seen) then SKIPPED else BORKED
  {
    var t := s.(clock := s.clock + 1);
    RunOneIs(env, s, item, seen, t);
    CheckedEnds(env, t, item, seen, text, Prepared(env, t, text, seen));
  }

  // ---------------------------------------------------------------- the results of a whole run

  /** In a run of files, with redirections among them: the result of a file that is not named again, and behind which
      no redirection is followed, is PASSED at the end if and only if the file, looked at in its turn, passes. */
  lemma PassedAtTheEndIff(env: Env, items: seq<Item>, i: nat, f: string, seen: World, stuck: bool,
                          text: map<string, string>, t: State)
    requires i < |items| && items[i] == Single(f) && t == RunAll(env, Initial(items), items, "")
    requires seen == SeenOf(env, Initial(items), items, "", i) && text == Runs.TextOf(seen, stuck)
    requires stuck == SomeLeaves(env, Initial(items), items[..i], "")
    requires LeavesAlone(env, Initial(items), items, "", i + 1, f)
    requires OutcomeAt(env, Initial(items), items, "", i) != REDIR
    ensures f in t.results
    ensures t.results[f] == PASSED <==>
            IsCompared(seen, items[i], text) && IsClean(seen, text) && IsMet(env, seen, text)
  {
    var s := Initial(items);
    var before := RunAll(env, s, items[..i], "");
    var s1 := before.(testIdx := before.testIdx + 1);
    StuckIff(env, s, items[..i], "");
    EntryLeavesResult(env, s, items, "", i, f, before, RunOne(env, s1, Single(f)).1);
    PassedIff(env, s1, items[i]);
  }
}

/** A test passes in a run if and only if its expectation says its output. */
module RunMeaning {
  import opened PhpStrings
  import opened ExpectF
  import opened Expectations
  import opened ExpectFMeaning
  import opened RawMeaning
  import Junit
  import opened Results
  import opened Runs
  import opened RunAnomalies

  // ---------------------------------------------------------------- passing

  /** The test gets as far as having its output compared. */
  predicate IsCompared(seen: World, item: Item, text: map<string, string>) {
    IsRunnable(seen) && item.Single? && !IsSkipped(text, seen) && !NoRequest(text, seen)
  }

  /** Nothing else is wrong with it. */
  predicate IsClean(seen: World, text: map<string, string>) {
    !seen.leaked && !seen.failedHeaders && "XFAIL" !in text
  }

  /** The output meets the expectation. */
  predicate IsMet(env: Env, seen: World, text: map<string, string>) {
    env.meets(ExpectationOf(text), Cleaned(seen.printed, NeedsCgi(text)))
  }

  /** A call ends with PASSED if and only if the test is compared, clean, and its output meets the expectation. */
  lemma PassedIff(env: Env, s: State, item: Item)
    ensures var seen := env.world(item.name, s.clock);
            var text := Runs.TextOf(seen, s.inRedirect);
            RunOne(env, s, item).1 == PASSED <==>
            IsCompared(seen, item, text) && IsClean(seen, text) && IsMet(env, seen, text)
  {
    var seen := env.world(item.name, s.clock);
    var r := RunOne(env, s, item);
    if IsRedirection(seen, s.inRedirect) {
      RedirectionEnds(env, s, item);
    } else {
      PassedAs(env, s, item, seen, Runs.TextOf(seen, s.inRedirect), r);
    }
  }

  lemma PassedAs(env: Env, s: State, item: Item, seen: World, text: map<string, string>, r: (State, Outcome))
    requires seen == env.world(item.name, s.clock) && text == Runs.TextOf(seen, s.inRedirect)
    requires !IsRedirection(seen, s.inRedirect) && r == RunOne(env, s, item)
    ensures r.1 == PASSED <==>
            IsCompared(seen, item, text) && IsClean(seen, text) && IsMet(env, seen, text)
  {
    var t := s.(clock := s.clock + 1);
    var u := Prepared(env, t, text, seen);
    if IsRunnable(seen) {
      CheckedEnds(env, t, item, seen, text, u);
      PassedExecuted(env, u, item.name, text, seen);
    }
  }

  lemma PassedExecuted(env: Env, s: State, name: string, text: map<string, string>, seen: World)
    ensures Executed(env, s, name, text, seen).1 == PASSED <==>
            !NoRequest(text, seen) && IsClean(seen, text) && IsMet(env, seen, text)
  {
    if !NoRequest(text, seen) {
      var e := EvidenceOf(env, text, seen);
      RestypePassed(e);
      var s1 := Logged(env, s.(executed := s.executed + [text]), Junit.Init(seen.suite));
      ConcludedPassed(env, s1, Restype(e), name, seen);
    }
  }

  lemma RestypePassed(e: Evidence)
    ensures Restype(e) == [] <==> CleanPass(e)
    ensures forall k :: k in Restype(e) ==> OutcomeOf(k) != PASSED
  {
    if !CleanPass(e) { KindsNotEmpty(e); }
  }

  lemma ConcludedPassed(env: Env, s: State, kinds: seq<Junit.Kind>, name: string, seen: World)
    requires forall k :: k in kinds ==> OutcomeOf(k) != PASSED
    ensures Concluded(env, s, kinds, name, seen).1 == PASSED <==> kinds == []
  {
  }

  // ---------------------------------------------------------------- the output is trimmed

  lemma {:induction false} NormaliseKeepsLast(s: string)
    requires s != [] && s[|s| - 1] != '\n'
    ensures var t := Normalise(s); t != [] && t[|t| - 1] == s[|s| - 1]
    decreases |s|
  {
    if "\r\n" <= s {
      NormaliseKeepsLast(s[2..]);
      assert Normalise(s) == "\n" + Normalise(s[2..]);
    } else if |s| > 1 {
      NormaliseKeepsLast(s[1..]);
      assert Normalise(s) == [s[0]] + Normalise(s[1..]);
    } else {
      assert Normalise(s[1..]) == [];
    }
  }

  lemma {:induction false} TrimRightEnds(s: string)
    ensures var t := TrimRight(s); t == [] || !IsBlank(t[|t| - 1])
  {
    if s == [] || !IsBlank(s[|s| - 1]) {
    } else {
      TrimRightEnds(s[..|s| - 1]);
    }
  }

  lemma CleanedEnds(printed: string, cgi: bool)
    ensures NoFinalNewline(Cleaned(printed, cgi))
  {
    TrimRightEnds(TrimLeft(printed));
    var t := Trim(printed);
    if t != [] { NormaliseKeepsLast(t); }
    var body := AfterHeaders(printed);
    if body.Some? { TrimRightEnds(TrimLeft(body.value)); }
  }

  // ---------------------------------------------------------------- passing and meaning

  /** The comparison of the program, with `preg` for the pattern engine. */
  ghost predicate Compares(env: Env, sep: char, preg: (string, string) -> bool) {
    forall x, o :: env.meets(x, o) == Meets(x, o, sep, preg)
  }

  /** An EXPECTF test passes if and only if it is compared, clean, and its template says its output. */
  lemma PassedIffSaid(env: Env, s: State, item: Item, section: string, sep: char,
                      preg: (string, string) -> bool, e: Engine)
    requires sep == '/' || sep == '\\'
    requires var text := Runs.TextOf(env.world(item.name, s.clock), s.inRedirect);
             "EXPECTF" in text && text["EXPECTF"] == section
    requires Compares(env, sep, preg) && ReadsGroups(e, CutAt(Normalise(Trim(section)), 0), sep)
    requires forall o :: preg(Compile(Trim(section), sep), o) <==> Admits(e(Compile(Trim(section), sep)), o)
    ensures var seen := env.world(item.name, s.clock);
            var text := Runs.TextOf(seen, s.inRedirect);
            RunOne(env, s, item).1 == PASSED <==>
            IsCompared(seen, item, text) && IsClean(seen, text)
            && Cleaned(seen.printed, NeedsCgi(text)) in CutSaid(CutAt(Normalise(Trim(section)), 0), sep, e)
  {
    var seen := env.world(item.name, s.clock);
    PassedIff(env, s, item);
    FormatMet(section, seen.printed, NeedsCgi(Runs.TextOf(seen, s.inRedirect)), sep, preg, e);
  }

  lemma FormatMet(section: string, printed: string, cgi: bool, sep: char, preg: (string, string) -> bool, e: Engine)
    requires (sep == '/' || sep == '\\') && ReadsGroups(e, CutAt(Normalise(Trim(section)), 0), sep)
    requires forall o :: preg(Compile(Trim(section), sep), o) <==> Admits(e(Compile(Trim(section), sep)), o)
    ensures Meets(Format(section), Cleaned(printed, cgi), sep, preg) <==>
            Cleaned(printed, cgi) in CutSaid(CutAt(Normalise(Trim(section)), 0), sep, e)
  {
    CleanedEnds(printed, cgi);
    EveryTemplateMeans(Trim(section), Cleaned(printed, cgi), sep, e);
  }

  /** An EXPECT test passes if and only if it is compared, clean, and prints the text, trimmed and with plain
      newlines. */
  lemma PassedIffEqual(env: Env, s: State, item: Item, section: string, sep: char, preg: (string, string) -> bool)
    requires var text := Runs.TextOf(env.world(item.name, s.clock), s.inRedirect);
             "EXPECT" in text && text["EXPECT"] == section && "EXPECTF" !in text && "EXPECTREGEX" !in text
    requires Compares(env, sep, preg)
    ensures var seen := env.world(item.name, s.clock);
            var text := Runs.TextOf(seen, s.inRedirect);
            RunOne(env, s, item).1 == PASSED <==>
            IsCompared(seen, item, text) && IsClean(seen, text)
            && Cleaned(seen.printed, NeedsCgi(text)) == Normalise(Trim(section))
  {
    PassedIff(env, s, item);
  }

  /** An EXPECTREGEX test passes if and only if it is compared, clean, and the pattern engine finds its output to match
      the text, trimmed and with plain newlines. */
  lemma PassedIffPattern(env: Env, s: State, item: Item, section: string, sep: char, preg: (string, string) -> bool)
    requires var text := Runs.TextOf(env.world(item.name, s.clock), s.inRedirect);
             "EXPECTREGEX" in text && text["EXPECTREGEX"] == section && "EXPECTF" !in text
    requires Compares(env, sep, preg)
    ensures var seen := env.world(item.name, s.clock);
            var text := Runs.TextOf(seen, s.inRedirect);
            RunOne(env, s, item).1 == PASSED <==>
            IsCompared(seen, item, text) && IsClean(seen, text)
            && preg(Normalise(Trim(section)), Cleaned(seen.printed, NeedsCgi(text)))
  {
    PassedIff(env, s, item);
  }
}

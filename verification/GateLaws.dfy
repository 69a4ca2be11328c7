/** What the checks of a test ask for, section by section. */
module GateLaws {
  import opened PhpStrings
  import opened StringLaws
  import opened Gate

  /** The section is there, or the file it refers to is named. */
  predicate InEitherForm(parsed: map<string, string>, name: string, external: string) {
    name in parsed || external in parsed
  }

  predicate ExactlyOne(a: bool, b: bool, c: bool) { (a && !b && !c) || (!a && b && !c) || (!a && !b && c) }

  /** If the section refers to a file, the file is there. */
  predicate FileThere(parsed: map<string, string>, external: string, dir: string, files: map<string, string>) {
    external in parsed ==> ExternalPath(dir, parsed[external]) in files
  }

  lemma Prefixes()
    ensures PREFIXES[0] == "FILE" && PREFIXES[1] == "EXPECT" && PREFIXES[2] == "EXPECTF" && PREFIXES[3] == "EXPECTREGEX"
    ensures |PREFIXES| == 4 && External("FILE") == "FILE_EXTERNAL" && External("EXPECT") == "EXPECT_EXTERNAL"
    ensures External("EXPECTF") == "EXPECTF_EXTERNAL" && External("EXPECTREGEX") == "EXPECTREGEX_EXTERNAL"
  {
  }

  /** A test is fit to be run if and only if it redirects nowhere, has exactly one of FILE, FILEEOF and FILE_EXTERNAL
      and exactly one kind of expectation, in either form, and every file it refers to is there. */
  lemma RunnableIff(parsed: map<string, string>, dir: string, files: map<string, string>)
    ensures Acceptable(parsed, dir, files) <==>
            && "REDIRECTTEST" !in parsed
            && ExactlyOne("FILE" in parsed, "FILEEOF" in parsed, "FILE_EXTERNAL" in parsed)
            && ExactlyOne(InEitherForm(parsed, "EXPECT", "EXPECT_EXTERNAL"),
                          InEitherForm(parsed, "EXPECTF", "EXPECTF_EXTERNAL"),
                          InEitherForm(parsed, "EXPECTREGEX", "EXPECTREGEX_EXTERNAL"))
            && FileThere(parsed, "FILE_EXTERNAL", dir, files) && FileThere(parsed, "EXPECT_EXTERNAL", dir, files)
            && FileThere(parsed, "EXPECTF_EXTERNAL", dir, files)
            && FileThere(parsed, "EXPECTREGEX_EXTERNAL", dir, files)
  {
    Prefixes();
    AllFoundIs(Renamed(parsed), dir, files);
  }

  lemma AllFoundIs(text: map<string, string>, dir: string, files: map<string, string>)
    ensures AllFound(|PREFIXES|, text, dir, files) <==>
            && FileThere(text, "FILE_EXTERNAL", dir, files) && FileThere(text, "EXPECT_EXTERNAL", dir, files)
            && FileThere(text, "EXPECTF_EXTERNAL", dir, files) && FileThere(text, "EXPECTREGEX_EXTERNAL", dir, files)
  {
    Prefixes();
    if AllFound(|PREFIXES|, text, dir, files) {
      assert Found(text, PREFIXES[0], dir, files) && Found(text, PREFIXES[1], dir, files);
      assert Found(text, PREFIXES[2], dir, files) && Found(text, PREFIXES[3], dir, files);
    }
  }

  /** What a runnable test expects is what its sections say, or what the files hold they refer to. */
  lemma RunnableExpectation(parsed: map<string, string>, dir: string, files: map<string, string>)
    requires Acceptable(parsed, dir, files)
    ensures var text := Loaded(|PREFIXES|, Renamed(parsed), dir, files);
            && Lookup(text, "EXPECT") == FromEither(parsed, "EXPECT", "EXPECT_EXTERNAL", dir, files)
            && Lookup(text, "EXPECTF") == FromEither(parsed, "EXPECTF", "EXPECTF_EXTERNAL", dir, files)
            && Lookup(text, "EXPECTREGEX") == FromEither(parsed, "EXPECTREGEX", "EXPECTREGEX_EXTERNAL", dir, files)
  {
    Prefixes();
    PrefixFromEither(1, parsed, dir, files);
    PrefixFromEither(2, parsed, dir, files);
    PrefixFromEither(3, parsed, dir, files);
  }

  function FromEither(parsed: map<string, string>, name: string, external: string, dir: string,
                      files: map<string, string>): Option<string>
  {
    if external in parsed then Lookup(files, ExternalPath(dir, parsed[external])) else Lookup(parsed, name)
  }

  lemma PrefixFromEither(i: nat, parsed: map<string, string>, dir: string, files: map<string, string>)
    requires 1 <= i < |PREFIXES| && Acceptable(parsed, dir, files)
    ensures Lookup(Loaded(|PREFIXES|, Renamed(parsed), dir, files), PREFIXES[i]) ==
            FromEither(parsed, PREFIXES[i], External(PREFIXES[i]), dir, files)
  {
    Prefixes();
    LoadedIsReadIn(|PREFIXES|, Renamed(parsed), dir, files);
    NamesDiffer(i);
    assert Found(Renamed(parsed), PREFIXES[i], dir, files) && PREFIXES[..|PREFIXES|] == PREFIXES;
  }

  /** The section is there once the files are read in. */
  predicate ThereAtLast(parsed: map<string, string>, name: string, external: string, dir: string,
                        files: map<string, string>)
  {
    name in parsed || (external in parsed && FileThere(parsed, external, dir, files))
  }

  /** Of all that is wrong with a test that redirects nowhere, the expectation is reported before a missing file it
      refers to, the last of these before the others, and all of them before FILE. */
  lemma ReasonIs(parsed: map<string, string>, dir: string, files: map<string, string>)
    requires "REDIRECTTEST" !in parsed
    ensures ReasonFor(parsed, None, dir, files) ==
            if !ExactlyOne(ThereAtLast(parsed, "EXPECT", "EXPECT_EXTERNAL", dir, files),
                           ThereAtLast(parsed, "EXPECTF", "EXPECTF_EXTERNAL", dir, files),
                           ThereAtLast(parsed, "EXPECTREGEX", "EXPECTREGEX_EXTERNAL", dir, files)) then MissingExpect
            else if !FileThere(parsed, "EXPECTREGEX_EXTERNAL", dir, files) then MissingExternal("EXPECTREGEX_EXTERNAL")
            else if !FileThere(parsed, "EXPECTF_EXTERNAL", dir, files) then MissingExternal("EXPECTF_EXTERNAL")
            else if !FileThere(parsed, "EXPECT_EXTERNAL", dir, files) then MissingExternal("EXPECT_EXTERNAL")
            else if !FileThere(parsed, "FILE_EXTERNAL", dir, files) then MissingExternal("FILE_EXTERNAL")
            else MissingFile
  {
    Prefixes();
    var text := Renamed(parsed);
    assert LastMissing(4, text, dir, files) ==
           if !Found(text, PREFIXES[3], dir, files) then Some(External(PREFIXES[3]))
           else LastMissing(3, text, dir, files);
    assert LastMissing(3, text, dir, files) ==
           if !Found(text, PREFIXES[2], dir, files) then Some(External(PREFIXES[2]))
           else LastMissing(2, text, dir, files);
    assert LastMissing(2, text, dir, files) ==
           if !Found(text, PREFIXES[1], dir, files) then Some(External(PREFIXES[1]))
           else LastMissing(1, text, dir, files);
    assert LastMissing(1, text, dir, files) ==
           if !Found(text, PREFIXES[0], dir, files) then Some(External(PREFIXES[0])) else None;
  }

  // ---------------------------------------------------------------- FILEEOF

  /** Nothing but ends of lines. */
  predicate IsEols(s: string) { forall k :: 0 <= k < |s| ==> s[k] in {'\r', '\n'} }

  /** All ends of lines at the end of FILEEOF are dropped, and nothing else. */
  lemma {:induction false} FileEofStripped(s: string, e: string)
    requires IsEols(e) && (s != [] ==> s[|s| - 1] !in {'\r', '\n'})
    ensures StripEol(s + e) == s
    decreases |e|
  {
    if e == [] {
      assert s + e == s;
    } else {
      assert (s + e)[..|s + e| - 1] == s + e[..|e| - 1];
      FileEofStripped(s, e[..|e| - 1]);
    }
  }

  // ---------------------------------------------------------------- external paths

  /** A name without two dots in a row, with margins, is looked up below the directory. */
  lemma PlainPath(dir: string, a: string, name: string, c: string)
    requires IsMargin(a) && IsTight(name) && IsMargin(c) && !Contains(a + name + c, "..")
    ensures ExternalPath(dir, a + name + c) == dir + "/" + name
  {
    StrReplaceAbsent("..", "", a + name + c);
    TrimTakesMargins(a, name, c);
  }

  /** The first two dots are dropped, and what stands before and behind them is looked up in one. */
  lemma DottedPath(dir: string, x: string, y: string)
    requires StandsFirst("..", x) && !Contains(y, "..") && !Contains(x + y, "..")
    ensures ExternalPath(dir, x + ".." + y) == ExternalPath(dir, x + y)
  {
    ReplaceFirst("..", "", x, y);
    StrReplaceAbsent("..", "", y);
    StrReplaceAbsent("..", "", x + y);
    assert x + "" + y == x + y;
  }
}

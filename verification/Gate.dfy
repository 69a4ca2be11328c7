/** The validity gate between parsing a test file and running it: what must be there, and
    where the text of external sections comes from. */
module Gate {
  import opened PhpStrings
  import opened Sections

  datatype Reason = Unparsable(bork: Bork) | NestedRedirect | MissingFile | MissingExternal(key: string) | MissingExpect

  /** What the gate makes of a test: borked, a redirection, or a test to run with its final sections. */
  datatype Verdict = Borked(reason: Reason) | Redirects(text: map<string, string>) | Runnable(text: map<string, string>)

  const PREFIXES: seq<string> := ["FILE", "EXPECT", "EXPECTF", "EXPECTREGEX"]

  function External(prefix: string): string { prefix + "_EXTERNAL" }

  function Count(text: map<string, string>, name: string): nat { if name in text then 1 else 0 }

  /** `preg_replace("/[\r\n]+$/", '', s)`. */
  function StripEol(s: string): string {
    if s != [] && (s[|s| - 1] == '\r' || s[|s| - 1] == '\n') then StripEol(s[..|s| - 1]) else s
  }

  /** Where the text of an external section is read from. */
  function ExternalPath(dir: string, text: string): string { dir + "/" + Trim(StrReplace("..", "", text)) }

  // ---------------------------------------------------------------- specification

  function FileCount(text: map<string, string>): nat {
    Count(text, "FILE") + Count(text, "FILEEOF") + Count(text, "FILE_EXTERNAL")
  }

  /** The section is there, itself or by reference. */
  predicate Given(text: map<string, string>, prefix: string) { prefix in text || External(prefix) in text }

  function GivenCount(text: map<string, string>): nat {
    (if Given(text, "EXPECT") then 1 else 0) + (if Given(text, "EXPECTF") then 1 else 0)
    + (if Given(text, "EXPECTREGEX") then 1 else 0)
  }

  /** An external section refers to an existing file. */
  predicate Found(text: map<string, string>, prefix: string, dir: string, files: map<string, string>) {
    External(prefix) in text ==> ExternalPath(dir, text[External(prefix)]) in files
  }

  /** The first `n` prefixes are in order in this respect. */
  predicate AllFound(n: nat, text: map<string, string>, dir: string, files: map<string, string>)
    requires n <= |PREFIXES|
  {
    forall k :: 0 <= k < n ==> Found(text, PREFIXES[k], dir, files)
  }

  predicate IsExternalKey(n: nat, name: string)
    requires n <= |PREFIXES|
  {
    exists k :: 0 <= k < n && name == External(PREFIXES[k])
  }

  /** The sections of a test that passes the gate. */
  predicate Complete(text: map<string, string>) {
    && "FILE" in text
    && Count(text, "EXPECT") + Count(text, "EXPECTF") + Count(text, "EXPECTREGEX") == 1
    && "REDIRECTTEST" !in text
  }

  // ---------------------------------------------------------------- external sections

  /** One round of the loop over the prefixes. */
  function LoadOne(text: map<string, string>, prefix: string, dir: string, files: map<string, string>)
    : map<string, string>
  {
    var key := External(prefix);
    if key !in text then text
    else
      var path := ExternalPath(dir, text[key]);
      if path in files then text[prefix := files[path]] - {key} else text[key := path]
  }

  /** The sections after `n` rounds. */
  function Loaded(n: nat, text: map<string, string>, dir: string, files: map<string, string>): map<string, string>
    requires n <= |PREFIXES|
  {
    if n == 0 then text else LoadOne(Loaded(n - 1, text, dir, files), PREFIXES[n - 1], dir, files)
  }

  function Lookup(t: map<string, string>, name: string): Option<string> { if name in t then Some(t[name]) else None }

  /** A section once the first `n` external sections are dealt with: a reference is gone and what it refers to
      is there, but a reference to a missing file stays, as a path. */
  function ReadIn(n: nat, text: map<string, string>, name: string, dir: string, files: map<string, string>)
    : Option<string>
    requires n <= |PREFIXES|
  {
    if IsExternalKey(n, name) then
      if name in text && ExternalPath(dir, text[name]) !in files then Some(ExternalPath(dir, text[name])) else None
    else if name in PREFIXES[..n] && External(name) in text && ExternalPath(dir, text[External(name)]) in files then
      Some(files[ExternalPath(dir, text[External(name)])])
    else Lookup(text, name)
  }

  /** The eight names in play all differ. */
  lemma NamesDiffer(i: nat)
    requires i < |PREFIXES|
    ensures !IsExternalKey(i, External(PREFIXES[i])) && !IsExternalKey(|PREFIXES|, PREFIXES[i])
    ensures External(PREFIXES[i]) !in PREFIXES && PREFIXES[i] !in PREFIXES[..i]
    ensures forall m :: IsExternalKey(i + 1, m) <==> IsExternalKey(i, m) || m == External(PREFIXES[i])
  {
    assert |PREFIXES[0]| == 4 && |PREFIXES[1]| == 6 && |PREFIXES[2]| == 7 && |PREFIXES[3]| == 11;
    assert forall k :: 0 <= k < 4 ==> |External(PREFIXES[k])| == |PREFIXES[k]| + 9;
  }

  /** After `n` rounds every section is what it should be. */
  lemma {:induction false} LoadedIsReadIn(n: nat, text: map<string, string>, dir: string, files: map<string, string>)
    requires n <= |PREFIXES|
    ensures forall m :: Lookup(Loaded(n, text, dir, files), m) == ReadIn(n, text, m, dir, files)
  {
    if n == 0 {
    } else {
      LoadedIsReadIn(n - 1, text, dir, files);
      forall m ensures Lookup(Loaded(n, text, dir, files), m) == ReadIn(n, text, m, dir, files) {
        LoadOneReadsIn(n - 1, text, Loaded(n - 1, text, dir, files), dir, files, m);
      }
    }
  }

  lemma LoadOneReadsIn(i: nat, text: map<string, string>, t: map<string, string>, dir: string,
                       files: map<string, string>, m: string)
    requires i < |PREFIXES|
    requires Lookup(t, m) == ReadIn(i, text, m, dir, files)
    requires Lookup(t, External(PREFIXES[i])) == ReadIn(i, text, External(PREFIXES[i]), dir, files)
    ensures Lookup(LoadOne(t, PREFIXES[i], dir, files), m) == ReadIn(i + 1, text, m, dir, files)
  {
    var prefix, key := PREFIXES[i], External(PREFIXES[i]);
    NamesDiffer(i);
    assert PREFIXES[..i + 1] == PREFIXES[..i] + [prefix];
    assert Lookup(t, key) == Lookup(text, key);
    if m == key {
    } else if m == prefix {
      assert !IsExternalKey(i + 1, prefix);
    }
  }

  /** A round finds an external section as the file had it, whatever the rounds before did. */
  lemma FoundAlong(n: nat, text: map<string, string>, dir: string, files: map<string, string>)
    requires n < |PREFIXES|
    ensures Found(Loaded(n, text, dir, files), PREFIXES[n], dir, files) <==> Found(text, PREFIXES[n], dir, files)
  {
    LoadedIsReadIn(n, text, dir, files);
    NamesDiffer(n);
    var key := External(PREFIXES[n]);
    assert Lookup(Loaded(n, text, dir, files), key) == ReadIn(n, text, key, dir, files) == Lookup(text, key);
  }

  // ---------------------------------------------------------------- the gate

  /** The sections once FILEEOF has become FILE. */
  function Renamed(parsed: map<string, string>): map<string, string> {
    if "FILEEOF" in parsed then parsed["FILE" := StripEol(parsed["FILEEOF"])] - {"FILEEOF"} else parsed
  }

  /** What a test must have to be run. */
  predicate Acceptable(parsed: map<string, string>, dir: string, files: map<string, string>) {
    && "REDIRECTTEST" !in parsed
    && FileCount(parsed) == 1
    && AllFound(|PREFIXES|, Renamed(parsed), dir, files)
    && GivenCount(parsed) == 1
  }

  /** The section will be there once external sections are read in. */
  predicate Present(text: map<string, string>, prefix: string, dir: string, files: map<string, string>) {
    prefix in text || (External(prefix) in text && ExternalPath(dir, text[External(prefix)]) in files)
  }

  function PresentCount(text: map<string, string>, dir: string, files: map<string, string>): nat {
    (if Present(text, "EXPECT", dir, files) then 1 else 0) + (if Present(text, "EXPECTF", dir, files) then 1 else 0)
    + (if Present(text, "EXPECTREGEX", dir, files) then 1 else 0)
  }

  /** The last of the first `n` external sections whose file is missing. */
  function LastMissing(n: nat, text: map<string, string>, dir: string, files: map<string, string>): (r: Option<string>)
    requires n <= |PREFIXES|
    ensures r.None? <==> AllFound(n, text, dir, files)
  {
    if n == 0 then None
    else if !Found(text, PREFIXES[n - 1], dir, files) then Some(External(PREFIXES[n - 1]))
    else LastMissing(n - 1, text, dir, files)
  }

  /** Why a test is borked: of several reasons the one that is found last is reported. */
  function ReasonFor(parsed: map<string, string>, bork: Option<Bork>, dir: string, files: map<string, string>): Reason {
    if bork.Some? then Unparsable(bork.value)
    else if "REDIRECTTEST" in parsed then NestedRedirect
    else if PresentCount(parsed, dir, files) != 1 then MissingExpect
    else
      match LastMissing(|PREFIXES|, Renamed(parsed), dir, files)
      case Some(key) => MissingExternal(key)
      case None => MissingFile
  }

  method CheckSections(parsed: map<string, string>, bork: Option<Bork>, dir: string, files: map<string, string>,
                       inRedirect: bool)
    returns (r: Verdict)
    ensures r.Redirects? <==> bork.None? && "REDIRECTTEST" in parsed && !inRedirect
    ensures r.Redirects? ==> r.text == parsed
    ensures r.Runnable? <==> bork.None? && Acceptable(parsed, dir, files)
    ensures r.Runnable? ==> r.text == Loaded(|PREFIXES|, Renamed(parsed), dir, files)
    ensures r.Borked? ==> r.reason == ReasonFor(parsed, bork, dir, files)
  {
    if bork.Some? {
      return Borked(Unparsable(bork.value));
    }
    if "REDIRECTTEST" in parsed {
      r := if inRedirect then Borked(NestedRedirect) else Redirects(parsed);
      return;
    }
    var text := parsed;
    var reason := None;
    if Count(text, "FILE") + Count(text, "FILEEOF") + Count(text, "FILE_EXTERNAL") != 1 {
      reason := Some(MissingFile);
    }
    if "FILEEOF" in text {
      text := text["FILE" := StripEol(text["FILEEOF"])];
      text := text - {"FILEEOF"};
    }
    text, reason := LoadExternals(text, dir, files, reason);
    ExpectCount(parsed, dir, files);
    if Count(text, "EXPECT") + Count(text, "EXPECTF") + Count(text, "EXPECTREGEX") != 1 {
      reason := Some(MissingExpect);
    }
    r := if reason.Some? then Borked(reason.value) else Runnable(text);
  }

  /** The loop over the prefixes. */
  method LoadExternals(start: map<string, string>, dir: string, files: map<string, string>, before: Option<Reason>)
    returns (text: map<string, string>, reason: Option<Reason>)
    ensures text == Loaded(|PREFIXES|, start, dir, files)
    ensures var missing := LastMissing(|PREFIXES|, start, dir, files);
            reason == if missing.Some? then Some(MissingExternal(missing.value)) else before
  {
    text, reason := start, before;
    var i := 0;
    while i < |PREFIXES|
      invariant i <= |PREFIXES|
      invariant text == Loaded(i, start, dir, files)
      invariant var missing := LastMissing(i, start, dir, files);
                reason == if missing.Some? then Some(MissingExternal(missing.value)) else before
    {
      var prefix, key := PREFIXES[i], External(PREFIXES[i]);
      FoundAlong(i, start, dir, files);
      if key in text {
        var path := ExternalPath(dir, text[key]);
        text := text[key := path];
        if path in files {
          text := text[prefix := files[path]];
          text := text - {key};
        } else {
          reason := Some(MissingExternal(key));
        }
        assert text == LoadOne(Loaded(i, start, dir, files), prefix, dir, files);
      }
      i := i + 1;
    }
  }

  /** Reading external sections in gives as many expectations as there were, in either form, unless files are
      missing. */
  lemma ExpectCount(parsed: map<string, string>, dir: string, files: map<string, string>)
    ensures var t := Loaded(|PREFIXES|, Renamed(parsed), dir, files);
            Count(t, "EXPECT") + Count(t, "EXPECTF") + Count(t, "EXPECTREGEX") == PresentCount(parsed, dir, files)
    ensures AllFound(|PREFIXES|, Renamed(parsed), dir, files) ==> PresentCount(parsed, dir, files) == GivenCount(parsed)
  {
    var start := Renamed(parsed);
    assert External("EXPECT") == "EXPECT_EXTERNAL" && External("EXPECTF") == "EXPECTF_EXTERNAL"
        && External("EXPECTREGEX") == "EXPECTREGEX_EXTERNAL";
    PrefixPresent(1, start, dir, files);
    PrefixPresent(2, start, dir, files);
    PrefixPresent(3, start, dir, files);
    if AllFound(|PREFIXES|, start, dir, files) {
      assert Found(start, PREFIXES[1], dir, files) && Found(start, PREFIXES[2], dir, files)
          && Found(start, PREFIXES[3], dir, files);
    }
  }

  lemma PrefixPresent(i: nat, text: map<string, string>, dir: string, files: map<string, string>)
    requires i < |PREFIXES|
    ensures PREFIXES[i] in Loaded(|PREFIXES|, text, dir, files) <==> Present(text, PREFIXES[i], dir, files)
  {
    LoadedIsReadIn(|PREFIXES|, text, dir, files);
    NamesDiffer(i);
    assert PREFIXES[..|PREFIXES|] == PREFIXES;
    assert Lookup(Loaded(|PREFIXES|, text, dir, files), PREFIXES[i])
        == ReadIn(|PREFIXES|, text, PREFIXES[i], dir, files);
  }

  /** Every test that gets as far as being run has its FILE and exactly one expectation. */
  lemma RunnableIsComplete(parsed: map<string, string>, dir: string, files: map<string, string>)
    requires Acceptable(parsed, dir, files)
    ensures Complete(Loaded(|PREFIXES|, Renamed(parsed), dir, files))
  {
    var start := Renamed(parsed);
    ExpectCount(parsed, dir, files);
    PrefixPresent(0, start, dir, files);
    assert PREFIXES[0] == "FILE" && External("FILE") == "FILE_EXTERNAL" && Found(start, PREFIXES[0], dir, files);
    LoadedIsReadIn(|PREFIXES|, start, dir, files);
    OtherName("REDIRECTTEST");
    assert Lookup(Loaded(|PREFIXES|, start, dir, files), "REDIRECTTEST") == Lookup(start, "REDIRECTTEST");
  }

  lemma OtherName(name: string)
    requires |name| == 12
    ensures !IsExternalKey(|PREFIXES|, name) && name !in PREFIXES
  {
    assert |PREFIXES[0]| == 4 && |PREFIXES[1]| == 6 && |PREFIXES[2]| == 7 && |PREFIXES[3]| == 11;
    assert forall k :: 0 <= k < 4 ==> |External(PREFIXES[k])| == |PREFIXES[k]| + 9;
  }

  /** Where its FILE text comes from. */
  lemma RunnableFile(parsed: map<string, string>, dir: string, files: map<string, string>)
    requires Acceptable(parsed, dir, files)
    ensures Lookup(Loaded(|PREFIXES|, Renamed(parsed), dir, files), "FILE") ==
            if "FILE_EXTERNAL" in parsed then Lookup(files, ExternalPath(dir, parsed["FILE_EXTERNAL"]))
            else if "FILEEOF" in parsed then Some(StripEol(parsed["FILEEOF"])) else Some(parsed["FILE"])
  {
    LoadedIsReadIn(|PREFIXES|, Renamed(parsed), dir, files);
    NamesDiffer(0);
    assert Found(Renamed(parsed), PREFIXES[0], dir, files);
    assert PREFIXES[0] == "FILE" && External("FILE") == "FILE_EXTERNAL" && PREFIXES[..|PREFIXES|] == PREFIXES;
  }

  // ---------------------------------------------------------------- external paths

  /** Two dots in a row. */
  predicate HasDots(s: string) { |s| >= 2 && ((s[0] == '.' && s[1] == '.') || HasDots(s[1..])) }

  lemma {:induction false} RemovedDots(s: string)
    ensures !HasDots(StrReplace("..", "", s))
    ensures s != [] && s[0] != '.' ==> StrReplace("..", "", s) != [] && StrReplace("..", "", s)[0] == s[0]
  {
    if s == [] {
    } else {
      if ".." <= s {
        RemovedDots(s[2..]);
        assert "" + StrReplace("..", "", s[2..]) == StrReplace("..", "", s[2..]);
      } else {
        RemovedDots(s[1..]);
        var t := StrReplace("..", "", s[1..]);
        assert ([s[0]] + t)[1..] == t;
        if s[0] == '.' && |s| > 1 { assert s[1..][0] == s[1] != '.'; }
      }
    }
  }

  lemma {:induction false} DotsOfPrefix(s: string, n: nat)
    requires n <= |s| && !HasDots(s)
    ensures !HasDots(s[..n])
  {
    if n < 2 {
    } else {
      DotsOfPrefix(s[1..], n - 1);
      assert s[..n][1..] == s[1..][..n - 1];
    }
  }

  lemma {:induction false} TrimLeftDots(s: string)
    requires !HasDots(s)
    ensures !HasDots(TrimLeft(s))
  {
    if s == [] || !IsBlank(s[0]) {
    } else {
      TrimLeftDots(s[1..]);
    }
  }

  lemma {:induction false} TrimRightDots(s: string)
    requires !HasDots(s)
    ensures !HasDots(TrimRight(s))
  {
    if s == [] || !IsBlank(s[|s| - 1]) {
    } else {
      DotsOfPrefix(s, |s| - 1);
      TrimRightDots(s[..|s| - 1]);
    }
  }

  /** An external section never refers upwards: behind the directory of the test there are no two dots in a row. */
  lemma ExternalStaysBelow(dir: string, text: string)
    ensures exists below :: ExternalPath(dir, text) == dir + "/" + below && !HasDots(below)
  {
    var s := StrReplace("..", "", text);
    RemovedDots(text);
    TrimLeftDots(s);
    TrimRightDots(TrimLeft(s));
    assert ExternalPath(dir, text) == dir + "/" + Trim(s) && !HasDots(Trim(s));
  }
}

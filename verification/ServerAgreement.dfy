/** When exactly the two section parsers agree on a file the first one accepts. */
module ServerAgreement {
  import opened PhpStrings
  import opened Sections
  import opened ServerSections

  // ---------------------------------------------------------------- what finishing keeps

  /** The number of characters that are not blank. */
  function Solid(s: string): nat {
    if s == [] then 0 else (if IsBlank(s[0]) then 0 else 1) + Solid(s[1..])
  }

  lemma {:induction false} SolidConcat(s: string, t: string)
    ensures Solid(s + t) == Solid(s) + Solid(t)
  {
    if s == [] {
      assert s + t == t;
    } else {
      SolidConcat(s[1..], t);
      assert (s + t)[1..] == s[1..] + t;
    }
  }

  predicate AllBlank(s: string) { forall k :: 0 <= k < |s| ==> IsBlank(s[k]) }

  lemma {:induction false} SolidZeroIff(s: string)
    ensures Solid(s) == 0 <==> AllBlank(s)
  {
    if s == [] {
    } else {
      SolidZeroIff(s[1..]);
      assert AllBlank(s) <==> IsBlank(s[0]) && AllBlank(s[1..]) by {
        if IsBlank(s[0]) && AllBlank(s[1..]) {
          forall k | 0 <= k < |s| ensures IsBlank(s[k]) { assert k > 0 ==> s[k] == s[1..][k - 1]; }
        }
      }
    }
  }

  lemma {:induction false} SolidTrimLeft(s: string)
    ensures Solid(TrimLeft(s)) == Solid(s)
  {
    if s == [] || !IsBlank(s[0]) {
    } else {
      SolidTrimLeft(s[1..]);
    }
  }

  lemma {:induction false} SolidTrimRight(s: string)
    ensures Solid(TrimRight(s)) == Solid(s)
  {
    if s == [] || !IsBlank(s[|s| - 1]) {
    } else {
      var n := |s| - 1;
      SolidTrimRight(s[..n]);
      SolidConcat(s[..n], [s[n]]);
      assert s == s[..n] + [s[n]] && Solid([s[n]]) == 0;
    }
  }

  /** Finishing a section takes away blanks only. */
  lemma SolidFinish(name: string, v: string)
    ensures Solid(Finish(name, v)) == Solid(v)
  {
    SolidTrimLeft(v);
    SolidTrimRight(TrimLeft(v));
    if v != [] {
      var n := |v| - 1;
      SolidConcat(v[..n], [v[n]]);
      assert v == v[..n] + [v[n]];
      if n >= 1 {
        SolidConcat(v[..n - 1], [v[n - 1]]);
        assert v[..n] == v[..n - 1] + [v[n - 1]];
      }
      assert v[n] == '\n' ==> Solid([v[n]]) == 0;
      assert n >= 1 && v[n - 1] == '\r' ==> Solid([v[n - 1]]) == 0;
    }
  }

  /** `y` is `x` with blanks behind it. */
  ghost predicate Padded(x: string, y: string) { x <= y && AllBlank(y[|x|..]) }

  lemma {:induction false} TrimRightPadded(x: string, y: string)
    requires Padded(x, y)
    ensures TrimRight(y) == TrimRight(x)
    decreases |y|
  {
    if |y| > |x| {
      var n := |y| - 1;
      assert y[n] == y[|x|..][n - |x|];
      assert y[..n][|x|..] == y[|x|..][..n - |x|];
      TrimRightPadded(x, y[..n]);
    } else {
      assert x == y;
    }
  }

  lemma {:induction false} TrimLeftBlank(s: string)
    requires AllBlank(s)
    ensures TrimLeft(s) == []
  {
    if s == [] {
    } else {
      TrimLeftBlank(s[1..]);
    }
  }

  lemma {:induction false} TrimPadded(x: string, y: string)
    requires Padded(x, y)
    ensures Trim(y) == Trim(x)
    decreases |x|
  {
    if x == [] {
      assert y[0..] == y;
      TrimLeftBlank(y);
    } else if IsBlank(x[0]) {
      assert y[1..][|x| - 1..] == y[|x|..];
      TrimPadded(x[1..], y[1..]);
    } else {
      TrimRightPadded(x, y);
    }
  }

  // ---------------------------------------------------------------- headers

  /** What the second parser takes for a header the first one does, too, and it has no underscore. */
  lemma LetterIsHeader(line: string)
    ensures LetterHeader(line).Some? ==> Header(line) == LetterHeader(line) && '_' !in Header(line).value
  {
    if LetterHeader(line).Some? {
      var s := line[2..];
      LengthsAgree(s);
      assert line[2 + LetterLength(s)..][0] == s[LetterLength(s)];
      assert line[2..2 + LetterLength(s)] == s[..LetterLength(s)];
    }
  }

  lemma HeaderNotBlank(line: string)
    requires Header(line).Some?
    ensures !AllBlank(line)
  {
    assert line[0] == '-' && !IsBlank(line[0]);
  }

  /** Only blank lines are dropped behind ===DONE===. */
  ghost predicate DroppedBlank(p: Parser, lines: seq<string>)
    decreases |lines|
  {
    lines != [] ==>
      (p.secdone && Header(lines[0]).None? ==> AllBlank(lines[0])) && DroppedBlank(Step(p, lines[0]), lines[1..])
  }

  // ---------------------------------------------------------------- once apart, always apart

  /** The second parser has more in section `c`, and the first will not add to it. */
  ghost predicate Ahead(p: Parser, r: Reader, c: string) {
    && c in p.text && c in r.text && (p.section != c || p.secdone)
    && Solid(r.text[c]) > Solid(p.text[c])
  }

  lemma AheadStep(p: Parser, r: Reader, c: string, line: string)
    requires Ahead(p, r, c) && (Header(line).Some? ==> Header(line).value !in p.text)
    ensures Ahead(Step(p, line), ReadLine(r, line), c)
  {
    LetterIsHeader(line);
    SolidConcat(r.text[c], line);
  }

  lemma {:induction false} AheadSteps(p: Parser, r: Reader, c: string, lines: seq<string>)
    requires Ahead(p, r, c) && NewNames(p.text.Keys, HeaderNames(lines)) && p.section in p.text
    ensures Ahead(Steps(p, lines), ReadLines(r, lines), c)
    decreases |lines|
  {
    if lines == [] {
    } else {
      NewNamesStep(p, lines);
      AheadStep(p, r, c, lines[0]);
      AheadSteps(Step(p, lines[0]), ReadLine(r, lines[0]), c, lines[1..]);
    }
  }

  lemma NewNamesStep(p: Parser, lines: seq<string>)
    requires lines != [] && p.section in p.text && NewNames(p.text.Keys, HeaderNames(lines))
    ensures NewNames(Step(p, lines[0]).text.Keys, HeaderNames(lines[1..]))
    ensures Header(lines[0]).Some? ==> Header(lines[0]).value !in p.text
    ensures Step(p, lines[0]).section in Step(p, lines[0]).text
  {
    var p', rest := Step(p, lines[0]), HeaderNames(lines[1..]);
    match Header(lines[0])
    case None => assert p'.text.Keys == p.text.Keys;
    case Some(name) =>
      assert p'.text.Keys == p.text.Keys + {name};
      NewNamesCons(p.text.Keys, name, rest);
  }

  // ---------------------------------------------------------------- in step

  /** The parsers are in the same section and have the same, up to blanks dropped by the first. */
  ghost predicate InStep(base: map<string, string>, p: Parser, r: Reader) {
    && p.section == r.section && p.section in p.text && p.secfile == IsFileSection(p.section)
       && (p.secdone ==> p.secfile)
    && r.text.Keys == base.Keys + p.text.Keys
    && (forall k :: k in p.text ==>
          r.text[k] == p.text[k] || (IsFileSection(k) && (k != p.section || p.secdone) && Padded(p.text[k], r.text[k])))
    && (forall k :: k in base && k !in p.text ==> r.text[k] == base[k])
  }

  lemma InStepOnce(base: map<string, string>, p: Parser, r: Reader, line: string)
    requires InStep(base, p, r)
    requires Header(line).Some? ==> '_' !in Header(line).value && Header(line).value !in p.text
    requires p.secdone && Header(line).None? ==> AllBlank(line)
    ensures InStep(base, Step(p, line), ReadLine(r, line))
  {
    HeadersAgree(line);
    var c := p.section;
    if Header(line).None? && p.secdone {
      var x, y := p.text[c], r.text[c];
      assert Padded(x, y);
      assert (y + line)[|x|..] == y[|x|..] + line;
    }
  }

  lemma {:induction false} StayInStep(base: map<string, string>, p: Parser, r: Reader, lines: seq<string>)
    requires InStep(base, p, r) && NewNames(p.text.Keys, HeaderNames(lines))
    requires LetterHeaders(lines) && DroppedBlank(p, lines)
    ensures InStep(base, Steps(p, lines), ReadLines(r, lines))
    decreases |lines|
  {
    if lines == [] {
    } else {
      NewNamesStep(p, lines);
      InStepOnce(base, p, r, lines[0]);
      assert LetterHeaders(lines[1..]) by { LetterHeadersTail(lines); }
      StayInStep(base, Step(p, lines[0]), ReadLine(r, lines[0]), lines[1..]);
    }
  }

  lemma LetterHeadersTail(lines: seq<string>)
    requires lines != []
    ensures LetterHeaders(lines) <==>
            (Header(lines[0]).Some? ==> '_' !in Header(lines[0]).value) && LetterHeaders(lines[1..])
  {
    var rest := lines[1..];
    assert forall k :: 0 <= k < |rest| ==> rest[k] == lines[k + 1];
    if (Header(lines[0]).Some? ==> '_' !in Header(lines[0]).value) && LetterHeaders(rest) {
      forall k | 0 <= k < |lines| && Header(lines[k]).Some? ensures '_' !in Header(lines[k]).value {
        if k > 0 { assert lines[k] == rest[k - 1]; }
      }
    }
  }

  /** In step, a header with an underscore or a dropped line that is not blank puts the second parser ahead. */
  lemma GetsAhead(base: map<string, string>, p: Parser, r: Reader, line: string)
    requires InStep(base, p, r) && !AllBlank(line) && LetterHeader(line).None?
    requires if Header(line).Some? then Header(line).value !in p.text else p.secdone
    ensures Ahead(Step(p, line), ReadLine(r, line), p.section)
  {
    var c := p.section;
    var x, y := p.text[c], r.text[c];
    assert x <= y;
    SolidConcat(x, y[|x|..]);
    assert y == x + y[|x|..];
    SolidConcat(y, line);
    SolidZeroIff(line);
  }

  lemma {:induction false} FallsApart(base: map<string, string>, p: Parser, r: Reader, lines: seq<string>)
    returns (c: string)
    requires InStep(base, p, r) && NewNames(p.text.Keys, HeaderNames(lines))
    requires !(LetterHeaders(lines) && DroppedBlank(p, lines))
    ensures Ahead(Steps(p, lines), ReadLines(r, lines), c)
    decreases |lines|
  {
    var line := lines[0];
    NewNamesStep(p, lines);
    LetterHeadersTail(lines);
    LetterIsHeader(line);
    if Header(line).Some? && '_' in Header(line).value {
      HeaderNotBlank(line);
      GetsAhead(base, p, r, line);
      c := p.section;
      AheadSteps(Step(p, line), ReadLine(r, line), c, lines[1..]);
    } else if Header(line).None? && p.secdone && !AllBlank(line) {
      GetsAhead(base, p, r, line);
      c := p.section;
      AheadSteps(Step(p, line), ReadLine(r, line), c, lines[1..]);
    } else {
      InStepOnce(base, p, r, line);
      c := FallsApart(base, Step(p, line), ReadLine(r, line), lines[1..]);
    }
  }

  // ---------------------------------------------------------------- the exact condition

  /** The second parser delivers the sections of the first, finished, and besides them only its defaults. */
  ghost predicate Agree(lines: seq<string>, file: string, dir: string) {
    var run, server := Parsed(lines).text, ServerText(lines, file, dir);
    && server.Keys == run.Keys + Defaults(file, dir).Keys
    && (forall k :: k in run ==> server[k] == Finish(k, run[k]))
    && (forall k :: k in server && k !in run ==> server[k] == Finish(k, Defaults(file, dir)[k]))
  }

  lemma BothStart(lines: seq<string>, file: string, dir: string)
    requires Parsed(lines).bork.None?
    ensures var base := Defaults(file, dir);
            && lines != [] && NewNames(Start(lines).text.Keys, HeaderNames(lines[1..]))
            && InStep(base, Start(lines), Reader(base["TEST" := ""], "TEST"))
            && RawText(lines, file, dir) == ReadLines(Reader(base["TEST" := ""], "TEST"), lines[1..]).text
  {
    assert lines != [] && "--TEST--" <= lines[0] && NewNames({"TEST"}, HeaderNames(lines[1..])) by { BorkedIff(lines); }
    assert Start(lines).text.Keys == {"TEST"};
    StartsInStep(lines, Defaults(file, dir));
    RawAfterTest(lines, file, dir);
  }

  lemma StartsInStep(lines: seq<string>, base: map<string, string>)
    ensures InStep(base, Start(lines), Reader(base["TEST" := ""], "TEST"))
  {
  }

  lemma RawAfterTest(lines: seq<string>, file: string, dir: string)
    requires lines != [] && "--TEST--" <= lines[0]
    ensures RawText(lines, file, dir) == ReadLines(Reader(Defaults(file, dir)["TEST" := ""], "TEST"), lines[1..]).text
  {
    TestHeader(lines[0]);
    FailedReadMatters(lines, file, dir);
  }

  /** On a file the first parser accepts, the second agrees if and only if headers are made of letters and
      only blank lines follow ===DONE=== in a section. */
  lemma ParsersAgreeIff(lines: seq<string>, file: string, dir: string)
    requires Parsed(lines).bork.None?
    ensures Agree(lines, file, dir) <==> LetterHeaders(lines[1..]) && DroppedBlank(Start(lines), lines[1..])
  {
    var base, p := Defaults(file, dir), Start(lines);
    var r := Reader(base["TEST" := ""], "TEST");
    BothStart(lines, file, dir);
    if LetterHeaders(lines[1..]) && DroppedBlank(p, lines[1..]) {
      StayInStep(base, p, r, lines[1..]);
      InStepAgree(lines, file, dir, Steps(p, lines[1..]), ReadLines(r, lines[1..]));
    } else {
      var c := FallsApart(base, p, r, lines[1..]);
      AheadDisagree(lines, file, dir, Steps(p, lines[1..]), ReadLines(r, lines[1..]), c);
    }
  }

  lemma InStepAgree(lines: seq<string>, file: string, dir: string, p: Parser, r: Reader)
    requires p == Parsed(lines) && r.text == RawText(lines, file, dir) && InStep(Defaults(file, dir), p, r)
    ensures Agree(lines, file, dir)
  {
    var server := ServerText(lines, file, dir);
    forall k | k in p.text ensures server[k] == Finish(k, p.text[k]) {
      if r.text[k] != p.text[k] { TrimPadded(p.text[k], r.text[k]); }
    }
  }

  lemma AheadDisagree(lines: seq<string>, file: string, dir: string, p: Parser, r: Reader, c: string)
    requires p == Parsed(lines) && r.text == RawText(lines, file, dir) && Ahead(p, r, c)
    ensures !Agree(lines, file, dir)
  {
    SolidFinish(c, r.text[c]);
    SolidFinish(c, p.text[c]);
  }
}

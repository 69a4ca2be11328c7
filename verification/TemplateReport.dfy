/** The report on a failed EXPECTF test, read in terms of its template: line by line, with the lines of failed
    headers in front. */
module TemplateReport {
  import opened PhpStrings
  import opened ExpectF
  import opened Regex
  import opened CodePatterns
  import opened LongNames
  import opened ExpectFMeaning
  import opened RawSections
  import opened RawMeaning
  import opened TemplateLines
  import opened ArrayDiff
  import opened DiffTheorems
  import opened DiffText
  import opened Expectations
  import opened FailureReport

  // ---------------------------------------------------------------- the lines of a report

  /** A line of a report: a header line, which stands for itself, or a line of the template. */
  datatype ReportLine = Fixed(text: string) | Templated(line: Cut)

  function FixedLines(ls: seq<string>): (rs: seq<ReportLine>)
    ensures |rs| == |ls| && forall k :: 0 <= k < |rs| ==> rs[k] == Fixed(ls[k])
  {
    seq(|ls|, k requires 0 <= k < |ls| => Fixed(ls[k]))
  }

  function TemplatedLines(cs: seq<Cut>): (rs: seq<ReportLine>)
    ensures |rs| == |cs| && forall k :: 0 <= k < |rs| ==> rs[k] == Templated(cs[k])
  {
    seq(|cs|, k requires 0 <= k < |cs| => Templated(cs[k]))
  }

  /** The header block without its last newline. */
  function HeaderBlock(h: string): string { h + "\n--HEADERS--" }

  function ReportLines(t: Cut, headers: Option<string>): seq<ReportLine> {
    match headers
    case None => TemplatedLines(CutLines(t))
    case Some(h) => FixedLines(Explode(HeaderBlock(h))) + TemplatedLines(CutLines(t))
  }

  function LinePattern(l: ReportLine, sep: char): string {
    match l
    case Fixed(x) => Quote(x)
    case Templated(c) => PatternOf(c, sep)
  }

  function LinePatterns(ls: seq<ReportLine>, sep: char): (rs: seq<string>)
    ensures |rs| == |ls| && forall k :: 0 <= k < |rs| ==> rs[k] == LinePattern(ls[k], sep)
  {
    seq(|ls|, k requires 0 <= k < |ls| => LinePattern(ls[k], sep))
  }

  /** The template of an EXPECTF section. */
  function TemplateOf(section: string): Cut { CutAt(Normalise(Trim(section)), 0) }

  lemma ExplodeJoined(x: string, y: string)
    ensures Explode(x + "\n" + y) == Explode(x) + Explode(y)
  {
    assert Explode("\n" + y) == [""] + Explode(y) by {
      ExplodeLine("", y);
      assert "" + "\n" + y == "\n" + y;
    }
    ExplodeConcat(x, "\n" + y);
    assert x + ("\n" + y) == x + "\n" + y;
    GlueEmpty(Explode(x), Explode(y));
  }

  lemma GlueEmpty(xs: seq<string>, ys: seq<string>)
    requires xs != []
    ensures Glue(xs, [""] + ys) == xs + ys
  {
    var n := |xs| - 1;
    assert xs[n] + "" == xs[n] && ([""] + ys)[1..] == ys;
    assert xs == xs[..n] + [xs[n]];
  }

  lemma MarkedLines(h: string, rest: string)
    ensures Explode(h + HEADER_MARK + rest) == Explode(h) + ["--HEADERS--"] + Explode(rest)
  {
    var mark := "--HEADERS--";
    assert HEADER_MARK == "\n" + mark + "\n";
    MarkApart(h, mark, rest);
    ExplodeJoined(h, mark + "\n" + rest);
    ExplodeLine(mark, rest);
    assert Explode(h) + ([mark] + Explode(rest)) == Explode(h) + [mark] + Explode(rest);
  }

  lemma MarkApart(h: string, mark: string, rest: string)
    ensures h + ("\n" + mark + "\n") + rest == h + "\n" + (mark + "\n" + rest)
  {
  }

  /** Failed headers stand above the wanted text, with a line between them that says so. */
  lemma HeadersAbove(e: Expectation, h: string, wanted: string)
    requires wanted == if e.Literal? then Normalise(Trim(e.text)) else Trim(e.text)
    ensures Explode(ReportedText(e, Some(h))) == Explode(h) + ["--HEADERS--"] + Explode(wanted)
  {
    MarkedLines(h, wanted);
  }

  lemma QuotedMark(h: string)
    ensures Quote(h + HEADER_MARK) == Quote(HeaderBlock(h)) + "\n"
  {
    var block := HeaderBlock(h);
    assert h + HEADER_MARK == block + "\n";
    QuoteConcat(block, "\n");
    QuoteOne('\n');
  }

  lemma QuotedHeaders(h: string, re: string)
    ensures Explode(Quote(h + HEADER_MARK) + re) == EachLine(Quote, Explode(HeaderBlock(h))) + Explode(re)
  {
    QuotedMark(h);
    ExplodeJoined(Quote(HeaderBlock(h)), re);
    QuoteByLine();
    LinesOf(Quote, HeaderBlock(h));
  }

  lemma FixedPatterns(ls: seq<string>, sep: char)
    ensures LinePatterns(FixedLines(ls), sep) == EachLine(Quote, ls)
  {
  }

  lemma TemplatedPatterns(cs: seq<Cut>, sep: char)
    ensures LinePatterns(TemplatedLines(cs), sep) == Patterns(cs, sep)
  {
  }

  lemma LinePatternsConcat(xs: seq<ReportLine>, ys: seq<ReportLine>, sep: char)
    ensures LinePatterns(xs + ys, sep) == LinePatterns(xs, sep) + LinePatterns(ys, sep)
  {
  }

  /** The pattern of a report, from that of its template. */
  function WithHeaders(re: string, headers: Option<string>): string {
    match headers
    case None => re
    case Some(h) => Quote(h + HEADER_MARK) + re
  }

  lemma HeadersInFront(t: Cut, re: string, headers: Option<string>, sep: char)
    requires Explode(re) == Patterns(CutLines(t), sep)
    ensures Explode(WithHeaders(re, headers)) == LinePatterns(ReportLines(t, headers), sep)
  {
    TemplatedPatterns(CutLines(t), sep);
    if headers.Some? {
      var ls := Explode(HeaderBlock(headers.value));
      QuotedHeaders(headers.value, re);
      FixedPatterns(ls, sep);
      LinePatternsConcat(FixedLines(ls), TemplatedLines(CutLines(t)), sep);
    }
  }

  /** The lines of the reported pattern are the patterns of the lines of the report. */
  lemma ReportPatternLines(section: string, headers: Option<string>, sep: char)
    requires sep != '\n' && RawsOnLine(TemplateOf(section))
    ensures Explode(WithHeaders(Compile(Trim(section), sep), headers))
            == LinePatterns(ReportLines(TemplateOf(section), headers), sep)
  {
    CompiledByPieces(Trim(section), sep);
    PatternLines(TemplateOf(section), sep);
    HeadersInFront(TemplateOf(section), Compile(Trim(section), sep), headers, sep);
  }

  /** The wanted text has as many lines. */
  lemma ReportTextLines(section: string, headers: Option<string>, sep: char)
    requires sep != '\n'
    ensures ReportedRe(Format(section), headers, sep) == Some(WithHeaders(Compile(Trim(section), sep), headers))
    ensures |Explode(ReportedText(Format(section), headers))|
            == |Explode(WithHeaders(Compile(Trim(section), sep), headers))|
  {
    SameNumberOfLines(Format(section), headers, sep);
  }

  // ---------------------------------------------------------------- what the lines say

  /** The pattern that matches one text only. */
  function Literally(s: string): Re {
    if s == [] then Empty else Atom(Only(s[0]), false, false, Literally(s[1..]))
  }

  lemma FreshQuote(s: string)
    ensures Fresh(Quote(s))
  {
  }

  lemma {:induction false} ParseQuoted(s: string)
    ensures Parse(Quote(s), false) == Some((Literally(s), []))
  {
    if s == [] {
    } else {
      ParseQuoted(s[1..]);
      FreshQuote(s[1..]);
      ParseQuotedChar(s[0], Quote(s[1..]), Literally(s[1..]));
    }
  }

  lemma {:induction false} LiterallyMatches(t: string, s: string)
    ensures Matches(Literally(t), s) <==> s == t
  {
    if t == [] {
    } else {
      CharMatches(t[0], Literally(t[1..]), s);
      if s != [] {
        LiterallyMatches(t[1..], s[1..]);
        assert s == [s[0]] + s[1..] && t == [t[0]] + t[1..];
      }
    }
  }

  ghost function LineSaid(l: ReportLine, sep: char, e: Engine): iset<string> {
    match l
    case Fixed(x) => iset{x}
    case Templated(c) => CutSaid(c, sep, e)
  }

  ghost predicate ReadsLine(e: Engine, l: ReportLine, sep: char) {
    match l
    case Fixed(x) => Knows(e, Quote(x))
    case Templated(c) => ReadsGroups(e, c, sep)
  }

  lemma LinePatternSaid(l: ReportLine, sep: char, e: Engine)
    requires (sep == '/' || sep == '\\') && ReadsLine(e, l, sep)
    ensures e(LinePattern(l, sep)) == LineSaid(l, sep, e)
  {
    match l
    case Fixed(x) =>
      ParseQuoted(x);
      forall s ensures s in e(Quote(x)) <==> s == x { LiterallyMatches(x, s); }
    case Templated(c) => PatternSaid(c, sep, e);
  }

  /** The engine reads every line of the report, and `matches` passes its answers on. */
  ghost predicate Answers(matches: Relation, e: Engine, ls: seq<ReportLine>, sep: char) {
    forall k :: 0 <= k < |ls| ==> ReadsLine(e, ls[k], sep) && PassesOn(matches, e, LinePattern(ls[k], sep))
  }

  ghost predicate PassesOn(matches: Relation, e: Engine, re: string) {
    forall s :: matches(re, s) <==> Admits(e(re), s)
  }

  /** A line of the report matches an output line if and only if it says that line. */
  lemma LineAnswer(l: ReportLine, s: string, sep: char, e: Engine, matches: Relation)
    requires (sep == '/' || sep == '\\') && '\n' !in s
    requires ReadsLine(e, l, sep) && PassesOn(matches, e, LinePattern(l, sep))
    ensures matches(LinePattern(l, sep), s) <==> s in LineSaid(l, sep, e)
  {
    LinePatternSaid(l, sep, e);
    assert NoFinalNewline(s);
  }

  // ---------------------------------------------------------------- what the diff leaves out

  /** Kept lines related to `ys` one by one, seen through another relation and other texts. */
  lemma {:induction false} KeepRelated<T>(r: seq<string>, u: seq<T>, marked: seq<nat>, k: nat, ys: seq<string>,
                                          rel: Relation, to: (T, string) -> bool)
    requires |r| == |u| && k <= |r| && Pairwise(Keep(r, marked, k), ys, rel)
    requires forall i, y :: 0 <= i < |r| && y in ys && rel(r[i], y) ==> to(u[i], y)
    ensures Pairwise(Keep(u, marked, k), ys, to)
    decreases |r| - k
  {
    if k == |r| {
    } else {
      if k in marked {
        KeepRelated(r, u, marked, k + 1, ys, rel, to);
      } else {
        var s := Keep(r, marked, k + 1);
        assert Keep(r, marked, k) == [r[k]] + s;
        assert ys == [ys[0]] + ys[1..] && rel(([r[k]] + s)[0], ys[0]);
        forall i | 0 <= i < |s| ensures rel(s[i], ys[1..][i]) { assert ([r[k]] + s)[i + 1] == s[i]; }
        assert ys[0] in ys && to(u[k], ys[0]);
        forall i, y | 0 <= i < |r| && y in ys[1..] && rel(r[i], y) ensures to(u[i], y) { assert y in ys; }
        KeepRelated(r, u, marked, k + 1, ys[1..], rel, to);
        PairwiseCons(u[k], Keep(u, marked, k + 1), ys[0], ys[1..], to);
      }
    }
  }

  lemma {:induction false} KeptLinesAreLines(s: seq<string>, marked: seq<nat>, k: nat)
    requires k <= |s|
    ensures forall y :: y in Keep(s, marked, k) ==> y in s
    decreases |s| - k
  {
    if k == |s| {
    } else {
      KeptLinesAreLines(s, marked, k + 1);
    }
  }

  /** Whatever text is wanted: output lines the diff leaves out are said by the lines of the pattern left out. */
  lemma LeftOutIsSaid(wanted: string, re: string, u: seq<ReportLine>, output: string, sep: char, e: Engine,
                      matches: Relation, said: (ReportLine, string) -> bool)
    requires (sep == '/' || sep == '\\') && Explode(re) == LinePatterns(u, sep) && |Explode(wanted)| == |Explode(re)|
    requires Answers(matches, e, u, sep) && forall l, y :: said(l, y) <==> y in LineSaid(l, sep, e)
    ensures var d := DiffOf(wanted, Some(re), output, matches);
            Pairwise(Keep(u, Lines(Side(d, true)), 0), Keep(Explode(output), Lines(Side(d, false)), 0), said)
  {
    var d, r, o := DiffOf(wanted, Some(re), output, matches), Explode(re), Explode(output);
    var rel := CompLine(true, matches);
    DiffIsSound(r, o, rel, Looker(r, o, rel), Explode(wanted));
    var ys := Keep(o, Lines(Side(d, false)), 0);
    KeptLinesAreLines(o, Lines(Side(d, false)), 0);
    forall i, y | 0 <= i < |r| && y in ys && rel(r[i], y) ensures said(u[i], y) {
      LineAnswer(u[i], y, sep, e, matches);
    }
    KeepRelated(r, u, Lines(Side(d, true)), 0, ys, rel, said);
  }

  /** Every output line the diff of a failed EXPECTF test leaves out is said by the line of the report it leaves
      out at the same place. */
  lemma UnreportedLinesAreSaid(section: string, headers: Option<string>, output: string, sep: char, e: Engine,
                               matches: Relation, said: (ReportLine, string) -> bool)
    requires (sep == '/' || sep == '\\') && RawsOnLine(TemplateOf(section))
    requires Answers(matches, e, ReportLines(TemplateOf(section), headers), sep)
    requires forall l, y :: said(l, y) <==> y in LineSaid(l, sep, e)
    ensures var wanted, re := ReportedText(Format(section), headers), ReportedRe(Format(section), headers, sep);
            var d := DiffOf(wanted, re, output, matches);
            Pairwise(Keep(ReportLines(TemplateOf(section), headers), Lines(Side(d, true)), 0),
                     Keep(Explode(output), Lines(Side(d, false)), 0), said)
  {
    ReportPatternLines(section, headers, sep);
    ReportTextLines(section, headers, sep);
    LeftOutIsSaid(ReportedText(Format(section), headers), WithHeaders(Compile(Trim(section), sep), headers),
                  ReportLines(TemplateOf(section), headers), output, sep, e, matches, said);
  }

  // ---------------------------------------------------------------- a mismatch is reported

  /** What a report as a whole says. */
  ghost function ReportSaid(t: Cut, headers: Option<string>, sep: char, e: Engine): iset<string> {
    match headers
    case None => CutSaid(t, sep, e)
    case Some(h) => iset b | b in CutSaid(t, sep, e) :: h + HEADER_MARK + b
  }

  lemma {:induction false} ImplodeConcat(xs: seq<string>, ys: seq<string>)
    requires xs != [] && ys != []
    ensures Implode("\n", xs + ys) == Implode("\n", xs) + "\n" + Implode("\n", ys)
  {
    if |xs| == 1 {
      assert (xs + ys)[1..] == ys;
    } else {
      ImplodeConcat(xs[1..], ys);
      assert (xs + ys)[1..] == xs[1..] + ys;
    }
  }

  ghost predicate SaysLines(ls: seq<ReportLine>, ys: seq<string>, sep: char, e: Engine) {
    |ys| == |ls| && forall k :: 0 <= k < |ys| ==> ys[k] in LineSaid(ls[k], sep, e)
  }

  lemma TemplatedLinesSaid(t: Cut, ys: seq<string>, sep: char, e: Engine)
    requires SaysLines(TemplatedLines(CutLines(t)), ys, sep, e)
    ensures Implode("\n", ys) in CutSaid(t, sep, e)
  {
    var cs := CutLines(t);
    forall k | 0 <= k < |cs| ensures ys[k] in CutSaid(cs[k], sep, e) {
      assert ys[k] in LineSaid(TemplatedLines(cs)[k], sep, e);
    }
    TemplateLinesSaid(t, ys, sep, e);
  }

  lemma FixedLinesSaid(ls: seq<string>, ys: seq<string>, sep: char, e: Engine)
    requires SaysLines(FixedLines(ls), ys, sep, e)
    ensures ys == ls
  {
    forall k | 0 <= k < |ys| ensures ys[k] == ls[k] { assert ys[k] in LineSaid(FixedLines(ls)[k], sep, e); }
  }

  lemma SaysParts(xs: seq<ReportLine>, zs: seq<ReportLine>, ys: seq<string>, sep: char, e: Engine)
    requires SaysLines(xs + zs, ys, sep, e)
    ensures SaysLines(xs, ys[..|xs|], sep, e) && SaysLines(zs, ys[|xs|..], sep, e)
  {
    var n, all := |xs|, xs + zs;
    forall k | 0 <= k < n ensures ys[..n][k] in LineSaid(xs[k], sep, e) { assert all[k] == xs[k]; }
    forall k | 0 <= k < |zs| ensures ys[n..][k] in LineSaid(zs[k], sep, e) { assert all[n + k] == zs[k]; }
  }

  /** Lines that are said one by one make up an output that is said. */
  lemma ReportLinesSaid(t: Cut, headers: Option<string>, ys: seq<string>, sep: char, e: Engine)
    requires SaysLines(ReportLines(t, headers), ys, sep, e)
    ensures Implode("\n", ys) in ReportSaid(t, headers, sep, e)
  {
    match headers
    case None => TemplatedLinesSaid(t, ys, sep, e);
    case Some(h) => var b := HeaderedLinesSaid(t, h, Explode(HeaderBlock(h)), ys, sep, e);
  }

  lemma HeaderedLinesSaid(t: Cut, h: string, block: seq<string>, ys: seq<string>, sep: char, e: Engine)
    returns (b: string)
    requires block == Explode(HeaderBlock(h))
    requires SaysLines(FixedLines(block) + TemplatedLines(CutLines(t)), ys, sep, e)
    ensures b in CutSaid(t, sep, e) && Implode("\n", ys) == h + HEADER_MARK + b
  {
    var n := |block|;
    assert ys[..n] == block && SaysLines(TemplatedLines(CutLines(t)), ys[n..], sep, e) by {
      SaysParts(FixedLines(block), TemplatedLines(CutLines(t)), ys, sep, e);
      FixedLinesSaid(block, ys[..n], sep, e);
    }
    b := Implode("\n", ys[n..]);
    TemplatedLinesSaid(t, ys[n..], sep, e);
    BlockInFront(h, block, ys, n);
  }

  lemma BlockInFront(h: string, block: seq<string>, ys: seq<string>, n: nat)
    requires block == Explode(HeaderBlock(h)) && n == |block| < |ys| && ys[..n] == block
    ensures Implode("\n", ys) == h + HEADER_MARK + Implode("\n", ys[n..])
  {
    assert ys == block + ys[n..];
    ImplodeConcat(block, ys[n..]);
    assert Implode("\n", block) + "\n" == h + HEADER_MARK by {
      ImplodeExplode(HeaderBlock(h));
      assert HeaderBlock(h) + "\n" == h + HEADER_MARK;
    }
  }

  lemma MatchingLinesSaid(u: seq<ReportLine>, o: seq<string>, sep: char, e: Engine, matches: Relation)
    requires (sep == '/' || sep == '\\') && Answers(matches, e, u, sep)
    requires |u| == |o| && forall k :: 0 <= k < |u| ==> matches(LinePattern(u[k], sep), o[k]) && '\n' !in o[k]
    ensures SaysLines(u, o, sep, e)
  {
    forall k | 0 <= k < |u| ensures o[k] in LineSaid(u[k], sep, e) { LineAnswer(u[k], o[k], sep, e, matches); }
  }

  lemma EmptyDiffSays(wanted: string, re: string, u: seq<ReportLine>, output: string, sep: char, e: Engine,
                      matches: Relation)
    requires (sep == '/' || sep == '\\') && Explode(re) == LinePatterns(u, sep) && Answers(matches, e, u, sep)
    ensures Print(DiffOf(wanted, Some(re), output, matches)) != "" || SaysLines(u, Explode(output), sep, e)
  {
    var d, r, o := DiffOf(wanted, Some(re), output, matches), Explode(re), Explode(output);
    var rel := CompLine(true, matches);
    if d == [] {
      assert Pairwise(r, o, rel) by { EmptyDiffIffMatch(r, o, rel, Looker(r, o, rel), Explode(wanted)); }
      forall k | 0 <= k < |u| ensures matches(LinePattern(u[k], sep), o[k]) { assert rel(r[k], o[k]); }
      MatchingLinesSaid(u, o, sep, e, matches);
    } else {
      PrintNotEmpty(d);
    }
  }

  /** An output that the report does not say as a whole never has an empty diff. */
  lemma MismatchIsReported(section: string, headers: Option<string>, output: string, sep: char, e: Engine,
                           matches: Relation)
    requires (sep == '/' || sep == '\\') && RawsOnLine(TemplateOf(section))
    requires Answers(matches, e, ReportLines(TemplateOf(section), headers), sep)
    ensures var wanted, re := ReportedText(Format(section), headers), ReportedRe(Format(section), headers, sep);
            || output in ReportSaid(TemplateOf(section), headers, sep, e)
            || Print(DiffOf(wanted, re, output, matches)) != ""
  {
    var u := ReportLines(TemplateOf(section), headers);
    ReportPatternLines(section, headers, sep);
    ReportTextLines(section, headers, sep);
    EmptyDiffSays(ReportedText(Format(section), headers), WithHeaders(Compile(Trim(section), sep), headers), u, output,
                  sep, e, matches);
    if SaysLines(u, Explode(output), sep, e) {
      ReportLinesSaid(TemplateOf(section), headers, Explode(output), sep, e);
      ImplodeExplode(output);
    }
  }

  /** So without failed headers: an output that the compiled template does not accept never has an empty diff. */
  lemma AcceptedOrReported(section: string, output: string, sep: char, e: Engine, matches: Relation)
    requires (sep == '/' || sep == '\\') && RawsOnLine(TemplateOf(section)) && ReadsGroups(e, TemplateOf(section), sep)
    requires Answers(matches, e, ReportLines(TemplateOf(section), None), sep)
    ensures Admits(e(Compile(Trim(section), sep)), output)
            || Print(DiffOf(Trim(section), Some(Compile(Trim(section), sep)), output, matches)) != ""
  {
    MismatchIsReported(section, None, output, sep, e, matches);
    EveryTemplateMeans(Trim(section), output, sep, e);
  }

  /** The same in literal mode. */
  lemma LiteralMismatchIsReported(wanted: string, output: string, matches: Relation)
    ensures Print(DiffOf(wanted, None, output, matches)) == "" <==> wanted == output
  {
    var w, o := Explode(wanted), Explode(output);
    var rel := CompLine(false, matches);
    var d := DiffOf(wanted, None, output, matches);
    EmptyDiffIffMatch(w, o, rel, Looker(w, o, rel), w);
    ImplodeExplode(wanted);
    ImplodeExplode(output);
    assert Pairwise(w, o, rel) <==> w == o;
    if d != [] { PrintNotEmpty(d); }
  }

  lemma PrintNotEmpty(d: seq<Edit>)
    requires d != []
    ensures Print(d) != ""
  {
    assert Print(d)[0] == Render(d[0])[0];
  }
}

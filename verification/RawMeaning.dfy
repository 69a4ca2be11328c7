/** What a template with raw sections says.  A raw section means what the pattern engine makes of it; the
    engine is arbitrary but for reading each raw section as a group of its own. */
module RawMeaning {
  import opened ExpectF
  import opened Regex
  import opened LongNames
  import opened ExpectFMeaning
  import opened ShortestOutput
  import opened RawSections

  /** The strings a pattern text matches from end to end. */
  type Engine = string -> iset<string>

  /** The engine agrees with the modelled patterns on a text they cover. */
  ghost predicate Knows(e: Engine, re: string) {
    Parse(re, false).Some? && forall s :: s in e(re) <==> Matches(Parse(re, false).value.0, s)
  }

  /** One string of each, put together. */
  ghost function Around(before: iset<string>, raw: iset<string>, after: iset<string>): iset<string> {
    iset x, y, z | x in before && y in raw && z in after :: x + y + z
  }

  /** The engine reads the raw sections of a template as groups: they neither reach out of their parentheses
      nor refer to one another. */
  ghost predicate ReadsGroups(e: Engine, t: Cut, sep: char) {
    var plain := Replaced(Quote(t.plain), sep);
    && Knows(e, plain)
    && (t.Then? ==> ReadsGroups(e, t.rest, sep) &&
                    e(PatternOf(t, sep)) == Around(e(plain), e(Replaced(t.raw, sep)), e(PatternOf(t.rest, sep))))
  }

  /** What plain text says. */
  ghost function Said(p: string, sep: char): iset<string> { iset s | Means(p, s, sep) }

  /** What a cut template says: long names are replaced, and a raw section stands for what the engine makes of it
      after replacement. */
  ghost function CutSaid(t: Cut, sep: char, e: Engine): iset<string> {
    match t
    case Last(p) => Said(Named(p), sep)
    case Then(p, r, rest) => Around(Said(Named(p), sep), e(Replaced(r, sep)), CutSaid(rest, sep, e))
  }

  lemma PlainPieceSaid(p: string, sep: char, e: Engine)
    requires (sep == '/' || sep == '\\') && Knows(e, Replaced(Quote(p), sep))
    ensures e(Replaced(Quote(p), sep)) == Said(Named(p), sep)
  {
    QuotedPiece(p, sep);
    ParseOfTemplate(Named(p), sep);
    forall s ensures s in e(Replaced(Quote(p), sep)) <==> s in Said(Named(p), sep) { ReMeans(Named(p), s, sep); }
  }

  /** The pattern of a cut template matches what the template says. */
  lemma {:induction false} PatternSaid(t: Cut, sep: char, e: Engine)
    requires (sep == '/' || sep == '\\') && ReadsGroups(e, t, sep)
    ensures e(PatternOf(t, sep)) == CutSaid(t, sep, e)
  {
    PlainPieceSaid(t.plain, sep, e);
    if t.Last? {
    } else {
      PatternSaid(t.rest, sep, e);
    }
  }

  /** With one final newline that goes unnoticed. */
  ghost predicate Admits(language: iset<string>, output: string) {
    output in language || (!NoFinalNewline(output) && output[..|output| - 1] in language)
  }

  /** For every template, raw sections included, and every output: the compiled template accepts the output if
      and only if the template says it. */
  lemma EveryTemplateMeans(wanted: string, output: string, sep: char, e: Engine)
    requires sep == '/' || sep == '\\'
    requires ReadsGroups(e, CutAt(Normalise(wanted), 0), sep)
    ensures Admits(e(Compile(wanted, sep)), output) <==> Admits(CutSaid(CutAt(Normalise(wanted), 0), sep, e), output)
  {
    CompiledByPieces(wanted, sep);
    PatternSaid(CutAt(Normalise(wanted), 0), sep, e);
  }

  // ---------------------------------------------------------------- as written

  /** What a cut template says as written, with nothing replaced beforehand. */
  ghost function WrittenSaid(t: Cut, sep: char, e: Engine): iset<string> {
    match t
    case Last(p) => Said(p, sep)
    case Then(p, r, rest) => Around(Said(p, sep), e(r), WrittenSaid(rest, sep, e))
  }

  /** A long name in some plain part. */
  ghost predicate LongNameIn(t: Cut) { HasLongName(t.plain) || (t.Then? && LongNameIn(t.rest)) }

  /** The raw sections hold no placeholders, and each can match something. */
  ghost predicate RawsSurvive(t: Cut, sep: char, e: Engine) {
    t.Then? ==> Replaced(t.raw, sep) == t.raw && e(t.raw) != iset{} && RawsSurvive(t.rest, sep, e)
  }

  /** A length no member falls below. */
  ghost predicate AtLeast(language: iset<string>, n: nat) { forall u :: u in language ==> n <= |u| }

  lemma {:induction false} ShortestMember(language: iset<string>, s: string) returns (m: string)
    requires s in language
    ensures m in language && AtLeast(language, |m|)
    decreases |s|
  {
    if u :| u in language && |u| < |s| {
      m := ShortestMember(language, u);
    } else {
      m := s;
    }
  }

  lemma ShortestOf(language: iset<string>) returns (m: string)
    requires language != iset{}
    ensures m in language && AtLeast(language, |m|)
  {
    var s :| s in language;
    m := ShortestMember(language, s);
  }

  lemma AroundAtLeast(before: iset<string>, raw: iset<string>, after: iset<string>, a: nat, b: nat, c: nat)
    requires AtLeast(before, a) && AtLeast(raw, b) && AtLeast(after, c)
    ensures AtLeast(Around(before, raw, after), a + b + c)
  {
  }

  /** Long names make plain text say something shorter. */
  lemma ShortestPlain(p: string, sep: char) returns (m: string, n: nat)
    ensures m in Said(Named(p), sep) && AtLeast(Said(p, sep), n) && |m| <= n && (HasLongName(p) ==> |m| < n)
  {
    m, n := Shortest(Named(p), sep), |Shortest(p, sep)|;
    ShortestIsSaid(Named(p), sep);
    forall u | u in Said(p, sep) ensures n <= |u| { NothingShorterIsSaid(p, u, sep); }
    if HasLongName(p) { NamesShorten(p, sep); } else { NamesAbsent(p); }
  }

  /** So they do with a cut template. */
  lemma {:induction false} ShortestCut(t: Cut, sep: char, e: Engine) returns (m: string, n: nat)
    requires RawsSurvive(t, sep, e)
    ensures m in CutSaid(t, sep, e) && AtLeast(WrittenSaid(t, sep, e), n) && |m| <= n && (LongNameIn(t) ==> |m| < n)
  {
    m, n := ShortestPlain(t.plain, sep);
    if t.Last? {
    } else {
      var x := ShortestOf(e(t.raw));
      var shortRest, least := ShortestCut(t.rest, sep, e);
      JoinShortest(t, sep, e, m, n, x, shortRest, least);
      m, n := m + x + shortRest, n + |x| + least;
    }
  }

  lemma JoinShortest(t: Cut, sep: char, e: Engine, m: string, n: nat, x: string, shortRest: string, least: nat)
    requires t.Then? && Replaced(t.raw, sep) == t.raw
    requires m in Said(Named(t.plain), sep) && x in e(t.raw) && shortRest in CutSaid(t.rest, sep, e)
    requires AtLeast(Said(t.plain, sep), n) && AtLeast(e(t.raw), |x|) && AtLeast(WrittenSaid(t.rest, sep, e), least)
    ensures m + x + shortRest in CutSaid(t, sep, e) && AtLeast(WrittenSaid(t, sep, e), n + |x| + least)
  {
    AroundAtLeast(Said(t.plain, sep), e(t.raw), WrittenSaid(t.rest, sep, e), n, |x|, least);
  }

  lemma {:induction false} WrittenIsCut(t: Cut, sep: char, e: Engine)
    requires RawsSurvive(t, sep, e) && !LongNameIn(t)
    ensures WrittenSaid(t, sep, e) == CutSaid(t, sep, e)
  {
    NamesAbsent(t.plain);
    if t.Last? {
    } else {
      WrittenIsCut(t.rest, sep, e);
    }
  }

  /** A template whose raw sections hold no placeholders accepts exactly what it says as written if and only if
      no long name occurs in its plain text. */
  lemma EveryTemplateAsWrittenIff(wanted: string, t: Cut, sep: char, e: Engine)
    requires (sep == '/' || sep == '\\') && t == CutAt(Normalise(wanted), 0)
    requires ReadsGroups(e, t, sep) && RawsSurvive(t, sep, e)
    ensures (forall output :: Admits(e(Compile(wanted, sep)), output) <==> Admits(WrittenSaid(t, sep, e), output))
            <==> !LongNameIn(t)
  {
    CompiledByPieces(wanted, sep);
    PatternSaid(t, sep, e);
    if LongNameIn(t) {
      var m, n := ShortestCut(t, sep, e);
      assert Admits(e(Compile(wanted, sep)), m) && !Admits(WrittenSaid(t, sep, e), m);
    } else {
      WrittenIsCut(t, sep, e);
    }
  }
}

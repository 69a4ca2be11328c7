/** The compiled EXPECTF template accepts what the template says. */
module ExpectFMeaning {
  import opened PhpStrings
  import opened ExpectF
  import opened Placeholders
  import opened Regex
  import opened CodePatterns
  import opened CodeMeaning
  import opened LongNames

  /** What a template says: a code stands for a piece of the output, any other character for itself. */
  ghost predicate Means(t: string, s: string, sep: char)
    decreases |t|
  {
    if t == [] then s == []
    else if CodeAhead(Codes(sep), t) then
      exists k :: 0 <= k <= |s| && Stands(t[1], s[..k], sep) && Means(t[2..], s[k..], sep)
    else s != [] && s[0] == t[0] && Means(t[1..], s[1..], sep)
  }

  /** The pattern of a template. */
  function ReOf(t: string, sep: char): Re
    decreases |t|
  {
    if t == [] then Empty
    else if CodeAhead(Codes(sep), t) && IsCode(t[1]) then Append(CodeRe(t[1], sep), ReOf(t[2..], sep))
    else Atom(Only(t[0]), false, false, ReOf(t[1..], sep))
  }

  lemma CodesAreCodes(sep: char, c: char)
    requires HasCode(Codes(sep), c)
    ensures IsCode(c)
  {
  }

  /** The eleven letters: a template says what it says up to one of them behind a percent sign, and what it stands for
      there; a character that begins no code stands for itself. */
  lemma MeansIs(t: string, s: string, sep: char)
    requires t != []
    ensures Means(t, s, sep) <==>
            if |t| >= 2 && t[0] == '%' && t[1] in "esSaAwidxfc" then
              exists k :: 0 <= k <= |s| && Stands(t[1], s[..k], sep) && Means(t[2..], s[k..], sep)
            else s != [] && s[0] == t[0] && Means(t[1..], s[1..], sep)
  {
    if |t| >= 2 { LettersAreCodes(sep, t[1]); }
  }

  lemma LettersAreCodes(sep: char, c: char)
    ensures HasCode(Codes(sep), c) <==> c in "esSaAwidxfc"
  {
    var codes, letters := Codes(sep), "esSaAwidxfc";
    assert |codes| == |letters| == 11;
    assert forall k :: 0 <= k < 11 ==> codes[k].0 == letters[k];
  }

  // ---------------------------------------------------------------- quoting and replacing, character by character

  lemma {:induction false} PassOverText(codes: seq<(char, string)>, t: string, u: string)
    requires '%' !in t
    ensures SinglePass(codes, t + u) == t + SinglePass(codes, u)
  {
    if t == [] {
      assert t + u == u;
    } else {
      PassOverText(codes, t[1..], u);
      assert (t + u)[1..] == t[1..] + u;
      assert (t + u)[0] == t[0];
      assert [t[0]] + (t[1..] + SinglePass(codes, u)) == t + SinglePass(codes, u);
    }
  }

  lemma QuoteStart(t: string)
    requires t != []
    ensures Quote(t) != [] && (Quote(t)[0] == t[0] || Quote(t)[0] == '\\')
  {
  }

  lemma QuotedLetter(t: string)
    requires |t| >= 2 && t[0] == '%' && IsCode(t[1])
    ensures Quote(t) == ['%', t[1]] + Quote(t[2..])
  {
    QuoteCons('%', t[1..]);
    QuoteCons(t[1], t[2..]);
    assert t == ['%'] + t[1..] && t[1..] == [t[1]] + t[2..];
    assert ['%'] + ([t[1]] + Quote(t[2..])) == ['%', t[1]] + Quote(t[2..]);
  }

  /** Quoting does not disturb a code, and never makes one. */
  lemma QuotedCode(sep: char, t: string)
    requires CodeAhead(Codes(sep), t)
    ensures SinglePass(Codes(sep), Quote(t)) == TextOf(Codes(sep), t[1]) + SinglePass(Codes(sep), Quote(t[2..]))
  {
    CodesAreCodes(sep, t[1]);
    QuotedLetter(t);
    var q := Quote(t);
    assert q[0] == '%' && q[1] == t[1] && q[2..] == Quote(t[2..]);
  }

  lemma QuotedChar(sep: char, t: string)
    requires t != [] && !CodeAhead(Codes(sep), t)
    ensures SinglePass(Codes(sep), Quote(t)) == QuoteChar(t[0]) + SinglePass(Codes(sep), Quote(t[1..]))
  {
    var codes := Codes(sep);
    if t[0] != '%' {
      assert '%' !in QuoteChar(t[0]);
      PassOverText(codes, QuoteChar(t[0]), Quote(t[1..]));
    } else {
      var q := Quote(t);
      assert q == "%" + Quote(t[1..]);
      assert q[1..] == Quote(t[1..]);
      if t[1..] != [] {
        QuoteStart(t[1..]);
        assert q[1] == Quote(t[1..])[0];
        assert q[1] == t[1] || q[1] == '\\';
        if HasCode(codes, '\\') { CodesAreCodes(sep, '\\'); }
      }
      assert !CodeAhead(codes, q);
    }
  }

  /** A quoted character stands for itself. */
  lemma ParseQuotedChar(c: char, u: string, next: Re)
    requires Fresh(u) && Parse(u, false) == Some((next, []))
    ensures Parse(QuoteChar(c) + u, false) == Some((Atom(Only(c), false, false, next), []))
  {
    if IsMeta(c) {
      AtomEscaped(c, u);
      Once(['\\', c], Only(c), u, false, next, []);
    } else if c == '\0' {
      var s := "\\000" + u;
      assert s[1..4] == "000" && s[4..] == u;
      Once("\\000", Only('\0'), u, false, next, []);
    } else {
      assert ([c] + u)[1..] == u;
      Once([c], Only(c), u, false, next, []);
    }
  }

  lemma FreshStart(sep: char, t: string)
    ensures Fresh(SinglePass(Codes(sep), Quote(t)))
  {
    if t != [] {
      if CodeAhead(Codes(sep), t) {
        CodeTextFresh(sep, t);
      } else {
        QuotedChar(sep, t);
        assert Fresh(QuoteChar(t[0]));
      }
    }
  }

  lemma CodeTextFresh(sep: char, t: string)
    requires CodeAhead(Codes(sep), t)
    ensures Fresh(SinglePass(Codes(sep), Quote(t)))
  {
    QuotedCode(sep, t);
    var codes, text := Codes(sep), TextOf(Codes(sep), t[1]);
    var k :| 0 <= k < |codes| && codes[k] == (t[1], text);
    assert text != [] && text[0] in {'\\', '[', '.'};
  }

  /** The compiled template stands for the pattern of the template. */
  lemma {:induction false} ParseOfTemplate(t: string, sep: char)
    requires sep == '/' || sep == '\\'
    ensures Parse(SinglePass(Codes(sep), Quote(t)), false) == Some((ReOf(t, sep), []))
    decreases |t|
  {
    if t == [] {
    } else if CodeAhead(Codes(sep), t) {
      ParseOfTemplate(t[2..], sep);
      FreshStart(sep, t[2..]);
      QuotedCode(sep, t);
      ParseCode(t[1], sep, SinglePass(Codes(sep), Quote(t[2..])), ReOf(t[2..], sep));
    } else {
      ParseOfTemplate(t[1..], sep);
      FreshStart(sep, t[1..]);
      QuotedChar(sep, t);
      ParseQuotedChar(t[0], SinglePass(Codes(sep), Quote(t[1..])), ReOf(t[1..], sep));
    }
  }

  lemma CharMatches(c: char, next: Re, s: string)
    ensures Matches(Atom(Only(c), false, false, next), s) <==> s != [] && s[0] == c && Matches(next, s[1..])
  {
    if s != [] {
      OnlyMeans(s[0], c);
      assert s[..1] == [s[0]];
      if s[0] == c && Matches(next, s[1..]) {
        assert Quantity(1, false, false) && AllIn(s[..1], Only(c));
      }
    }
    if Matches(Atom(Only(c), false, false, next), s) {
      var k :| 0 <= k <= |s| && Quantity(k, false, false) && AllIn(s[..k], Only(c)) && Matches(next, s[k..]);
      assert k == 1 && In(s[..1][0], Only(c));
    }
  }

  /** The pattern of a template matches what the template says. */
  lemma {:induction false} ReMeans(t: string, s: string, sep: char)
    ensures Matches(ReOf(t, sep), s) <==> Means(t, s, sep)
    decreases |t|
  {
    if t == [] {
    } else if CodeAhead(Codes(sep), t) {
      CodesAreCodes(sep, t[1]);
      var first, rest := CodeRe(t[1], sep), ReOf(t[2..], sep);
      MatchesAppend(first, rest, s);
      forall k | 0 <= k <= |s|
        ensures Matches(first, s[..k]) && Matches(rest, s[k..])
                <==> Stands(t[1], s[..k], sep) && Means(t[2..], s[k..], sep)
      {
        CodeMeans(t[1], s[..k], sep);
        ReMeans(t[2..], s[k..], sep);
      }
    } else {
      CharMatches(t[0], ReOf(t[1..], sep), s);
      if s != [] { ReMeans(t[1..], s[1..], sep); }
    }
  }

  // ---------------------------------------------------------------- the compiler

  /** Output that was trimmed does not end in a newline. */
  predicate NoFinalNewline(s: string) { s == [] || s[|s| - 1] != '\n' }

  /** The output, or the output without one final newline, is what the template says. */
  ghost predicate Says(t: string, output: string, sep: char) {
    Means(t, output, sep) || (!NoFinalNewline(output) && Means(t, output[..|output| - 1], sep))
  }

  /** For every template without raw sections and every output: the compiled template accepts the
      output if and only if the template, with its long names replaced, says it. */
  lemma CompiledTemplateMeans(wanted: string, output: string, sep: char)
    requires sep == '/' || sep == '\\'
    requires CutAt(Normalise(wanted), 0).Last?
    ensures Accepts(Compile(wanted, sep), output) <==> Says(Named(Normalise(wanted)), output, sep)
  {
    var t := Named(Normalise(wanted));
    CompileIsSinglePass(wanted, sep);
    ParseOfTemplate(t, sep);
    ReMeans(t, output, sep);
    if !NoFinalNewline(output) { ReMeans(t, output[..|output| - 1], sep); }
  }

  // ---------------------------------------------------------------- templates without placeholders

  lemma {:induction false} PlainMeans(t: string, s: string, sep: char)
    requires '%' !in t
    ensures Means(t, s, sep) <==> s == t
    decreases |t|
  {
    if t == [] {
    } else {
      if s != [] {
        PlainMeans(t[1..], s[1..], sep);
        assert s == [s[0]] + s[1..] && t == [t[0]] + t[1..];
      }
    }
  }

  lemma {:induction false} NormaliseKeepsPlain(t: string)
    requires '%' !in t
    ensures '%' !in Normalise(t)
    decreases |t|
  {
    if t == [] {
    } else if "\r\n" <= t {
      NormaliseKeepsPlain(t[2..]);
    } else {
      NormaliseKeepsPlain(t[1..]);
    }
  }

  lemma {:induction false} NoTagInPlain(t: string, from: nat)
    requires '%' !in t && from <= |t|
    ensures FindTag(t, from) == |t|
    decreases |t| - from
  {
    if from == |t| {
    } else {
      NoTagInPlain(t, from + 1);
    }
  }

  /** For a template without '%' and output that does not end in a newline the EXPECTF branch
      accepts exactly when the EXPECT branch, comparing with the normalised text, would. */
  lemma PlainTemplateIsLiteral(wanted: string, output: string, sep: char)
    requires sep == '/' || sep == '\\'
    requires '%' !in wanted && NoFinalNewline(output)
    ensures Accepts(Compile(wanted, sep), output) <==> output == Normalise(wanted)
  {
    PlainAccepted(wanted, output, sep);
  }

  /** Without the condition on the output, one newline at the end of the output goes unnoticed. */
  lemma PlainAccepted(wanted: string, output: string, sep: char)
    requires sep == '/' || sep == '\\'
    requires '%' !in wanted
    ensures Accepts(Compile(wanted, sep), output) <==> output == Normalise(wanted) || output == Normalise(wanted) + "\n"
  {
    var t := Normalise(wanted);
    assert '%' !in t by { PlainIsInScope(wanted); }
    assert Accepts(Compile(wanted, sep), output) <==> Says(t, output, sep) by {
      PlainIsInScope(wanted);
      CompiledTemplateMeans(wanted, output, sep);
    }
    PlainMeans(t, output, sep);
    if !NoFinalNewline(output) { PlainMeans(t, output[..|output| - 1], sep); }
    FinalNewline(output, t);
  }

  lemma FinalNewline(output: string, t: string)
    ensures output == t + "\n" <==> !NoFinalNewline(output) && output[..|output| - 1] == t
  {
    assert (t + "\n")[..|t|] == t;
    if !NoFinalNewline(output) { assert output == output[..|output| - 1] + "\n"; }
  }

  lemma PlainIsInScope(wanted: string)
    requires '%' !in wanted
    ensures var t := Normalise(wanted); '%' !in t && CutAt(t, 0).Last? && Named(t) == t
  {
    var t := Normalise(wanted);
    NormaliseKeepsPlain(wanted);
    NoTagInPlain(t, 0);
    PlainHasNoLongName(t);
    NamesAbsent(t);
  }
}

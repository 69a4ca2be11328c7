/** The shortest output a template says.  Replacing a long name always makes it shorter, so the
    replacement keeps the meaning of a template if and only if no long name occurs. */
module ShortestOutput {
  import opened PhpStrings
  import opened ExpectF
  import opened Placeholders
  import opened Regex
  import opened CodePatterns
  import opened CodeMeaning
  import opened LongNames
  import opened ExpectFMeaning

  // ---------------------------------------------------------------- the shortest output

  function ShortestPiece(c: char, sep: char): (p: string)
    requires IsCode(c)
    ensures |p| <= 1 && Stands(c, p, sep)
    ensures forall q :: Stands(c, q, sep) ==> |p| <= |q|
  {
    match c
    case 'e' => [sep]
    case 'S' => ""
    case 'A' => ""
    case 'w' => ""
    case _ => "0"
  }

  /** The shortest output a template says. */
  function Shortest(t: string, sep: char): string
    decreases |t|
  {
    if t == [] then []
    else if CodeAhead(Codes(sep), t) && IsCode(t[1]) then ShortestPiece(t[1], sep) + Shortest(t[2..], sep)
    else [t[0]] + Shortest(t[1..], sep)
  }

  /** Every template says something, */
  lemma {:induction false} ShortestIsSaid(t: string, sep: char)
    ensures Means(t, Shortest(t, sep), sep)
    decreases |t|
  {
    var s := Shortest(t, sep);
    if t == [] {
    } else if CodeAhead(Codes(sep), t) {
      CodesAreCodes(sep, t[1]);
      ShortestIsSaid(t[2..], sep);
      var p := ShortestPiece(t[1], sep);
      assert s[..|p|] == p && s[|p|..] == Shortest(t[2..], sep);
    } else {
      ShortestIsSaid(t[1..], sep);
      assert s[1..] == Shortest(t[1..], sep);
    }
  }

  /** and nothing shorter than that. */
  lemma {:induction false} NothingShorterIsSaid(t: string, s: string, sep: char)
    requires Means(t, s, sep)
    ensures |Shortest(t, sep)| <= |s|
    decreases |t|
  {
    if t == [] {
    } else if CodeAhead(Codes(sep), t) {
      CodesAreCodes(sep, t[1]);
      var k :| 0 <= k <= |s| && Stands(t[1], s[..k], sep) && Means(t[2..], s[k..], sep);
      NothingShorterIsSaid(t[2..], s[k..], sep);
    } else {
      NothingShorterIsSaid(t[1..], s[1..], sep);
    }
  }

  // ---------------------------------------------------------------- its length, under replacement

  /** The length of the shortest output. */
  function MinLen(t: string, sep: char): nat { |Shortest(t, sep)| }

  lemma MinLenCode(t: string, sep: char)
    requires CodeAhead(Codes(sep), t)
    ensures IsCode(t[1]) && t[1] != '%' && MinLen(t, sep) == |ShortestPiece(t[1], sep)| + MinLen(t[2..], sep)
  {
    CodesAreCodes(sep, t[1]);
  }

  lemma MinLenChar(c: char, u: string, sep: char)
    requires !CodeAhead(Codes(sep), [c] + u)
    ensures MinLen([c] + u, sep) == 1 + MinLen(u, sep)
  {
    assert ([c] + u)[1..] == u;
  }

  lemma MinLenJoined(u: string, sep: char)
    requires CodeAhead(Codes(sep), ['%'] + u)
    ensures MinLen(u, sep) - 1 <= MinLen(['%'] + u, sep) <= MinLen(u, sep)
  {
    var t := ['%'] + u;
    assert t[1] == u[0] && t[2..] == u[1..];
    assert MinLen(t, sep) <= 1 + MinLen(u[1..], sep) <= MinLen(t, sep) + 1 && u[0] != '%' by { MinLenCode(t, sep); }
    assert u == [u[0]] + u[1..];
    MinLenChar(u[0], u[1..], sep);
  }

  /** A percent sign in front may join with what follows, but changes little. */
  lemma MinLenPercent(u: string, sep: char)
    ensures MinLen(u, sep) - 1 <= MinLen(['%'] + u, sep) <= MinLen(u, sep) + 1
  {
    if CodeAhead(Codes(sep), ['%'] + u) {
      MinLenJoined(u, sep);
    } else {
      MinLenChar('%', u, sep);
    }
  }

  lemma {:induction false} MinLenPlain(p: string, u: string, sep: char)
    requires '%' !in p
    ensures MinLen(p + u, sep) == |p| + MinLen(u, sep)
  {
    if p == [] {
      assert p + u == u;
    } else {
      MinLenPlain(p[1..], u, sep);
      assert p + u == [p[0]] + (p[1..] + u);
      MinLenChar(p[0], p[1..] + u, sep);
    }
  }

  /** A name between percent signs, and what it is replaced by. */
  ghost predicate Shrinks(n: string, r: string) {
    && |n| >= 2 && n[0] == '%' && n[|n| - 1] == '%' && '%' !in n[1..|n| - 1]
    && '%' !in r && |r| + 4 < |n|
  }

  lemma NameInFront(n: string, r: string, rest: string, sep: char)
    requires Shrinks(n, r)
    ensures MinLen(r + rest, sep) < MinLen(n + rest, sep)
  {
    var mid, end := n[1..|n| - 1], ['%'] + rest;
    assert n + rest == ['%'] + (mid + end);
    assert MinLen(n + rest, sep) >= |mid| + MinLen(rest, sep) - 2 by {
      MinLenPercent(mid + end, sep);
      MinLenPlain(mid, end, sep);
      MinLenPercent(rest, sep);
    }
    MinLenPlain(r, rest, sep);
  }

  /** Replacing a name never makes the shortest output longer, and makes it shorter where the name occurs. */
  lemma {:induction false} ReplacingShortens(n: string, r: string, s: string, sep: char)
    requires Shrinks(n, r)
    ensures MinLen(StrReplace(n, r, s), sep) <= MinLen(s, sep)
    ensures Contains(s, n) ==> MinLen(StrReplace(n, r, s), sep) < MinLen(s, sep)
    decreases |s|
  {
    if s == [] {
    } else if n <= s {
      var rest := s[|n|..];
      ReplacingShortens(n, r, rest, sep);
      assert s == n + rest;
      NameInFront(n, r, rest, sep);
      MinLenPlain(r, rest, sep);
      MinLenPlain(r, StrReplace(n, r, rest), sep);
    } else if CodeAhead(Codes(sep), s) {
      ReplacingShortens(n, r, s[2..], sep);
      MinLenCode(s, sep);
      ReplaceKeepsCode(n, r, s, sep);
      ContainedLater(s, n);
      if Contains(s[1..], n) { ContainedLater(s[1..], n); }
      assert s[1..][1..] == s[2..];
    } else {
      ReplacingShortens(n, r, s[1..], sep);
      ContainedLater(s, n);
      var u := StrReplace(n, r, s[1..]);
      if s[0] == '%' { MinLenPercent(u, sep); } else { MinLenPlain([s[0]], u, sep); }
    }
  }

  lemma ReplaceKeepsCode(n: string, r: string, s: string, sep: char)
    requires n != [] && n[0] == '%' && !(n <= s) && CodeAhead(Codes(sep), s) && s[1] != '%'
    ensures !(n <= s[1..])
    ensures MinLen(StrReplace(n, r, s), sep)
            == |Shortest(s, sep)| - MinLen(s[2..], sep) + MinLen(StrReplace(n, r, s[2..]), sep)
  {
    var v := StrReplace(n, r, s[2..]);
    assert s[1..][1..] == s[2..] && s[1..][0] == s[1];
    var u := StrReplace(n, r, s);
    assert StrReplace(n, r, s[1..]) == [s[1]] + v;
    assert u == ['%'] + StrReplace(n, r, s[1..]);
    assert u[1] == s[1] && u[2..] == v;
    MinLenCode(u, sep);
    MinLenCode(s, sep);
  }

  // ---------------------------------------------------------------- the exact condition

  /** Either a name is absent and nothing changes, or the shortest output gets shorter. */
  lemma NameStep(n: string, r: string, s: string, sep: char) returns (u: string)
    requires Shrinks(n, r)
    ensures u == StrReplace(n, r, s) && MinLen(u, sep) <= MinLen(s, sep)
    ensures MinLen(u, sep) == MinLen(s, sep) ==> u == s && !Contains(s, n)
  {
    ReplacingShortens(n, r, s, sep);
    u := StrReplace(n, r, s);
    if !Contains(s, n) { StrReplaceAbsent(n, r, s); }
  }

  lemma NamesShrink()
    ensures Shrinks("%binary_string_optional%", "string") && Shrinks("%unicode_string_optional%", "string")
    ensures Shrinks("%unicode|string%", "string") && Shrinks("%string|unicode%", "string")
    ensures Shrinks("%u|b%", "") && Shrinks("%b|u%", "")
  {
  }

  lemma NamesShorten(t: string, sep: char)
    requires HasLongName(t)
    ensures MinLen(Named(t), sep) < MinLen(t, sep)
  {
    NamesShrink();
    var t1 := NameStep("%binary_string_optional%", "string", t, sep);
    var t2 := NameStep("%unicode_string_optional%", "string", t1, sep);
    var t3 := NameStep("%unicode|string%", "string", t2, sep);
    var t4 := NameStep("%string|unicode%", "string", t3, sep);
    var t5 := NameStep("%u|b%", "", t4, sep);
    var t6 := NameStep("%b|u%", "", t5, sep);
  }

  /** Replacing the long names keeps what a template says if and only if it has none. */
  lemma NamesKeepMeaningIff(t: string, sep: char)
    ensures (forall s :: Means(Named(t), s, sep) <==> Means(t, s, sep)) <==> !HasLongName(t)
  {
    if HasLongName(t) {
      var s := Shortest(Named(t), sep);
      ShortestIsSaid(Named(t), sep);
      assert !Means(t, s, sep) by {
        NamesShorten(t, sep);
        if Means(t, s, sep) { NothingShorterIsSaid(t, s, sep); }
      }
    } else {
      NamesAbsent(t);
    }
  }

  /** A compiled template without raw sections accepts exactly what the template says, for every
      output, if and only if no long name occurs in it. */
  lemma CompiledAsWrittenIff(wanted: string, sep: char)
    requires sep == '/' || sep == '\\'
    requires CutAt(Normalise(wanted), 0).Last?
    ensures (forall output :: Accepts(Compile(wanted, sep), output) <==> Says(Normalise(wanted), output, sep))
            <==> !HasLongName(Normalise(wanted))
  {
    var t := Normalise(wanted);
    if HasLongName(t) {
      var s := Shortest(Named(t), sep);
      ShortestIsSaid(Named(t), sep);
      CompiledTemplateMeans(wanted, s, sep);
      assert !Says(t, s, sep) by {
        NamesShorten(t, sep);
        if Means(t, s, sep) { NothingShorterIsSaid(t, s, sep); }
        if !NoFinalNewline(s) && Means(t, s[..|s| - 1], sep) { NothingShorterIsSaid(t, s[..|s| - 1], sep); }
      }
    } else {
      NamesAbsent(t);
      forall output ensures Accepts(Compile(wanted, sep), output) <==> Says(t, output, sep) {
        CompiledTemplateMeans(wanted, output, sep);
      }
    }
  }

  /** The smallest case: the template "%u|b%" says its own five characters, but accepts only nothing. */
  lemma NameLost(t: string, sep: char)
    requires t == "%u|b%"
    ensures Means(Named(t), "", sep) && !Means(t, "", sep)
  {
    assert Named(t) == "" by { NamedAlone(t); }
    if CodeAhead(Codes(sep), t) { CodesAreCodes(sep, t[1]); }
  }

  lemma NamedAlone(t: string)
    requires t == "%u|b%"
    ensures Named(t) == ""
  {
    TooLong("%binary_string_optional%", "string", t);
    TooLong("%unicode_string_optional%", "string", t);
    TooLong("%unicode|string%", "string", t);
    TooLong("%string|unicode%", "string", t);
    assert t[|t|..] == [];
  }

  lemma TooLong(n: string, r: string, t: string)
    requires |n| > |t|
    ensures StrReplace(n, r, t) == t
  {
    StrReplaceAbsent(n, r, t);
  }
}

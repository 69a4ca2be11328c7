/** What the pattern compiler makes of the regular expression text behind each letter code. */
module CodePatterns {
  import opened PhpStrings
  import opened ExpectF
  import opened Placeholders
  import opened Regex

  const NOT_EOL := OneOf([('\r', '\r'), ('\n', '\n')], true)
  const SIGN := OneOf([('+', '+'), ('-', '-')], false)
  const HEX := OneOf([('0', '9'), ('a', 'f'), ('A', 'F')], false)
  const EXPONENT := OneOf([('E', 'E'), ('e', 'e')], false)

  predicate IsCode(c: char) { c in {'e', 's', 'S', 'a', 'A', 'w', 'i', 'd', 'x', 'f', 'c'} }

  /** The pattern of a code. */
  function CodeRe(c: char, sep: char): Re
    requires IsCode(c)
  {
    match c
    case 'e' => Atom(Only(sep), false, false, Empty)
    case 's' => Atom(NOT_EOL, false, true, Empty)
    case 'S' => Atom(NOT_EOL, true, true, Empty)
    case 'a' => Atom(Any, false, true, Empty)
    case 'A' => Atom(Any, true, true, Empty)
    case 'w' => Atom(SPACE, true, true, Empty)
    case 'i' => Atom(SIGN, true, false, Atom(DIGIT, false, true, Empty))
    case 'd' => Atom(DIGIT, false, true, Empty)
    case 'x' => Atom(HEX, false, true, Empty)
    case 'f' =>
      Atom(SIGN, true, false, Atom(Only('.'), true, false, Atom(DIGIT, false, true,
      Atom(Only('.'), true, false, Atom(DIGIT, true, true, OptGroup(ExponentRe(), Empty))))))
    case 'c' => Atom(Any, false, false, Empty)
  }

  function ExponentRe(): Re {
    Atom(EXPONENT, false, false, Atom(SIGN, true, false, Atom(DIGIT, false, true, Empty)))
  }

  /** A text that cannot be taken for a quantifier of what stands before it. */
  predicate Fresh(u: string) { u == [] || u[0] !in {'+', '*', '?', '{'} }

  lemma Quantified(q: char, u: string)
    requires Fresh(u) && (q == '+' || q == '*' || q == '?')
    ensures ParseQuantifier([q] + u) == Some((q != '+', q != '?', u))
  {
    assert ([q] + u)[1..] == u;
    assert |u| > 0 ==> ([q] + u)[1] == u[0];
  }

  // ---------------------------------------------------------------- single atoms

  lemma LastItem(text: string, range: (char, char), u: string)
    requires (text == [range.0] && range.0 == range.1 && range.0 !in {']', '\\', '/', '\0'})
          || (text == [range.0, '-', range.1] && range.0 !in {']', '\\', '/', '\0'}
              && range.1 !in {']', '\\', '/', '\0'})
          || (text == "\\n" && range == ('\n', '\n'))
    ensures ClassItems(text + ("]" + u)) == Some(([range], u))
  {
    var s := text + ("]" + u);
    assert ("]" + u)[1..] == u;
    assert s[|text|..] == "]" + u;
    assert [range] + [] == [range];
    if |text| == 1 && |s| >= 3 { assert s[1] == ']'; }
  }

  lemma AtomNotEol(u: string)
    ensures ParseAtom("[^\\r\\n]" + u) == Some((NOT_EOL, u))
  {
    LastItem("\\n", ('\n', '\n'), u);
    var s := "\\r\\n]" + u;
    assert s[2..] == "\\n" + ("]" + u);
    assert [('\r', '\r')] + [('\n', '\n')] == [('\r', '\r'), ('\n', '\n')];
    assert ("[^\\r\\n]" + u)[2..] == s;
  }

  lemma AtomSign(u: string)
    ensures ParseAtom("[+-]" + u) == Some((SIGN, u))
  {
    LastItem("-", ('-', '-'), u);
    var s := "+-]" + u;
    assert s[1..] == "-" + ("]" + u);
    assert [('+', '+')] + [('-', '-')] == [('+', '+'), ('-', '-')];
    assert ("[+-]" + u)[1..] == s;
  }

  lemma HexLetters(u: string)
    ensures ClassItems("a-fA-F]" + u) == Some(([('a', 'f'), ('A', 'F')], u))
  {
    LastItem("A-F", ('A', 'F'), u);
    var t := "a-fA-F]" + u;
    assert t[3..] == "A-F" + ("]" + u);
    assert [('a', 'f')] + [('A', 'F')] == [('a', 'f'), ('A', 'F')];
  }

  lemma AtomHex(u: string)
    ensures ParseAtom("[0-9a-fA-F]" + u) == Some((HEX, u))
  {
    HexLetters(u);
    var s := "0-9a-fA-F]" + u;
    assert s[3..] == "a-fA-F]" + u;
    assert [('0', '9')] + [('a', 'f'), ('A', 'F')] == [('0', '9'), ('a', 'f'), ('A', 'F')];
    assert ("[0-9a-fA-F]" + u)[1..] == s;
  }

  lemma AtomExponent(u: string)
    ensures ParseAtom("[Ee]" + u) == Some((EXPONENT, u))
  {
    LastItem("e", ('e', 'e'), u);
    var s := "Ee]" + u;
    assert s[1..] == "e" + ("]" + u);
    assert [('E', 'E')] + [('e', 'e')] == [('E', 'E'), ('e', 'e')];
    assert ("[Ee]" + u)[1..] == s;
  }

  lemma AtomEscaped(c: char, u: string)
    requires !IsAlnum(c) && c != '\0'
    ensures ParseAtom(['\\', c] + u) == Some((Only(c), u))
  {
    var s := ['\\', c] + u;
    assert s[2..] == u && s[1] == c;
    if |s| >= 4 { assert s[1..4][0] == c; }
  }

  lemma AtomEscapedLetter(u: string)
    ensures ParseAtom("\\d" + u) == Some((DIGIT, u))
    ensures ParseAtom("\\s" + u) == Some((SPACE, u))
    ensures ParseAtom("." + u) == Some((Any, u))
  {
    assert ("\\d" + u)[2..] == u && ("\\s" + u)[2..] == u && ("." + u)[1..] == u;
  }

  // ---------------------------------------------------------------- quantified atoms in front of a pattern

  lemma Repeated(text: string, cls: Class, q: char, u: string, inGroup: bool, next: Re, tail: string)
    requires text != [] && text[0] != '(' && text[0] != ')'
    requires ParseAtom(text + ([q] + u)) == Some((cls, [q] + u))
    requires Fresh(u) && (q == '+' || q == '*' || q == '?')
    requires Parse(u, inGroup) == Some((next, tail))
    ensures Parse(text + [q] + u, inGroup) == Some((Atom(cls, q != '+', q != '?', next), tail))
  {
    Quantified(q, u);
    assert text + [q] + u == text + ([q] + u);
    assert (text + ([q] + u))[0] == text[0];
    ParseStep(text + ([q] + u), inGroup, cls, [q] + u, q != '+', q != '?', u, next, tail);
  }

  lemma Once(text: string, cls: Class, u: string, inGroup: bool, next: Re, tail: string)
    requires text != [] && text[0] != '(' && text[0] != ')'
    requires ParseAtom(text + u) == Some((cls, u)) && Fresh(u)
    requires Parse(u, inGroup) == Some((next, tail))
    ensures Parse(text + u, inGroup) == Some((Atom(cls, false, false, next), tail))
  {
    assert (text + u)[0] == text[0];
    ParseStep(text + u, inGroup, cls, u, false, false, u, next, tail);
  }

  lemma Digits(u: string, inGroup: bool, next: Re, tail: string)
    requires Fresh(u) && Parse(u, inGroup) == Some((next, tail))
    ensures Parse("\\d+" + u, inGroup) == Some((Atom(DIGIT, false, true, next), tail))
  {
    AtomEscapedLetter(['+'] + u);
    Repeated("\\d", DIGIT, '+', u, inGroup, next, tail);
    assert "\\d" + ['+'] == "\\d+";
  }

  lemma Sign(u: string, inGroup: bool, next: Re, tail: string)
    requires Fresh(u) && Parse(u, inGroup) == Some((next, tail))
    ensures Parse("[+-]?" + u, inGroup) == Some((Atom(SIGN, true, false, next), tail))
  {
    AtomSign(['?'] + u);
    Repeated("[+-]", SIGN, '?', u, inGroup, next, tail);
    assert "[+-]" + ['?'] == "[+-]?";
  }

  lemma Point(u: string, next: Re, tail: string)
    requires Fresh(u) && Parse(u, false) == Some((next, tail))
    ensures Parse("\\.?" + u, false) == Some((Atom(Only('.'), true, false, next), tail))
  {
    AtomEscaped('.', ['?'] + u);
    Repeated("\\.", Only('.'), '?', u, false, next, tail);
    assert "\\." + ['?'] == "\\.?";
  }

  lemma ExponentBody(u: string)
    ensures Parse("[Ee]" + ("[+-]?" + ("\\d+" + (")?" + u))), true) == Some((ExponentRe(), ['?'] + u))
  {
    var s3 := ")?" + u;
    assert s3[1..] == ['?'] + u;
    Digits(s3, true, Empty, ['?'] + u);
    var s2 := "\\d+" + s3;
    Sign(s2, true, Atom(DIGIT, false, true, Empty), ['?'] + u);
    var s1 := "[+-]?" + s2;
    AtomExponent(s1);
    Once("[Ee]", EXPONENT, s1, true, Atom(SIGN, true, false, Atom(DIGIT, false, true, Empty)), ['?'] + u);
  }

  lemma ExponentText(u: string)
    ensures "(?:[Ee][+-]?\\d+)?" + u == "(?:" + ("[Ee]" + ("[+-]?" + ("\\d+" + (")?" + u))))
  {
  }

  lemma Exponent(u: string, next: Re, tail: string)
    requires Fresh(u) && Parse(u, false) == Some((next, tail))
    ensures Parse("(?:[Ee][+-]?\\d+)?" + u, false) == Some((OptGroup(ExponentRe(), next), tail))
  {
    var s, inner := "(?:[Ee][+-]?\\d+)?" + u, "[Ee]" + ("[+-]?" + ("\\d+" + (")?" + u)));
    assert s[3..] == inner && "(?:" <= s by { ExponentText(u); }
    ExponentBody(u);
    Quantified('?', u);
    ParseGroupStep(s, ExponentRe(), ['?'] + u, u, next, tail);
  }

  lemma Fraction(u: string, next: Re, tail: string)
    requires Fresh(u) && Parse(u, false) == Some((next, tail))
    ensures Parse("\\d*" + ("(?:[Ee][+-]?\\d+)?" + u), false)
            == Some((Atom(DIGIT, true, true, OptGroup(ExponentRe(), next)), tail))
  {
    Exponent(u, next, tail);
    var s := "(?:[Ee][+-]?\\d+)?" + u;
    AtomEscapedLetter(['*'] + s);
    Repeated("\\d", DIGIT, '*', s, false, OptGroup(ExponentRe(), next), tail);
    assert "\\d" + ['*'] == "\\d*";
  }

  /** The text of a number in front of `u`, piece by piece. */
  function FloatText(u: string): string {
    "[+-]?" + ("\\.?" + ("\\d+" + ("\\.?" + ("\\d*" + ("(?:[Ee][+-]?\\d+)?" + u)))))
  }

  lemma Float(u: string, next: Re, tail: string)
    requires Fresh(u) && Parse(u, false) == Some((next, tail))
    ensures Parse(FloatText(u), false) == Some((Append(CodeRe('f', '/'), next), tail))
  {
    Fraction(u, next, tail);
    var s4 := "\\d*" + ("(?:[Ee][+-]?\\d+)?" + u);
    var r4 := Atom(DIGIT, true, true, OptGroup(ExponentRe(), next));
    Point(s4, r4, tail);
    var s3 := "\\.?" + s4;
    var r3 := Atom(Only('.'), true, false, r4);
    Digits(s3, false, r3, tail);
    var s2 := "\\d+" + s3;
    var r2 := Atom(DIGIT, false, true, r3);
    Point(s2, r2, tail);
    Sign("\\.?" + s2, false, Atom(Only('.'), true, false, r2), tail);
    FloatRe(next);
  }

  lemma FloatRe(next: Re)
    ensures Append(CodeRe('f', '/'), next) ==
      Atom(SIGN, true, false, Atom(Only('.'), true, false, Atom(DIGIT, false, true,
      Atom(Only('.'), true, false, Atom(DIGIT, true, true, OptGroup(ExponentRe(), next))))))
  {
    assert Append(OptGroup(ExponentRe(), Empty), next) == OptGroup(ExponentRe(), next);
    var r4 := Atom(DIGIT, true, true, OptGroup(ExponentRe(), Empty));
    assert Append(r4, next) == Atom(DIGIT, true, true, OptGroup(ExponentRe(), next));
    var r3 := Atom(Only('.'), true, false, r4);
    assert Append(r3, next) == Atom(Only('.'), true, false, Append(r4, next));
    var r2 := Atom(DIGIT, false, true, r3);
    assert Append(r2, next) == Atom(DIGIT, false, true, Append(r3, next));
  }

  /** A single class with a quantifier, the form of most codes. */
  lemma OneClass(text: string, cls: Class, q: char, u: string, next: Re)
    requires text != [] && text[0] != '(' && text[0] != ')'
    requires ParseAtom(text + ([q] + u)) == Some((cls, [q] + u))
    requires Fresh(u) && (q == '+' || q == '*')
    requires Parse(u, false) == Some((next, []))
    ensures Parse(text + [q] + u, false) == Some((Append(Atom(cls, q == '*', true, Empty), next), []))
  {
    Repeated(text, cls, q, u, false, next, []);
  }

  lemma ParseLine(u: string, next: Re)
    requires Fresh(u) && Parse(u, false) == Some((next, []))
    ensures Parse("[^\\r\\n]+" + u, false) == Some((Append(CodeRe('s', '/'), next), []))
  {
    AtomNotEol(['+'] + u);
    OneClass("[^\\r\\n]", NOT_EOL, '+', u, next);
    assert "[^\\r\\n]" + ['+'] == "[^\\r\\n]+";
  }

  lemma ParseOptionalLine(u: string, next: Re)
    requires Fresh(u) && Parse(u, false) == Some((next, []))
    ensures Parse("[^\\r\\n]*" + u, false) == Some((Append(CodeRe('S', '/'), next), []))
  {
    AtomNotEol(['*'] + u);
    OneClass("[^\\r\\n]", NOT_EOL, '*', u, next);
    assert "[^\\r\\n]" + ['*'] == "[^\\r\\n]*";
  }

  lemma ParseText(u: string, next: Re)
    requires Fresh(u) && Parse(u, false) == Some((next, []))
    ensures Parse(".+" + u, false) == Some((Append(CodeRe('a', '/'), next), []))
  {
    AtomEscapedLetter(['+'] + u);
    OneClass(".", Any, '+', u, next);
    assert "." + ['+'] == ".+";
  }

  lemma ParseOptionalText(u: string, next: Re)
    requires Fresh(u) && Parse(u, false) == Some((next, []))
    ensures Parse(".*" + u, false) == Some((Append(CodeRe('A', '/'), next), []))
  {
    AtomEscapedLetter(['*'] + u);
    OneClass(".", Any, '*', u, next);
    assert "." + ['*'] == ".*";
  }

  lemma ParseCharacter(u: string, next: Re)
    requires Fresh(u) && Parse(u, false) == Some((next, []))
    ensures Parse("." + u, false) == Some((Append(CodeRe('c', '/'), next), []))
  {
    AtomEscapedLetter(u);
    Once(".", Any, u, false, next, []);
  }

  lemma ParseSpaces(u: string, next: Re)
    requires Fresh(u) && Parse(u, false) == Some((next, []))
    ensures Parse("\\s*" + u, false) == Some((Append(CodeRe('w', '/'), next), []))
  {
    AtomEscapedLetter(['*'] + u);
    OneClass("\\s", SPACE, '*', u, next);
    assert "\\s" + ['*'] == "\\s*";
  }

  lemma ParseHex(u: string, next: Re)
    requires Fresh(u) && Parse(u, false) == Some((next, []))
    ensures Parse("[0-9a-fA-F]+" + u, false) == Some((Append(CodeRe('x', '/'), next), []))
  {
    AtomHex(['+'] + u);
    OneClass("[0-9a-fA-F]", HEX, '+', u, next);
    assert "[0-9a-fA-F]" + ['+'] == "[0-9a-fA-F]+";
  }

  lemma ParseInteger(u: string, next: Re)
    requires Fresh(u) && Parse(u, false) == Some((next, []))
    ensures Parse("[+-]?\\d+" + u, false) == Some((Append(CodeRe('i', '/'), next), []))
  {
    Digits(u, false, next, []);
    Sign("\\d+" + u, false, Atom(DIGIT, false, true, next), []);
    assert "[+-]?\\d+" + u == "[+-]?" + ("\\d+" + u);
    assert Append(Atom(DIGIT, false, true, Empty), next) == Atom(DIGIT, false, true, next);
  }

  lemma ParseNumber(u: string, next: Re)
    requires Fresh(u) && Parse(u, false) == Some((next, []))
    ensures Parse("[+-]?\\.?\\d+\\.?\\d*(?:[Ee][+-]?\\d+)?" + u, false) == Some((Append(CodeRe('f', '/'), next), []))
  {
    Float(u, next, []);
    FloatTextIs(u);
  }

  lemma FloatTextIs(u: string)
    ensures "[+-]?\\.?\\d+\\.?\\d*(?:[Ee][+-]?\\d+)?" + u == FloatText(u)
  {
  }

  lemma ParseSeparator(sep: char, u: string, next: Re)
    requires !IsAlnum(sep) && sep != '\0' && Fresh(u) && Parse(u, false) == Some((next, []))
    ensures Parse(['\\', sep] + u, false) == Some((Append(CodeRe('e', sep), next), []))
  {
    AtomEscaped(sep, u);
    Once(['\\', sep], Only(sep), u, false, next, []);
  }

  /** The text of every code, in front of the text of a pattern, stands for the code's pattern in front of that
      pattern. */
  lemma ParseCode(c: char, sep: char, u: string, next: Re)
    requires HasCode(Codes(sep), c) && !IsAlnum(sep) && sep != '\0'
    requires Fresh(u) && Parse(u, false) == Some((next, []))
    ensures IsCode(c)
    ensures Parse(TextOf(Codes(sep), c) + u, false) == Some((Append(CodeRe(c, sep), next), []))
  {
    var text := TextOf(Codes(sep), c);
    var k :| 0 <= k < |Codes(sep)| && Codes(sep)[k] == (c, text);
    match c
    case 'e' => ParseSeparator(sep, u, next);
    case 's' => ParseLine(u, next);
    case 'S' => ParseOptionalLine(u, next);
    case 'a' => ParseText(u, next);
    case 'A' => ParseOptionalText(u, next);
    case 'w' => ParseSpaces(u, next);
    case 'i' => ParseInteger(u, next);
    case 'd' => Digits(u, false, next, []);
    case 'x' => ParseHex(u, next);
    case 'f' => ParseNumber(u, next);
    case 'c' => ParseCharacter(u, next);
    case _ => assert false;
  }
}

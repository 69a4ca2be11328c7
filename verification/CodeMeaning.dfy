/** What each letter code of an EXPECTF template stands for, said without regular expressions. */
module CodeMeaning {
  import opened PhpStrings
  import opened Regex
  import opened CodePatterns

  predicate IsHex(c: char) { IsDigit(c) || 'a' <= c <= 'f' || 'A' <= c <= 'F' }
  predicate IsSign(c: char) { c == '+' || c == '-' }

  /** The digits, one by one. */
  lemma DigitsAre(c: char)
    ensures IsDigit(c) <==> c in "0123456789"
    ensures IsHex(c) <==> c in "0123456789" || c in "abcdef" || c in "ABCDEF"
    ensures IsSign(c) <==> c in "+-"
  {
    var digits, small, capital := "0123456789", "abcdef", "ABCDEF";
    assert forall k :: 0 <= k < 10 ==> digits[k] == '0' + k as char;
    assert forall k :: 0 <= k < 6 ==> small[k] == 'a' + k as char;
    assert forall k :: 0 <= k < 6 ==> capital[k] == 'A' + k as char;
    if IsDigit(c) { assert digits[c as int - 48] == c; }
    if 'a' <= c <= 'f' { assert small[c as int - 97] == c; }
    if 'A' <= c <= 'F' { assert capital[c as int - 65] == c; }
  }

  function AfterSign(s: string): string { if s != [] && IsSign(s[0]) then s[1..] else s }
  function AfterPoint(s: string): string { if s != [] && s[0] == '.' then s[1..] else s }

  function AfterDigits(s: string): (t: string)
    ensures |t| <= |s|
  {
    if s != [] && IsDigit(s[0]) then AfterDigits(s[1..]) else s
  }

  predicate IsDigits(s: string) { s != [] && forall k :: 0 <= k < |s| ==> IsDigit(s[k]) }

  predicate IsInteger(s: string) { IsDigits(AfterSign(s)) }

  /** Nothing, or an exponent. */
  predicate IsExponentEnd(s: string) { s == [] || ((s[0] == 'E' || s[0] == 'e') && IsInteger(s[1..])) }

  /** A digit in front, some digits, then a point, digits and exponent, each of which may be missing. */
  predicate IsMantissa(t: string) {
    t != [] && IsDigit(t[0]) && IsExponentEnd(AfterDigits(AfterPoint(AfterDigits(t))))
  }

  /** A sign and a point, either of which may be missing, in front of a mantissa. */
  predicate IsNumber(s: string) { IsMantissa(AfterPoint(AfterSign(s))) }

  /** What a code may stand for in the output. */
  predicate Stands(c: char, p: string, sep: char) {
    match c
    case 'e' => p == [sep]
    case 's' => p != [] && '\r' !in p && '\n' !in p
    case 'S' => '\r' !in p && '\n' !in p
    case 'a' => p != []
    case 'A' => true
    case 'w' => forall k :: 0 <= k < |p| ==> IsSpace(p[k])
    case 'i' => IsInteger(p)
    case 'd' => IsDigits(p)
    case 'x' => p != [] && forall k :: 0 <= k < |p| ==> IsHex(p[k])
    case 'f' => IsNumber(p)
    case 'c' => |p| == 1
    case _ => false
  }

  // ---------------------------------------------------------------- classes

  lemma ClassesMean(c: char)
    ensures In(c, DIGIT) <==> IsDigit(c)
    ensures In(c, SIGN) <==> IsSign(c)
    ensures In(c, SPACE) <==> IsSpace(c)
    ensures In(c, HEX) <==> IsHex(c)
    ensures In(c, NOT_EOL) <==> c != '\r' && c != '\n'
    ensures In(c, EXPONENT) <==> c == 'E' || c == 'e'
  {
    assert DIGIT.ranges[0] == ('0', '9');
    assert SIGN.ranges[0] == ('+', '+') && SIGN.ranges[1] == ('-', '-');
    assert SPACE.ranges[0] == ('\t', '\r') && SPACE.ranges[1] == (' ', ' ');
    assert HEX.ranges[0] == ('0', '9') && HEX.ranges[1] == ('a', 'f') && HEX.ranges[2] == ('A', 'F');
    assert NOT_EOL.ranges[0] == ('\r', '\r') && NOT_EOL.ranges[1] == ('\n', '\n');
    assert EXPONENT.ranges[0] == ('E', 'E') && EXPONENT.ranges[1] == ('e', 'e');
  }

  lemma OnlyMeans(c: char, x: char)
    ensures In(c, Only(x)) <==> c == x
  {
    assert Only(x).ranges[0] == (x, x);
  }

  /** A pattern of one class matches strings of a fitting length in the class. */
  lemma SingleClass(cls: Class, optional: bool, many: bool, p: string)
    ensures Matches(Atom(cls, optional, many, Empty), p) <==> Quantity(|p|, optional, many) && AllIn(p, cls)
  {
    assert p[..|p|] == p && p[|p|..] == [];
    if Matches(Atom(cls, optional, many, Empty), p) {
      var k :| 0 <= k <= |p| && Quantity(k, optional, many) && AllIn(p[..k], cls) && Matches(Empty, p[k..]);
      assert k == |p|;
    }
  }

  lemma SimpleCodes(c: char, p: string, sep: char)
    requires IsCode(c) && c != 'i' && c != 'f'
    ensures Matches(CodeRe(c, sep), p) <==> Stands(c, p, sep)
  {
    var re := CodeRe(c, sep);
    SingleClass(re.cls, re.optional, re.many, p);
    if c == 'e' {
      if |p| == 1 { OnlyMeans(p[0], sep); }
      assert p == [sep] <==> |p| == 1 && In(p[0], Only(sep));
    } else {
      forall k | 0 <= k < |p|
        ensures (In(p[k], DIGIT) <==> IsDigit(p[k])) && (In(p[k], SPACE) <==> IsSpace(p[k]))
             && (In(p[k], HEX) <==> IsHex(p[k])) && (In(p[k], NOT_EOL) <==> p[k] != '\r' && p[k] != '\n')
      {
        ClassesMean(p[k]);
      }
    }
  }

  // ---------------------------------------------------------------- numbers

  /** An optional class in front of a pattern that cannot begin with it. */
  lemma OptionalFirst(cls: Class, next: Re, s: string)
    requires s != [] && In(s[0], cls) ==> !Matches(next, s)
    ensures Matches(Atom(cls, true, false, next), s) <==>
            Matches(next, if s != [] && In(s[0], cls) then s[1..] else s)
  {
    assert s[0..] == s && s[..0] == [];
    if s != [] && In(s[0], cls) {
      assert s[..1] == [s[0]];
      assert Quantity(1, true, false) && AllIn(s[..1], cls);
      if Matches(Atom(cls, true, false, next), s) {
        var k :| 0 <= k <= |s| && Quantity(k, true, false) && AllIn(s[..k], cls) && Matches(next, s[k..]);
        assert k == 1;
      }
    } else {
      assert Quantity(0, true, false) && AllIn(s[..0], cls);
      if Matches(Atom(cls, true, false, next), s) {
        var k :| 0 <= k <= |s| && Quantity(k, true, false) && AllIn(s[..k], cls) && Matches(next, s[k..]);
        if k == 1 { assert s[..1][0] == s[0]; }
      }
    }
  }

  predicate Digital(s: string) { forall k :: 0 <= k < |s| ==> IsDigit(s[k]) }

  lemma AllInDigit(s: string)
    ensures AllIn(s, DIGIT) <==> Digital(s)
  {
    forall k | 0 <= k < |s| ensures In(s[k], DIGIT) <==> IsDigit(s[k]) { ClassesMean(s[k]); }
  }

  lemma {:induction false} DigitRun(s: string)
    ensures Digital(s[..|s| - |AfterDigits(s)|])
    ensures AfterDigits(s) == [] || !IsDigit(AfterDigits(s)[0])
    ensures AfterDigits(s) == s[|s| - |AfterDigits(s)|..]
  {
    if s == [] || !IsDigit(s[0]) {
    } else {
      DigitRun(s[1..]);
      var n := |s| - |AfterDigits(s)|;
      assert s[..n] == [s[0]] + s[1..][..n - 1];
      assert s[1..][n - 1..] == s[n..];
    }
  }

  /** Leading digits lie within the run of digits, and what follows the run does not depend on them. */
  lemma {:induction false} WithinRun(s: string, k: nat)
    requires k <= |s| && Digital(s[..k])
    ensures AfterDigits(s[k..]) == AfterDigits(s)
  {
    if k == 0 {
      assert s[0..] == s;
    } else {
      assert s[..k] == [s[0]] + s[1..][..k - 1];
      assert IsDigit(s[..k][0]) && Digital(s[..k][1..]);
      assert s[..k][1..] == s[1..][..k - 1];
      WithinRun(s[1..], k - 1);
      assert s[1..][k - 1..] == s[k..];
    }
  }

  /** Taking all leading digits is one way to match digits in front of a pattern. */
  lemma DigitsThen(next: Re, optional: bool, s: string)
    requires Matches(next, AfterDigits(s)) && (optional || (s != [] && IsDigit(s[0])))
    ensures Matches(Atom(DIGIT, optional, true, next), s)
  {
    var n := |s| - |AfterDigits(s)|;
    DigitRun(s);
    AllInDigit(s[..n]);
    assert Quantity(n, optional, true) && AllIn(s[..n], DIGIT) && Matches(next, s[n..]);
  }

  /** Every way to match digits in front of a pattern takes some of the leading digits. */
  lemma DigitsSplit(next: Re, optional: bool, s: string) returns (k: nat)
    requires Matches(Atom(DIGIT, optional, true, next), s)
    ensures k <= |s| && Matches(next, s[k..]) && AfterDigits(s[k..]) == AfterDigits(s)
    ensures optional || (s != [] && IsDigit(s[0]))
  {
    k :| 0 <= k <= |s| && Quantity(k, optional, true) && AllIn(s[..k], DIGIT) && Matches(next, s[k..]);
    AllInDigit(s[..k]);
    WithinRun(s, k);
    if k > 0 { assert IsDigit(s[..k][0]); }
  }

  lemma IntegerMeans(p: string)
    ensures Matches(Atom(SIGN, true, false, Atom(DIGIT, false, true, Empty)), p) <==> IsInteger(p)
  {
    var digits := Atom(DIGIT, false, true, Empty);
    SingleClass(DIGIT, false, true, p);
    SingleClass(DIGIT, false, true, AfterSign(p));
    AllInDigit(p);
    AllInDigit(AfterSign(p));
    if p != [] { ClassesMean(p[0]); }
    OptionalFirst(SIGN, digits, p);
  }

  lemma ExponentMeans(s: string)
    ensures Matches(OptGroup(ExponentRe(), Empty), s) <==> IsExponentEnd(s)
  {
    var signed := Atom(SIGN, true, false, Atom(DIGIT, false, true, Empty));
    assert s[..|s|] == s && s[|s|..] == [];
    assert Matches(OptGroup(ExponentRe(), Empty), s) <==> s == [] || Matches(ExponentRe(), s);
    if s != [] {
      ClassesMean(s[0]);
      IntegerMeans(s[1..]);
      assert s[..1] == [s[0]];
      if IsExponentEnd(s) {
        assert Quantity(1, false, false) && AllIn(s[..1], EXPONENT) && Matches(signed, s[1..]);
      }
      if Matches(ExponentRe(), s) {
        var k :| 0 <= k <= |s| && Quantity(k, false, false) && AllIn(s[..k], EXPONENT) && Matches(signed, s[k..]);
        assert k == 1 && In(s[..1][0], EXPONENT);
      }
    }
  }

  lemma EndHasNoDigits(s: string)
    requires IsExponentEnd(s)
    ensures AfterDigits(s) == s && AfterPoint(s) == s
  {
  }

  function FractionRe(): Re { Atom(DIGIT, true, true, OptGroup(ExponentRe(), Empty)) }
  function PointRe(): Re { Atom(Only('.'), true, false, FractionRe()) }
  function MantissaRe(): Re { Atom(DIGIT, false, true, PointRe()) }

  lemma FractionMeans(s: string)
    ensures Matches(FractionRe(), s) <==> IsExponentEnd(AfterDigits(s))
  {
    var next := OptGroup(ExponentRe(), Empty);
    ExponentMeans(AfterDigits(s));
    if IsExponentEnd(AfterDigits(s)) { DigitsThen(next, true, s); }
    if Matches(FractionRe(), s) {
      var k := DigitsSplit(next, true, s);
      ExponentMeans(s[k..]);
      EndHasNoDigits(s[k..]);
    }
  }

  lemma PointMeans(s: string)
    ensures Matches(PointRe(), s) <==> IsExponentEnd(AfterDigits(AfterPoint(s)))
  {
    if s != [] { OnlyMeans(s[0], '.'); }
    FractionMeans(s);
    FractionMeans(AfterPoint(s));
    OptionalFirst(Only('.'), FractionRe(), s);
  }

  lemma MantissaMeans(t: string)
    ensures Matches(MantissaRe(), t) <==> IsMantissa(t)
  {
    PointMeans(AfterDigits(t));
    if IsMantissa(t) { DigitsThen(PointRe(), false, t); }
    if Matches(MantissaRe(), t) {
      var k := DigitsSplit(PointRe(), false, t);
      var u := t[k..];
      PointMeans(u);
      if u != [] && IsDigit(u[0]) {
        EndHasNoDigits(AfterDigits(u));
      } else {
        assert AfterDigits(u) == u;
      }
    }
  }

  lemma PointedMeans(a: string)
    ensures Matches(Atom(Only('.'), true, false, MantissaRe()), a) <==> IsMantissa(AfterPoint(a))
  {
    if a != [] { OnlyMeans(a[0], '.'); }
    MantissaMeans(a);
    MantissaMeans(AfterPoint(a));
    OptionalFirst(Only('.'), MantissaRe(), a);
  }

  lemma NumberMeans(p: string, sep: char)
    ensures Matches(CodeRe('f', sep), p) <==> IsNumber(p)
  {
    var pointed := Atom(Only('.'), true, false, MantissaRe());
    assert CodeRe('f', sep) == Atom(SIGN, true, false, pointed);
    if p != [] { ClassesMean(p[0]); }
    PointedMeans(p);
    PointedMeans(AfterSign(p));
    OptionalFirst(SIGN, pointed, p);
  }

  /** The pattern of every code matches exactly what the code stands for. */
  lemma CodeMeans(c: char, p: string, sep: char)
    requires IsCode(c)
    ensures Matches(CodeRe(c, sep), p) <==> Stands(c, p, sep)
  {
    if c == 'i' {
      IntegerMeans(p);
    } else if c == 'f' {
      NumberMeans(p, sep);
    } else {
      SimpleCodes(c, p, sep);
    }
  }

  /** For instance two points are allowed, but the exponent needs its digits. */
  lemma NumbersAndNot()
    ensures IsNumber("-.0.0") && !IsNumber("1e") && !IsNumber(".")
  {
    assert "-.0.0"[1..] == ".0.0" && ".0.0"[1..] == "0.0" && "0.0"[1..] == ".0" && ".0"[1..] == "0" && "0"[1..] == "";
    assert AfterDigits("0") == AfterDigits("") && AfterDigits("0.0") == AfterDigits(".0");
    assert "1e"[1..] == "e" && "e"[1..] == "" && AfterDigits("1e") == AfterDigits("e");
    assert "."[1..] == "";
  }
}

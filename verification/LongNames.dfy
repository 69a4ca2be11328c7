/** The six long names of an EXPECTF template are replaced after quoting.  Quoting is a prefix
    code, so that amounts to replacing them in the template itself, before quoting. */
module LongNames {
  import opened PhpStrings
  import opened ExpectF
  import opened Placeholders

  /** The long names replaced in the template itself. */
  function Named(t: string): string {
    var t1 := StrReplace("%binary_string_optional%", "string", t);
    var t2 := StrReplace("%unicode_string_optional%", "string", t1);
    var t3 := StrReplace("%unicode|string%", "string", t2);
    var t4 := StrReplace("%string|unicode%", "string", t3);
    var t5 := StrReplace("%u|b%", "", t4);
    StrReplace("%b|u%", "", t5)
  }

  ghost predicate HasLongName(t: string) {
    || Contains(t, "%binary_string_optional%") || Contains(t, "%unicode_string_optional%")
    || Contains(t, "%unicode|string%") || Contains(t, "%string|unicode%")
    || Contains(t, "%u|b%") || Contains(t, "%b|u%")
  }

  // ---------------------------------------------------------------- quoting is a prefix code

  lemma {:induction false} QuoteConcat(s: string, t: string)
    ensures Quote(s + t) == Quote(s) + Quote(t)
  {
    if s == [] {
      assert s + t == t;
    } else {
      QuoteConcat(s[1..], t);
      QuoteCons(s[0], s[1..] + t);
      assert s + t == [s[0]] + (s[1..] + t);
      Regroup3(QuoteChar(s[0]), Quote(s[1..]), Quote(t));
    }
  }

  lemma PrefixOfConcat(p: string, a: string, b: string)
    ensures p + a <= p + b <==> a <= b
  {
    assert (p + b)[|p|..] == b && (p + a)[|p|..] == a;
    if p + a <= p + b {
      assert a == (p + b)[..|p + a|][|p|..] == b[..|a|];
    }
    if a <= b { assert p + b == p + a + b[|a|..]; }
  }

  lemma QuotesDiffer(x: char, y: char, a: string, b: string)
    requires x != y
    ensures !(QuoteChar(x) + a <= QuoteChar(y) + b)
  {
    var p, q := QuoteChar(x) + a, QuoteChar(y) + b;
    assert p[0] == q[0] ==> p[0] == '\\' && p[1] != q[1];
  }

  /** No quoted text begins another one, unless the texts do. */
  lemma {:induction false} QuoteIsPrefixCode(n: string, t: string)
    ensures Quote(n) <= Quote(t) <==> n <= t
  {
    if n == [] || t == [] {
    } else {
      if n[0] == t[0] {
        QuoteIsPrefixCode(n[1..], t[1..]);
        PrefixOfConcat(QuoteChar(n[0]), Quote(n[1..]), Quote(t[1..]));
        PrefixOfConcat([n[0]], n[1..], t[1..]);
        assert n == [n[0]] + n[1..] && t == [t[0]] + t[1..];
      } else {
        QuotesDiffer(n[0], t[0], Quote(n[1..]), Quote(t[1..]));
      }
    }
  }

  /** Replacing in the quoted text is replacing in the text, for names that start with '%'. */
  lemma {:induction false} ReplaceQuoted(n: string, r: string, t: string)
    requires n != [] && n[0] == '%'
    ensures Quote(n) != []
    ensures StrReplace(Quote(n), Quote(r), Quote(t)) == Quote(StrReplace(n, r, t))
    decreases |t|
  {
    var q := Quote(n);
    assert q != [] && q[0] == '%';
    QuoteIsPrefixCode(n, t);
    if t == [] {
    } else if n <= t {
      var rest := t[|n|..];
      ReplaceQuoted(n, r, rest);
      assert t == n + rest;
      QuoteConcat(n, rest);
      assert Quote(t)[|q|..] == Quote(rest);
      QuoteConcat(r, StrReplace(n, r, rest));
    } else {
      var quoted := StrReplace(q, Quote(r), Quote(t[1..]));
      assert quoted == Quote(StrReplace(n, r, t[1..])) by { ReplaceQuoted(n, r, t[1..]); }
      QuoteConcat([t[0]], StrReplace(n, r, t[1..]));
      QuoteOne(t[0]);
      if t[0] == '%' {
        assert Quote(t)[1..] == Quote(t[1..]);
      } else {
        ReplacePast(q, Quote(r), QuoteChar(t[0]), Quote(t[1..]));
      }
    }
  }

  lemma QuoteOne(c: char)
    ensures Quote([c]) == QuoteChar(c)
  {
    assert [c][1..] == [];
    assert QuoteChar(c) + [] == QuoteChar(c);
  }

  // ---------------------------------------------------------------- the names

  predicate IsPlainChar(c: char) { !IsMeta(c) && c != '\0' }

  predicate IsPlain(s: string) { forall c :: c in s ==> IsPlainChar(c) }

  lemma {:induction false} QuotePlain(s: string)
    requires IsPlain(s)
    ensures Quote(s) == s
  {
    if s == [] {
    } else {
      QuotePlain(s[1..]);
      assert IsPlainChar(s[0]);
      assert s == [s[0]] + s[1..];
    }
  }

  lemma QuoteBar(a: string, b: string)
    requires IsPlain(a) && IsPlain(b)
    ensures Quote(a + "|" + b) == a + "\\|" + b
  {
    QuotePlain(a);
    QuotePlain(b);
    QuoteOne('|');
    QuoteConcat(a, "|");
    QuoteConcat(a + "|", b);
  }

  lemma PlainName(n: string, r: string, t: string)
    requires IsPlain(n) && n != [] && n[0] == '%' && IsPlain(r)
    ensures StrReplace(n, r, Quote(t)) == Quote(StrReplace(n, r, t))
  {
    QuotePlain(n);
    QuotePlain(r);
    ReplaceQuoted(n, r, t);
  }

  lemma BarredName(n: string, quoted: string, a: string, b: string, r: string, t: string)
    requires IsPlain(a) && IsPlain(b) && a != [] && a[0] == '%' && IsPlain(r)
    requires n == a + "|" + b && quoted == a + "\\|" + b
    ensures StrReplace(quoted, r, Quote(t)) == Quote(StrReplace(n, r, t))
  {
    QuoteBar(a, b);
    QuotePlain(r);
    ReplaceQuoted(n, r, t);
  }

  lemma OptionalStrings(t: string, n: string)
    requires n == "%binary_string_optional%" || n == "%unicode_string_optional%"
    ensures StrReplace(n, "string", Quote(t)) == Quote(StrReplace(n, "string", t))
  {
    PlainName(n, "string", t);
  }

  lemma UnicodeOrString(t: string)
    ensures StrReplace("%unicode\\|string%", "string", Quote(t)) == Quote(StrReplace("%unicode|string%", "string", t))
  {
    BarredName("%unicode|string%", "%unicode\\|string%", "%unicode", "string%", "string", t);
  }

  lemma StringOrUnicode(t: string)
    ensures StrReplace("%string\\|unicode%", "string", Quote(t)) == Quote(StrReplace("%string|unicode%", "string", t))
  {
    BarredName("%string|unicode%", "%string\\|unicode%", "%string", "unicode%", "string", t);
  }

  lemma PrefixLetters(t: string)
    ensures StrReplace("%u\\|b%", "", Quote(t)) == Quote(StrReplace("%u|b%", "", t))
    ensures StrReplace("%b\\|u%", "", Quote(t)) == Quote(StrReplace("%b|u%", "", t))
  {
    BarredName("%u|b%", "%u\\|b%", "%u", "b%", "", t);
    BarredName("%b|u%", "%b\\|u%", "%b", "u%", "", t);
  }

  /** Replacing the long names in the quoted template is quoting the template with its long names replaced. */
  lemma NamesBeforeQuoting(t: string)
    ensures ReplaceNames(Quote(t)) == Quote(Named(t))
  {
    OptionalStrings(t, "%binary_string_optional%");
    var t1 := StrReplace("%binary_string_optional%", "string", t);
    OptionalStrings(t1, "%unicode_string_optional%");
    var t2 := StrReplace("%unicode_string_optional%", "string", t1);
    UnicodeOrString(t2);
    var t3 := StrReplace("%unicode|string%", "string", t2);
    StringOrUnicode(t3);
    var t4 := StrReplace("%string|unicode%", "string", t3);
    PrefixLetters(t4);
    PrefixLetters(StrReplace("%u|b%", "", t4));
  }

  /** Every template without raw sections is compiled in one pass over its quoted text. */
  lemma CompileIsSinglePass(wanted: string, sep: char)
    requires sep != '%' && CutAt(Normalise(wanted), 0).Last?
    ensures Compile(wanted, sep) == SinglePass(Codes(sep), Quote(Named(Normalise(wanted))))
  {
    var t := Normalise(wanted);
    CutIsLossless(t, 0);
    assert t[0..] == t;
    NamesBeforeQuoting(t);
    ChainIsSinglePass(sep, Quote(Named(t)));
  }

  // ---------------------------------------------------------------- templates without long names

  lemma NamesAbsent(t: string)
    requires !HasLongName(t)
    ensures Named(t) == t
  {
    StrReplaceAbsent("%binary_string_optional%", "string", t);
    StrReplaceAbsent("%unicode_string_optional%", "string", t);
    StrReplaceAbsent("%unicode|string%", "string", t);
    StrReplaceAbsent("%string|unicode%", "string", t);
    StrReplaceAbsent("%u|b%", "", t);
    StrReplaceAbsent("%b|u%", "", t);
  }

  lemma NotContained(t: string, n: string)
    requires '%' !in t && n != [] && n[0] == '%'
    ensures !Contains(t, n)
  {
    forall k | 0 <= k <= |t| ensures !(n <= t[k..]) {
      if k < |t| { assert t[k..][0] == t[k]; }
    }
  }

  lemma PlainHasNoLongName(t: string)
    requires '%' !in t
    ensures !HasLongName(t)
  {
    NotContained(t, "%binary_string_optional%");
    NotContained(t, "%unicode_string_optional%");
    NotContained(t, "%unicode|string%");
    NotContained(t, "%string|unicode%");
    NotContained(t, "%u|b%");
    NotContained(t, "%b|u%");
  }

  // ---------------------------------------------------------------- the names themselves

  /** A long name: its only percent signs are at its ends. */
  predicate IsLongName(n: string) { |n| >= 2 && n[0] == '%' && n[|n| - 1] == '%' && '%' !in n[1..|n| - 1] }

  /** No name begins with another one, and nothing that replaces one holds a percent sign. */
  ghost predicate Apart(names: seq<string>, texts: seq<string>) {
    && |names| == |texts| && (forall i :: 0 <= i < |names| ==> IsLongName(names[i]) && '%' !in texts[i])
    && (forall i, j :: 0 <= i < |names| && 0 <= j < |names| && i != j ==> !(names[i] <= names[j]))
  }

  /** The first `k` names replaced, one after the other. */
  function FirstNamed(names: seq<string>, texts: seq<string>, k: nat, t: string): string
    requires k <= |names| == |texts| && forall i :: 0 <= i < |names| ==> names[i] != []
  {
    if k == 0 then t else StrReplace(names[k - 1], texts[k - 1], FirstNamed(names, texts, k - 1, t))
  }

  /** Each of the names becomes its text. */
  lemma {:induction false} NameBecomes(names: seq<string>, texts: seq<string>, k: nat, i: nat)
    requires Apart(names, texts) && k <= |names| && i < |names|
    ensures FirstNamed(names, texts, k, names[i]) == if i < k then texts[i] else names[i]
  {
    if k == 0 {
    } else {
      NameBecomes(names, texts, k - 1, i);
      NameStep(names, texts, k - 1, i, FirstNamed(names, texts, k - 1, names[i]));
    }
  }

  lemma NameStep(names: seq<string>, texts: seq<string>, k: nat, i: nat, t: string)
    requires Apart(names, texts) && k < |names| && i < |names| && t == if i < k then texts[i] else names[i]
    ensures StrReplace(names[k], texts[k], t) == if i <= k then texts[i] else names[i]
  {
    assert k != i ==> !(names[k] <= names[i]);
    ReplaceInName(names[k], texts[k], names[i], texts[i]);
  }

  /** What replacing the name `m` makes of the name `n`, and of the text for it. */
  lemma ReplaceInName(m: string, q: string, n: string, r: string)
    requires IsLongName(m) && IsLongName(n) && '%' !in r && (m == n || !(m <= n))
    ensures StrReplace(m, q, n) == (if m == n then q else n) && StrReplace(m, q, r) == r
  {
    NotContained(r, m);
    StrReplaceAbsent(m, q, r);
    if m == n {
      assert n[|n|..] == [] && q + [] == q;
    } else {
      forall k | 0 <= k <= |n| ensures !(m <= n[k..]) {
        if 0 < k < |n| - 1 { assert n[k..][0] == n[1..|n| - 1][k - 1]; }
      }
      StrReplaceAbsent(m, q, n);
    }
  }

  const NAMES: seq<string> :=
    ["%binary_string_optional%", "%unicode_string_optional%", "%unicode|string%", "%string|unicode%", "%u|b%", "%b|u%"]

  const TEXTS: seq<string> := ["string", "string", "string", "string", "", ""]

  /** So "string" stands for the first four names, and nothing for the other two. */
  lemma NamesBecomeTexts(i: nat)
    requires i < 6
    ensures Named(NAMES[i]) == TEXTS[i]
  {
    NamesApart();
    NameBecomes(NAMES, TEXTS, 6, i);
    NamedIs(NAMES, TEXTS, NAMES[i]);
  }

  lemma NamedIs(names: seq<string>, texts: seq<string>, t: string)
    requires names == NAMES && texts == TEXTS
    ensures |names| == |texts| == 6 && Named(t) == FirstNamed(names, texts, 6, t)
  {
    var t1 := FirstNamed(names, texts, 1, t);
    var t2 := FirstNamed(names, texts, 2, t);
    var t3 := FirstNamed(names, texts, 3, t);
    var t4 := FirstNamed(names, texts, 4, t);
    var t5 := FirstNamed(names, texts, 5, t);
    assert t1 == StrReplace(names[0], texts[0], FirstNamed(names, texts, 0, t));
    assert t2 == StrReplace(names[1], texts[1], t1) && t3 == StrReplace(names[2], texts[2], t2);
    assert t4 == StrReplace(names[3], texts[3], t3) && t5 == StrReplace(names[4], texts[4], t4);
  }

  lemma NamesApart()
    ensures Apart(NAMES, TEXTS)
  {
    var names := NAMES;
    assert |names[0]| == 24 && |names[1]| == 25 && |names[2]| == |names[3]| == 16 && |names[4]| == |names[5]| == 5;
    assert names[0][1] == 'b' && names[1][1] == names[2][1] == names[4][1] == 'u' && names[3][1] == 's';
    assert names[5][1] == 'b' && names[5][2] == '|' && names[0][2] == 'i' && names[2][8] == '|' && names[1][8] == '_';
    assert names[4][2] == '|' && names[1][2] == names[2][2] == 'n';
    AreLongNames();
  }

  lemma AreLongNames()
    ensures forall i :: 0 <= i < 6 ==> IsLongName(NAMES[i]) && '%' !in TEXTS[i]
  {
    assert IsLongName("%binary_string_optional%") && IsLongName("%unicode_string_optional%");
    assert IsLongName("%unicode|string%") && IsLongName("%string|unicode%");
  }
}

/** Templates with raw sections.  The placeholders are replaced after the template is put together, so
    they are replaced inside raw sections as well, but never across their parentheses. */
module RawSections {
  import opened PhpStrings
  import opened ExpectF
  import opened Placeholders
  import opened LongNames

  // ---------------------------------------------------------------- piece by piece

  /** A character that is not part of a needle separates what is replaced before it from what is replaced after. */
  lemma {:induction false} ReplaceAround(n: string, r: string, x: string, c: char, y: string)
    requires n != [] && c !in n
    ensures StrReplace(n, r, x + [c] + y) == StrReplace(n, r, x) + [c] + StrReplace(n, r, y)
    decreases |x|
  {
    var after := StrReplace(n, r, y);
    if x == [] {
      assert x + [c] + y == [c] + y && n[0] in n;
      ReplaceMiss(n, r, c, y);
    } else if n <= x {
      var rest := x[|n|..];
      ReplaceAround(n, r, rest, c, y);
      assert x == n + rest;
      Regroup(n, rest, c, y);
      Regroup(r, StrReplace(n, r, rest), c, after);
      ReplaceHit(n, r, rest + [c] + y);
      ReplaceHit(n, r, rest);
    } else {
      var rest := x[1..];
      ReplaceAround(n, r, rest, c, y);
      assert x == [x[0]] + rest;
      NotAcross(n, x, c, y);
      Regroup([x[0]], rest, c, y);
      Regroup([x[0]], StrReplace(n, r, rest), c, after);
      ReplaceMiss(n, r, x[0], rest + [c] + y);
      ReplaceMiss(n, r, x[0], rest);
    }
  }

  lemma Regroup(a: string, b: string, c: char, d: string)
    ensures a + (b + [c] + d) == a + b + [c] + d
  {
  }

  lemma ReplaceHit(n: string, r: string, s: string)
    requires n != []
    ensures StrReplace(n, r, n + s) == r + StrReplace(n, r, s)
  {
    assert (n + s)[|n|..] == s;
  }

  lemma ReplaceMiss(n: string, r: string, c: char, s: string)
    requires n != [] && !(n <= [c] + s)
    ensures StrReplace(n, r, [c] + s) == [c] + StrReplace(n, r, s)
  {
    assert ([c] + s)[1..] == s;
  }

  lemma NotAcross(n: string, x: string, c: char, y: string)
    requires c !in n && !(n <= x)
    ensures !(n <= x + [c] + y)
  {
    var s := x + [c] + y;
    assert s[|x|] == c;
    assert |n| <= |x| ==> s[..|n|] == x[..|n|];
  }

  /** All placeholders replaced. */
  function Replaced(s: string, sep: char): string { ReplaceCodes(Codes(sep), ReplaceNames(s)) }

  /** Characters that no placeholder holds: the parentheses of raw sections, and newlines. */
  predicate IsSeparator(c: char) { c == '(' || c == ')' || c == '\n' }

  lemma NamesAround(x: string, c: char, y: string)
    requires IsSeparator(c)
    ensures ReplaceNames(x + [c] + y) == ReplaceNames(x) + [c] + ReplaceNames(y)
  {
    NotInNames(c);
    var x1, y1 := NameAround("%binary_string_optional%", "string", x, c, y);
    var x2, y2 := NameAround("%unicode_string_optional%", "string", x1, c, y1);
    var x3, y3 := NameAround("%unicode\\|string%", "string", x2, c, y2);
    var x4, y4 := NameAround("%string\\|unicode%", "string", x3, c, y3);
    var x5, y5 := NameAround("%u\\|b%", "", x4, c, y4);
    var x6, y6 := NameAround("%b\\|u%", "", x5, c, y5);
  }

  lemma NotInNames(c: char)
    requires IsSeparator(c)
    ensures c !in "%binary_string_optional%" && c !in "%unicode_string_optional%"
    ensures c !in "%unicode\\|string%" && c !in "%string\\|unicode%" && c !in "%u\\|b%" && c !in "%b\\|u%"
  {
    NotInLongest(c);
    NotInBarred(c);
  }

  lemma NotInLongest(c: char)
    requires IsSeparator(c)
    ensures c !in "%binary_string_optional%" && c !in "%unicode_string_optional%"
  {
  }

  lemma NotInBarred(c: char)
    requires IsSeparator(c)
    ensures c !in "%unicode\\|string%" && c !in "%string\\|unicode%" && c !in "%u\\|b%" && c !in "%b\\|u%"
  {
  }

  lemma NameAround(n: string, r: string, x: string, c: char, y: string) returns (u: string, v: string)
    requires n != [] && c !in n
    ensures u == StrReplace(n, r, x) && v == StrReplace(n, r, y) && StrReplace(n, r, x + [c] + y) == u + [c] + v
  {
    ReplaceAround(n, r, x, c, y);
    u, v := StrReplace(n, r, x), StrReplace(n, r, y);
  }

  lemma {:induction false} CodesAround(codes: seq<(char, string)>, x: string, c: char, y: string)
    requires c != '%' && forall k :: 0 <= k < |codes| ==> codes[k].0 != c
    ensures ReplaceCodes(codes, x + [c] + y) == ReplaceCodes(codes, x) + [c] + ReplaceCodes(codes, y)
    decreases |codes|
  {
    if codes == [] {
    } else {
      var n, r := ['%', codes[0].0], codes[0].1;
      ReplaceAround(n, r, x, c, y);
      CodesAround(codes[1..], StrReplace(n, r, x), c, StrReplace(n, r, y));
    }
  }

  lemma ReplacedAround(x: string, c: char, y: string, sep: char)
    requires IsSeparator(c)
    ensures Replaced(x + [c] + y, sep) == Replaced(x, sep) + [c] + Replaced(y, sep)
  {
    NamesAround(x, c, y);
    CodesAround(Codes(sep), ReplaceNames(x), c, ReplaceNames(y));
  }

  /** The pattern of a cut template, each piece replaced on its own. */
  function PatternOf(t: Cut, sep: char): string {
    match t
    case Last(p) => Replaced(Quote(p), sep)
    case Then(p, r, rest) => Replaced(Quote(p), sep) + "(" + Replaced(r, sep) + ")" + PatternOf(rest, sep)
  }

  lemma AroundRaw(p: string, r: string, tail: string, sep: char)
    ensures Replaced(p + "(" + r + ")" + tail, sep) ==
            Replaced(p, sep) + "(" + Replaced(r, sep) + ")" + Replaced(tail, sep)
  {
    ReplacedAround(p + "(" + r, ')', tail, sep);
    ReplacedAround(p, '(', r, sep);
  }

  /** Replacing in the template that was put together is replacing in each piece, raw ones included. */
  lemma {:induction false} ReplacedByPieces(t: Cut, sep: char)
    ensures Replaced(Assemble(t), sep) == PatternOf(t, sep)
  {
    match t
    case Last(p) =>
    case Then(p, r, rest) =>
      ReplacedByPieces(rest, sep);
      AroundRaw(Quote(p), r, Assemble(rest), sep);
  }

  /** So it is for the whole compiler, on every template. */
  lemma CompiledByPieces(wanted: string, sep: char)
    ensures Compile(wanted, sep) == PatternOf(CutAt(Normalise(wanted), 0), sep)
  {
    ReplacedByPieces(CutAt(Normalise(wanted), 0), sep);
  }

  /** A quoted piece is compiled in one pass over the quoted text with its long names replaced. */
  lemma QuotedPiece(p: string, sep: char)
    requires sep != '%'
    ensures Replaced(Quote(p), sep) == SinglePass(Codes(sep), Quote(Named(p)))
  {
    NamesBeforeQuoting(p);
    ChainIsSinglePass(sep, Quote(Named(p)));
  }

  // ---------------------------------------------------------------- which raw sections survive

  function Percents(s: string): nat {
    if s == [] then 0 else if s[0] == '%' then 1 + Percents(s[1..]) else Percents(s[1..])
  }

  lemma {:induction false} PercentsConcat(s: string, t: string)
    ensures Percents(s + t) == Percents(s) + Percents(t)
  {
    if s == [] {
      assert s + t == t;
    } else {
      PercentsConcat(s[1..], t);
      assert (s + t)[1..] == s[1..] + t;
    }
  }

  lemma {:induction false} NoPercents(s: string)
    requires '%' !in s
    ensures Percents(s) == 0
  {
    if s == [] {
    } else {
      NoPercents(s[1..]);
    }
  }

  /** Every replacement takes a percent sign away. */
  lemma {:induction false} ReplaceLowers(n: string, r: string, s: string)
    requires n != [] && n[0] == '%' && '%' !in r
    ensures Percents(StrReplace(n, r, s)) <= Percents(s)
    ensures Contains(s, n) ==> Percents(StrReplace(n, r, s)) < Percents(s)
    decreases |s|
  {
    if s == [] {
    } else if n <= s {
      var rest := s[|n|..];
      ReplaceLowers(n, r, rest);
      assert s == n + rest;
      ReplaceHit(n, r, rest);
      PercentsConcat(n, rest);
      PercentsConcat(r, StrReplace(n, r, rest));
      NoPercents(r);
      assert Percents(n) >= 1;
    } else {
      var rest := s[1..];
      ReplaceLowers(n, r, rest);
      ContainedLater(s, n);
      assert s == [s[0]] + rest;
      ReplaceMiss(n, r, s[0], rest);
      PercentsConcat([s[0]], StrReplace(n, r, rest));
      PercentsConcat([s[0]], rest);
    }
  }

  /** Either the needle is absent and nothing changes, or a percent sign is lost. */
  lemma LowerOrAbsent(n: string, r: string, s: string) returns (t: string)
    requires n != [] && n[0] == '%' && '%' !in r
    ensures t == StrReplace(n, r, s) && Percents(t) <= Percents(s)
    ensures if Contains(s, n) then Percents(t) < Percents(s) else t == s
  {
    ReplaceLowers(n, r, s);
    t := StrReplace(n, r, s);
    if !Contains(s, n) { StrReplaceAbsent(n, r, s); }
  }

  /** A long name as it looks in quoted text. */
  ghost predicate HasQuotedName(s: string) {
    || Contains(s, "%binary_string_optional%") || Contains(s, "%unicode_string_optional%")
    || Contains(s, "%unicode\\|string%") || Contains(s, "%string\\|unicode%")
    || Contains(s, "%u\\|b%") || Contains(s, "%b\\|u%")
  }

  ghost predicate HasCodeOf(codes: seq<(char, string)>, s: string) {
    exists k :: 0 <= k < |codes| && Contains(s, ['%', codes[k].0])
  }

  lemma NamesLower(s: string)
    ensures Percents(ReplaceNames(s)) <= Percents(s)
    ensures if HasQuotedName(s) then Percents(ReplaceNames(s)) < Percents(s) else ReplaceNames(s) == s
  {
    var s1 := LowerOrAbsent("%binary_string_optional%", "string", s);
    var s2 := LowerOrAbsent("%unicode_string_optional%", "string", s1);
    var s3 := LowerOrAbsent("%unicode\\|string%", "string", s2);
    var s4 := LowerOrAbsent("%string\\|unicode%", "string", s3);
    var s5 := LowerOrAbsent("%u\\|b%", "", s4);
    var s6 := LowerOrAbsent("%b\\|u%", "", s5);
  }

  lemma {:induction false} CodesLower(codes: seq<(char, string)>, s: string)
    requires forall k :: 0 <= k < |codes| ==> '%' !in codes[k].1
    ensures Percents(ReplaceCodes(codes, s)) <= Percents(s)
    ensures if HasCodeOf(codes, s) then Percents(ReplaceCodes(codes, s)) < Percents(s) else ReplaceCodes(codes, s) == s
    decreases |codes|
  {
    if codes == [] {
    } else {
      var n, rest := ['%', codes[0].0], codes[1..];
      var t := LowerOrAbsent(n, codes[0].1, s);
      CodesLower(rest, t);
      assert forall k :: 0 <= k < |rest| ==> rest[k] == codes[k + 1];
      if !Contains(s, n) && HasCodeOf(codes, s) {
        var k :| 0 <= k < |codes| && Contains(s, ['%', codes[k].0]);
        assert rest[k - 1] == codes[k];
      }
    }
  }

  /** A raw section reaches the pattern as it was written if and only if it holds no letter code and no long name. */
  lemma RawSurvivesIff(raw: string, sep: char)
    requires sep != '%'
    ensures Replaced(raw, sep) == raw <==> !HasQuotedName(raw) && !HasCodeOf(Codes(sep), raw)
  {
    TextsHarmless(sep);
    NamesLower(raw);
    CodesLower(Codes(sep), ReplaceNames(raw));
  }

  // ---------------------------------------------------------------- one raw section

  lemma {:induction false} FindTagAt(s: string, from: nat, k: nat)
    requires from <= k < |s| && TagAt(s, k) && forall x :: from <= x < k ==> !TagAt(s, x)
    ensures FindTag(s, from) == k
    decreases k - from
  {
    if from == k {
    } else {
      FindTagAt(s, from + 1, k);
    }
  }

  lemma TagIn(p: string, rest: string, k: nat)
    requires k + 1 < |p| || (k < |p| && (rest == [] || rest[0] == '%'))
    ensures TagAt(p + rest, k) <==> TagAt(p, k)
  {
  }

  lemma TagInTail(s: string, from: nat, k: nat)
    requires from + k <= |s|
    ensures TagAt(s[from..], k) <==> TagAt(s, from + k)
  {
  }

  /** The first marker behind text without one. */
  lemma TagBehind(s: string, from: nat, p: string, rest: string)
    requires from <= |s| && s[from..] == p + rest && NoTag(p) && "%r" <= rest
    ensures from + |p| + 2 <= |s| && FindTag(s, from) == from + |p|
  {
    forall x | from <= x < from + |p| ensures !TagAt(s, x) {
      TagInTail(s, from, x - from);
      TagIn(p, rest, x - from);
    }
    assert (p + rest)[|p|] == rest[0] && (p + rest)[|p| + 1] == rest[1];
    TagInTail(s, from, |p|);
    FindTagAt(s, from, from + |p|);
  }

  /** The text between two markers is put into parentheses as it stands, the text around them is quoted. */
  lemma OneRawSection(p: string, r: string, q: string, s: string)
    requires NoTag(p) && NoTag(r) && NoTag(q) && s == p + ("%r" + (r + ("%r" + q)))
    ensures Assemble(CutAt(s, 0)) == Quote(p) + "(" + r + ")" + Quote(q)
  {
    var start, end := |p|, |p| + 2 + |r|;
    assert s[0..] == s && s[start + 2..] == r + ("%r" + q);
    TagBehind(s, 0, p, "%r" + (r + ("%r" + q)));
    TagBehind(s, start + 2, r, "%r" + q);
    assert s[end + 2..] == q;
    NoTagBehind(s, end + 2, q);
    assert s[..start] == p && s[start + 2..end] == r;
    OneRawCut(p, r, q, s, start, end);
  }

  lemma NoTagBehind(s: string, from: nat, q: string)
    requires from <= |s| && s[from..] == q && NoTag(q)
    ensures FindTag(s, from) == |s|
  {
    FindTagHits(s, from);
    var k := FindTag(s, from);
    if k < |s| {
      TagInTail(s, from, k - from);
      assert false;
    }
  }

  lemma OneRawCut(p: string, r: string, q: string, s: string, start: nat, end: nat)
    requires FindTag(s, 0) == start < |s| && FindTag(s, start + 2) == end < |s| && FindTag(s, end + 2) == |s|
    requires s[..start] == p && s[start + 2..end] == r && s[end + 2..] == q
    ensures Assemble(CutAt(s, 0)) == Quote(p) + "(" + r + ")" + Quote(q)
  {
    CutUnfold(s, 0, start, end);
    assert s[0..start] == p && CutAt(s, end + 2) == Last(q);
    AssembleThen(p, r, Last(q));
  }
}

/** Templates line by line: a text is compiled, quoted and replaced line by line, and says what its lines say. */
module TemplateLines {
  import opened PhpStrings
  import opened ExpectF
  import opened Placeholders
  import opened CodeMeaning
  import opened LongNames
  import opened ExpectFMeaning
  import opened RawSections
  import opened RawMeaning

  // ---------------------------------------------------------------- lines

  lemma {:induction false} ExplodeAfter(p: string, s: string)
    requires '\n' !in p
    ensures Explode(p + s) == [p + Explode(s)[0]] + Explode(s)[1..]
  {
    if p == [] {
      assert p + s == s && [] + Explode(s)[0] == Explode(s)[0];
    } else {
      ExplodeAfter(p[1..], s);
      assert (p + s)[1..] == p[1..] + s;
      assert [p[0]] + (p[1..] + Explode(s)[0]) == p + Explode(s)[0];
    }
  }

  lemma {:induction false} FirstLine(s: string) returns (l: string, rest: string)
    requires '\n' in s
    ensures '\n' !in l && s == l + "\n" + rest
  {
    if s[0] == '\n' {
      l, rest := "", s[1..];
    } else {
      l, rest := FirstLine(s[1..]);
      l := [s[0]] + l;
    }
  }

  /** The last line of one text and the first of the next become one. */
  function Glue(xs: seq<string>, ys: seq<string>): seq<string>
    requires xs != [] && ys != []
  {
    xs[..|xs| - 1] + [xs[|xs| - 1] + ys[0]] + ys[1..]
  }

  lemma ExplodeCons(c: char, s: string)
    ensures Explode([c] + s) ==
            if c == '\n' then [""] + Explode(s) else [[c] + Explode(s)[0]] + Explode(s)[1..]
  {
    assert ([c] + s)[1..] == s;
  }

  lemma GlueCons(l: string, xs: seq<string>, ys: seq<string>)
    requires xs != [] && ys != []
    ensures Glue([l] + xs, ys) == [l] + Glue(xs, ys)
  {
    var all := [l] + xs;
    assert all[..|all| - 1] == [l] + xs[..|xs| - 1] && all[|all| - 1] == xs[|xs| - 1];
  }

  lemma GlueFirst(c: char, xs: seq<string>, ys: seq<string>)
    requires xs != [] && ys != []
    ensures var g := Glue(xs, ys); Glue([[c] + xs[0]] + xs[1..], ys) == [[c] + g[0]] + g[1..]
  {
    var g, n := Glue(xs, ys), |xs| - 1;
    if n == 0 {
      assert xs[1..] == [] && g == [xs[0] + ys[0]] + ys[1..];
      assert [c] + xs[0] + ys[0] == [c] + (xs[0] + ys[0]);
    } else {
      var all := [[c] + xs[0]] + xs[1..];
      assert all[..n] == [[c] + xs[0]] + xs[1..n] && all[n] == xs[n];
      assert g[0] == xs[0] && g[1..] == xs[1..n] + [xs[n] + ys[0]] + ys[1..];
    }
  }

  lemma {:induction false} ExplodeConcat(x: string, y: string)
    ensures Explode(x + y) == Glue(Explode(x), Explode(y))
    decreases |x|
  {
    if x == [] {
      GlueNothing(Explode(y));
      assert x + y == y;
    } else {
      var c, rest := x[0], x[1..];
      ExplodeConcat(rest, y);
      assert x == [c] + rest && x + y == [c] + (rest + y);
      ExplodeCons(c, rest);
      ExplodeCons(c, rest + y);
      if c == '\n' {
        GlueCons("", Explode(rest), Explode(y));
      } else {
        GlueFirst(c, Explode(rest), Explode(y));
      }
    }
  }

  lemma GlueNothing(ys: seq<string>)
    requires ys != []
    ensures Glue([""], ys) == ys
  {
    assert "" + ys[0] == ys[0] && ys == [ys[0]] + ys[1..];
  }

  /** A function on texts that works line by line. */
  ghost predicate ByLine(f: string -> string) {
    KeepsNewlines(f) && StaysOnLine(f)
  }

  ghost predicate KeepsNewlines(f: string -> string) { forall x, y :: f(x + "\n" + y) == f(x) + "\n" + f(y) }

  ghost predicate StaysOnLine(f: string -> string) { forall x :: '\n' !in x ==> '\n' !in f(x) }

  function EachLine(f: string -> string, ls: seq<string>): (rs: seq<string>)
    ensures |rs| == |ls| && forall k :: 0 <= k < |rs| ==> rs[k] == f(ls[k])
  {
    seq(|ls|, k requires 0 <= k < |ls| => f(ls[k]))
  }

  lemma EachLineCons(f: string -> string, l: string, ls: seq<string>)
    ensures EachLine(f, [l] + ls) == [f(l)] + EachLine(f, ls)
  {
  }

  lemma LinesStep(f: string -> string, l: string, rest: string, s: string)
    requires ByLine(f) && '\n' !in l && s == l + "\n" + rest && Explode(f(rest)) == EachLine(f, Explode(rest))
    ensures Explode(f(s)) == EachLine(f, Explode(s))
  {
    assert Explode(s) == [l] + Explode(rest) by { ExplodeLine(l, rest); }
    assert Explode(f(s)) == [f(l)] + Explode(f(rest)) by {
      assert f(s) == f(l) + "\n" + f(rest);
      ExplodeLine(f(l), f(rest));
    }
    EachLineCons(f, l, Explode(rest));
  }

  lemma {:induction false} LinesOf(f: string -> string, s: string)
    requires ByLine(f)
    ensures Explode(f(s)) == EachLine(f, Explode(s))
    decreases |s|
  {
    if '\n' in s {
      var l, rest := FirstLine(s);
      LinesOf(f, rest);
      LinesStep(f, l, rest, s);
    } else {
      ExplodeOneLine(s);
      ExplodeOneLine(f(s));
    }
  }

  lemma NewlineFree(s: string)
    ensures '\n' !in s <==> CountNewlines(s) == 0
  {
    if '\n' !in s {
      NoNewlines(s);
    } else {
      var l, rest := FirstLine(s);
      CountNewlinesConcat(l + "\n", rest);
      CountNewlinesConcat(l, "\n");
    }
  }

  lemma QuoteByLine()
    ensures ByLine(Quote)
  {
    forall x, y ensures Quote(x + "\n" + y) == Quote(x) + "\n" + Quote(y) {
      QuoteConcat(x + "\n", y);
      QuoteConcat(x, "\n");
      QuoteOne('\n');
    }
    forall x | '\n' !in x ensures '\n' !in Quote(x) {
      QuoteNewlines(x);
      NewlineFree(x);
      NewlineFree(Quote(x));
    }
  }

  lemma ReplacedOnLine(x: string, sep: char)
    requires sep != '\n' && '\n' !in x
    ensures '\n' !in Replaced(x, sep)
  {
    ReplaceNamesNewlines(x);
    CodesOnLine(sep);
    ReplaceCodesNewlines(Codes(sep), ReplaceNames(x));
    NewlineFree(x);
    NewlineFree(Replaced(x, sep));
  }

  /** What becomes of plain and of raw pieces. */
  ghost predicate CompilesPieces(f: string -> string, g: string -> string, sep: char) {
    (forall p :: f(p) == Replaced(Quote(p), sep)) && forall r :: g(r) == Replaced(r, sep)
  }

  lemma PieceFunctions(sep: char) returns (f: string -> string, g: string -> string)
    ensures CompilesPieces(f, g, sep)
  {
    f, g := (p: string) => Replaced(Quote(p), sep), (r: string) => Replaced(r, sep);
  }

  lemma PiecesByLine(f: string -> string, g: string -> string, sep: char)
    requires sep != '\n' && CompilesPieces(f, g, sep)
    ensures ByLine(f)
  {
    PiecesKeepNewlines(f, g, sep);
    PiecesStayOnLine(f, g, sep);
  }

  lemma PiecesKeepNewlines(f: string -> string, g: string -> string, sep: char)
    requires CompilesPieces(f, g, sep)
    ensures KeepsNewlines(f)
  {
    forall x, y ensures f(x + "\n" + y) == f(x) + "\n" + f(y) {
      PieceIs(f, g, sep, x + "\n" + y);
      PieceIs(f, g, sep, x);
      PieceIs(f, g, sep, y);
      PieceAround(x, y, sep);
    }
  }

  lemma PiecesStayOnLine(f: string -> string, g: string -> string, sep: char)
    requires sep != '\n' && CompilesPieces(f, g, sep)
    ensures StaysOnLine(f)
  {
    forall x | '\n' !in x ensures '\n' !in f(x) {
      PieceIs(f, g, sep, x);
      PieceOnLine(x, sep);
    }
  }

  lemma PieceIs(f: string -> string, g: string -> string, sep: char, p: string)
    requires CompilesPieces(f, g, sep)
    ensures f(p) == Replaced(Quote(p), sep)
  {
  }

  lemma PieceAround(x: string, y: string, sep: char)
    ensures Replaced(Quote(x + "\n" + y), sep) == Replaced(Quote(x), sep) + "\n" + Replaced(Quote(y), sep)
  {
    assert Quote(x + "\n" + y) == Quote(x) + "\n" + Quote(y) by { QuoteByLine(); }
    ReplacedAround(Quote(x), '\n', Quote(y), sep);
  }

  lemma PieceOnLine(x: string, sep: char)
    requires sep != '\n' && '\n' !in x
    ensures '\n' !in Replaced(Quote(x), sep)
  {
    assert '\n' !in Quote(x) by { QuoteByLine(); }
    ReplacedOnLine(Quote(x), sep);
  }

  lemma NamedByLine()
    ensures ByLine(Named)
  {
    forall x, y ensures Named(x + "\n" + y) == Named(x) + "\n" + Named(y) { NamedAround(x, y); }
    forall x | '\n' !in x ensures '\n' !in Named(x) { NamedOnLine(x); }
  }

  lemma NamedAround(x: string, y: string)
    ensures Named(x + "\n" + y) == Named(x) + "\n" + Named(y)
  {
    var x1, y1 := NameAround("%binary_string_optional%", "string", x, '\n', y);
    var x2, y2 := NameAround("%unicode_string_optional%", "string", x1, '\n', y1);
    var x3, y3 := NameAround("%unicode|string%", "string", x2, '\n', y2);
    var x4, y4 := NameAround("%string|unicode%", "string", x3, '\n', y3);
    var x5, y5 := NameAround("%u|b%", "", x4, '\n', y4);
    var x6, y6 := NameAround("%b|u%", "", x5, '\n', y5);
  }

  lemma NamedOnLine(x: string)
    requires '\n' !in x
    ensures '\n' !in Named(x)
  {
    NamesBeforeQuoting(x);
    QuoteNewlines(x);
    QuoteNewlines(Named(x));
    ReplaceNamesNewlines(Quote(x));
    NewlineFree(x);
    NewlineFree(Named(x));
  }

  // ---------------------------------------------------------------- the lines of a cut template

  /** No raw section reaches over the end of a line. */
  predicate RawsOnLine(t: Cut) { t.Then? ==> '\n' !in t.raw && RawsOnLine(t.rest) }

  function Lasts(ls: seq<string>): (cs: seq<Cut>)
    ensures |cs| == |ls| && forall k :: 0 <= k < |cs| ==> cs[k] == Last(ls[k])
  {
    seq(|ls|, k requires 0 <= k < |ls| => Last(ls[k]))
  }

  /** A cut template, line by line. */
  function CutLines(t: Cut): (cs: seq<Cut>)
    ensures cs != []
  {
    var ps := Explode(t.plain);
    if t.Last? then Lasts(ps)
    else
      var n, qs := |ps| - 1, CutLines(t.rest);
      Lasts(ps[..n]) + [Then(ps[n], t.raw, qs[0])] + qs[1..]
  }

  /** A cut template put together from what becomes of its pieces. */
  function Weave(t: Cut, plain: string -> string, raw: string -> string): string {
    match t
    case Last(p) => plain(p)
    case Then(p, r, rest) => plain(p) + "(" + raw(r) + ")" + Weave(rest, plain, raw)
  }

  function Weaves(cs: seq<Cut>, f: string -> string, g: string -> string): (rs: seq<string>)
    ensures |rs| == |cs| && forall k :: 0 <= k < |rs| ==> rs[k] == Weave(cs[k], f, g)
  {
    seq(|cs|, k requires 0 <= k < |cs| => Weave(cs[k], f, g))
  }

  lemma WeavesOfParts(cs: seq<Cut>, c: Cut, ds: seq<Cut>, f: string -> string, g: string -> string)
    ensures Weaves(cs + [c] + ds, f, g) == Weaves(cs, f, g) + [Weave(c, f, g)] + Weaves(ds, f, g)
  {
  }

  lemma WeavesOfPlain(ps: seq<string>, f: string -> string, g: string -> string)
    ensures Weaves(Lasts(ps), f, g) == EachLine(f, ps)
  {
  }

  lemma GroupInFront(p: string, raw: string, rest: Cut, f: string -> string, g: string -> string)
    ensures Weave(Then(p, raw, rest), f, g) == f(p) + (("(" + g(raw) + ")") + Weave(rest, f, g))
  {
  }

  /** The lines of what a template is made into are what its lines are made into. */
  lemma {:induction false} WeaveLines(t: Cut, f: string -> string, g: string -> string)
    requires RawsOnLine(t) && ByLine(f) && forall x :: '\n' !in x ==> '\n' !in g(x)
    ensures Explode(Weave(t, f, g)) == Weaves(CutLines(t), f, g)
  {
    var ps := Explode(t.plain);
    LinesOf(f, t.plain);
    WeavesOfPlain(ps, f, g);
    if t.Last? {
    } else {
      WeaveLines(t.rest, f, g);
      JoinedLines(t, f, g, ps, CutLines(t.rest));
    }
  }

  lemma JoinedLines(t: Cut, f: string -> string, g: string -> string, ps: seq<string>, qs: seq<Cut>)
    requires t.Then? && '\n' !in g(t.raw)
    requires ps == Explode(t.plain) && Explode(f(t.plain)) == EachLine(f, ps)
    requires qs == CutLines(t.rest) && Explode(Weave(t.rest, f, g)) == Weaves(qs, f, g)
    ensures Explode(Weave(t, f, g)) == Weaves(CutLines(t), f, g)
  {
    var n, group := |ps| - 1, "(" + g(t.raw) + ")";
    var rest := Weaves(qs, f, g);
    GroupLines(t, f, g, ps, group, rest);
    WovenLines(t, f, g, ps, qs, group, rest);
    GlueOfLines(f, ps, group + rest[0], rest[1..]);
  }

  lemma GroupLines(t: Cut, f: string -> string, g: string -> string, ps: seq<string>, group: string, rest: seq<string>)
    requires t.Then? && '\n' !in g(t.raw) && group == "(" + g(t.raw) + ")" && rest != []
    requires Explode(f(t.plain)) == EachLine(f, ps) && ps != [] && Explode(Weave(t.rest, f, g)) == rest
    ensures Explode(Weave(t, f, g)) == Glue(EachLine(f, ps), [group + rest[0]] + rest[1..])
  {
    GroupInFront(t.plain, t.raw, t.rest, f, g);
    ExplodeConcat(f(t.plain), group + Weave(t.rest, f, g));
    ExplodeAfter(group, Weave(t.rest, f, g));
  }

  lemma WovenLines(t: Cut, f: string -> string, g: string -> string, ps: seq<string>, qs: seq<Cut>, group: string,
                   rest: seq<string>)
    requires t.Then? && ps == Explode(t.plain) && qs == CutLines(t.rest) && group == "(" + g(t.raw) + ")"
    requires rest == Weaves(qs, f, g)
    ensures Weaves(CutLines(t), f, g)
            == EachLine(f, ps[..|ps| - 1]) + [f(ps[|ps| - 1]) + (group + rest[0])] + rest[1..]
  {
    var n := |ps| - 1;
    GroupInFront(ps[n], t.raw, qs[0], f, g);
    WeavesOfParts(Lasts(ps[..n]), Then(ps[n], t.raw, qs[0]), qs[1..], f, g);
    WeavesOfPlain(ps[..n], f, g);
    assert Weaves(qs[1..], f, g) == rest[1..];
  }

  lemma GlueOfLines(f: string -> string, ps: seq<string>, first: string, others: seq<string>)
    requires ps != []
    ensures var n := |ps| - 1;
            Glue(EachLine(f, ps), [first] + others) == EachLine(f, ps[..n]) + [f(ps[n]) + first] + others
  {
    var n := |ps| - 1;
    assert EachLine(f, ps)[..n] == EachLine(f, ps[..n]);
    assert ([first] + others)[1..] == others;
  }

  function Patterns(cs: seq<Cut>, sep: char): (rs: seq<string>)
    ensures |rs| == |cs| && forall k :: 0 <= k < |rs| ==> rs[k] == PatternOf(cs[k], sep)
  {
    seq(|cs|, k requires 0 <= k < |cs| => PatternOf(cs[k], sep))
  }

  lemma {:induction false} PatternIsWeave(t: Cut, f: string -> string, g: string -> string, sep: char)
    requires CompilesPieces(f, g, sep)
    ensures PatternOf(t, sep) == Weave(t, f, g)
  {
    if t.Last? {
    } else {
      PatternIsWeave(t.rest, f, g, sep);
    }
  }

  /** So it is for the pattern: its lines are the patterns of the lines of the template. */
  lemma PatternLines(t: Cut, sep: char)
    requires sep != '\n' && RawsOnLine(t)
    ensures Explode(PatternOf(t, sep)) == Patterns(CutLines(t), sep)
  {
    var f, g := PieceFunctions(sep);
    PatternLinesBy(t, f, g, sep);
  }

  lemma PatternLinesBy(t: Cut, f: string -> string, g: string -> string, sep: char)
    requires sep != '\n' && RawsOnLine(t) && CompilesPieces(f, g, sep)
    ensures Explode(PatternOf(t, sep)) == Patterns(CutLines(t), sep)
  {
    PiecesByLine(f, g, sep);
    forall x | '\n' !in x ensures '\n' !in g(x) { ReplacedOnLine(x, sep); }
    WeaveLines(t, f, g);
    PatternIsWeave(t, f, g, sep);
    var cs := CutLines(t);
    forall k | 0 <= k < |cs| ensures PatternOf(cs[k], sep) == Weave(cs[k], f, g) { PatternIsWeave(cs[k], f, g, sep); }
  }

  // ---------------------------------------------------------------- what lines say together

  /** What two templates say, with a newline between. */
  lemma {:induction false} MeansJoin(t: string, s: string, u: string, v: string, sep: char)
    requires Means(t, s, sep) && Means(u, v, sep)
    ensures Means(t + "\n" + u, s + "\n" + v, sep)
    decreases |t|
  {
    var all, out := t + "\n" + u, s + "\n" + v;
    CodeBeforeNewline(t, u, sep);
    if t == [] {
      JoinSlices("", u, 0);
      JoinSlices("", v, 0);
      MeansChar(all, out, sep);
    } else if CodeAhead(Codes(sep), t) {
      var k :| 0 <= k <= |s| && Stands(t[1], s[..k], sep) && Means(t[2..], s[k..], sep);
      MeansJoin(t[2..], s[k..], u, v, sep);
      JoinSlices(t, u, 2);
      JoinSlices(s, v, k);
      MeansCode(all, out, k, sep);
    } else {
      MeansJoin(t[1..], s[1..], u, v, sep);
      JoinSlices(t, u, 1);
      JoinSlices(s, v, 1);
      MeansChar(all, out, sep);
    }
  }

  lemma JoinSlices(t: string, u: string, k: nat)
    requires k <= |t|
    ensures var all := t + "\n" + u;
            && all[..k] == t[..k] && all[k..] == t[k..] + "\n" + u && (forall i :: 0 <= i < |t| ==> all[i] == t[i])
            && all[|t|] == '\n' && all[|t| + 1..] == u
  {
  }

  lemma MeansChar(t: string, s: string, sep: char)
    requires t != [] && !CodeAhead(Codes(sep), t) && s != [] && s[0] == t[0] && Means(t[1..], s[1..], sep)
    ensures Means(t, s, sep)
  {
  }

  lemma MeansCode(t: string, s: string, k: nat, sep: char)
    requires CodeAhead(Codes(sep), t) && k <= |s| && Stands(t[1], s[..k], sep) && Means(t[2..], s[k..], sep)
    ensures Means(t, s, sep)
  {
  }

  lemma CodeBeforeNewline(t: string, u: string, sep: char)
    ensures CodeAhead(Codes(sep), t + "\n" + u) <==> CodeAhead(Codes(sep), t)
  {
    var all := t + "\n" + u;
    if HasCode(Codes(sep), '\n') { CodesAreCodes(sep, '\n'); }
    assert |t| > 0 ==> all[0] == t[0];
    assert |t| > 1 ==> all[1] == t[1];
    assert |t| == 1 ==> all[1] == '\n';
  }

  /** Lines that are said one by one make up a text that is said. */
  lemma {:induction false} LinesMean(xs: seq<string>, ys: seq<string>, sep: char)
    requires |xs| == |ys| > 0 && forall k :: 0 <= k < |xs| ==> Means(xs[k], ys[k], sep)
    ensures Means(Implode("\n", xs), Implode("\n", ys), sep)
  {
    if |xs| == 1 {
    } else {
      LinesMean(xs[1..], ys[1..], sep);
      MeansJoin(xs[0], ys[0], Implode("\n", xs[1..]), Implode("\n", ys[1..]), sep);
    }
  }

  lemma ImplodeGlued(xs: seq<string>, a: string, x: string, b: string, zs: seq<string>)
    ensures Implode("\n", xs + [a + x + b] + zs) == Implode("\n", xs + [a]) + x + Implode("\n", [b] + zs)
  {
    if xs == [] {
      assert xs + [a + x + b] + zs == [a + x + b] + zs && xs + [a] == [a];
      assert ([a + x + b] + zs)[1..] == zs && ([b] + zs)[1..] == zs;
    } else {
      ImplodeGlued(xs[1..], a, x, b, zs);
      assert (xs + [a + x + b] + zs)[1..] == xs[1..] + [a + x + b] + zs && (xs + [a])[1..] == xs[1..] + [a];
    }
  }

  /** The strings of a cut template, from those of its pieces. */
  ghost function Language(t: Cut, plain: Engine, raw: Engine): iset<string> {
    match t
    case Last(p) => plain(p)
    case Then(p, r, rest) => Around(plain(p), raw(r), Language(rest, plain, raw))
  }

  /** Texts that are there line by line are there. */
  ghost predicate JoinsLines(plain: Engine) {
    forall p, ys :: LinesThere(plain, Explode(p), ys) ==> Implode("\n", ys) in plain(p)
  }

  ghost predicate LinesThere(plain: Engine, ps: seq<string>, ys: seq<string>) {
    |ys| == |ps| && forall k :: 0 <= k < |ys| ==> ys[k] in plain(ps[k])
  }

  ghost predicate LinesIn(cs: seq<Cut>, ys: seq<string>, plain: Engine, raw: Engine) {
    |cs| == |ys| && forall k :: 0 <= k < |cs| ==> ys[k] in Language(cs[k], plain, raw)
  }

  /** What the lines of a template say one by one, the template says. */
  lemma {:induction false} LinesInTemplate(t: Cut, ys: seq<string>, plain: Engine, raw: Engine)
    requires JoinsLines(plain) && LinesIn(CutLines(t), ys, plain, raw)
    ensures Implode("\n", ys) in Language(t, plain, raw)
  {
    var ps, cs := Explode(t.plain), CutLines(t);
    if t.Last? {
      forall k | 0 <= k < |ys| ensures ys[k] in plain(ps[k]) { assert ys[k] in Language(cs[k], plain, raw); }
      assert LinesThere(plain, ps, ys);
    } else {
      var n := |ps| - 1;
      var a, x, b := SplitJoined(t, ys, plain, raw);
      var front, back := ys[..n] + [a], [b] + ys[n + 1..];
      assert LinesThere(plain, ps, front);
      LinesInTemplate(t.rest, back, plain, raw);
      InAround(plain(t.plain), raw(t.raw), Language(t.rest, plain, raw), Implode("\n", front), x, Implode("\n", back));
      ImplodeApart(ys, n, a, x, b);
    }
  }

  lemma ImplodeGluedAs(ys: seq<string>, xs: seq<string>, a: string, x: string, b: string, zs: seq<string>)
    requires ys == xs + [a + x + b] + zs
    ensures Implode("\n", ys) == Implode("\n", xs + [a]) + x + Implode("\n", [b] + zs)
  {
    ImplodeGlued(xs, a, x, b, zs);
  }

  lemma Parts(ys: seq<string>, n: nat)
    requires n < |ys|
    ensures ys == ys[..n] + [ys[n]] + ys[n + 1..]
  {
  }

  lemma ImplodeApart(ys: seq<string>, n: nat, a: string, x: string, b: string)
    requires n < |ys| && ys[n] == a + x + b
    ensures Implode("\n", ys) == Implode("\n", ys[..n] + [a]) + x + Implode("\n", [b] + ys[n + 1..])
  {
    Parts(ys, n);
    ImplodeGluedAs(ys, ys[..n], a, x, b, ys[n + 1..]);
  }

  lemma InAround(before: iset<string>, raw: iset<string>, after: iset<string>, a: string, x: string, b: string)
    requires a in before && x in raw && b in after
    ensures a + x + b in Around(before, raw, after)
  {
  }

  /** The output line that a raw section stands on, taken apart. */
  lemma SplitJoined(t: Cut, ys: seq<string>, plain: Engine, raw: Engine) returns (a: string, x: string, b: string)
    requires t.Then? && LinesIn(CutLines(t), ys, plain, raw)
    ensures var ps, qs := Explode(t.plain), CutLines(t.rest);
            var n := |ps| - 1;
            && n < |ys| && ys[n] == a + x + b && x in raw(t.raw)
            && LinesThere(plain, ps, ys[..n] + [a])
            && LinesIn(qs, [b] + ys[n + 1..], plain, raw)
  {
    var ps, qs, cs := Explode(t.plain), CutLines(t.rest), CutLines(t);
    var n := |ps| - 1;
    CutLinesAt(t, ps, qs);
    assert ys[n] in Language(cs[n], plain, raw);
    a, x, b := SplitAround(plain(ps[n]), raw(t.raw), Language(qs[0], plain, raw), ys[n]);
    forall k | 0 <= k < |ps| ensures (ys[..n] + [a])[k] in plain(ps[k]) {
      if k < n { assert ys[k] in Language(cs[k], plain, raw); }
    }
    forall k | 0 <= k < |qs| ensures ([b] + ys[n + 1..])[k] in Language(qs[k], plain, raw) {
      if k > 0 { assert ys[n + k] in Language(cs[n + k], plain, raw); }
    }
  }

  lemma CutLinesAt(t: Cut, ps: seq<string>, qs: seq<Cut>)
    requires t.Then? && ps == Explode(t.plain) && qs == CutLines(t.rest)
    ensures var cs, n := CutLines(t), |ps| - 1;
            && |cs| == n + |qs| && cs[n] == Then(ps[n], t.raw, qs[0])
            && (forall k :: 0 <= k < n ==> cs[k] == Last(ps[k]))
            && (forall k :: 0 < k < |qs| ==> cs[n + k] == qs[k])
  {
  }

  lemma SplitAround(before: iset<string>, raw: iset<string>, after: iset<string>, s: string)
    returns (a: string, x: string, b: string)
    requires s in Around(before, raw, after)
    ensures a in before && x in raw && b in after && s == a + x + b
  {
    a, x, b :| a in before && x in raw && b in after && s == a + x + b;
  }

  // ---------------------------------------------------------------- what the lines of a template say

  /** Plain text is said if its lines are. */
  lemma PlainLinesSaid(p: string, ys: seq<string>, sep: char)
    requires |ys| == |Explode(p)| && forall k :: 0 <= k < |ys| ==> ys[k] in Said(Named(Explode(p)[k]), sep)
    ensures Implode("\n", ys) in Said(Named(p), sep)
  {
    NamedByLine();
    LinesOf(Named, p);
    LinesMean(Explode(Named(p)), ys, sep);
    ImplodeExplode(Named(p));
  }

  ghost predicate ArePieces(plain: Engine, raw: Engine, sep: char, e: Engine) {
    (forall p :: plain(p) == Said(Named(p), sep)) && forall r :: raw(r) == e(Replaced(r, sep))
  }

  lemma SaidEngine(sep: char) returns (said: Engine)
    ensures forall p :: said(p) == Said(p, sep)
  {
    said := (p: string) => Said(p, sep);
  }

  lemma Composed(f: string -> string, e: Engine) returns (h: Engine)
    ensures forall p :: h(p) == e(f(p))
  {
    h := (p: string) => e(f(p));
  }

  lemma SaidPieces(sep: char, e: Engine) returns (plain: Engine, raw: Engine)
    ensures ArePieces(plain, raw, sep, e)
  {
    var said := SaidEngine(sep);
    plain := Composed(Named, said);
    var f, g := PieceFunctions(sep);
    raw := Composed(g, e);
  }

  lemma PlainJoinsLines(plain: Engine, raw: Engine, sep: char, e: Engine)
    requires ArePieces(plain, raw, sep, e)
    ensures JoinsLines(plain)
  {
    forall p, ys | LinesThere(plain, Explode(p), ys) ensures Implode("\n", ys) in plain(p) {
      assert forall k :: 0 <= k < |ys| ==> ys[k] in plain(Explode(p)[k]);
      PlainLinesSaid(p, ys, sep);
    }
  }

  lemma {:induction false} SaidIsLanguage(t: Cut, plain: Engine, raw: Engine, sep: char, e: Engine)
    requires ArePieces(plain, raw, sep, e)
    ensures CutSaid(t, sep, e) == Language(t, plain, raw)
  {
    if t.Last? {
    } else {
      SaidIsLanguage(t.rest, plain, raw, sep, e);
    }
  }

  /** What the lines of a template say one by one, the template says. */
  lemma TemplateLinesSaid(t: Cut, ys: seq<string>, sep: char, e: Engine)
    requires |ys| == |CutLines(t)| && forall k :: 0 <= k < |ys| ==> ys[k] in CutSaid(CutLines(t)[k], sep, e)
    ensures Implode("\n", ys) in CutSaid(t, sep, e)
  {
    var plain, raw := SaidPieces(sep, e);
    LinesInSaid(t, ys, plain, raw, sep, e);
  }

  lemma LinesInSaid(t: Cut, ys: seq<string>, plain: Engine, raw: Engine, sep: char, e: Engine)
    requires ArePieces(plain, raw, sep, e)
    requires |ys| == |CutLines(t)| && forall k :: 0 <= k < |ys| ==> ys[k] in CutSaid(CutLines(t)[k], sep, e)
    ensures Implode("\n", ys) in CutSaid(t, sep, e)
  {
    var cs := CutLines(t);
    forall k | 0 <= k < |cs| ensures ys[k] in Language(cs[k], plain, raw) {
      SaidIsLanguage(cs[k], plain, raw, sep, e);
    }
    PlainJoinsLines(plain, raw, sep, e);
    LinesInTemplate(t, ys, plain, raw);
    SaidIsLanguage(t, plain, raw, sep, e);
  }
}

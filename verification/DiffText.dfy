/** `generate_diff`: texts in, text out.  Each edit is printed as its line number, padded to
    three digits, its sign and the line; the printed diff is enough to undo the work. */
module DiffText {
  import opened PhpStrings
  import opened ArrayDiff
  import opened DiffTheorems

  // ---------------------------------------------------------------- numbers

  function Digit(d: nat): char
    requires d < 10
  {
    '0' + d as char
  }

  function DigitValue(c: char): nat
    requires IsDigit(c)
  {
    c as nat - '0' as nat
  }

  function Decimal(n: nat): (s: string)
    ensures s != [] && forall k :: 0 <= k < |s| ==> IsDigit(s[k])
  {
    if n < 10 then [Digit(n)] else Decimal(n / 10) + [Digit(n % 10)]
  }

  /** `sprintf("%03d", n)`. */
  function Padded(n: nat): (s: string)
    ensures |s| >= 3 && forall k :: 0 <= k < |s| ==> IsDigit(s[k])
  {
    var s := Decimal(n);
    if |s| == 1 then "00" + s else if |s| == 2 then "0" + s else s
  }

  function Value(s: string): nat
    requires forall k :: 0 <= k < |s| ==> IsDigit(s[k])
  {
    if s == [] then 0 else 10 * Value(s[..|s| - 1]) + DigitValue(s[|s| - 1])
  }

  lemma {:induction false} ValueOfDecimal(n: nat)
    ensures Value(Decimal(n)) == n
  {
    var s := Decimal(n);
    if n >= 10 {
      ValueOfDecimal(n / 10);
      assert s[..|s| - 1] == Decimal(n / 10);
    } else {
      assert s[..0] == [];
    }
  }

  lemma {:induction false} ValueIgnoresZero(s: string)
    requires forall k :: 0 <= k < |s| ==> IsDigit(s[k])
    ensures Value("0" + s) == Value(s)
  {
    var t := "0" + s;
    if s == [] {
      assert t[..0] == [];
    } else {
      ValueIgnoresZero(s[..|s| - 1]);
      assert t[..|t| - 1] == "0" + s[..|s| - 1];
    }
  }

  lemma {:induction false} DecimalLength(n: nat)
    ensures Decimal(n)[0] == '0' <==> n == 0
    ensures |Decimal(n)| == 1 <==> n < 10
    ensures |Decimal(n)| == 2 <==> 10 <= n < 100
    ensures |Decimal(n)| == 3 <==> 100 <= n < 1000
  {
    if n < 10 {
    } else {
      DecimalLength(n / 10);
    }
  }

  /** Numbers are printed with three digits, or with as many as they need; `ValueOfPadded` says which. */
  lemma PaddedLength(n: nat)
    ensures if n < 1000 then |Padded(n)| == 3 else |Padded(n)| > 3 && Padded(n)[0] != '0'
  {
    DecimalLength(n);
  }

  lemma ValueOfPadded(n: nat)
    ensures Value(Padded(n)) == n
  {
    var s := Decimal(n);
    ValueOfDecimal(n);
    ValueIgnoresZero(s);
    ValueIgnoresZero("0" + s);
    assert "0" + ("0" + s) == "00" + s;
  }

  // ---------------------------------------------------------------- one edit

  function Render(e: Edit): string {
    Padded(e.line + 1) + (if e.Minus? then "- " else "+ ") + e.text
  }

  function RenderAll(d: seq<Edit>): (ls: seq<string>)
    ensures |ls| == |d| && forall k :: 0 <= k < |ls| ==> ls[k] == Render(d[k])
  {
    seq(|d|, k requires 0 <= k < |d| => Render(d[k]))
  }

  function DigitsAhead(s: string): (n: nat)
    ensures n <= |s| && forall k :: 0 <= k < n ==> IsDigit(s[k])
  {
    if s != [] && IsDigit(s[0]) then 1 + DigitsAhead(s[1..]) else 0
  }

  /** Reads a printed edit back. */
  function ParseEdit(s: string): Option<Edit> {
    var n := DigitsAhead(s);
    if |s| < n + 2 || s[n + 1] != ' ' || Value(s[..n]) == 0 then None
    else if s[n] == '-' then Some(Minus(Value(s[..n]) - 1, s[n + 2..]))
    else if s[n] == '+' then Some(Plus(Value(s[..n]) - 1, s[n + 2..]))
    else None
  }

  lemma {:induction false} DigitsThenSign(p: string, s: string)
    requires forall k :: 0 <= k < |p| ==> IsDigit(p[k])
    requires s != [] && !IsDigit(s[0])
    ensures DigitsAhead(p + s) == |p|
  {
    if p == [] {
      assert p + s == s;
    } else {
      DigitsThenSign(p[1..], s);
      assert (p + s)[1..] == p[1..] + s;
    }
  }

  /** Printing an edit loses nothing; a printed edit is never false in PHP, so `next()` stops only at the end. */
  lemma ParseRender(e: Edit)
    ensures ParseEdit(Render(e)) == Some(e)
    ensures Truthy(Render(e))
  {
    var p := Padded(e.line + 1);
    var s := (if e.Minus? then "- " else "+ ") + e.text;
    assert Render(e) == p + s;
    DigitsThenSign(p, s);
    ValueOfPadded(e.line + 1);
    assert (p + s)[..|p|] == p;
    assert (p + s)[|p| + 2..] == e.text;
  }

  // ---------------------------------------------------------------- the printed diff

  /** The text of a diff. */
  function Print(d: seq<Edit>): string { Implode("\r\n", RenderAll(d)) }

  /** For instance the first expected line and the twelfth line of the output. */
  lemma TwoLinesPrinted()
    ensures Print([Minus(0, "x"), Plus(11, "y")]) == "001- x\r\n012+ y"
  {
    assert Decimal(1) == "1" && Decimal(12) == Decimal(1) + "2";
    assert Render(Minus(0, "x")) == "001- x" && Render(Plus(11, "y")) == "012+ y";
    var ls := RenderAll([Minus(0, "x"), Plus(11, "y")]);
    assert ls == ["001- x", "012+ y"] && ls[1..] == ["012+ y"];
  }

  /** Undoes `Print`: one edit per line, a carriage return at the end of all lines but the last. */
  function ParseLines(ls: seq<string>): Option<seq<Edit>> {
    if ls == [] then Some([])
    else
      var l := if |ls| > 1 && |ls[0]| > 0 then ls[0][..|ls[0]| - 1] else ls[0];
      match (ParseEdit(l), ParseLines(ls[1..]))
      case (Some(e), Some(rest)) => Some([e] + rest)
      case _ => None
  }

  function ParseDiff(s: string): Option<seq<Edit>> {
    if s == "" then Some([]) else ParseLines(Explode(s))
  }

  /** Every edit text is a single line. */
  ghost predicate SingleLines(d: seq<Edit>) {
    forall k :: 0 <= k < |d| ==> '\n' !in d[k].text
  }

  lemma RenderIsOneLine(e: Edit)
    requires '\n' !in e.text
    ensures '\n' !in Render(e) && Render(e) != ""
  {
    var p := Padded(e.line + 1);
    assert '\n' !in p;
  }

  /** The lines of a printed diff. */
  function PrintedLines(d: seq<Edit>): (ls: seq<string>)
    requires d != []
    ensures ls != []
  {
    if |d| == 1 then [Render(d[0])] else [Render(d[0]) + "\r"] + PrintedLines(d[1..])
  }

  lemma {:induction false} ExplodePrint(d: seq<Edit>)
    requires d != [] && SingleLines(d)
    ensures Explode(Print(d)) == PrintedLines(d)
  {
    RenderIsOneLine(d[0]);
    if |d| == 1 {
      assert RenderAll(d) == [Render(d[0])];
      ExplodeOneLine(Render(d[0]));
    } else {
      ExplodePrint(d[1..]);
      PrintCons(d);
      ExplodeLine(Render(d[0]) + "\r", Print(d[1..]));
    }
  }

  lemma {:induction false} ParsePrintedLines(d: seq<Edit>)
    requires d != []
    ensures ParseLines(PrintedLines(d)) == Some(d)
  {
    ParseRender(d[0]);
    if |d| == 1 {
      ParseOneLine(Render(d[0]));
      assert d == [d[0]];
    } else {
      var rest := PrintedLines(d[1..]);
      ParsePrintedLines(d[1..]);
      assert PrintedLines(d) == [Render(d[0]) + "\r"] + rest;
      ParseLinesCons(Render(d[0]), rest, d);
    }
  }

  lemma ParseOneLine(l: string)
    requires ParseEdit(l).Some?
    ensures ParseLines([l]) == Some([ParseEdit(l).value])
  {
    assert [l][1..] == [] && ParseLines([]) == Some([]);
    assert [ParseEdit(l).value] + [] == [ParseEdit(l).value];
  }

  lemma PrintCons(d: seq<Edit>)
    requires |d| > 1
    ensures Print(d) == (Render(d[0]) + "\r") + "\n" + Print(d[1..])
  {
    assert RenderAll(d)[1..] == RenderAll(d[1..]);
    assert "\r\n" == "\r" + "\n";
  }

  lemma ParseLinesCons(l: string, ls: seq<string>, d: seq<Edit>)
    requires d != [] && ls != [] && ParseLines(ls) == Some(d[1..]) && ParseEdit(l) == Some(d[0])
    ensures ParseLines([l + "\r"] + ls) == Some(d)
  {
    var all := [l + "\r"] + ls;
    assert all[1..] == ls;
    assert (l + "\r")[..|l|] == l;
    assert [d[0]] + d[1..] == d;
  }

  /** The text of a diff determines the diff. */
  lemma ParsePrint(d: seq<Edit>)
    requires SingleLines(d)
    ensures ParseDiff(Print(d)) == Some(d)
  {
    if d != [] {
      ExplodePrint(d);
      ParsePrintedLines(d);
      RenderIsOneLine(d[0]);
      assert Print(d)[0] == Render(d[0])[0];
    }
  }

  // ---------------------------------------------------------------- the program

  /** `wantedRe` is absent in literal mode; `matches` is what `preg_match` answers for a line in regular-expression
      mode. */
  function CompLine(regex: bool, matches: Relation): Relation {
    (l1: string, l2: string) => if regex then matches(l1, l2) else l1 == l2
  }

  function DiffOf(wanted: string, wantedRe: Option<string>, output: string, matches: Relation): seq<Edit> {
    var w, o := Explode(wanted), Explode(output);
    var r := if wantedRe.None? then w else Explode(wantedRe.value);
    var rel := CompLine(wantedRe.Some?, matches);
    Diff(r, o, rel, Looker(r, o, rel), w)
  }

  /** A printed diff that turns one text into the other, and back. */
  predicate IsPatch(text: string, wanted: string, output: string) {
    && ParseDiff(text).Some?
    && Implode("\n", ApplyDiff(Explode(wanted), ParseDiff(text).value)) == output
    && Implode("\n", RevertDiff(Explode(output), ParseDiff(text).value)) == wanted
  }

  method GenerateDiff(wanted: string, wantedRe: Option<string>, output: string, matches: Relation, shift: nat)
    returns (text: string)
    ensures text == Print(DiffOf(wanted, wantedRe, output, matches))
    ensures wantedRe.None? ==> IsPatch(text, wanted, output)
  {
    var w, o := Explode(wanted), Explode(output);
    var r := if wantedRe.None? then w else Explode(wantedRe.value);
    var diff;
    ghost var calls;
    diff, calls := GenerateArrayDiff(r, o, CompLine(wantedRe.Some?, matches), w, shift);
    text := Print(diff);
    if wantedRe.None? { PrintedDiffIsPatch(wanted, output, matches); }
  }

  lemma DiffSingleLines(a: seq<string>, b: seq<string>, rel: Relation, look: (nat, nat) -> nat, w: seq<string>)
    requires forall k :: 0 <= k < |w| ==> '\n' !in w[k]
    requires forall k :: 0 <= k < |b| ==> '\n' !in b[k]
    ensures SingleLines(Diff(a, b, rel, look, w))
  {
    var m := Scan(a, b, rel, look, 0, 0);
    var o1, o2 := MinusEdits(m.minus, w), PlusEdits(m.plus, b);
    var merged := MergeRuns(o1, o2, -2, -2);
    MergeMembers(o1, o2, -2, -2);
    forall k | 0 <= k < |merged| ensures '\n' !in merged[k].text {
      assert merged[k] in o1 || merged[k] in o2;
    }
  }

  /** Literal mode: the printed diff together with the expected text gives the output, and
      together with the output gives the expected text, character for character. */
  lemma PrintedDiffIsPatch(wanted: string, output: string, matches: Relation)
    ensures IsPatch(Print(DiffOf(wanted, None, output, matches)), wanted, output)
  {
    var w, o := Explode(wanted), Explode(output);
    var rel := CompLine(false, matches);
    var d := DiffOf(wanted, None, output, matches);
    DiffSingleLines(w, o, rel, Looker(w, o, rel), w);
    ParsePrint(d);
    LiteralDiffIsPatch(w, o, rel, Looker(w, o, rel));
    ImplodeExplode(wanted);
    ImplodeExplode(output);
  }
}

/** The EXPECTF compiler: sections between `%r` markers are passed through as regular
    expressions, the rest is quoted, and then placeholders are replaced one kind at a time. */
module ExpectF {
  import opened PhpStrings

  // ---------------------------------------------------------------- preg_quote

  predicate IsMeta(c: char) {
    c in {'.', '\\', '+', '*', '?', '[', '^', ']', '$', '(', ')', '{', '}', '=', '!', '>', '<', '|', ':', '-', '/'}
  }

  function QuoteChar(c: char): string {
    if IsMeta(c) then ['\\', c] else if c == '\0' then "\\000" else [c]
  }

  /** `preg_quote(s, '/')`. */
  function Quote(s: string): string {
    if s == [] then [] else QuoteChar(s[0]) + Quote(s[1..])
  }

  lemma MetaIs(c: char)
    ensures IsMeta(c) <==> c in ".\\+*?[^]$(" || c in "){}=!<>|:-/"
  {
    var first, last := ".\\+*?[^]$(", "){}=!<>|:-/";
    assert first[0] == '.' && first[1] == '\\' && first[2] == '+' && first[3] == '*' && first[4] == '?';
    assert first[5] == '[' && first[6] == '^' && first[7] == ']' && first[8] == '$' && first[9] == '(';
    assert last[0] == ')' && last[1] == '{' && last[2] == '}' && last[3] == '=' && last[4] == '!' && last[5] == '<';
    assert last[6] == '>' && last[7] == '|' && last[8] == ':' && last[9] == '-' && last[10] == '/';
  }

  /** The characters that get a backslash; NUL becomes three digits and all others stay. */
  lemma QuotedCharacter(c: char)
    ensures Quote([c]) == if c in ".\\+*?[^]$(" || c in "){}=!<>|:-/" then "\\" + [c]
                          else if c == '\0' then "\\000" else [c]
  {
    MetaIs(c);
    assert Quote([c]) == QuoteChar(c) + Quote([]);
  }

  lemma QuoteCons(c: char, s: string)
    ensures Quote([c] + s) == QuoteChar(c) + Quote(s)
  {
    assert ([c] + s)[1..] == s;
  }

  lemma {:induction false} QuoteNewlines(s: string)
    ensures CountNewlines(Quote(s)) == CountNewlines(s)
  {
    if s == [] {
    } else {
      QuoteNewlines(s[1..]);
      QuoteCharNewlines(s[0]);
      CountNewlinesConcat(QuoteChar(s[0]), Quote(s[1..]));
    }
  }

  lemma QuoteCharNewlines(c: char)
    ensures CountNewlines(QuoteChar(c)) == if c == '\n' then 1 else 0
  {
    if IsMeta(c) {
      assert ['\\', c] == ['\\'] + [c];
      CountNewlinesConcat(['\\'], [c]);
    } else if c == '\0' {
      NoNewlines("\\000");
    }
  }

  lemma {:induction false} NoNewlines(s: string)
    requires '\n' !in s
    ensures CountNewlines(s) == 0
  {
    if s == [] {
    } else {
      NoNewlines(s[1..]);
    }
  }

  // ---------------------------------------------------------------- %r sections

  predicate TagAt(s: string, k: nat) { k + 2 <= |s| && s[k] == '%' && s[k + 1] == 'r' }

  /** `strpos(s, "%r", from)`, with the length standing for "not found". */
  function FindTag(s: string, from: nat): (k: nat)
    requires from <= |s|
    ensures from <= k <= |s| && (k < |s| ==> k + 2 <= |s|)
    decreases |s| - from
  {
    if from == |s| then |s| else if TagAt(s, from) then from else FindTag(s, from + 1)
  }

  lemma {:induction false} FindTagHits(s: string, from: nat)
    requires from <= |s|
    ensures FindTag(s, from) < |s| ==> TagAt(s, FindTag(s, from))
    decreases |s| - from
  {
    if from == |s| || TagAt(s, from) {
    } else {
      FindTagHits(s, from + 1);
    }
  }

  lemma {:induction false} FindTagIsFirst(s: string, from: nat)
    requires from <= |s|
    ensures forall x :: from <= x < FindTag(s, from) ==> !TagAt(s, x)
    decreases |s| - from
  {
    if from == |s| || TagAt(s, from) {
    } else {
      FindTagIsFirst(s, from + 1);
    }
  }

  /** A template cut at its balanced markers: plain text, then a raw section, and so on, ending in plain text. */
  datatype Cut = Last(plain: string) | Then(plain: string, raw: string, rest: Cut)

  /** The template `s` cut from `from` on. */
  function CutAt(s: string, from: nat): Cut
    requires from <= |s|
    decreases |s| - from
  {
    var start := FindTag(s, from);
    var end := if start == |s| then |s| else FindTag(s, start + 2);
    if end == |s| then Last(s[from..])
    else Then(s[from..start], s[start + 2..end], CutAt(s, end + 2))
  }

  lemma CutUnfold(s: string, from: nat, start: nat, end: nat)
    requires IsRawAt(s, from, start, end)
    ensures CutAt(s, from) == Then(s[from..start], s[start + 2..end], CutAt(s, end + 2))
  {
  }

  /** Quoted text, and a group for the raw section behind it. */
  function RawPiece(p: string, r: string): string { Quote(p) + "(" + r + ")" }

  /** The regular expression of a cut template. */
  function Assemble(t: Cut): string {
    match t
    case Last(p) => Quote(p)
    case Then(p, r, rest) => RawPiece(p, r) + Assemble(rest)
  }

  /** The loop over the template. */
  method QuoteTemplate(wanted: string) returns (temp: string)
    ensures temp == Assemble(CutAt(wanted, 0))
  {
    temp := "";
    var startOffset := 0;
    var length := |wanted|;
    ghost var all := Assemble(CutAt(wanted, 0));
    assert "" + all == all;
    while startOffset < length
      invariant temp + Remaining(wanted, startOffset) == all
      decreases length - startOffset
    {
      var piece, next := QuoteNext(wanted, startOffset);
      Regroup3(temp, piece, Remaining(wanted, next));
      temp, startOffset := temp + piece, next;
    }
    NothingRemains(wanted, startOffset, temp);
  }

  lemma Regroup3(a: string, b: string, c: string)
    ensures a + b + c == a + (b + c)
  {
  }

  /** The body of the loop: what it adds, and where it goes on. */
  method QuoteNext(wanted: string, startOffset: nat) returns (piece: string, next: nat)
    requires startOffset < |wanted|
    ensures piece + Remaining(wanted, next) == Remaining(wanted, startOffset) && next > startOffset
  {
    var start, end := FindRaw(wanted, startOffset);
    if end > start {
      piece, next := QuoteRaw(wanted, startOffset, start, end);
    } else {
      piece, next := QuoteLast(wanted, startOffset);
    }
  }

  /** Text up to a raw section is quoted, the raw section is passed through in parentheses. */
  method QuoteRaw(wanted: string, from: nat, start: nat, end: nat) returns (piece: string, next: nat)
    requires IsRawAt(wanted, from, start, end)
    ensures piece + Remaining(wanted, next) == Remaining(wanted, from) && next > from
  {
    RawBounds(wanted, from, start, end);
    piece, next := RawPiece(wanted[from..start], wanted[start + 2..end]), end + 2;
    RemainingAtRaw(wanted, from, start, end, piece, next);
  }

  lemma RawBounds(wanted: string, from: nat, start: nat, end: nat)
    requires IsRawAt(wanted, from, start, end)
    ensures from <= start && start + 2 <= end && end + 2 <= |wanted|
  {
  }

  lemma RemainingAtRaw(wanted: string, from: nat, start: nat, end: nat, piece: string, next: nat)
    requires IsRawAt(wanted, from, start, end) && start + 2 <= end
    requires piece == RawPiece(wanted[from..start], wanted[start + 2..end]) && next == end + 2
    ensures piece + Remaining(wanted, next) == Remaining(wanted, from) && next > from
  {
    CutUnfold(wanted, from, start, end);
    AssembleThen(wanted[from..start], wanted[start + 2..end], CutAt(wanted, end + 2));
  }

  lemma AssembleThen(p: string, r: string, rest: Cut)
    ensures Assemble(Then(p, r, rest)) == RawPiece(p, r) + Assemble(rest)
  {
  }

  method QuoteLast(wanted: string, from: nat) returns (piece: string, next: nat)
    requires from <= |wanted| && NoRawFrom(wanted, from)
    ensures piece + Remaining(wanted, next) == Remaining(wanted, from) && next > from
  {
    next := |wanted| + 2;
    piece := Quote(wanted[from..|wanted|]);
    assert wanted[from..|wanted|] == wanted[from..];
  }

  /** The next two markers, or the length twice. */
  method FindRaw(wanted: string, from: nat) returns (start: nat, end: nat)
    requires from <= |wanted|
    ensures from <= start <= end <= |wanted|
    ensures end > start ==> IsRawAt(wanted, from, start, end)
    ensures end == start ==> start == |wanted| && NoRawFrom(wanted, from)
  {
    start := FindTag(wanted, from);
    end := |wanted|;
    if start < |wanted| {
      end := FindTag(wanted, start + 2);
      if end == |wanted| {
        start := |wanted|;
      }
    }
  }

  predicate IsRawAt(s: string, from: nat, start: nat, end: nat) {
    from <= |s| && start == FindTag(s, from) < |s| && end == FindTag(s, start + 2) < |s|
  }

  predicate NoRawFrom(s: string, from: nat)
    requires from <= |s|
  {
    FindTag(s, from) < |s| ==> FindTag(s, FindTag(s, from) + 2) == |s|
  }

  /** What the loop still has to add. */
  function Remaining(wanted: string, from: nat): string {
    if from <= |wanted| then Assemble(CutAt(wanted, from)) else ""
  }

  lemma NothingRemains(wanted: string, from: nat, temp: string)
    requires from >= |wanted|
    ensures temp + Remaining(wanted, from) == temp
  {
    if from == |wanted| { assert CutAt(wanted, from) == Last(""); }
  }

  /** A cut template with its markers put back. */
  function Rejoin(t: Cut): string {
    match t
    case Last(p) => p
    case Then(p, r, rest) => Marked(p, r, Rejoin(rest))
  }

  function Marked(p: string, r: string, rest: string): string { p + "%r" + r + "%r" + rest }

  ghost predicate NoTag(s: string) { forall k: nat :: !TagAt(s, k) }

  /** No raw section holds a marker, nor does plain text except at the very end. */
  ghost predicate CutAtMarkers(t: Cut) {
    match t
    case Last(p) => forall x: nat, y: nat :: TagAt(p, x) && TagAt(p, y) ==> x == y
    case Then(p, r, rest) => NoTag(p) && NoTag(r) && CutAtMarkers(rest)
  }

  /** Cutting is lossless: with its markers put back a cut template is the template. */
  lemma {:induction false} CutIsLossless(s: string, from: nat)
    requires from <= |s|
    ensures Rejoin(CutAt(s, from)) == s[from..]
    decreases |s| - from
  {
    var start := FindTag(s, from);
    var end := if start == |s| then |s| else FindTag(s, start + 2);
    if end == |s| {
    } else {
      CutIsLossless(s, end + 2);
      RejoinedAround(s, from, start, end, CutAt(s, end + 2));
    }
  }

  lemma RejoinedAround(s: string, from: nat, start: nat, end: nat, rest: Cut)
    requires IsRawAt(s, from, start, end)
    requires rest == CutAt(s, end + 2) && Rejoin(rest) == s[end + 2..]
    ensures Rejoin(CutAt(s, from)) == s[from..]
  {
    CutUnfold(s, from, start, end);
    RejoinThen(s[from..start], s[start + 2..end], rest, s[end + 2..]);
    SliceAround(s, from, start, end);
  }

  lemma RejoinThen(p: string, r: string, rest: Cut, tail: string)
    requires Rejoin(rest) == tail
    ensures Rejoin(Then(p, r, rest)) == Marked(p, r, tail)
  {
  }

  /** Every cut is at a marker, and only an unbalanced marker ends up in the last, quoted, text. */
  lemma {:induction false} CutsAreAtMarkers(s: string, from: nat)
    requires from <= |s|
    ensures CutAtMarkers(CutAt(s, from))
    decreases |s| - from
  {
    var start := FindTag(s, from);
    var end := if start == |s| then |s| else FindTag(s, start + 2);
    if end == |s| {
      LastHoldsOneTag(s, from, start);
    } else {
      CutsAreAtMarkers(s, end + 2);
      CutUnfold(s, from, start, end);
      PiecesHoldNoTag(s, from, start, end);
    }
  }

  lemma LastHoldsOneTag(s: string, from: nat, start: nat)
    requires from <= |s| && start == FindTag(s, from) && (start < |s| ==> FindTag(s, start + 2) == |s|)
    ensures forall x: nat, y: nat :: TagAt(s[from..], x) && TagAt(s[from..], y) ==> x == y
  {
    FindTagIsFirst(s, from);
    FindTagHits(s, from);
    if start < |s| { FindTagIsFirst(s, start + 2); }
    forall x: nat | TagAt(s[from..], x) ensures x + from == start { assert TagAt(s, x + from); }
  }

  lemma PiecesHoldNoTag(s: string, from: nat, start: nat, end: nat)
    requires IsRawAt(s, from, start, end)
    ensures NoTag(s[from..start]) && NoTag(s[start + 2..end])
  {
    FindTagIsFirst(s, from);
    FindTagIsFirst(s, start + 2);
    SliceNoTag(s, from, start);
    SliceNoTag(s, start + 2, end);
  }

  lemma SliceNoTag(s: string, i: nat, j: nat)
    requires i <= j <= |s| && forall x :: i <= x < j ==> !TagAt(s, x)
    ensures NoTag(s[i..j])
  {
    forall k: nat ensures !TagAt(s[i..j], k) {
      assert k + 2 <= j - i ==> !TagAt(s, i + k);
    }
  }

  lemma SliceAround(s: string, from: nat, start: nat, end: nat)
    requires IsRawAt(s, from, start, end)
    ensures s[from..] == Marked(s[from..start], s[start + 2..end], s[end + 2..])
  {
    FindTagHits(s, from);
    FindTagHits(s, start + 2);
    assert s[start..start + 2] == "%r" && s[end..end + 2] == "%r";
  }

  lemma {:induction false} AssembleNewlines(t: Cut)
    ensures CountNewlines(Assemble(t)) == CountNewlines(Rejoin(t))
  {
    QuoteNewlines(t.plain);
    if t.Last? {
    } else {
      AssembleNewlines(t.rest);
      WrapNewlines(Quote(t.plain), "(", t.raw, ")", Assemble(t.rest));
      WrapNewlines(t.plain, "%r", t.raw, "%r", Rejoin(t.rest));
    }
  }

  lemma WrapNewlines(p: string, open: string, r: string, close: string, rest: string)
    requires '\n' !in open && '\n' !in close
    ensures CountNewlines(p + open + r + close + rest) == CountNewlines(p) + CountNewlines(r) + CountNewlines(rest)
  {
    NoNewlines(open);
    NoNewlines(close);
    CountNewlinesConcat(p, open);
    CountNewlinesConcat(p + open, r);
    CountNewlinesConcat(p + open + r, close);
    CountNewlinesConcat(p + open + r + close, rest);
  }

  // ---------------------------------------------------------------- placeholders

  /** The long names, replaced first.  The bars are quoted by now. */
  function ReplaceNames(s: string): string {
    var s1 := StrReplace("%binary_string_optional%", "string", s);
    var s2 := StrReplace("%unicode_string_optional%", "string", s1);
    var s3 := StrReplace("%unicode\\|string%", "string", s2);
    var s4 := StrReplace("%string\\|unicode%", "string", s3);
    var s5 := StrReplace("%u\\|b%", "", s4);
    StrReplace("%b\\|u%", "", s5)
  }

  /** The letter codes and their regular expressions, in the order of replacement. */
  function Codes(sep: char): seq<(char, string)> {
    [('e', ['\\', sep]),
     ('s', "[^\\r\\n]+"),
     ('S', "[^\\r\\n]*"),
     ('a', ".+"),
     ('A', ".*"),
     ('w', "\\s*"),
     ('i', "[+-]?\\d+"),
     ('d', "\\d+"),
     ('x', "[0-9a-fA-F]+"),
     ('f', "[+-]?\\.?\\d+\\.?\\d*(?:[Ee][+-]?\\d+)?"),
     ('c', ".")]
  }

  function ReplaceCodes(codes: seq<(char, string)>, s: string): string {
    if codes == [] then s else ReplaceCodes(codes[1..], StrReplace(['%', codes[0].0], codes[0].1, s))
  }

  /** The whole compiler, from the trimmed section text to the regular expression. */
  function Compile(wanted: string, sep: char): string {
    ReplaceCodes(Codes(sep), ReplaceNames(Assemble(CutAt(Normalise(wanted), 0))))
  }

  function Normalise(s: string): string { StrReplace("\r\n", "\n", s) }

  method CompileExpectf(wanted: string, sep: char) returns (wantedRe: string)
    ensures wantedRe == Compile(wanted, sep)
  {
    wantedRe := Normalise(wanted);
    wantedRe := QuoteTemplate(wantedRe);
    wantedRe := ReplaceNames(wantedRe);
    ghost var named := wantedRe;
    var codes := Codes(sep);
    while codes != []
      invariant ReplaceCodes(codes, wantedRe) == ReplaceCodes(Codes(sep), named)
    {
      wantedRe := StrReplace(['%', codes[0].0], codes[0].1, wantedRe);
      codes := codes[1..];
    }
  }

  lemma ReplaceNamesNewlines(s: string)
    ensures CountNewlines(ReplaceNames(s)) == CountNewlines(s)
  {
    var s1 := ReplaceOnLine("%binary_string_optional%", "string", s);
    var s2 := ReplaceOnLine("%unicode_string_optional%", "string", s1);
    var s3 := ReplaceOnLine("%unicode\\|string%", "string", s2);
    var s4 := ReplaceOnLine("%string\\|unicode%", "string", s3);
    var s5 := ReplaceOnLine("%u\\|b%", "", s4);
    var s6 := ReplaceOnLine("%b\\|u%", "", s5);
  }

  lemma ReplaceOnLine(needle: string, repl: string, s: string) returns (t: string)
    requires needle != [] && '\n' !in needle && '\n' !in repl
    ensures t == StrReplace(needle, repl, s) && CountNewlines(t) == CountNewlines(s)
  {
    NoNewlines(needle);
    NoNewlines(repl);
    StrReplaceNewlines(needle, repl, s);
    t := StrReplace(needle, repl, s);
  }

  ghost predicate OnLine(codes: seq<(char, string)>) {
    forall k :: 0 <= k < |codes| ==> codes[k].0 != '\n' && '\n' !in codes[k].1
  }

  lemma {:induction false} ReplaceCodesNewlines(codes: seq<(char, string)>, s: string)
    requires OnLine(codes)
    ensures CountNewlines(ReplaceCodes(codes, s)) == CountNewlines(s)
  {
    if codes == [] {
    } else {
      var t := ReplaceOnLine(['%', codes[0].0], codes[0].1, s);
      ReplaceCodesNewlines(codes[1..], t);
    }
  }

  lemma NormaliseNewlines(s: string)
    ensures CountNewlines(Normalise(s)) == CountNewlines(s)
  {
    assert "\r\n"[1..] == "\n";
    StrReplaceNewlines("\r\n", "\n", s);
  }

  /** Compiling keeps the number of lines. */
  lemma CompileNewlines(wanted: string, sep: char)
    requires sep != '\n'
    ensures CountNewlines(Compile(wanted, sep)) == CountNewlines(wanted)
  {
    var s := Normalise(wanted);
    NormaliseNewlines(wanted);
    CutIsLossless(s, 0);
    assert s[0..] == s;
    AssembleNewlines(CutAt(s, 0));
    var named := ReplaceNames(Assemble(CutAt(s, 0)));
    ReplaceNamesNewlines(Assemble(CutAt(s, 0)));
    CodesOnLine(sep);
    ReplaceCodesNewlines(Codes(sep), named);
  }

  lemma CodesOnLine(sep: char)
    requires sep != '\n'
    ensures OnLine(Codes(sep))
  {
  }
}

/** The PHP string functions the test runner relies on, over sequences of characters. */
module PhpStrings {

  datatype Option<T> = None | Some(value: T)

  /** `explode("\n", s)`: always at least one line, none of which holds a newline. */
  function Explode(s: string): (ls: seq<string>)
    ensures |ls| == 1 + CountNewlines(s)
    ensures forall k :: 0 <= k < |ls| ==> '\n' !in ls[k]
  {
    if s == [] then [""]
    else
      var rest := Explode(s[1..]);
      if s[0] == '\n' then [""] + rest else [[s[0]] + rest[0]] + rest[1..]
  }

  function CountNewlines(s: string): nat {
    if s == [] then 0 else (if s[0] == '\n' then 1 else 0) + CountNewlines(s[1..])
  }

  lemma {:induction false} CountNewlinesConcat(s: string, t: string)
    ensures CountNewlines(s + t) == CountNewlines(s) + CountNewlines(t)
  {
    if s == [] {
      assert s + t == t;
    } else {
      CountNewlinesConcat(s[1..], t);
      assert (s + t)[1..] == s[1..] + t;
    }
  }

  /** `implode(sep, ls)`. */
  function Implode(sep: string, ls: seq<string>): string {
    if ls == [] then "" else if |ls| == 1 then ls[0] else ls[0] + sep + Implode(sep, ls[1..])
  }

  lemma {:induction false} ImplodeExplode(s: string)
    ensures Implode("\n", Explode(s)) == s
  {
    if s == [] {
    } else {
      ImplodeExplode(s[1..]);
      var rest := Explode(s[1..]);
      var ls := Explode(s);
      if s[0] == '\n' {
        assert ls[1..] == rest;
        assert "" + "\n" + Implode("\n", rest) == s;
      } else {
        ImplodeFirst("\n", rest, s[0]);
        assert [s[0]] + s[1..] == s;
      }
    }
  }

  lemma ImplodeFirst(sep: string, ls: seq<string>, c: char)
    requires ls != []
    ensures Implode(sep, [[c] + ls[0]] + ls[1..]) == [c] + Implode(sep, ls)
  {
    var ms := [[c] + ls[0]] + ls[1..];
    assert ms[1..] == ls[1..];
    if |ls| > 1 {
      assert [c] + ls[0] + sep + Implode(sep, ls[1..]) == [c] + (ls[0] + sep + Implode(sep, ls[1..]));
    }
  }

  /** A first line without a newline, split off. */
  lemma {:induction false} ExplodeLine(l: string, s: string)
    requires '\n' !in l
    ensures Explode(l + "\n" + s) == [l] + Explode(s)
  {
    if l == [] {
      assert l + "\n" + s == "\n" + s;
      assert ("\n" + s)[1..] == s;
    } else {
      ExplodeLine(l[1..], s);
      assert (l + "\n" + s)[1..] == l[1..] + "\n" + s;
      assert [l[0]] + l[1..] == l;
      assert ([l[1..]] + Explode(s))[1..] == Explode(s);
    }
  }

  lemma {:induction false} ExplodeOneLine(l: string)
    requires '\n' !in l
    ensures Explode(l) == [l]
  {
    if l == [] {
    } else {
      ExplodeOneLine(l[1..]);
      assert [l[0]] + l[1..] == l;
    }
  }

  /** A string in a boolean context: only "" and "0" are false. */
  predicate Truthy(s: string) { s != "" && s != "0" }

  /** `str_replace(needle, repl, s)`: left to right, without looking at what was inserted. */
  function StrReplace(needle: string, repl: string, s: string): string
    requires needle != []
  {
    if s == [] then []
    else if needle <= s then repl + StrReplace(needle, repl, s[|needle|..])
    else [s[0]] + StrReplace(needle, repl, s[1..])
  }

  /** Replacing keeps the number of newlines when the replacement has as many as the needle. */
  lemma {:induction false} StrReplaceNewlines(needle: string, repl: string, s: string)
    requires needle != [] && CountNewlines(needle) == CountNewlines(repl)
    ensures CountNewlines(StrReplace(needle, repl, s)) == CountNewlines(s)
  {
    if s == [] {
    } else if needle <= s {
      var rest := s[|needle|..];
      StrReplaceNewlines(needle, repl, rest);
      CountNewlinesConcat(repl, StrReplace(needle, repl, rest));
      CountNewlinesConcat(needle, rest);
      assert s == needle + rest;
    } else {
      StrReplaceNewlines(needle, repl, s[1..]);
    }
  }

  ghost predicate Contains(s: string, needle: string) {
    exists k :: 0 <= k <= |s| && needle <= s[k..]
  }

  lemma ContainedLater(s: string, n: string)
    requires s != [] && !(n <= s)
    ensures Contains(s, n) ==> Contains(s[1..], n)
  {
    if Contains(s, n) {
      var k :| 0 <= k <= |s| && n <= s[k..];
      assert k > 0;
      assert s[1..][k - 1..] == s[k..];
    }
  }

  lemma {:induction false} StrReplaceAbsent(needle: string, repl: string, s: string)
    requires needle != [] && !Contains(s, needle)
    ensures StrReplace(needle, repl, s) == s
  {
    if s == [] {
    } else {
      assert s[0..] == s;
      assert !Contains(s[1..], needle) by {
        forall k | 0 <= k <= |s[1..]| ensures !(needle <= s[1..][k..]) {
          assert s[1..][k..] == s[k + 1..];
        }
      }
      StrReplaceAbsent(needle, repl, s[1..]);
    }
  }

  function LowerChar(c: char): char { if 'A' <= c <= 'Z' then c + 32 as char else c }

  /** `strtolower(s)`. */
  function Lower(s: string): string { seq(|s|, k requires 0 <= k < |s| => LowerChar(s[k])) }

  predicate IsDigit(c: char) { '0' <= c <= '9' }

  /** The white space of regular expressions, `\s`. */
  predicate IsSpace(c: char) { '\t' <= c <= '\r' || c == ' ' }

  /** What `trim` removes. */
  predicate IsBlank(c: char) {
    c == ' ' || c == '\t' || c == '\n' || c == '\r' || c == '\0' || c == (11 as char)
  }

  function TrimLeft(s: string): string {
    if s != [] && IsBlank(s[0]) then TrimLeft(s[1..]) else s
  }

  function TrimRight(s: string): string {
    if s != [] && IsBlank(s[|s| - 1]) then TrimRight(s[..|s| - 1]) else s
  }

  function Trim(s: string): string { TrimRight(TrimLeft(s)) }
}

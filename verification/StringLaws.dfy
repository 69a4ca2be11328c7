/** What the string functions do, said without their recursion. */
module StringLaws {
  import opened PhpStrings

  // ---------------------------------------------------------------- trim

  /** `trim` removes spaces, tabs, line ends, NUL and vertical tabs at both ends. */
  predicate IsMargin(s: string) {
    forall k :: 0 <= k < |s| ==> s[k] in {' ', '\t', '\n', '\r', '\0', 11 as char}
  }

  /** A text that neither begins nor ends with such a character. */
  predicate IsTight(s: string) { s != [] ==> !IsMargin(s[..1]) && !IsMargin(s[|s| - 1..]) }

  lemma {:induction false} TrimLeftMargin(a: string, s: string)
    requires IsMargin(a) && (s != [] ==> !IsBlank(s[0]))
    ensures TrimLeft(a + s) == s
  {
    if a == [] {
      assert a + s == s;
    } else {
      assert (a + s)[1..] == a[1..] + s;
      TrimLeftMargin(a[1..], s);
    }
  }

  lemma {:induction false} TrimRightMargin(s: string, c: string)
    requires IsMargin(c) && (s != [] ==> !IsBlank(s[|s| - 1]))
    ensures TrimRight(s + c) == s
    decreases |c|
  {
    if c == [] {
      assert s + c == s;
    } else {
      assert (s + c)[..|s + c| - 1] == s + c[..|c| - 1];
      TrimRightMargin(s, c[..|c| - 1]);
    }
  }

  lemma {:induction false} TrimLeftAll(a: string)
    requires IsMargin(a)
    ensures TrimLeft(a) == []
  {
    if a == [] {
    } else {
      TrimLeftAll(a[1..]);
    }
  }

  /** Trimming takes away the margins of a text, and nothing else. */
  lemma TrimTakesMargins(a: string, s: string, c: string)
    requires IsMargin(a) && IsTight(s) && IsMargin(c)
    ensures Trim(a + s + c) == s
  {
    if s == [] {
      assert a + s + c == a + c;
      TrimLeftAll(a + c);
    } else {
      assert s[..1] == [s[0]] && s[|s| - 1..] == [s[|s| - 1]];
      assert a + s + c == a + (s + c);
      TrimLeftMargin(a, s + c);
      TrimRightMargin(s, c);
    }
  }

  // ---------------------------------------------------------------- str_replace

  /** The first place where `n` stands in `x + n` is behind `x`. */
  ghost predicate StandsFirst(n: string, x: string) { forall k :: 0 <= k < |x| ==> !(n <= (x + n)[k..]) }

  lemma StandsLater(n: string, x: string)
    requires x != [] && StandsFirst(n, x)
    ensures StandsFirst(n, x[1..])
  {
    forall k | 0 <= k < |x[1..]| ensures !(n <= (x[1..] + n)[k..]) {
      assert (x[1..] + n)[k..] == (x + n)[k + 1..];
    }
  }

  lemma NotThereYet(n: string, x: string, y: string)
    requires x != [] && StandsFirst(n, x)
    ensures !(n <= x + n + y)
  {
    assert !(n <= (x + n)[0..]) && (x + n)[0..] == x + n;
    assert (x + n)[..|n|] == (x + n + y)[..|n|];
  }

  lemma Regroup(c: char, x: string, r: string, v: string)
    ensures [c] + (x + r + v) == ([c] + x) + r + v
  {
  }

  /** The first place of a text is replaced, and then those in the text behind it; `StrReplaceAbsent` says the rest. */
  lemma {:induction false} ReplaceFirst(n: string, r: string, x: string, y: string)
    requires n != [] && StandsFirst(n, x)
    ensures StrReplace(n, r, x + n + y) == x + r + StrReplace(n, r, y)
    decreases |x|
  {
    var s := x + n + y;
    if x == [] {
      assert s == n + y && s[|n|..] == y;
    } else {
      NotThereYet(n, x, y);
      assert s[0] == x[0] && s[1..] == x[1..] + n + y;
      StandsLater(n, x);
      ReplaceFirst(n, r, x[1..], y);
      Regroup(x[0], x[1..], r, StrReplace(n, r, y));
      assert [x[0]] + x[1..] == x;
    }
  }

  // ---------------------------------------------------------------- strtolower

  /** Capitals become small letters, all other characters stay. */
  lemma LowerLetters(c: char)
    ensures Lower("ABCDEFGHIJKLMNOPQRSTUVWXYZ") == "abcdefghijklmnopqrstuvwxyz"
    ensures c !in "ABCDEFGHIJKLMNOPQRSTUVWXYZ" ==> LowerChar(c) == c
  {
    var capitals, letters := "ABCDEFGHIJKLMNOPQRSTUVWXYZ", "abcdefghijklmnopqrstuvwxyz";
    assert |capitals| == |letters| == 26;
    assert forall k :: 0 <= k < 26 ==> capitals[k] == 'A' + k as char;
    assert forall k :: 0 <= k < 26 ==> letters[k] == 'a' + k as char;
    if 'A' <= c <= 'Z' { assert capitals[c as int - 65] == c; }
  }
}

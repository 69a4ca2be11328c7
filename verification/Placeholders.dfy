/** The eleven letter codes of an EXPECTF template are replaced one after the other.  Doing so
    amounts to a single pass from left to right, for every string. */
module Placeholders {
  import opened PhpStrings
  import opened ExpectF

  predicate HasCode(codes: seq<(char, string)>, c: char) {
    exists k :: 0 <= k < |codes| && codes[k].0 == c
  }

  /** The text for a code; the first entry counts. */
  function TextOf(codes: seq<(char, string)>, c: char): (r: string)
    requires HasCode(codes, c)
    ensures exists k :: 0 <= k < |codes| && codes[k] == (c, r)
  {
    if codes[0].0 == c then codes[0].1 else
    assert HasCode(codes[1..], c) by {
      var k :| 0 <= k < |codes| && codes[k].0 == c;
      assert codes[1..][k - 1].0 == c;
    }
    TextOf(codes[1..], c)
  }

  predicate CodeAhead(codes: seq<(char, string)>, s: string) {
    |s| >= 2 && s[0] == '%' && HasCode(codes, s[1])
  }

  /** All codes of the table replaced in one pass. */
  function SinglePass(codes: seq<(char, string)>, s: string): string {
    if s == [] then []
    else if CodeAhead(codes, s) then TextOf(codes, s[1]) + SinglePass(codes, s[2..])
    else [s[0]] + SinglePass(codes, s[1..])
  }

  /** No replacement text can take part in a later replacement. */
  ghost predicate Inert(codes: seq<(char, string)>, c: char) {
    forall k :: 0 <= k < |codes| ==>
      codes[k].0 != c && codes[k].0 != '%' && codes[k].1 != [] && '%' !in codes[k].1 && codes[k].1[0] != c
  }

  /** Text without '%' is passed over by a replacement that looks for '%'. */
  lemma {:induction false} ReplacePast(n: string, r: string, t: string, u: string)
    requires n != [] && n[0] == '%' && '%' !in t
    ensures StrReplace(n, r, t + u) == t + StrReplace(n, r, u)
  {
    if t == [] {
      assert t + u == u;
    } else {
      ReplacePast(n, r, t[1..], u);
      assert (t + u)[1..] == t[1..] + u;
      assert (t + u)[0] == t[0] != '%';
      assert [t[0]] + (t[1..] + StrReplace(n, r, u)) == t + StrReplace(n, r, u);
    }
  }

  lemma ReplaceHere(c: char, r: string, v: string)
    ensures StrReplace(['%', c], r, ['%', c] + v) == r + StrReplace(['%', c], r, v)
  {
    assert (['%', c] + v)[2..] == v;
  }

  lemma ReplaceNotHere(c: char, r: string, x: char, u: string)
    requires x != '%' || u == [] || u[0] != c
    ensures StrReplace(['%', c], r, [x] + u) == [x] + StrReplace(['%', c], r, u)
  {
    var s := [x] + u;
    assert s[1..] == u;
    assert s[0] == x && (u != [] ==> s[1] == u[0]);
  }

  lemma MoreCodes(codes: seq<(char, string)>, c: char, r: string, x: char)
    ensures HasCode(codes + [(c, r)], x) <==> HasCode(codes, x) || x == c
    ensures HasCode(codes, x) ==> TextOf(codes + [(c, r)], x) == TextOf(codes, x)
    ensures HasCode(codes + [(c, r)], c) && (!HasCode(codes, c) ==> TextOf(codes + [(c, r)], c) == r)
    decreases |codes|
  {
    var more := codes + [(c, r)];
    assert more[|codes|] == (c, r);
    if HasCode(codes, x) {
      var k :| 0 <= k < |codes| && codes[k].0 == x;
      assert more[k].0 == x;
    }
    if codes != [] {
      MoreCodes(codes[1..], c, r, x);
      assert more[1..] == codes[1..] + [(c, r)];
      assert HasCode(codes[1..], c) ==> HasCode(codes, c);
    }
  }

  /** One more replacement on top of a single pass is a single pass with one more code. */
  lemma {:induction false} OneMoreCode(codes: seq<(char, string)>, c: char, r: string, s: string)
    requires Inert(codes, c) && c != '%'
    ensures StrReplace(['%', c], r, SinglePass(codes, s)) == SinglePass(codes + [(c, r)], s)
    decreases |s|
  {
    if s == [] {
      return;
    }
    var more := codes + [(c, r)];
    assert !HasCode(codes, c);
    if CodeAhead(codes, s) {
      OneMoreCode(codes, c, r, s[2..]);
      MoreCodes(codes, c, r, s[1]);
      var text, v := TextOf(codes, s[1]), SinglePass(codes, s[2..]);
      ReplacePast(['%', c], r, text, v);
      assert SinglePass(more, s) == text + SinglePass(more, s[2..]);
    } else if |s| >= 2 && s[0] == '%' && s[1] == c {
      OneMoreCode(codes, c, r, s[2..]);
      MoreCodes(codes, c, r, c);
      NewCodeHere(codes, c, s);
      ReplaceHere(c, r, SinglePass(codes, s[2..]));
      assert SinglePass(more, s) == r + SinglePass(more, s[2..]);
    } else {
      OneMoreCode(codes, c, r, s[1..]);
      if |s| >= 2 { MoreCodes(codes, c, r, s[1]); }
      FirstOfPass(codes, s[1..], c);
      ReplaceNotHere(c, r, s[0], SinglePass(codes, s[1..]));
      assert SinglePass(more, s) == [s[0]] + SinglePass(more, s[1..]);
    }
  }

  lemma NewCodeHere(codes: seq<(char, string)>, c: char, s: string)
    requires !HasCode(codes, c) && c != '%' && |s| >= 2 && s[0] == '%' && s[1] == c
    ensures SinglePass(codes, s) == ['%', c] + SinglePass(codes, s[2..])
  {
    assert s[1..][1..] == s[2..];
    assert SinglePass(codes, s[1..]) == [c] + SinglePass(codes, s[2..]);
  }

  /** A single pass never puts `c` in front, unless it was there. */
  lemma FirstOfPass(codes: seq<(char, string)>, s: string, c: char)
    requires Inert(codes, c)
    ensures s == [] ==> SinglePass(codes, s) == []
    ensures s != [] && s[0] != c ==> SinglePass(codes, s) != [] && SinglePass(codes, s)[0] != c
  {
  }

  /** A table whose entries never get in each other's way. */
  ghost predicate Harmless(codes: seq<(char, string)>) {
    forall k :: 0 <= k < |codes| ==> codes[k].0 != '%' && Inert(codes[..k], codes[k].0)
  }

  lemma {:induction false} NoCodes(s: string)
    ensures SinglePass([], s) == s
  {
    if s == [] {
    } else {
      NoCodes(s[1..]);
      assert [s[0]] + s[1..] == s;
    }
  }

  lemma {:induction false} ChainFrom(codes: seq<(char, string)>, k: nat, s: string)
    requires Harmless(codes) && k <= |codes|
    ensures ReplaceCodes(codes[k..], SinglePass(codes[..k], s)) == SinglePass(codes, s)
    decreases |codes| - k
  {
    if k == |codes| {
      assert codes[..k] == codes;
    } else {
      OneMoreCode(codes[..k], codes[k].0, codes[k].1, s);
      assert codes[..k] + [(codes[k].0, codes[k].1)] == codes[..k + 1];
      assert codes[k..][1..] == codes[k + 1..];
      ChainFrom(codes, k + 1, s);
    }
  }

  /** For every string the chain of letter-code replacements is a single pass. */
  lemma ChainIsSinglePass(sep: char, s: string)
    requires sep != '%'
    ensures ReplaceCodes(Codes(sep), s) == SinglePass(Codes(sep), s)
  {
    var codes := Codes(sep);
    CodesHarmless(sep);
    NoCodes(s);
    ChainFrom(codes, 0, s);
    assert codes[0..] == codes && codes[..0] == [];
  }

  lemma CodesHarmless(sep: char)
    requires sep != '%'
    ensures Harmless(Codes(sep))
  {
    var codes := Codes(sep);
    TextsHarmless(sep);
    forall k | 0 <= k < |codes| ensures codes[k].0 != '%' && Inert(codes[..k], codes[k].0) {
      forall l | 0 <= l < k
        ensures var e := codes[..k][l];
                e.0 != codes[k].0 && e.0 != '%' && e.1 != [] && '%' !in e.1 && e.1[0] != codes[k].0
      {
        assert codes[..k][l] == codes[l];
      }
    }
  }

  predicate IsLetter(c: char) { 'a' <= c <= 'z' || 'A' <= c <= 'Z' }

  lemma TextsHarmless(sep: char)
    requires sep != '%'
    ensures var codes := Codes(sep);
            && (forall k :: 0 <= k < |codes| ==>
                  IsLetter(codes[k].0) && codes[k].1 != [] && !IsLetter(codes[k].1[0]) && '%' !in codes[k].1)
            && (forall k, l :: 0 <= k < l < |codes| ==> codes[k].0 != codes[l].0)
  {
  }
}

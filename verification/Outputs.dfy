/** What is compared of an output: line ends, headers and margins. */
module Outputs {
  import opened PhpStrings
  import opened StringLaws
  import opened ExpectF
  import opened Expectations

  /** The first CRLF becomes a newline, and those behind it; a text without any stays. */
  lemma PlainLineEnds(x: string, y: string)
    requires !Contains(x, "\r\n")
    ensures Normalise(x) == x && Normalise(x + "\r\n" + y) == x + "\n" + Normalise(y)
  {
    StrReplaceAbsent("\r\n", "\n", x);
    forall k | 0 <= k < |x| ensures !("\r\n" <= (x + "\r\n")[k..]) {
      if k + 1 < |x| {
        assert !("\r\n" <= x[k..]) && x[k..][0] == x[k] && x[k..][1] == x[k + 1];
        assert (x + "\r\n")[k..][0] == x[k] && (x + "\r\n")[k..][1] == x[k + 1];
      } else {
        assert (x + "\r\n")[k..][1] == '\r';
      }
    }
    ReplaceFirst("\r\n", "\n", x, y);
  }

  /** An empty line, with the end of the line before it. */
  predicate StartsBlank(s: string) { "\n\n" <= s || "\n\r\n" <= s || "\r\n\n" <= s || "\r\n\r\n" <= s }

  lemma BlankLineIs(blank: string, body: string)
    requires blank in {"\n\n", "\n\r\n", "\r\n\n", "\r\n\r\n"}
    ensures BlankLine(blank + body) == |blank| && (blank + body)[|blank|..] == body
  {
    var s := blank + body;
    assert blank <= s && forall k :: 0 <= k < |blank| ==> s[k] == blank[k];
    assert "\n\n"[0] == "\n\r\n"[0] == '\n' && "\r\n\n"[0] == "\r\n\r\n"[0] == '\r';
    assert "\n\n"[1] == '\n' && "\n\r\n"[1] == '\r' && "\r\n\n"[2] == '\n' && "\r\n\r\n"[2] == '\r';
  }

  /** What is left of a CGI answer is what stands behind its first empty line, without margins. */
  lemma {:induction false} HeadersCut(h: string, blank: string, body: string, s: string)
    requires blank in {"\n\n", "\n\r\n", "\r\n\n", "\r\n\r\n"} && s == h + blank + body
    requires forall k :: 0 <= k < |h| ==> !StartsBlank(s[k..])
    ensures AfterHeaders(s) == Some(body) && Cleaned(s, true) == Trim(body)
    decreases |h|
  {
    if h == [] {
      assert s == blank + body;
      BlankLineIs(blank, body);
    } else {
      assert s[0..] == s && !StartsBlank(s);
      assert s[1..] == h[1..] + blank + body;
      forall k | 0 <= k < |h[1..]| ensures !StartsBlank(s[1..][k..]) { assert s[1..][k..] == s[k + 1..]; }
      HeadersCut(h[1..], blank, body, s[1..]);
    }
  }

  /** Without an empty line, and without CGI, it is the output, without margins and with plain newlines. */
  lemma {:induction false} NoHeadersCut(s: string)
    requires forall k :: 0 <= k <= |s| ==> !StartsBlank(s[k..])
    ensures AfterHeaders(s) == None && Cleaned(s, true) == Cleaned(s, false) == Normalise(Trim(s))
    decreases |s|
  {
    assert s[0..] == s;
    if s == [] {
    } else {
      forall k | 0 <= k <= |s[1..]| ensures !StartsBlank(s[1..][k..]) { assert s[1..][k..] == s[k + 1..]; }
      NoHeadersCut(s[1..]);
    }
  }
}

/** The part of Perl regular expressions that compiled EXPECTF templates use: its syntax, as
    the pattern compiler reads it, and the strings a pattern matches. */
module Regex {
  import opened PhpStrings

  // ---------------------------------------------------------------- meaning

  datatype Class = Any | OneOf(ranges: seq<(char, char)>, negated: bool)

  predicate InRanges(c: char, ranges: seq<(char, char)>) {
    exists k :: 0 <= k < |ranges| && ranges[k].0 <= c <= ranges[k].1
  }

  predicate In(c: char, cls: Class) {
    cls.Any? || InRanges(c, cls.ranges) != cls.negated
  }

  predicate AllIn(s: string, cls: Class) { forall k :: 0 <= k < |s| ==> In(s[k], cls) }

  function Only(c: char): Class { OneOf([(c, c)], false) }

  /** A pattern: character classes with a quantifier, and optional groups, one after the other. */
  datatype Re =
    | Empty
    | Atom(cls: Class, optional: bool, many: bool, next: Re)
    | OptGroup(body: Re, next: Re)

  predicate Quantity(k: nat, optional: bool, many: bool) { (k >= 1 || optional) && (k <= 1 || many) }

  ghost predicate Matches(re: Re, s: string) {
    match re
    case Empty => s == []
    case Atom(cls, optional, many, next) =>
      exists k :: 0 <= k <= |s| && Quantity(k, optional, many) && AllIn(s[..k], cls) && Matches(next, s[k..])
    case OptGroup(body, next) =>
      Matches(next, s) || exists k :: 0 <= k <= |s| && Matches(body, s[..k]) && Matches(next, s[k..])
  }

  function Append(r1: Re, r2: Re): Re {
    match r1
    case Empty => r2
    case Atom(cls, optional, many, next) => Atom(cls, optional, many, Append(next, r2))
    case OptGroup(body, next) => OptGroup(body, Append(next, r2))
  }

  /** One pattern after another matches what splits into a match of each. */
  ghost predicate MatchesBoth(r1: Re, r2: Re, s: string) {
    exists k :: 0 <= k <= |s| && Matches(r1, s[..k]) && Matches(r2, s[k..])
  }

  lemma Slices(s: string, k: nat, l: nat)
    requires k + l <= |s|
    ensures s[..k + l][..k] == s[..k] && s[..k + l][k..] == s[k..][..l] && s[k..][l..] == s[k + l..]
  {
  }

  lemma {:induction false} MatchesAppend(r1: Re, r2: Re, s: string)
    ensures Matches(Append(r1, r2), s) <==> MatchesBoth(r1, r2, s)
    decreases r1
  {
    if Matches(Append(r1, r2), s) { AppendSplits(r1, r2, s); }
    if MatchesBoth(r1, r2, s) {
      var m :| 0 <= m <= |s| && Matches(r1, s[..m]) && Matches(r2, s[m..]);
      AppendJoins(r1, r2, s, m);
    }
  }

  lemma {:induction false} AppendSplits(r1: Re, r2: Re, s: string)
    requires Matches(Append(r1, r2), s)
    ensures MatchesBoth(r1, r2, s)
    decreases r1
  {
    match r1
    case Empty =>
      assert s[..0] == [] && s[0..] == s;
    case Atom(cls, optional, many, next) =>
      var k :| 0 <= k <= |s| && Quantity(k, optional, many) && AllIn(s[..k], cls) && Matches(Append(next, r2), s[k..]);
      AppendSplits(next, r2, s[k..]);
      var l :| 0 <= l <= |s[k..]| && Matches(next, s[k..][..l]) && Matches(r2, s[k..][l..]);
      Slices(s, k, l);
      assert Matches(r1, s[..k + l]);
    case OptGroup(body, next) =>
      if Matches(Append(next, r2), s) {
        AppendSplits(next, r2, s);
        var l :| 0 <= l <= |s| && Matches(next, s[..l]) && Matches(r2, s[l..]);
        assert Matches(r1, s[..l]);
      } else {
        var k :| 0 <= k <= |s| && Matches(body, s[..k]) && Matches(Append(next, r2), s[k..]);
        AppendSplits(next, r2, s[k..]);
        var l :| 0 <= l <= |s[k..]| && Matches(next, s[k..][..l]) && Matches(r2, s[k..][l..]);
        Slices(s, k, l);
        assert Matches(r1, s[..k + l]);
      }
  }

  lemma AtomSplits(cls: Class, optional: bool, many: bool, next: Re, s: string, m: nat) returns (k: nat)
    requires m <= |s| && Matches(Atom(cls, optional, many, next), s[..m])
    ensures k <= m && Quantity(k, optional, many) && AllIn(s[..k], cls) && Matches(next, s[k..][..m - k])
  {
    k :| 0 <= k <= m && Quantity(k, optional, many) && AllIn(s[..m][..k], cls) && Matches(next, s[..m][k..]);
    Slices(s, k, m - k);
  }

  lemma GroupSplits(body: Re, next: Re, s: string, m: nat) returns (k: nat)
    requires m <= |s| && Matches(OptGroup(body, next), s[..m]) && !Matches(next, s[..m])
    ensures k <= m && Matches(body, s[..k]) && Matches(next, s[k..][..m - k])
  {
    k :| 0 <= k <= m && Matches(body, s[..m][..k]) && Matches(next, s[..m][k..]);
    Slices(s, k, m - k);
  }

  lemma AtomJoins(cls: Class, optional: bool, many: bool, next: Re, s: string, k: nat)
    requires k <= |s| && Quantity(k, optional, many) && AllIn(s[..k], cls) && Matches(next, s[k..])
    ensures Matches(Atom(cls, optional, many, next), s)
  {
  }

  lemma GroupJoins(body: Re, next: Re, s: string, k: nat)
    requires k <= |s| && Matches(body, s[..k]) && Matches(next, s[k..])
    ensures Matches(OptGroup(body, next), s)
  {
  }

  lemma {:induction false} AppendJoins(r1: Re, r2: Re, s: string, m: nat)
    requires m <= |s| && Matches(r1, s[..m]) && Matches(r2, s[m..])
    ensures Matches(Append(r1, r2), s)
    decreases r1
  {
    match r1
    case Empty =>
      assert m == 0 && s[0..] == s;
    case Atom(cls, optional, many, next) =>
      var k := AtomSplits(cls, optional, many, next, s, m);
      assert s[k..][m - k..] == s[m..];
      AppendJoins(next, r2, s[k..], m - k);
      AtomJoins(cls, optional, many, Append(next, r2), s, k);
    case OptGroup(body, next) =>
      if Matches(next, s[..m]) {
        AppendJoins(next, r2, s, m);
      } else {
        var k := GroupSplits(body, next, s, m);
        assert s[k..][m - k..] == s[m..];
        AppendJoins(next, r2, s[k..], m - k);
        GroupJoins(body, Append(next, r2), s, k);
      }
  }

  // ---------------------------------------------------------------- syntax

  // The delimiter `/` ends the pattern wherever it stands unescaped, and a NUL character makes the
  // pattern compiler refuse it: neither is part of the syntax, inside or outside a class.

  /** The members of a bracketed class up to the closing bracket, and what follows. */
  function ClassItems(s: string): (r: Option<(seq<(char, char)>, string)>)
    ensures r.Some? ==> |r.value.1| < |s|
  {
    if s == [] then None
    else if s[0] == ']' then Some(([], s[1..]))
    else if s[0] == '\\' then
      if |s| >= 2 && s[1] == 'r' then Item(('\r', '\r'), ClassItems(s[2..]))
      else if |s| >= 2 && s[1] == 'n' then Item(('\n', '\n'), ClassItems(s[2..]))
      else None
    else if s[0] in {'/', '\0'} then None
    else if |s| >= 3 && s[1] == '-' && s[2] in {'/', '\0', '\\'} then None
    else if |s| >= 3 && s[1] == '-' && s[2] != ']' then Item((s[0], s[2]), ClassItems(s[3..]))
    else Item((s[0], s[0]), ClassItems(s[1..]))
  }

  function Item(range: (char, char), r: Option<(seq<(char, char)>, string)>): Option<(seq<(char, char)>, string)> {
    match r
    case Some((ranges, rest)) => Some(([range] + ranges, rest))
    case None => None
  }

  predicate IsAlnum(c: char) { 'a' <= c <= 'z' || 'A' <= c <= 'Z' || '0' <= c <= '9' }

  const DIGIT := OneOf([('0', '9')], false)
  const SPACE := OneOf([('\t', '\r'), (' ', ' ')], false)

  /** One character class and what follows.  None stands for syntax outside this part. */
  function ParseAtom(s: string): (r: Option<(Class, string)>)
    ensures r.Some? ==> |r.value.1| < |s|
  {
    if s == [] then None
    else if s[0] == '.' then Some((Any, s[1..]))
    else if s[0] == '\\' then
      if |s| < 2 then None
      else if s[1] == 'd' then Some((DIGIT, s[2..]))
      else if s[1] == 's' then Some((SPACE, s[2..]))
      else if |s| >= 4 && s[1..4] == "000" then Some((Only('\0'), s[4..]))
      else if IsAlnum(s[1]) || s[1] == '\0' then None
      else Some((Only(s[1]), s[2..]))
    else if s[0] == '[' then
      var negated := |s| >= 2 && s[1] == '^';
      match ClassItems(if negated then s[2..] else s[1..])
      case Some((ranges, rest)) => Some((OneOf(ranges, negated), rest))
      case None => None
    else if s[0] in {'^', '$', '|', '(', ')', '?', '*', '+', '{', '/', '\0'} then None
    else Some((Only(s[0]), s[1..]))
  }

  /** A quantifier, if there is one: may be absent, may repeat, and what follows. */
  function ParseQuantifier(s: string): (r: Option<(bool, bool, string)>)
    ensures r.Some? ==> |r.value.2| <= |s|
  {
    if s == [] then Some((false, false, s))
    else if s[0] == '+' || s[0] == '*' || s[0] == '?' then
      if |s| >= 2 && (s[1] == '+' || s[1] == '?') then None
      else Some((s[0] != '+', s[0] != '?', s[1..]))
    else if s[0] == '{' then None
    else Some((false, false, s))
  }

  /** The pattern a text stands for.  Inside a group it ends at the closing parenthesis. */
  function Parse(s: string, inGroup: bool): (r: Option<(Re, string)>)
    ensures r.Some? ==> |r.value.1| <= |s|
    decreases |s|
  {
    if s == [] then if inGroup then None else Some((Empty, []))
    else if inGroup && s[0] == ')' then Some((Empty, s[1..]))
    else if !inGroup && "(?:" <= s then
      match Parse(s[3..], true)
      case None => None
      case Some((body, after)) =>
        match ParseQuantifier(after)
        case None => None
        case Some((optional, many, rest)) =>
          if !optional || many then None
          else
            match Parse(rest, false)
            case None => None
            case Some((next, tail)) => Some((OptGroup(body, next), tail))
    else
      match ParseAtom(s)
      case None => None
      case Some((cls, after)) =>
        match ParseQuantifier(after)
        case None => None
        case Some((optional, many, rest)) =>
          match Parse(rest, inGroup)
          case None => None
          case Some((next, tail)) => Some((Atom(cls, optional, many, next), tail))
  }

  /** `preg_match("/^re$/s", s)`: the final `$` also matches before one newline at the end. */
  ghost predicate Accepts(re: string, s: string) {
    var p := Parse(re, false);
    p.Some? && (Matches(p.value.0, s) || (s != [] && s[|s| - 1] == '\n' && Matches(p.value.0, s[..|s| - 1])))
  }

  /** One step of the pattern compiler. */
  lemma ParseStep(s: string, inGroup: bool, cls: Class, after: string, optional: bool, many: bool, rest: string,
                  next: Re, tail: string)
    requires s != [] && s[0] != ')' && s[0] != '('
    requires ParseAtom(s) == Some((cls, after))
    requires ParseQuantifier(after) == Some((optional, many, rest))
    requires Parse(rest, inGroup) == Some((next, tail))
    ensures Parse(s, inGroup) == Some((Atom(cls, optional, many, next), tail))
  {
  }

  lemma ParseGroupStep(s: string, body: Re, after: string, rest: string, next: Re, tail: string)
    requires "(?:" <= s && Parse(s[3..], true) == Some((body, after))
    requires ParseQuantifier(after) == Some((true, false, rest))
    requires Parse(rest, false) == Some((next, tail))
    ensures Parse(s, false) == Some((OptGroup(body, next), tail))
  {
  }
}

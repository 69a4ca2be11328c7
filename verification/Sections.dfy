/** The .phpt section parser of run-tests.php: a machine over the lines of a file. */
module Sections {
  import opened PhpStrings

  // ---------------------------------------------------------------- lines

  /** The lines `fgets` delivers: each but possibly the last ends in its newline. */
  function SplitLines(s: string): (ls: seq<string>)
    ensures s != [] ==> ls != []
  {
    if s == [] then []
    else if s[0] == '\n' then ["\n"] + SplitLines(s[1..])
    else if |s| == 1 then [s]
    else
      var rest := SplitLines(s[1..]);
      [[s[0]] + rest[0]] + rest[1..]
  }

  function Concat(ls: seq<string>): string {
    if ls == [] then "" else ls[0] + Concat(ls[1..])
  }

  /** A newline at the end and nowhere else. */
  predicate IsLine(l: string) { l != [] && l[|l| - 1] == '\n' && '\n' !in l[..|l| - 1] }

  /** Lines as they stand in a file: the last one may lack its newline. */
  ghost predicate FileLines(ls: seq<string>) {
    && (forall k :: 0 <= k < |ls| - 1 ==> IsLine(ls[k]))
    && (ls != [] ==> var l := ls[|ls| - 1]; IsLine(l) || (l != [] && '\n' !in l))
  }

  lemma {:induction false} SplitOneLine(l: string, s: string)
    requires IsLine(l)
    ensures SplitLines(l + s) == [l] + SplitLines(s)
  {
    if |l| == 1 {
      assert l == "\n" && (l + s)[1..] == s;
    } else {
      var t := l[1..];
      assert t[..|t| - 1] == l[..|l| - 1][1..];
      assert l[0] == l[..|l| - 1][0];
      SplitOneLine(t, s);
      assert (l + s)[1..] == t + s;
      assert ([t] + SplitLines(s))[1..] == SplitLines(s);
      assert [l[0]] + t == l;
    }
  }

  lemma {:induction false} SplitLastLine(l: string)
    requires l != [] && '\n' !in l
    ensures SplitLines(l) == [l]
  {
    if |l| == 1 {
    } else {
      SplitLastLine(l[1..]);
      assert [l[0]] + l[1..] == l;
    }
  }

  /** Reading the lines of a file gives the lines it was written from. */
  lemma {:induction false} SplitConcat(ls: seq<string>)
    requires FileLines(ls)
    ensures SplitLines(Concat(ls)) == ls
  {
    if ls == [] {
    } else {
      var rest := ls[1..];
      if rest != [] {
        assert IsLine(ls[0]);
        assert FileLines(rest) by {
          forall k | 0 <= k < |rest| - 1 ensures IsLine(rest[k]) { assert rest[k] == ls[k + 1]; }
        }
        SplitConcat(rest);
        SplitOneLine(ls[0], Concat(rest));
      } else {
        assert Concat(rest) == "" && ls[0] + "" == ls[0];
        if IsLine(ls[0]) { SplitOneLine(ls[0], ""); } else { SplitLastLine(ls[0]); }
        assert ls == [ls[0]];
      }
    }
  }

  // ---------------------------------------------------------------- headers

  predicate IsNameChar(c: char) { c == '_' || 'A' <= c <= 'Z' }

  predicate IsName(s: string) { s != [] && forall k :: 0 <= k < |s| ==> IsNameChar(s[k]) }

  function NameLength(s: string): (n: nat)
    ensures n <= |s| && forall k :: 0 <= k < n ==> IsNameChar(s[k])
  {
    if s != [] && IsNameChar(s[0]) then 1 + NameLength(s[1..]) else 0
  }

  /** The section name if `/^--([_A-Z]+)--/` matches the line. */
  function Header(line: string): (r: Option<string>)
    ensures r.Some? ==> IsName(r.value)
  {
    if !("--" <= line) then None
    else
      var n := NameLength(line[2..]);
      if n > 0 && "--" <= line[2 + n..] then Some(line[2..2 + n]) else None
  }

  function HeaderLine(name: string): string { "--" + name + "--\n" }

  lemma {:induction false} NameThenDash(name: string, s: string)
    requires forall k :: 0 <= k < |name| ==> IsNameChar(name[k])
    requires s != [] && !IsNameChar(s[0])
    ensures NameLength(name + s) == |name|
  {
    if name == [] {
      assert name + s == s;
    } else {
      NameThenDash(name[1..], s);
      assert (name + s)[1..] == name[1..] + s;
    }
  }

  lemma HeaderOfHeaderLine(name: string)
    requires IsName(name)
    ensures Header(HeaderLine(name)) == Some(name)
    ensures IsLine(HeaderLine(name))
  {
    var line := HeaderLine(name);
    assert line[2..] == name + "--\n";
    NameThenDash(name, "--\n");
    assert line[2 + |name|..] == "--\n" && line[2..2 + |name|] == name;
    assert line[..|line| - 1] == "--" + name + "--";
  }

  // ---------------------------------------------------------------- the machine

  /** `/^===DONE===\s*$/`. */
  predicate IsDone(line: string) {
    "===DONE===" <= line && forall k :: 10 <= k < |line| ==> IsSpace(line[k])
  }

  predicate IsFileSection(name: string) { name == "FILE" || name == "FILEEOF" || name == "FILE_EXTERNAL" }

  datatype Bork = CannotRead | NoTestHeader | Duplicated(section: string)

  datatype Parser = Parser(text: map<string, string>, section: string, secfile: bool, secdone: bool, bork: Option<Bork>)

  function Step(p: Parser, line: string): Parser {
    match Header(line)
    case Some(name) =>
      Parser(p.text[name := ""], name, IsFileSection(name), false,
             if name in p.text then Some(Duplicated(name)) else p.bork)
    case None =>
      var t := if p.secdone then p.text
               else p.text[p.section := (if p.section in p.text then p.text[p.section] else "") + line];
      p.(text := t, secdone := p.secdone || (p.secfile && IsDone(line)))
  }

  function Steps(p: Parser, lines: seq<string>): Parser
    decreases |lines|
  {
    if lines == [] then p else Steps(Step(p, lines[0]), lines[1..])
  }

  /** The state after the first line. */
  function Start(lines: seq<string>): Parser {
    var bork := if lines == [] then Some(CannotRead) else if "--TEST--" <= lines[0] then None else Some(NoTestHeader);
    Parser(map["TEST" := ""], "TEST", false, false, bork)
  }

  function Parsed(lines: seq<string>): Parser {
    Steps(Start(lines), if lines == [] then [] else lines[1..])
  }

  /** The parser as it runs. */
  method ParseSections(lines: seq<string>) returns (sectionText: map<string, string>, bork: Option<Bork>)
    ensures sectionText == Parsed(lines).text && bork == Parsed(lines).bork
  {
    sectionText := map["TEST" := ""];
    bork := None;
    var i := 0;
    if lines == [] {
      bork := Some(CannotRead);
    } else {
      if !("--TEST--" <= lines[0]) {
        bork := Some(NoTestHeader);
      }
      i := 1;
    }
    var section, secfile, secdone := "TEST", false, false;
    while i < |lines|
      invariant i <= |lines|
      invariant Steps(Parser(sectionText, section, secfile, secdone, bork), lines[i..]) == Parsed(lines)
      invariant section in sectionText
    {
      var line := lines[i];
      assert lines[i..][0] == line && lines[i..][1..] == lines[i + 1..];
      var r := Header(line);
      if r.Some? {
        section := r.value;
        if section in sectionText {
          bork := Some(Duplicated(section));
        }
        sectionText := sectionText[section := ""];
        secfile := section == "FILE" || section == "FILEEOF" || section == "FILE_EXTERNAL";
        secdone := false;
      } else {
        if !secdone {
          sectionText := sectionText[section := sectionText[section] + line];
        }
        if secfile && IsDone(line) {
          secdone := true;
        }
      }
      i := i + 1;
    }
  }

  // ---------------------------------------------------------------- when a file is borked

  /** The names of the header lines, in order. */
  function HeaderNames(lines: seq<string>): seq<string> {
    if lines == [] then []
    else
      match Header(lines[0])
      case Some(name) => [name] + HeaderNames(lines[1..])
      case None => HeaderNames(lines[1..])
  }

  ghost predicate Distinct(names: seq<string>) {
    forall k, l :: 0 <= k < l < |names| ==> names[k] != names[l]
  }

  /** No name twice, and none of those seen before. */
  ghost predicate NewNames(seen: set<string>, names: seq<string>) {
    Distinct(names) && forall k :: 0 <= k < |names| ==> names[k] !in seen
  }

  lemma {:induction false} StepsBork(p: Parser, lines: seq<string>)
    requires p.section in p.text
    ensures var q := Steps(p, lines);
            && (q.bork.None? <==> p.bork.None? && NewNames(p.text.Keys, HeaderNames(lines)))
            && q.text.Keys == p.text.Keys + set n | n in HeaderNames(lines)
    decreases |lines|
  {
    if lines == [] {
    } else {
      var p', rest := Step(p, lines[0]), HeaderNames(lines[1..]);
      StepsBork(p', lines[1..]);
      match Header(lines[0])
      case None => assert p'.text.Keys == p.text.Keys;
      case Some(name) =>
        assert p'.text.Keys == p.text.Keys + {name};
        var names := [name] + rest;
        assert forall k :: 1 <= k < |names| ==> names[k] == rest[k - 1];
        assert NewNames(p.text.Keys, names) <==> name !in p.text && NewNames(p'.text.Keys, rest) by {
          NewNamesCons(p.text.Keys, name, rest);
        }
    }
  }

  lemma NewNamesCons(seen: set<string>, name: string, rest: seq<string>)
    ensures NewNames(seen, [name] + rest) <==> name !in seen && NewNames(seen + {name}, rest)
  {
    var names := [name] + rest;
    if NewNames(seen, names) {
      assert names[0] == name;
      forall k | 0 <= k < |rest| ensures rest[k] !in seen + {name} { assert names[k + 1] == rest[k]; }
      forall k, l | 0 <= k < l < |rest|
        ensures rest[k] != rest[l]
      {
        assert names[k + 1] == rest[k] && names[l + 1] == rest[l];
      }
    }
    if name !in seen && NewNames(seen + {name}, rest) {
      forall k, l | 0 <= k < l < |names| ensures names[k] != names[l] {
        assert names[l] == rest[l - 1];
        if k > 0 { assert names[k] == rest[k - 1]; }
      }
    }
  }

  /** A file is accepted by the parser if and only if it begins with --TEST-- and repeats no header, TEST included. */
  lemma BorkedIff(lines: seq<string>)
    ensures Parsed(lines).bork.None? <==>
            lines != [] && "--TEST--" <= lines[0] && NewNames({"TEST"}, HeaderNames(lines[1..]))
  {
    if lines != [] {
      StepsBork(Start(lines), lines[1..]);
    }
  }

  lemma {:induction false} BorkStays(p: Parser, lines: seq<string>)
    requires p.section in p.text && NewNames(p.text.Keys, HeaderNames(lines))
    ensures Steps(p, lines).bork == p.bork
    decreases |lines|
  {
    if lines == [] {
    } else {
      var p', rest := Step(p, lines[0]), HeaderNames(lines[1..]);
      if Header(lines[0]).Some? {
        var name := Header(lines[0]).value;
        assert p'.text.Keys == p.text.Keys + {name};
        NewNamesCons(p.text.Keys, name, rest);
      } else {
        assert p'.text.Keys == p.text.Keys;
      }
      BorkStays(p', lines[1..]);
    }
  }

  function NameSet(lines: seq<string>): set<string> { set n | n in HeaderNames(lines) }

  /** Of several repeated headers the last one is reported. */
  lemma LastRepeated(lines: seq<string>, pre: seq<string>, line: string, post: seq<string>, name: string)
    requires lines != [] && lines[1..] == pre + [line] + post && Header(line) == Some(name)
    requires name in {"TEST"} + NameSet(pre) && NewNames({"TEST"} + NameSet(pre), HeaderNames(post))
    ensures Parsed(lines).bork == Some(Duplicated(name))
  {
    var p := Steps(Start(lines), pre);
    StepsBork(Start(lines), pre);
    StepsConcat(Start(lines), pre + [line], post);
    StepsConcat(Start(lines), pre, [line]);
    assert [line][1..] == [] && Steps(p, [line]) == Step(p, line);
    assert Step(p, line).text.Keys == {"TEST"} + NameSet(pre);
    BorkStays(Step(p, line), post);
  }

  /** Without a repeated header the first line decides. */
  lemma FirstLineDecides(lines: seq<string>)
    requires lines != [] ==> NewNames({"TEST"}, HeaderNames(lines[1..]))
    ensures Parsed(lines).bork ==
            if lines == [] then Some(CannotRead) else if "--TEST--" <= lines[0] then None else Some(NoTestHeader)
  {
    if lines != [] { BorkStays(Start(lines), lines[1..]); }
  }

  // ---------------------------------------------------------------- printing and parsing

  datatype Section = Section(name: string, body: seq<string>)

  /** The lines of a printed section. */
  function PrintSection(s: Section): seq<string> { [HeaderLine(s.name)] + s.body }

  function PrintSections(ss: seq<Section>): seq<string> {
    if ss == [] then [] else PrintSection(ss[0]) + PrintSections(ss[1..])
  }

  /** What the parser keeps of a body: in a file section nothing after the ===DONE=== line. */
  function Kept(fileLike: bool, body: seq<string>): seq<string> {
    if body == [] then []
    else if fileLike && IsDone(body[0]) then [body[0]]
    else [body[0]] + Kept(fileLike, body[1..])
  }

  function KeptText(s: Section): string { Concat(Kept(IsFileSection(s.name), s.body)) }

  function SectionMap(ss: seq<Section>): map<string, string> {
    if ss == [] then map[] else map[ss[0].name := KeptText(ss[0])] + SectionMap(ss[1..])
  }

  ghost predicate NoHeaders(body: seq<string>) { forall k :: 0 <= k < |body| ==> Header(body[k]).None? }

  lemma {:induction false} StepsConcat(p: Parser, l1: seq<string>, l2: seq<string>)
    ensures Steps(p, l1 + l2) == Steps(Steps(p, l1), l2)
    decreases |l1|
  {
    if l1 == [] {
      assert l1 + l2 == l2;
    } else {
      StepsConcat(Step(p, l1[0]), l1[1..], l2);
      assert (l1 + l2)[1..] == l1[1..] + l2;
    }
  }

  lemma {:induction false} StepsDone(p: Parser, body: seq<string>)
    requires NoHeaders(body) && p.secdone
    ensures Steps(p, body) == p
    decreases |body|
  {
    if body == [] {
    } else {
      StepsDone(Step(p, body[0]), body[1..]);
    }
  }

  /** Running over a body appends what is kept of it to the current section. */
  lemma {:induction false} StepsBody(p: Parser, body: seq<string>)
    requires NoHeaders(body) && !p.secdone && p.section in p.text
    ensures var q := Steps(p, body);
            && q.text == p.text[p.section := p.text[p.section] + Concat(Kept(p.secfile, body))]
            && q.section == p.section && q.secfile == p.secfile && q.bork == p.bork
    decreases |body|
  {
    if body == [] {
      assert p.text[p.section] + "" == p.text[p.section];
      assert p.text[p.section := p.text[p.section]] == p.text;
    } else {
      var p' := Step(p, body[0]);
      var kept := Kept(p.secfile, body[1..]);
      if p'.secdone {
        StepsDone(p', body[1..]);
        assert Kept(p.secfile, body) == [body[0]] && Concat([body[0]]) == body[0] + "";
        assert body[0] + "" == body[0];
      } else {
        StepsBody(p', body[1..]);
        assert Kept(p.secfile, body) == [body[0]] + kept;
        assert ([body[0]] + kept)[1..] == kept;
        assert p.text[p.section] + body[0] + Concat(kept) == p.text[p.section] + (body[0] + Concat(kept));
      }
    }
  }

  lemma StepsSection(p: Parser, s: Section)
    requires IsName(s.name) && NoHeaders(s.body) && s.name !in p.text
    ensures var q := Steps(p, PrintSection(s));
            && q.text == p.text[s.name := KeptText(s)] && q.section == s.name && q.bork == p.bork
  {
    HeaderOfHeaderLine(s.name);
    var lines := PrintSection(s);
    assert lines[0] == HeaderLine(s.name) && lines[1..] == s.body;
    var p' := Step(p, lines[0]);
    StepsBody(p', s.body);
    assert "" + KeptText(s) == KeptText(s);
    assert p.text[s.name := ""][s.name := KeptText(s)] == p.text[s.name := KeptText(s)];
  }

  function Names(ss: seq<Section>): (ns: seq<string>)
    ensures |ns| == |ss| && forall k :: 0 <= k < |ns| ==> ns[k] == ss[k].name
  {
    seq(|ss|, k requires 0 <= k < |ss| => ss[k].name)
  }

  ghost predicate Printable(ss: seq<Section>) {
    forall k :: 0 <= k < |ss| ==> IsName(ss[k].name) && NoHeaders(ss[k].body)
  }

  lemma {:induction false} StepsSections(p: Parser, ss: seq<Section>)
    requires Printable(ss) && NewNames(p.text.Keys, Names(ss))
    ensures var q := Steps(p, PrintSections(ss));
            q.text == p.text + SectionMap(ss) && q.bork == p.bork
    decreases |ss|
  {
    if ss == [] {
      assert p.text + map[] == p.text;
    } else {
      var s, rest := ss[0], ss[1..];
      assert NewNames(p.text.Keys + {s.name}, Names(rest)) && s.name !in p.text by {
        assert Names(ss) == [s.name] + Names(rest);
        NewNamesCons(p.text.Keys, s.name, Names(rest));
      }
      var p' := Steps(p, PrintSection(s));
      StepsConcat(p, PrintSection(s), PrintSections(rest));
      StepsSection(p, s);
      assert p'.text.Keys == p.text.Keys + {s.name};
      StepsSections(p', rest);
      MapShift(p.text, s.name, KeptText(s), SectionMap(rest));
    }
  }

  lemma MapShift(m: map<string, string>, k: string, v: string, n: map<string, string>)
    ensures m[k := v] + n == m + (map[k := v] + n)
  {
  }

  /** Parsing a printed file gives its sections back: TEST first, distinct names, no header lines inside bodies.
      A file section loses what follows a ===DONE=== line; otherwise nothing changes. */
  lemma ParsePrinted(test: Section, ss: seq<Section>)
    requires test.name == "TEST" && Printable([test] + ss)
    requires NewNames({"TEST"}, Names(ss))
    ensures var p := Parsed(PrintSections([test] + ss));
            && p.bork == None
            && p.text == SectionMap(ss)["TEST" := Concat(test.body)]
  {
    var lines := PrintSections([test] + ss);
    PrintedTest(test, ss);
    assert NoHeaders(test.body) by { assert ([test] + ss)[0] == test; }
    assert Printable(ss) by {
      assert forall k :: 0 <= k < |ss| ==> ss[k] == ([test] + ss)[k + 1];
    }
    TestBody(lines, test.body);
    StepsConcat(Start(lines), test.body, PrintSections(ss));
    StepsSections(Steps(Start(lines), test.body), ss);
    TestInFront(ss, Concat(test.body));
  }

  lemma TestBody(lines: seq<string>, body: seq<string>)
    requires NoHeaders(body)
    ensures var p := Steps(Start(lines), body);
            p.text == map["TEST" := Concat(body)] && p.bork == Start(lines).bork
  {
    StepsBody(Start(lines), body);
    KeptAll(body);
    assert "" + Concat(body) == Concat(body);
  }

  lemma TestInFront(ss: seq<Section>, t: string)
    requires NewNames({"TEST"}, Names(ss))
    ensures map["TEST" := t] + SectionMap(ss) == SectionMap(ss)["TEST" := t]
  {
    SectionMapKeys(ss);
  }

  lemma PrintedTest(test: Section, ss: seq<Section>)
    requires test.name == "TEST"
    ensures var lines := PrintSections([test] + ss);
            lines != [] && "--TEST--" <= lines[0] && lines[1..] == test.body + PrintSections(ss)
  {
    var all := [test] + ss;
    assert all[0] == test && all[1..] == ss;
    assert PrintSections(all) == [HeaderLine("TEST")] + (test.body + PrintSections(ss));
    assert HeaderLine("TEST") == "--TEST--\n";
  }

  lemma {:induction false} KeptAll(body: seq<string>)
    ensures Kept(false, body) == body
  {
    if body == [] {
    } else {
      KeptAll(body[1..]);
    }
  }

  lemma {:induction false} SectionMapKeys(ss: seq<Section>)
    ensures forall n :: n in SectionMap(ss) <==> n in Names(ss)
  {
    if ss == [] {
    } else {
      SectionMapKeys(ss[1..]);
      assert Names(ss) == [ss[0].name] + Names(ss[1..]);
    }
  }

  lemma {:induction false} KeptAllIff(fileLike: bool, body: seq<string>)
    ensures Kept(fileLike, body) == body <==> (fileLike ==> forall k :: 0 <= k < |body| - 1 ==> !IsDone(body[k]))
    decreases |body|
  {
    if body == [] {
    } else {
      var rest := body[1..];
      KeptAllIff(fileLike, rest);
      if fileLike && IsDone(body[0]) {
        assert |body| == 1 ==> body == [body[0]];
      } else {
        assert Kept(fileLike, body) == body <==> Kept(fileLike, rest) == rest by {
          assert Kept(fileLike, body)[1..] == Kept(fileLike, rest);
          assert body == [body[0]] + rest;
        }
        if forall k :: 0 <= k < |rest| - 1 ==> !IsDone(rest[k]) {
          forall k | 0 <= k < |body| - 1 ensures fileLike ==> !IsDone(body[k]) {
            if k > 0 { assert body[k] == rest[k - 1]; }
          }
        }
      }
    }
  }

  /** The round trip through the text of the file. */
  lemma FileRoundTrip(test: Section, ss: seq<Section>)
    requires test.name == "TEST" && Printable([test] + ss)
    requires NewNames({"TEST"}, Names(ss))
    requires FileLines(PrintSections([test] + ss))
    ensures var p := Parsed(SplitLines(Concat(PrintSections([test] + ss))));
            p.bork == None && p.text == SectionMap(ss)["TEST" := Concat(test.body)]
  {
    SplitConcat(PrintSections([test] + ss));
    ParsePrinted(test, ss);
  }
}

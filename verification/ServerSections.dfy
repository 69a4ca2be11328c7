/** The second section parser, `testHarness::getSectionText` of server-tests.php, and how it relates to the first. */
module ServerSections {
  import opened PhpStrings
  import opened Sections

  function LetterLength(s: string): (n: nat)
    ensures n <= |s| && forall k :: 0 <= k < n ==> 'A' <= s[k] <= 'Z'
  {
    if s != [] && 'A' <= s[0] <= 'Z' then 1 + LetterLength(s[1..]) else 0
  }

  /** The section name if `/^--([A-Z]+)--/` matches the line. */
  function LetterHeader(line: string): Option<string> {
    if !("--" <= line) then None
    else
      var n := LetterLength(line[2..]);
      if n > 0 && "--" <= line[2 + n..] then Some(line[2..2 + n]) else None
  }

  /** The sections that are there from the start. */
  function Defaults(file: string, dir: string): map<string, string> {
    map["TEST" := "(unnamed test)", "SKIPIF" := "", "GET" := "", "ARGS" := "", "_FILE" := file, "_DIR" := dir]
  }

  datatype Reader = Reader(text: map<string, string>, section: string)

  function ReadLine(r: Reader, line: string): Reader {
    match LetterHeader(line)
    case Some(name) => Reader(r.text[name := ""], name)
    case None => r.(text := r.text[r.section := (if r.section in r.text then r.text[r.section] else "") + line])
  }

  function ReadLines(r: Reader, lines: seq<string>): Reader
    decreases |lines|
  {
    if lines == [] then r else ReadLines(ReadLine(r, lines[0]), lines[1..])
  }

  /** POST data loses one line end only; everything else is trimmed. */
  function Finish(name: string, v: string): string {
    if name == "POST" && v != [] && v[|v| - 1] == '\n' then
      if |v| >= 2 && v[|v| - 2] == '\r' then v[..|v| - 2] else v[..|v| - 1]
    else Trim(v)
  }

  /** What the loop is given: behind a line that ends in a newline, and in an empty file, `fgets` fails once
      before the end is noticed, and its answer is taken for an empty line. */
  function Reads(lines: seq<string>): seq<string> {
    if lines == [] || IsLine(lines[|lines| - 1]) then lines + [""] else lines
  }

  function RawText(lines: seq<string>, file: string, dir: string): map<string, string> {
    ReadLines(Reader(Defaults(file, dir), ""), Reads(lines)).text
  }

  function ServerText(lines: seq<string>, file: string, dir: string): map<string, string> {
    var raw := RawText(lines, file, dir);
    map k | k in raw :: Finish(k, raw[k])
  }

  method GetSectionText(lines: seq<string>, file: string, dir: string) returns (sectionText: map<string, string>)
    ensures sectionText == ServerText(lines, file, dir)
  {
    sectionText := Defaults(file, dir);
    var section, answers := "", Reads(lines);
    var i := 0;
    while i < |answers|
      invariant i <= |answers|
      invariant ReadLines(Reader(sectionText, section), answers[i..]).text == RawText(lines, file, dir)
    {
      var line := answers[i];
      assert answers[i..][0] == line && answers[i..][1..] == answers[i + 1..];
      var r := LetterHeader(line);
      if r.Some? {
        section := r.value;
        sectionText := sectionText[section := ""];
      } else {
        sectionText := sectionText[section := (if section in sectionText then sectionText[section] else "") + line];
      }
      i := i + 1;
    }
    var raw := sectionText;
    var todo := raw.Keys;
    while todo != {}
      invariant todo <= raw.Keys && sectionText.Keys == raw.Keys
      invariant forall k :: k in raw ==> sectionText[k] == if k in todo then raw[k] else Finish(k, raw[k])
      decreases |todo|
    {
      var k :| k in todo;
      sectionText := sectionText[k := Finish(k, sectionText[k])];
      todo := todo - {k};
    }
  }

  /** Once a line is read, the current section is there. */
  lemma {:induction false} SectionThere(r: Reader, lines: seq<string>)
    requires lines != [] || r.section in r.text
    ensures var q := ReadLines(r, lines); q.section in q.text
    decreases |lines|
  {
    if lines == [] {
    } else {
      SectionThere(ReadLine(r, lines[0]), lines[1..]);
    }
  }

  lemma {:induction false} ReadMore(r: Reader, lines: seq<string>, line: string)
    ensures ReadLines(r, lines + [line]) == ReadLine(ReadLines(r, lines), line)
    decreases |lines|
  {
    if lines == [] {
      assert ([] + [line])[1..] == [] && ([] + [line])[0] == line;
    } else {
      ReadMore(ReadLine(r, lines[0]), lines[1..], line);
      assert (lines + [line])[1..] == lines[1..] + [line];
    }
  }

  /** The failed read leaves its trace in an empty file only: a section without a name. */
  lemma FailedReadMatters(lines: seq<string>, file: string, dir: string)
    ensures RawText(lines, file, dir) ==
            if lines == [] then Defaults(file, dir)["" := ""]
            else ReadLines(Reader(Defaults(file, dir), ""), lines).text
    ensures "" in ServerText([], file, dir) && ServerText([], file, dir)[""] == ""
  {
    var r := Reader(Defaults(file, dir), "");
    ReadMore(r, lines, "");
    ReadMore(r, [], "");
    assert [] + [""] == [""] && Reads([]) == [""];
    if lines != [] {
      SectionThere(r, lines);
      var q := ReadLines(r, lines);
      assert q.text[q.section] + "" == q.text[q.section];
      assert q.text[q.section := q.text[q.section]] == q.text;
    }
  }

  // ---------------------------------------------------------------- the two readers agree

  lemma {:induction false} LengthsAgree(s: string)
    ensures LetterLength(s) <= NameLength(s)
    ensures LetterLength(s) < |s| && !IsNameChar(s[LetterLength(s)]) ==> LetterLength(s) == NameLength(s)
    ensures '_' !in s[..NameLength(s)] ==> LetterLength(s) == NameLength(s)
  {
    if s == [] || !IsNameChar(s[0]) {
    } else {
      LengthsAgree(s[1..]);
      var n := NameLength(s);
      assert s[..n][0] == s[0];
      assert s[1..][..n - 1] == s[..n][1..];
    }
  }

  /** A header with letters only is a header for both, any other for neither or for the first alone. */
  lemma HeadersAgree(line: string)
    requires Header(line).Some? ==> '_' !in Header(line).value
    ensures LetterHeader(line) == Header(line)
  {
    if "--" <= line {
      var s := line[2..];
      LengthsAgree(s);
      var m := LetterLength(s);
      if "--" <= line[2 + m..] {
        assert line[2 + m..][0] == s[m];
      }
      assert line[2..2 + NameLength(s)] == s[..NameLength(s)];
    }
  }

  /** No line is lost behind ===DONE===. */
  ghost predicate NothingDropped(p: Parser, lines: seq<string>)
    decreases |lines|
  {
    lines != [] ==> (!p.secdone || Header(lines[0]).Some?) && NothingDropped(Step(p, lines[0]), lines[1..])
  }

  ghost predicate LetterHeaders(lines: seq<string>) {
    forall k :: 0 <= k < |lines| && Header(lines[k]).Some? ==> '_' !in Header(lines[k]).value
  }

  lemma {:induction false} ReadersAgree(base: map<string, string>, p: Parser, lines: seq<string>)
    requires LetterHeaders(lines) && NothingDropped(p, lines) && p.section in p.text
    ensures ReadLines(Reader(base + p.text, p.section), lines).text == base + Steps(p, lines).text
    decreases |lines|
  {
    if lines == [] {
    } else {
      var line, rest := lines[0], lines[1..];
      HeadersAgree(line);
      assert LetterHeaders(rest) by {
        forall k | 0 <= k < |rest| && Header(rest[k]).Some?
          ensures '_' !in Header(rest[k]).value
        {
          assert rest[k] == lines[k + 1];
        }
      }
      var p' := Step(p, line);
      UpdateUnder(base, p.text, p'.section, p'.text[p'.section]);
      ReadersAgree(base, p', rest);
    }
  }

  lemma UpdateUnder(base: map<string, string>, m: map<string, string>, k: string, v: string)
    ensures (base + m)[k := v] == base + m[k := v]
  {
  }

  lemma TestHeader(line: string)
    requires "--TEST--" <= line
    ensures LetterHeader(line) == Some("TEST")
  {
    var s := line[2..];
    assert s[0] == 'T' && s[1] == 'E' && s[2] == 'S' && s[3] == 'T' && s[4] == '-' && s[5] == '-';
    assert LetterLength(s[4..]) == 0;
    assert s[3..][1..] == s[4..] && LetterLength(s[3..]) == 1;
    assert s[2..][1..] == s[3..] && LetterLength(s[2..]) == 2;
    assert s[1..][1..] == s[2..] && LetterLength(s[1..]) == 3;
    assert line[6..][0] == '-' && line[6..][1] == '-';
    assert line[2..6] == "TEST";
  }

  /** For a file that begins with --TEST--, whose headers use letters only and in which nothing follows
      ===DONE===, the second parser delivers the sections of the first, trimmed (POST but for one line
      end), and besides them only its own defaults. */
  lemma ParsersAgree(lines: seq<string>, file: string, dir: string)
    requires lines != [] && "--TEST--" <= lines[0]
    requires LetterHeaders(lines[1..]) && NothingDropped(Start(lines), lines[1..])
    ensures var run, server := Parsed(lines).text, ServerText(lines, file, dir);
            && server.Keys == run.Keys + Defaults(file, dir).Keys
            && (forall k :: k in run ==> server[k] == Finish(k, run[k]))
            && (forall k :: k in server && k !in run ==> server[k] == Finish(k, Defaults(file, dir)[k]))
  {
    var base, p := Defaults(file, dir), Start(lines);
    TestHeader(lines[0]);
    assert base["TEST" := ""] == base + p.text;
    ReadersAgree(base, p, lines[1..]);
    FailedReadMatters(lines, file, dir);
    assert ReadLines(Reader(base, ""), lines).text == base + Parsed(lines).text;
  }

  /** A section other than POST is the trimmed section of the first parser. */
  lemma SectionsAreTrimmed(lines: seq<string>, file: string, dir: string, name: string)
    requires lines != [] && "--TEST--" <= lines[0]
    requires LetterHeaders(lines[1..]) && NothingDropped(Start(lines), lines[1..])
    requires name in Parsed(lines).text && name != "POST"
    ensures name in ServerText(lines, file, dir) && ServerText(lines, file, dir)[name] == Trim(Parsed(lines).text[name])
  {
    ParsersAgree(lines, file, dir);
  }

  // ---------------------------------------------------------------- what finishing does

  /** Of POST one line end is dropped, if it ends in one; every other section is trimmed. */
  lemma PostKeepsAllButItsEnd(v: string, name: string)
    ensures Finish("POST", v + "\r\n") == v
    ensures (v == "" || v[|v| - 1] != '\r') ==> Finish("POST", v + "\n") == v
    ensures (v == "" || v[|v| - 1] != '\n') ==> Finish("POST", v) == Trim(v)
    ensures name != "POST" ==> Finish(name, v) == Trim(v)
  {
    var w := v + "\r\n";
    assert w[|w| - 1] == '\n' && w[|w| - 2] == '\r' && w[..|w| - 2] == v;
    assert (v + "\n")[..|v|] == v;
  }

  lemma DefaultsFinished(file: string, dir: string)
    ensures var d := Defaults(file, dir);
            && d.Keys == {"TEST", "SKIPIF", "GET", "ARGS", "_FILE", "_DIR"}
            && (forall k :: k in {"SKIPIF", "GET", "ARGS"} ==> Finish(k, d[k]) == "")
            && Finish("_FILE", d["_FILE"]) == Trim(file) && Finish("_DIR", d["_DIR"]) == Trim(dir)
  {
  }

  /** A file the parsers agree on has these defaults, where it says nothing itself. */
  lemma DefaultsStay(lines: seq<string>, file: string, dir: string, run: map<string, string>,
                     server: map<string, string>)
    requires lines != [] && "--TEST--" <= lines[0]
    requires LetterHeaders(lines[1..]) && NothingDropped(Start(lines), lines[1..])
    requires run == Parsed(lines).text && server == ServerText(lines, file, dir)
    ensures server.Keys == run.Keys + {"TEST", "SKIPIF", "GET", "ARGS", "_FILE", "_DIR"}
    ensures forall k :: k in {"SKIPIF", "GET", "ARGS"} && k !in run ==> server[k] == ""
    ensures ("_FILE" !in run ==> server["_FILE"] == Trim(file)) && ("_DIR" !in run ==> server["_DIR"] == Trim(dir))
  {
    ParsersAgree(lines, file, dir);
    DefaultsFinished(file, dir);
  }
}

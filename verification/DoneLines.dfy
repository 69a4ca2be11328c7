/** What the parser makes of `--NAME--` and `===DONE===` lines, said of the text itself. */
module DoneLines {
  import opened PhpStrings
  import opened Sections

  // ---------------------------------------------------------------- headers

  /** A line is the header of a section if and only if it begins with the name, of capitals and underscores, between
      two dashes each. */
  lemma HeaderIff(line: string, name: string)
    ensures Header(line) == Some(name) <==>
            name != "" && (forall c :: c in name ==> c in "ABCDEFGHIJKLMNOPQRSTUVWXYZ_") && "--" + name + "--" <= line
  {
    Capitals();
    if name != "" && (forall c :: c in name ==> c in "ABCDEFGHIJKLMNOPQRSTUVWXYZ_") && "--" + name + "--" <= line {
      var rest := line[2..];
      assert rest == name + line[2 + |name|..] && "--" <= line[2 + |name|..];
      forall k | 0 <= k < |name| ensures IsNameChar(name[k]) { assert name[k] in name; }
      NameThenDash(name, line[2 + |name|..]);
      assert line[2..2 + |name|] == name;
    }
    if Header(line) == Some(name) {
      forall c | c in name ensures c in "ABCDEFGHIJKLMNOPQRSTUVWXYZ_" {
        var k :| 0 <= k < |name| && name[k] == c;
        assert IsNameChar(name[k]);
      }
      assert line == "--" + name + line[2 + |name|..];
    }
  }

  lemma Capitals()
    ensures forall c :: IsNameChar(c) <==> c in "ABCDEFGHIJKLMNOPQRSTUVWXYZ_"
  {
    var letters := "ABCDEFGHIJKLMNOPQRSTUVWXYZ_";
    assert |letters| == 27 && letters[26] == '_';
    assert forall k :: 0 <= k < 26 ==> letters[k] == 'A' + k as char;
    forall c | 'A' <= c <= 'Z' ensures c in letters { assert letters[c as int - 65] == c; }
  }

  // ---------------------------------------------------------------- ===DONE===

  /** Nothing but white space. */
  predicate IsWhite(s: string) {
    forall k :: 0 <= k < |s| ==> s[k] in {' ', '\t', '\n', '\r', 11 as char, 12 as char}
  }

  lemma DoneIff(line: string, w: string)
    requires line == "===DONE===" + w
    ensures IsDone(line) <==> IsWhite(w)
  {
    assert |"===DONE==="| == 10 && forall k :: 10 <= k < |line| ==> line[k] == w[k - 10];
    if IsDone(line) {
      forall k | 0 <= k < |w| ensures IsSpace(w[k]) { assert line[k + 10] == w[k]; }
    }
  }

  /** A line that ends a file section. */
  predicate EndsFile(line: string) { "===DONE===" <= line && IsWhite(line[10..]) }

  lemma EndsFileIff(line: string)
    ensures EndsFile(line) <==> IsDone(line)
  {
    if "===DONE===" <= line {
      assert line == "===DONE===" + line[10..];
      DoneIff(line, line[10..]);
    }
  }

  /** The body of a section survives printing and parsing exactly when it is no file section or no line follows a
      line of ===DONE=== and white space. */
  lemma KeptEverythingIff(s: Section)
    ensures Kept(IsFileSection(s.name), s.body) == s.body <==>
            || s.name !in {"FILE", "FILEEOF", "FILE_EXTERNAL"}
            || forall k :: 0 <= k < |s.body| - 1 ==> !EndsFile(s.body[k])
  {
    KeptAllIff(IsFileSection(s.name), s.body);
    forall k | 0 <= k < |s.body| ensures EndsFile(s.body[k]) <==> IsDone(s.body[k]) { EndsFileIff(s.body[k]); }
  }

  lemma {:induction false} KeptUpTo(pre: seq<string>, d: string, post: seq<string>)
    requires IsDone(d) && forall k :: 0 <= k < |pre| ==> !IsDone(pre[k])
    ensures Concat(Kept(true, pre + [d] + post)) == Concat(pre) + d
    decreases |pre|
  {
    var body := pre + [d] + post;
    if pre == [] {
      assert body[0] == d;
      assert Concat([d]) == d + "";
    } else {
      assert body[0] == pre[0] && body[1..] == pre[1..] + [d] + post;
      KeptUpTo(pre[1..], d, post);
      var kept := Kept(true, body[1..]);
      assert ([pre[0]] + kept)[1..] == kept;
    }
  }

  lemma FirstSection(s: Section, ss: seq<Section>, all: seq<Section>)
    requires all == [s] + ss && NewNames({"TEST"}, Names(all))
    ensures s.name != "TEST" && s.name in SectionMap(all) && SectionMap(all)[s.name] == KeptText(s)
  {
    assert all[0] == s && all[1..] == ss && Names(all)[0] == s.name;
    SectionMapKeys(ss);
    forall k | 0 <= k < |ss| ensures Names(ss)[k] != s.name { assert Names(all)[k + 1] == ss[k].name; }
  }

  /** The parser goes over TEST, one section and others. */
  lemma SectionIs(test: Section, s: Section, ss: seq<Section>)
    requires test.name == "TEST" && Printable([test, s] + ss)
    requires NewNames({"TEST"}, Names([s] + ss))
    ensures var p := Parsed(PrintSections([test, s] + ss));
            p.bork == None && s.name in p.text && p.text[s.name] == KeptText(s)
  {
    assert [test, s] + ss == [test] + ([s] + ss);
    ParsePrinted(test, [s] + ss);
    FirstSection(s, ss, [s] + ss);
  }

  /** In a file section the first line of ===DONE=== and white space is kept and the rest is not. */
  lemma DoneEndsFile(test: Section, name: string, pre: seq<string>, w: string, post: seq<string>, ss: seq<Section>)
    requires var s := Section(name, pre + ["===DONE===" + w] + post);
             test.name == "TEST" && Printable([test, s] + ss) && NewNames({"TEST"}, Names([s] + ss))
    requires name in {"FILE", "FILEEOF", "FILE_EXTERNAL"} && IsWhite(w)
    requires forall k :: 0 <= k < |pre| ==> !EndsFile(pre[k])
    ensures var p := Parsed(PrintSections([test, Section(name, pre + ["===DONE===" + w] + post)] + ss));
            p.bork == None && name in p.text && p.text[name] == Concat(pre) + ("===DONE===" + w)
  {
    var d := "===DONE===" + w;
    DoneIff(d, w);
    forall k | 0 <= k < |pre| ensures !IsDone(pre[k]) { EndsFileIff(pre[k]); }
    KeptUpTo(pre, d, post);
    SectionIs(test, Section(name, pre + [d] + post), ss);
  }

  /** In any other section, and where something else follows each ===DONE=== but the last line's, all are kept. */
  lemma OtherLinesAreKept(test: Section, s: Section, ss: seq<Section>)
    requires test.name == "TEST" && Printable([test, s] + ss) && NewNames({"TEST"}, Names([s] + ss))
    requires s.name in {"FILE", "FILEEOF", "FILE_EXTERNAL"} ==>
             forall k :: 0 <= k < |s.body| - 1 ==> !EndsFile(s.body[k])
    ensures var p := Parsed(PrintSections([test, s] + ss));
            p.bork == None && s.name in p.text && p.text[s.name] == Concat(s.body)
  {
    KeptEverythingIff(s);
    SectionIs(test, s, ss);
  }

  lemma ThreePrinted(a: Section, b: Section, c: Section)
    ensures PrintSections([a, b] + [c]) == PrintSection(a) + PrintSection(b) + PrintSection(c)
  {
    assert [a, b] + [c] == [a, b, c];
    assert [a, b, c][1..] == [b, c] && [b, c][1..] == [c] && [c][1..] == [];
    assert PrintSections([c]) == PrintSection(c) + [];
    assert PrintSections([b, c]) == PrintSection(b) + PrintSection(c);
  }

  lemma NoHeader(line: string)
    requires line != [] && line[0] != '-'
    ensures Header(line).None?
  {
    assert "--"[0] == '-';
  }

  lemma Printed(lines: seq<string>, test: Section, file: Section, wanted: Section)
    requires test == Section("TEST", ["t\n"]) && wanted == Section("EXPECT", ["1\n"])
    requires file == Section("FILE", ["<?php echo 1;\n", "===DONE===\n", "<?php exit(0); ?>\n"])
    requires lines == ["--TEST--\n", "t\n", "--FILE--\n", "<?php echo 1;\n", "===DONE===\n", "<?php exit(0); ?>\n",
                       "--EXPECT--\n", "1\n"]
    ensures lines == PrintSections([test, file] + [wanted])
  {
    ThreePrinted(test, file, wanted);
    assert HeaderLine("TEST") == "--TEST--\n";
    assert HeaderLine("FILE") == "--FILE--\n";
    assert HeaderLine("EXPECT") == "--EXPECT--\n";
    assert lines == [lines[0]] + test.body + ([lines[2]] + file.body) + ([lines[6]] + wanted.body);
  }

  lemma ExamplePrintable(test: Section, file: Section, wanted: Section)
    requires test == Section("TEST", ["t\n"]) && wanted == Section("EXPECT", ["1\n"])
    requires file == Section("FILE", ["<?php echo 1;\n", "===DONE===\n", "<?php exit(0); ?>\n"])
    ensures Printable([test, file] + [wanted]) && NewNames({"TEST"}, Names([file] + [wanted]))
  {
    NoHeader("t\n");
    NoHeader("1\n");
    forall k | 0 <= k < 3 ensures Header(file.body[k]).None? { NoHeader(file.body[k]); }
    assert Names([file] + [wanted]) == ["FILE", "EXPECT"];
    assert [test, file] + [wanted] == [test, file, wanted];
  }

  /** For instance code behind ===DONE=== that the test never runs. */
  lemma CodeBehindDone(lines: seq<string>)
    requires lines == ["--TEST--\n", "t\n", "--FILE--\n", "<?php echo 1;\n", "===DONE===\n", "<?php exit(0); ?>\n",
                       "--EXPECT--\n", "1\n"]
    ensures "FILE" in Parsed(lines).text && Parsed(lines).text["FILE"] == "<?php echo 1;\n===DONE===\n"
  {
    var pre, post := ["<?php echo 1;\n"], ["<?php exit(0); ?>\n"];
    var body := ["<?php echo 1;\n", "===DONE===\n", "<?php exit(0); ?>\n"];
    var test, file, wanted := Section("TEST", ["t\n"]), Section("FILE", body), Section("EXPECT", ["1\n"]);
    Printed(lines, test, file, wanted);
    ExamplePrintable(test, file, wanted);
    assert "===DONE===\n" == "===DONE===" + "\n";
    assert body == pre + ["===DONE===" + "\n"] + post;
    assert "===DONE==="[0] == '=' && pre[0][0] == '<';
    DoneEndsFile(test, "FILE", pre, "\n", post, [wanted]);
    assert Concat(pre) == "<?php echo 1;\n" + "";
    assert "<?php echo 1;\n" + "===DONE===\n" == "<?php echo 1;\n===DONE===\n";
  }
}

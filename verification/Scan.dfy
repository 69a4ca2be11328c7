/** The directory scan, `find_files`: collects the *.phpt entries of a tree, or counts them as
    ignored when they lie under an extension that is not tested. */
module Scan {
  import opened PhpStrings

  datatype Entry = File(name: string) | Dir(name: string, entries: seq<Entry>)

  predicate EndsWith(s: string, suffix: string) { |s| >= |suffix| && s[|s| - |suffix|..] == suffix }

  predicate IsTest(e: Entry) { EndsWith(e.name, ".phpt") && !EndsWith(e.name, ".tmp") }

  /** Directories that are entered. */
  predicate IsEntered(e: Entry) { e.Dir? && e.name !in {".", "..", ".svn"} }

  // ---------------------------------------------------------------- reference: the tests of a tree

  /** Where a test lies: the directories below the start, outermost first, and its name. */
  datatype Place = Place(trail: seq<string>, name: string)

  function Path(dir: string, p: Place): string
    decreases |p.trail|
  {
    if p.trail == [] then dir + "/" + p.name else Path(dir + "/" + p.trail[0], Place(p.trail[1..], p.name))
  }

  /** All tests of a tree, in the order of the scan. */
  function Tests(entries: seq<Entry>): seq<Place> {
    if entries == [] then []
    else
      var e := entries[0];
      (if IsEntered(e) then Below(e.name, Tests(e.entries)) else [])
      + (if IsTest(e) then [Place([], e.name)] else [])
      + Tests(entries[1..])
  }

  function Below(name: string, ps: seq<Place>): (qs: seq<Place>)
    ensures |qs| == |ps| && forall k :: 0 <= k < |qs| ==> qs[k] == Place([name] + ps[k].trail, ps[k].name)
  {
    seq(|ps|, k requires 0 <= k < |ps| => Place([name] + ps[k].trail, ps[k].name))
  }

  /** A test is ignored when the scan began that way or it lies under an extension that is not tested. */
  predicate Ignored(p: Place, isExtDir: bool, ignore: bool, exts: set<string>) {
    ignore || (isExtDir && p.trail != [] && Lower(p.trail[0]) !in exts)
  }

  /** The paths of the tests that are not ignored, in order. */
  function Collected(dir: string, ps: seq<Place>, isExtDir: bool, ignore: bool, exts: set<string>): seq<string> {
    if ps == [] then []
    else if Ignored(ps[0], isExtDir, ignore, exts) then Collected(dir, ps[1..], isExtDir, ignore, exts)
    else [Path(dir, ps[0])] + Collected(dir, ps[1..], isExtDir, ignore, exts)
  }

  function IgnoredCount(ps: seq<Place>, isExtDir: bool, ignore: bool, exts: set<string>): nat {
    if ps == [] then 0
    else
      var rest := IgnoredCount(ps[1..], isExtDir, ignore, exts);
      if Ignored(ps[0], isExtDir, ignore, exts) then 1 + rest else rest
  }

  /** Extensions left out on the way. */
  function SkippedExts(entries: seq<Entry>, isExtDir: bool, exts: set<string>): nat {
    if entries == [] then 0
    else
      var rest := SkippedExts(entries[1..], isExtDir, exts);
      if IsEntered(entries[0]) && isExtDir && Lower(entries[0].name) !in exts then 1 + rest else rest
  }

  // ---------------------------------------------------------------- each test once

  /** A test lies at this place of the tree. */
  ghost predicate IsPlace(entries: seq<Entry>, p: Place)
    decreases |p.trail|
  {
    if p.trail == [] then exists e :: e in entries && IsTest(e) && e.name == p.name
    else
      var inner := Place(p.trail[1..], p.name);
      exists e :: e in entries && IsEntered(e) && e.name == p.trail[0] && IsPlace(e.entries, inner)
  }

  /** A directory holds no name twice, nor does any directory below. */
  ghost predicate UniqueNames(entries: seq<Entry>) {
    && (forall k, l :: 0 <= k < l < |entries| ==> entries[k].name != entries[l].name)
    && (forall e :: e in entries && e.Dir? ==> UniqueNames(e.entries))
  }

  /** What one entry contributes. */
  function TestsOf(e: Entry): seq<Place> {
    (if IsEntered(e) then Below(e.name, Tests(e.entries)) else []) + (if IsTest(e) then [Place([], e.name)] else [])
  }

  ghost predicate PlaceOf(e: Entry, p: Place) {
    if p.trail == [] then IsTest(e) && e.name == p.name
    else IsEntered(e) && e.name == p.trail[0] && Place(p.trail[1..], p.name) in Tests(e.entries)
  }

  lemma TestsOfEntry(e: Entry, p: Place)
    ensures p in TestsOf(e) <==> PlaceOf(e, p)
  {
    if IsEntered(e) {
      var below, inner := Below(e.name, Tests(e.entries)), Place(p.trail[if p.trail == [] then 0 else 1..], p.name);
      if p in below {
        var k :| 0 <= k < |below| && below[k] == p;
        assert p.trail[1..] == Tests(e.entries)[k].trail;
      }
      if p.trail != [] && e.name == p.trail[0] && inner in Tests(e.entries) {
        var k :| 0 <= k < |below| && Tests(e.entries)[k] == inner;
        assert below[k].trail == p.trail;
        assert below[k] in below;
      }
    }
  }

  lemma {:induction false} TestsOfList(entries: seq<Entry>, p: Place)
    ensures p in Tests(entries) <==> exists e :: e in entries && PlaceOf(e, p)
  {
    if entries == [] {
    } else {
      TestsOfList(entries[1..], p);
      TestsOfEntry(entries[0], p);
      assert Tests(entries) == TestsOf(entries[0]) + Tests(entries[1..]);
      assert forall e :: e in entries <==> e == entries[0] || e in entries[1..];
    }
  }

  /** The list holds exactly the places of the tree. */
  lemma {:induction false} TestsArePlaces(entries: seq<Entry>, p: Place)
    ensures p in Tests(entries) <==> IsPlace(entries, p)
    decreases |p.trail|
  {
    TestsOfList(entries, p);
    if p.trail == [] {
    } else {
      forall e | e in entries && IsEntered(e)
        ensures Place(p.trail[1..], p.name) in Tests(e.entries) <==> IsPlace(e.entries, Place(p.trail[1..], p.name))
      {
        TestsArePlaces(e.entries, Place(p.trail[1..], p.name));
      }
    }
  }

  ghost predicate NoRepeats(ps: seq<Place>) { forall k, l :: 0 <= k < l < |ps| ==> ps[k] != ps[l] }

  lemma NoRepeatsConcat(ps: seq<Place>, qs: seq<Place>)
    requires NoRepeats(ps) && NoRepeats(qs) && forall p :: p in ps ==> p !in qs
    ensures NoRepeats(ps + qs)
  {
    var all := ps + qs;
    forall k, l | 0 <= k < l < |all| ensures all[k] != all[l] {
      if k < |ps| <= l { assert all[k] in ps && all[l] in qs; }
    }
  }

  /** The list holds no place twice. */
  lemma {:induction false} TestsNotRepeated(entries: seq<Entry>)
    requires UniqueNames(entries)
    ensures NoRepeats(Tests(entries))
  {
    if entries == [] {
    } else {
      var e, rest := entries[0], entries[1..];
      assert UniqueNames(rest) by {
        forall k, l | 0 <= k < l < |rest| ensures rest[k].name != rest[l].name {
          assert rest[k] == entries[k + 1] && rest[l] == entries[l + 1];
        }
      }
      TestsNotRepeated(rest);
      EntryNotRepeated(e);
      forall p | p in TestsOf(e) ensures p !in Tests(rest) {
        TestsOfEntry(e, p);
        TestsOfList(rest, p);
        assert forall k :: 0 <= k < |rest| ==> rest[k] == entries[k + 1];
      }
      NoRepeatsConcat(TestsOf(e), Tests(rest));
      assert Tests(entries) == TestsOf(e) + Tests(rest);
    }
  }

  lemma {:induction false} EntryNotRepeated(e: Entry)
    requires e.Dir? ==> UniqueNames(e.entries)
    ensures NoRepeats(TestsOf(e))
  {
    if IsEntered(e) {
      var inner := Tests(e.entries);
      TestsNotRepeated(e.entries);
      var below := Below(e.name, inner);
      forall k, l | 0 <= k < l < |below| ensures below[k] != below[l] {
        assert below[k].trail[1..] == inner[k].trail && below[l].trail[1..] == inner[l].trail;
      }
    }
  }

  lemma {:induction false} CollectedMembers(dir: string, ps: seq<Place>, isExtDir: bool, ignore: bool,
                                            exts: set<string>, x: string)
    ensures x in Collected(dir, ps, isExtDir, ignore, exts) <==>
            exists p :: p in ps && !Ignored(p, isExtDir, ignore, exts) && x == Path(dir, p)
    ensures |Collected(dir, ps, isExtDir, ignore, exts)| + IgnoredCount(ps, isExtDir, ignore, exts) == |ps|
  {
    if ps == [] {
    } else {
      CollectedMembers(dir, ps[1..], isExtDir, ignore, exts, x);
      assert forall p :: p in ps <==> p == ps[0] || p in ps[1..];
    }
  }

  /** Each test of the tree is met exactly once, and either collected or counted as ignored; collected are the
      paths of exactly those that are not ignored. */
  lemma EachTestOnce(dir: string, entries: seq<Entry>, isExtDir: bool, ignore: bool, exts: set<string>)
    requires UniqueNames(entries)
    ensures NoRepeats(Tests(entries)) && forall p :: p in Tests(entries) <==> IsPlace(entries, p)
    ensures var found, left := Collected(dir, Tests(entries), isExtDir, ignore, exts),
                               IgnoredCount(Tests(entries), isExtDir, ignore, exts);
            && |found| + left == |Tests(entries)|
            && forall x :: x in found <==>
                 exists p :: IsPlace(entries, p) && !Ignored(p, isExtDir, ignore, exts) && x == Path(dir, p)
  {
    var found := Collected(dir, Tests(entries), isExtDir, ignore, exts);
    TestsNotRepeated(entries);
    forall p ensures p in Tests(entries) <==> IsPlace(entries, p) { TestsArePlaces(entries, p); }
    CollectedMembers(dir, Tests(entries), isExtDir, ignore, exts, "");
    forall x
      ensures x in found <==>
              exists p :: IsPlace(entries, p) && !Ignored(p, isExtDir, ignore, exts) && x == Path(dir, p)
    {
      CollectedMembers(dir, Tests(entries), isExtDir, ignore, exts, x);
    }
  }

  // ---------------------------------------------------------------- the scan

  lemma {:induction false} CollectedConcat(dir: string, ps: seq<Place>, qs: seq<Place>, isExtDir: bool, ignore: bool,
                                           exts: set<string>)
    ensures Collected(dir, ps + qs, isExtDir, ignore, exts)
         == Collected(dir, ps, isExtDir, ignore, exts) + Collected(dir, qs, isExtDir, ignore, exts)
  {
    if ps == [] {
      assert ps + qs == qs;
    } else {
      CollectedConcat(dir, ps[1..], qs, isExtDir, ignore, exts);
      assert (ps + qs)[1..] == ps[1..] + qs && (ps + qs)[0] == ps[0];
    }
  }

  lemma {:induction false} IgnoredConcat(ps: seq<Place>, qs: seq<Place>, isExtDir: bool, ignore: bool,
                                         exts: set<string>)
    ensures IgnoredCount(ps + qs, isExtDir, ignore, exts)
            == IgnoredCount(ps, isExtDir, ignore, exts) + IgnoredCount(qs, isExtDir, ignore, exts)
  {
    if ps == [] {
      assert ps + qs == qs;
    } else {
      IgnoredConcat(ps[1..], qs, isExtDir, ignore, exts);
      assert (ps + qs)[1..] == ps[1..] + qs && (ps + qs)[0] == ps[0];
    }
  }

  /** Entering a directory decides for all tests below it. */
  lemma {:induction false} CollectedBelow(dir: string, name: string, ps: seq<Place>, isExtDir: bool, ignore: bool,
                                          exts: set<string>)
    ensures var skip := isExtDir && Lower(name) !in exts;
            && Collected(dir, Below(name, ps), isExtDir, ignore, exts)
               == Collected(dir + "/" + name, ps, false, ignore || skip, exts)
            && IgnoredCount(Below(name, ps), isExtDir, ignore, exts) == IgnoredCount(ps, false, ignore || skip, exts)
  {
    if ps == [] {
    } else {
      CollectedBelow(dir, name, ps[1..], isExtDir, ignore, exts);
      var q := Below(name, ps)[0];
      assert Below(name, ps)[1..] == Below(name, ps[1..]);
      assert q.trail[0] == name && q.trail[1..] == ps[0].trail;
    }
  }

  lemma {:induction false} NoExtsBelow(entries: seq<Entry>, exts: set<string>)
    ensures SkippedExts(entries, false, exts) == 0
  {
    if entries == [] {
    } else {
      NoExtsBelow(entries[1..], exts);
    }
  }

  /** What one entry contributes: the tests below it, then itself. */
  function FromEntry(dir: string, e: Entry, isExtDir: bool, ignore: bool, exts: set<string>): seq<string> {
    (if IsEntered(e) then
       Collected(dir + "/" + e.name, Tests(e.entries), false, ignore || (isExtDir && Lower(e.name) !in exts), exts)
     else [])
    + (if IsTest(e) && !ignore then [dir + "/" + e.name] else [])
  }

  function IgnoredOfEntry(e: Entry, isExtDir: bool, ignore: bool, exts: set<string>): nat {
    (if IsEntered(e) then IgnoredCount(Tests(e.entries), false, ignore || (isExtDir && Lower(e.name) !in exts), exts)
     else 0)
    + (if IsTest(e) && ignore then 1 else 0)
  }

  lemma CollectedStep(dir: string, entries: seq<Entry>, isExtDir: bool, ignore: bool, exts: set<string>)
    requires entries != []
    ensures Collected(dir, Tests(entries), isExtDir, ignore, exts)
         == FromEntry(dir, entries[0], isExtDir, ignore, exts)
             + Collected(dir, Tests(entries[1..]), isExtDir, ignore, exts)
    ensures IgnoredCount(Tests(entries), isExtDir, ignore, exts)
         == IgnoredOfEntry(entries[0], isExtDir, ignore, exts)
             + IgnoredCount(Tests(entries[1..]), isExtDir, ignore, exts)
  {
    var e, rest := entries[0], Tests(entries[1..]);
    var self := if IsTest(e) then [Place([], e.name)] else [];
    CollectedSelf(dir, e, isExtDir, ignore, exts);
    if IsEntered(e) {
      var below := Below(e.name, Tests(e.entries));
      CollectedConcat(dir, below + self, rest, isExtDir, ignore, exts);
      CollectedConcat(dir, below, self, isExtDir, ignore, exts);
      IgnoredConcat(below + self, rest, isExtDir, ignore, exts);
      IgnoredConcat(below, self, isExtDir, ignore, exts);
      CollectedBelow(dir, e.name, Tests(e.entries), isExtDir, ignore, exts);
    } else {
      assert [] + self == self;
      CollectedConcat(dir, self, rest, isExtDir, ignore, exts);
      IgnoredConcat(self, rest, isExtDir, ignore, exts);
      assert FromEntry(dir, e, isExtDir, ignore, exts) == [] + Collected(dir, self, isExtDir, ignore, exts);
      assert [] + Collected(dir, self, isExtDir, ignore, exts) == Collected(dir, self, isExtDir, ignore, exts);
    }
  }

  lemma CollectedSelf(dir: string, e: Entry, isExtDir: bool, ignore: bool, exts: set<string>)
    ensures Collected(dir, [Place([], e.name)], isExtDir, ignore, exts) == if ignore then [] else [dir + "/" + e.name]
    ensures IgnoredCount([Place([], e.name)], isExtDir, ignore, exts) == if ignore then 1 else 0
  {
    var ps := [Place([], e.name)];
    assert ps[1..] == [];
    assert Collected(dir, ps[1..], isExtDir, ignore, exts) == [];
  }

  class Scanner {
    const exts: set<string>
    var testFiles: seq<string>
    var ignored: nat
    var extsSkipped: nat

    constructor (exts: set<string>)
      ensures this.exts == exts && testFiles == [] && ignored == 0 && extsSkipped == 0
    {
      this.exts := exts;
      testFiles, ignored, extsSkipped := [], 0, 0;
    }

    method FindFiles(dir: string, entries: seq<Entry>, isExtDir: bool, ignore: bool)
      modifies this
      ensures testFiles == old(testFiles) + Collected(dir, Tests(entries), isExtDir, ignore, exts)
      ensures ignored == old(ignored) + IgnoredCount(Tests(entries), isExtDir, ignore, exts)
      ensures extsSkipped == old(extsSkipped) + SkippedExts(entries, isExtDir, exts)
      decreases entries, 1
    {
      ghost var goal, total := testFiles + Collected(dir, Tests(entries), isExtDir, ignore, exts),
                               ignored + IgnoredCount(Tests(entries), isExtDir, ignore, exts);
      ghost var i := 0;
      var rest := entries;  // what readdir has not delivered yet
      while rest != []
        invariant i <= |entries| && rest == entries[i..]
        invariant testFiles + Collected(dir, Tests(rest), isExtDir, ignore, exts) == goal
        invariant ignored + IgnoredCount(Tests(rest), isExtDir, ignore, exts) == total
        invariant extsSkipped + SkippedExts(rest, isExtDir, exts)
                == old(extsSkipped) + SkippedExts(entries, isExtDir, exts)
        decreases |rest|
      {
        var e := rest[0];
        assert e == entries[i];
        Assoc(testFiles, FromEntry(dir, e, isExtDir, ignore, exts),
            Collected(dir, Tests(rest[1..]), isExtDir, ignore, exts));
        CollectedStep(dir, rest, isExtDir, ignore, exts);
        Visit(dir, e, isExtDir, ignore);
        rest, i := rest[1..], i + 1;
      }
      assert testFiles + [] == testFiles;
    }

    /** The body of the loop. */
    method Visit(dir: string, e: Entry, isExtDir: bool, ignore: bool)
      modifies this
      ensures testFiles == old(testFiles) + FromEntry(dir, e, isExtDir, ignore, exts)
      ensures ignored == old(ignored) + IgnoredOfEntry(e, isExtDir, ignore, exts)
      ensures extsSkipped == old(extsSkipped) + if IsEntered(e) && isExtDir && Lower(e.name) !in exts then 1 else 0
      decreases e, 0
    {
      if e.Dir? && e.name !in {".", "..", ".svn"} {
        var skipExt := isExtDir && Lower(e.name) !in exts;
        if skipExt {
          extsSkipped := extsSkipped + 1;
        }
        FindFiles(dir + "/" + e.name, e.entries, false, ignore || skipExt);
        NoExtsBelow(e.entries, exts);
      }
      ghost var below := testFiles;
      if !EndsWith(e.name, ".tmp") && EndsWith(e.name, ".phpt") {
        if ignore {
          ignored := ignored + 1;
        } else {
          testFiles := testFiles + [dir + "/" + e.name];
        }
      }
      assert testFiles == below + if IsTest(e) && !ignore then [dir + "/" + e.name] else [];
    }
  }

  lemma Assoc(a: seq<string>, b: seq<string>, c: seq<string>)
    ensures a + (b + c) == a + b + c
  {
  }

  // ---------------------------------------------------------------- names

  /** A test is whatever has a name ending in .phpt, directories included. */
  lemma TestIff(e: Entry, base: string)
    requires |e.name| >= 5 ==> base == e.name[..|e.name| - 5]
    ensures IsTest(e) <==> e.name == base + ".phpt"
  {
    if e.name == base + ".phpt" { assert e.name[|e.name| - 5..] == ".phpt" && e.name[|e.name| - 4..] == "phpt"; }
  }

  /** Nothing below `.`, `..` and `.svn` is met; of any other directory everything is. */
  lemma DirectoryEntered(name: string, entries: seq<Entry>, p: Place)
    ensures p in Tests([Dir(name, entries)]) <==>
            || (p.trail == [] && p.name == name && IsTest(Dir(name, entries)))
            || (name != "." && name != ".." && name != ".svn" && p.trail != [] && p.trail[0] == name
                && Place(p.trail[1..], p.name) in Tests(entries))
  {
    TestsOfEntry(Dir(name, entries), p);
    assert Tests([Dir(name, entries)]) == TestsOf(Dir(name, entries)) + Tests([]) == TestsOf(Dir(name, entries)) + [];
  }

  /** The path of a test names the directories on the way to it. */
  lemma {:induction false} PathJoins(dir: string, p: Place)
    ensures Path(dir, p) == Implode("/", [dir] + p.trail + [p.name])
    decreases |p.trail|
  {
    if p.trail == [] {
      assert [dir] + p.trail + [p.name] == [dir, p.name];
      assert [dir, p.name][1..] == [p.name];
    } else {
      var rest := p.trail[1..] + [p.name];
      PathJoins(dir + "/" + p.trail[0], Place(p.trail[1..], p.name));
      assert [dir] + p.trail + [p.name] == [dir, p.trail[0]] + rest;
      assert [dir + "/" + p.trail[0]] + p.trail[1..] + [p.name] == [dir + "/" + p.trail[0]] + rest;
      JoinTwo(dir, p.trail[0], rest);
    }
  }

  lemma JoinTwo(a: string, b: string, rest: seq<string>)
    requires rest != []
    ensures Implode("/", [a, b] + rest) == Implode("/", [a + "/" + b] + rest)
  {
    assert ([a, b] + rest)[1..] == [b] + rest && ([b] + rest)[1..] == rest;
    assert ([a + "/" + b] + rest)[1..] == rest;
    assert a + "/" + (b + "/" + Implode("/", rest)) == a + "/" + b + "/" + Implode("/", rest);
  }

  lemma OneTestBelow(entries: seq<Entry>)
    requires entries == [Dir("GD", [File("a.phpt")])]
    ensures Tests(entries) == [Place(["GD"], "a.phpt")]
  {
    TestIff(File("a.phpt"), "a");
    TestIff(entries[0], "");
    assert Tests(entries[0].entries) == [] + [Place([], "a.phpt")] + [];
    var trail: seq<string> := ["GD"];
    assert trail + [] == trail;
    assert Below("GD", [Place([], "a.phpt")]) == [Place(trail, "a.phpt")];
    assert Tests(entries) == Below("GD", [Place([], "a.phpt")]) + [] + [];
  }

  /** For instance an extension, whose name is looked up in small letters. */
  lemma ExtensionLookedUp(entries: seq<Entry>, exts: set<string>)
    requires entries == [Dir("GD", [File("a.phpt")])]
    ensures Collected("ext", Tests(entries), true, false, exts) == if "gd" in exts then ["ext/GD/a.phpt"] else []
    ensures IgnoredCount(Tests(entries), true, false, exts) == if "gd" in exts then 0 else 1
    ensures SkippedExts(entries, true, exts) == if "gd" in exts then 0 else 1
  {
    OneTestBelow(entries);
    var place := Place(["GD"], "a.phpt");
    assert place.trail[1..] == [] && Lower("GD") == "gd";
    assert "ext" + "/" + "GD" == "ext/GD" && "ext/GD" + "/" + "a.phpt" == "ext/GD/a.phpt";
    assert Path("ext", place) == Path("ext/GD", Place([], "a.phpt"));
  }
}

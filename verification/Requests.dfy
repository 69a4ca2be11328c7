/** The body of a raw request: its lines, without those that set a content type. */
module Requests {
  import opened PhpStrings

  const TYPE_HEADER: string := "Content-Type:"

  /** `/^Content-Type:(.*)/i`. */
  predicate IsTypeLine(line: string) {
    |line| >= |TYPE_HEADER| && forall k :: 0 <= k < |TYPE_HEADER| ==> LowerChar(line[k]) == LowerChar(TYPE_HEADER[k])
  }

  function TypeOf(line: string): string
    requires IsTypeLine(line)
  {
    Trim(StrReplace("\r", "", line[|TYPE_HEADER|..]))
  }

  /** The lines that belong to the body.  `typed`: a content type is known already. */
  function BodyLines(lines: seq<string>, typed: bool): seq<string> {
    if lines == [] then []
    else if !typed && IsTypeLine(lines[0]) then BodyLines(lines[1..], Truthy(TypeOf(lines[0])))
    else [lines[0]] + BodyLines(lines[1..], typed)
  }

  function RequestOf(post: string, typed: bool): string { Implode("\n", BodyLines(Explode(Trim(post)), typed)) }

  /** The loop over the lines. */
  method BuildRequest(post: string, typed: bool) returns (request: string)
    ensures request == RequestOf(post, typed)
  {
    var rawLines, known, started := Explode(Trim(post)), typed, false;
    request := "";
    ghost var body := BodyLines(rawLines, typed);
    ghost var done: seq<string> := [];
    var i := 0;
    assert rawLines[0..] == rawLines && [] + body == body;
    while i < |rawLines|
      invariant i <= |rawLines|
      invariant done + BodyLines(rawLines[i..], known) == body
      invariant request == Implode("\n", done) && (started <==> done != [])
    {
      var line := rawLines[i];
      BodyRound(rawLines, i, known, done, body);
      i := i + 1;
      if !known && IsTypeLine(line) {
        known := Truthy(TypeOf(line));
      } else {
        ImplodeSnoc("\n", done, line);
        if started {
          request := request + "\n";
        }
        started := true;
        request := request + line;
        done := done + [line];
      }
    }
    assert done + [] == done;
  }

  /** One round: a content-type line is dropped, any other line is done. */
  lemma BodyRound(lines: seq<string>, i: nat, known: bool, done: seq<string>, body: seq<string>)
    requires i < |lines| && done + BodyLines(lines[i..], known) == body
    ensures if !known && IsTypeLine(lines[i]) then done + BodyLines(lines[i + 1..], Truthy(TypeOf(lines[i]))) == body
            else (done + [lines[i]]) + BodyLines(lines[i + 1..], known) == body
  {
    assert lines[i..][0] == lines[i] && lines[i..][1..] == lines[i + 1..];
    if known || !IsTypeLine(lines[i]) {
      var rest := BodyLines(lines[i + 1..], known);
      assert done + ([lines[i]] + rest) == (done + [lines[i]]) + rest;
    }
  }

  lemma {:induction false} ImplodeSnoc(sep: string, ls: seq<string>, l: string)
    ensures Implode(sep, ls + [l]) == if ls == [] then l else Implode(sep, ls) + sep + l
  {
    if |ls| == 1 {
      assert (ls + [l])[1..] == [l];
    } else if |ls| > 1 {
      ImplodeSnoc(sep, ls[1..], l);
      assert (ls + [l])[1..] == ls[1..] + [l];
      assert ls[0] + sep + (Implode(sep, ls[1..]) + sep + l) == ls[0] + sep + Implode(sep, ls[1..]) + sep + l;
    } else {
      assert ls + [l] == [l];
    }
  }

  /** Nothing is left of a request if and only if no line, one empty line or one line "0" belongs to its body. */
  lemma NothingLeftIff(post: string, typed: bool)
    ensures var body := BodyLines(Explode(Trim(post)), typed);
            !Truthy(RequestOf(post, typed)) <==> body == [] || body == [""] || body == ["0"]
  {
    var body := BodyLines(Explode(Trim(post)), typed);
    if |body| == 1 {
      assert body == [body[0]];
    } else if |body| > 1 {
      var request := RequestOf(post, typed);
      assert request[|body[0]|] == '\n';
    }
  }

  // ---------------------------------------------------------------- content types

  /** A line sets the type if and only if it begins with the header, in whatever case. */
  lemma TypeLineIff(line: string)
    ensures IsTypeLine(line) <==> |line| >= 13 && Lower(line[..13]) == "content-type:"
  {
    assert |TYPE_HEADER| == 13 && Lower(TYPE_HEADER) == "content-type:";
    if |line| >= 13 && Lower(line[..13]) == "content-type:" {
      forall k | 0 <= k < 13 ensures LowerChar(line[k]) == LowerChar(TYPE_HEADER[k]) {
        assert LowerChar(line[..13][k]) == Lower(line[..13])[k] && Lower(TYPE_HEADER)[k] == LowerChar(TYPE_HEADER[k]);
      }
    }
  }

  /** A request without a line that sets the type, or with the type known, is kept whole. */
  lemma {:induction false} OtherLinesStay(lines: seq<string>, typed: bool)
    requires typed || forall k :: 0 <= k < |lines| ==> !IsTypeLine(lines[k])
    ensures BodyLines(lines, typed) == lines
    decreases |lines|
  {
    if lines == [] {
    } else {
      OtherLinesStay(lines[1..], typed);
    }
  }

  lemma RequestStays(post: string, typed: bool, lines: seq<string>)
    requires lines == Explode(Trim(post)) && (typed || forall k :: 0 <= k < |lines| ==> !IsTypeLine(lines[k]))
    ensures RequestOf(post, typed) == Trim(post)
  {
    OtherLinesStay(lines, typed);
    ImplodeExplode(Trim(post));
  }

  /** The first line that names a type is dropped, and no other one behind it. */
  lemma {:induction false} TypeLineDropped(pre: seq<string>, line: string, post: seq<string>)
    requires IsTypeLine(line) && Truthy(TypeOf(line)) && forall k :: 0 <= k < |pre| ==> !IsTypeLine(pre[k])
    ensures BodyLines(pre + [line] + post, false) == pre + post
    decreases |pre|
  {
    var lines := pre + [line] + post;
    if pre == [] {
      assert lines[0] == line && lines[1..] == post && [] + post == post;
      OtherLinesStay(post, true);
    } else {
      assert lines[0] == pre[0] && lines[1..] == pre[1..] + [line] + post;
      TypeLineDropped(pre[1..], line, post);
      assert [pre[0]] + (pre[1..] + post) == pre + post;
    }
  }

  /** A header without a type is dropped as well, and the next one counts. */
  lemma EmptyTypeDropped(line: string, post: seq<string>)
    requires IsTypeLine(line) && TypeOf(line) in {"", "0"}
    ensures BodyLines([line] + post, false) == BodyLines(post, false)
  {
    assert ([line] + post)[1..] == post;
  }
}

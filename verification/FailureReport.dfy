/** From a failed test to its diff: the regular expression has as many lines as the wanted
    text, so that every line the diff reports as missing is a line of that text. */
module FailureReport {
  import opened PhpStrings
  import opened ExpectF
  import opened Expectations
  import opened ArrayDiff
  import opened DiffTheorems
  import opened DiffText

  const HEADER_MARK := "\n--HEADERS--\n"

  /** Failed headers are put in front, quoted in the regular expression. */
  function ReportedText(e: Expectation, headers: Option<string>): string {
    match headers
    case None => WantedText(e)
    case Some(h) => h + HEADER_MARK + WantedText(e)
  }

  function ReportedRe(e: Expectation, headers: Option<string>, sep: char): Option<string> {
    match (WantedRe(e, sep), headers)
    case (None, _) => None
    case (Some(re), None) => Some(re)
    case (Some(re), Some(h)) => Some(Quote(h + HEADER_MARK) + re)
  }

  /** Wanted text and regular expression have the same number of lines. */
  lemma SameNumberOfLines(e: Expectation, headers: Option<string>, sep: char)
    requires sep != '\n' && !e.Literal?
    ensures |Explode(ReportedRe(e, headers, sep).value)| == |Explode(ReportedText(e, headers))|
  {
    if e.Format? { CompileNewlines(Trim(e.text), sep); } else { NormaliseNewlines(Trim(e.text)); }
    if headers.Some? {
      var mark := headers.value + HEADER_MARK;
      QuoteNewlines(mark);
      CountNewlinesConcat(Quote(mark), WantedRe(e, sep).value);
      CountNewlinesConcat(mark, WantedText(e));
    }
  }

  /** For every kind of expectation, with or without failed headers, and whatever `preg_match` answers: the
      diff quotes wanted lines and output lines in order, and the lines it leaves out match one by one. */
  lemma ReportIsSound(e: Expectation, headers: Option<string>, sep: char, output: string, matches: Relation)
    requires sep != '\n'
    ensures var wanted, re := ReportedText(e, headers), ReportedRe(e, headers, sep);
            var d := DiffOf(wanted, re, output, matches);
            var r := if re.None? then Explode(wanted) else Explode(re.value);
            && Quotes(Side(d, true), Explode(wanted)) && Increasing(Lines(Side(d, true)), 0, |Explode(wanted)|)
            && Quotes(Side(d, false), Explode(output)) && Increasing(Lines(Side(d, false)), 0, |Explode(output)|)
            && Pairwise(Keep(r, Lines(Side(d, true)), 0), Keep(Explode(output), Lines(Side(d, false)), 0),
               CompLine(re.Some?, matches))
  {
    var wanted, re := ReportedText(e, headers), ReportedRe(e, headers, sep);
    var w, o := Explode(wanted), Explode(output);
    var r := if re.None? then w else Explode(re.value);
    var rel := CompLine(re.Some?, matches);
    if !e.Literal? { SameNumberOfLines(e, headers, sep); }
    DiffIsSound(r, o, rel, Looker(r, o, rel), w);
  }
}

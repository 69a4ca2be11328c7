/** What a test expects, and when an output meets it. */
module Expectations {
  import opened PhpStrings
  import opened ExpectF

  datatype Expectation = Literal(text: string) | Format(text: string) | Pattern(text: string)

  /** The expectation among the sections; a format comes before a pattern, a pattern before a literal text. */
  function ExpectationOf(text: map<string, string>): Expectation {
    if "EXPECTF" in text then Format(text["EXPECTF"])
    else if "EXPECTREGEX" in text then Pattern(text["EXPECTREGEX"])
    else Literal(if "EXPECT" in text then text["EXPECT"] else "")
  }

  /** The wanted text, and the regular expression if there is one. */
  function WantedText(e: Expectation): string {
    if e.Literal? then Normalise(Trim(e.text)) else Trim(e.text)
  }

  function WantedRe(e: Expectation, sep: char): Option<string> {
    match e
    case Literal(_) => None
    case Format(t) => Some(Compile(Trim(t), sep))
    case Pattern(t) => Some(Normalise(Trim(t)))
  }

  /** The length of an empty line, with the end of the line before it, in front of `s`: `\r?\n\r?\n`. */
  function BlankLine(s: string): (n: nat)
    ensures n <= |s|
  {
    if "\n\n" <= s then 2 else if "\n\r\n" <= s || "\r\n\n" <= s then 3 else if "\r\n\r\n" <= s then 4 else 0
  }

  /** What follows the headers of an answer, if there are any. */
  function AfterHeaders(s: string): Option<string> {
    if BlankLine(s) > 0 then Some(s[BlankLine(s)..]) else if s == [] then None else AfterHeaders(s[1..])
  }

  /** The output as it is compared.  Behind the headers of a CGI answer line ends are left as they are. */
  function Cleaned(printed: string, cgi: bool): string {
    match (cgi, AfterHeaders(printed))
    case (true, Some(body)) => Trim(body)
    case _ => Normalise(Trim(printed))
  }

  /** Literal texts are compared; otherwise the pattern engine is asked. */
  predicate Meets(e: Expectation, output: string, sep: char, preg: (string, string) -> bool) {
    match WantedRe(e, sep)
    case None => output == WantedText(e)
    case Some(re) => preg(re, output)
  }

  method CompareOutput(e: Expectation, output: string, sep: char, preg: (string, string) -> bool) returns (passed: bool)
    ensures passed == Meets(e, output, sep, preg)
  {
    if e.Format? || e.Pattern? {
      var wanted := Trim(e.text);
      var wantedRe := Normalise(wanted);
      if e.Format? {
        wantedRe := CompileExpectf(wanted, sep);
      }
      passed := preg(wantedRe, output);
    } else {
      var wanted := Normalise(Trim(e.text));
      passed := output == wanted;
    }
  }
}

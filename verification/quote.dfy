/**
 * The block-quote pass of `transform_text` (slackchannel2pdf/message_transformer.py):
 * `re.sub(r"^>(.+)", r"<blockquote>\1</blockquote>", text, 0, re.MULTILINE)`, read line by
 * line, and the two readings of it the proofs in `Transformer` compare.
 */
module Quote {
  import opened Text
  import Emphasis

  const QuoteOpen: string := "<blockquote>"
  const QuoteClose: string := "</blockquote>"

  /** `^>(.+)` on one line: a line of at least two characters starting with `>` is quoted. */
  function QuoteLine(l: string): string {
    if |l| >= 2 && l[0] == '>' then QuoteOpen + l[1..] + QuoteClose else l
  }

  /** `re.sub(r"^>(.+)", r"<blockquote>\1</blockquote>", text, 0, re.MULTILINE)`, from position `i`. */
  function QuoteFrom(s: string, i: nat): string
    requires i <= |s|
    decreases |s| - i
  {
    var e := Emphasis.LineEnd(s, i);
    if e == |s| then QuoteLine(s[i..e])
    else QuoteLine(s[i..e]) + "\n" + QuoteFrom(s, e + 1)
  }

  function QuotePass(s: string): string {
    QuoteFrom(s, 0)
  }

  /** `QuoteLine` applied to every line. */
  function QuoteLines(lines: seq<string>): (r: seq<string>)
    ensures |r| == |lines|
    ensures forall k :: 0 <= k < |lines| ==> r[k] == QuoteLine(lines[k])
  {
    if lines == [] then [] else [QuoteLine(lines[0])] + QuoteLines(lines[1..])
  }

  /** The block-quote pass leaves the text from `i` as it is. */
  predicate UnquotedFrom(s: string, i: nat) {
    i <= |s| && QuoteFrom(s, i) == s[i..]
  }

  /** The block-quote pass from `i` agrees with quoting the lines from `i` one by one. */
  predicate LineWiseFrom(s: string, i: nat) {
    i <= |s| && QuoteFrom(s, i) == Join(QuoteLines(Split(s[i..], '\n')), '\n')
  }
}

/**
 * `transform_text` (slackchannel2pdf/message_transformer.py, and `_transform_text` in
 * slackchannel2pdf/slackchannel2pdf.py): entity decoding, then, when markup is
 * requested, the `<...>` spans, bold, italic, code, block quotes, the
 * `</blockquote><br>` collapse and the newline-to-`<br>` conversion, in that order.
 */
module Transformer {
  import opened Wrappers
  import opened Text
  import Encoding
  import Mentions
  import Brackets
  import Emphasis
  import opened Quote

  const Break: string := "<br>"
  const CollapsePattern: string := "</blockquote><br>"

  /** `text.replace("</blockquote><br>", "</blockquote>")`. */
  function Collapse(s: string): string {
    ReplaceAll(s, CollapsePattern, QuoteClose)
  }

  /** `text.replace("\n", "<br>")`. */
  function Breaks(s: string): (r: string)
    ensures '\n' !in r
    ensures '\n' !in s ==> r == s
  {
    ReplaceAllOneChar(s, '\n', Break);
    ReplaceAll(s, "\n", Break)
  }

  /** The markup passes, applied to text whose entities are already decoded. */
  function MarkupPasses(t: Mentions.Tables, fmt: Mentions.DateFormatter, mono: string, s: string): string {
    var spans := Brackets.BracketPass(t, fmt, s);
    var bold := Emphasis.Apply(Emphasis.Bold, spans);
    var italic := Emphasis.Apply(Emphasis.Italic, bold);
    var code := Emphasis.Apply(Emphasis.Code(mono), italic);
    Breaks(Collapse(QuotePass(code)))
  }

  /** `transform_text(text, use_mrkdwn)`, with `mono` the monospace font family of code spans. */
  function TransformText(t: Mentions.Tables, fmt: Mentions.DateFormatter, mono: string, text: string, useMrkdwn: bool): (r: string)
    ensures !useMrkdwn ==> r == Encoding.TransformEncoding(text)
    ensures useMrkdwn ==> '\n' !in r
  {
    var decoded := Encoding.TransformEncoding(text);
    if useMrkdwn then MarkupPasses(t, fmt, mono, decoded) else decoded
  }

  // ---------------------------------------------------------------------------
  // The collapse never fires on quote tags the pass inserts.

  /** `s` holds no `<br`, the start of a line break tag. */
  predicate NoBreakTag(s: string) {
    forall k :: 0 <= k < |s| ==> !PrefixAt(s, k, "<br")
  }

  /** A piece of a text without `<br` has none either. */
  lemma {:induction false} NoBreakTagSlice(s: string, i: nat, j: nat)
    requires i <= j <= |s| && NoBreakTag(s)
    ensures NoBreakTag(s[i..j])
  {
    var x := s[i..j];
    forall k | 0 <= k < |x|
      ensures !PrefixAt(x, k, "<br")
    {
      assert !PrefixAt(s, i + k, "<br");
      if k + 3 <= |x| {
        assert x[k] == s[i + k] && x[k + 1] == s[i + k + 1] && x[k + 2] == s[i + k + 2];
        assert x[k..k + 3] == [x[k], x[k + 1], x[k + 2]];
        assert s[i + k..i + k + 3] == [s[i + k], s[i + k + 1], s[i + k + 2]];
      }
    }
  }

  /** A text has no `<br` when no `<` in it is followed by `b` and `r`. */
  lemma {:induction false} NoBreakTagByChars(s: string)
    requires forall k :: 0 <= k < |s| - 2 ==> s[k] != '<' || s[k + 1] != 'b' || s[k + 2] != 'r'
    ensures NoBreakTag(s)
  {
    forall k | 0 <= k < |s|
      ensures !PrefixAt(s, k, "<br")
    {
      if k + 3 <= |s| {
        assert s[k..k + 3] == [s[k], s[k + 1], s[k + 2]];
      }
    }
  }

  /**
   * Gluing two texts without `<br` makes none, unless the end of the first and the start
   * of the second spell it out between them.
   */
  lemma {:induction false} NoBreakTagConcat(a: string, b: string)
    requires NoBreakTag(a) && NoBreakTag(b)
    requires b == [] || (b[0] != 'b' && b[0] != 'r')
      || ((|a| < 1 || a[|a| - 1] != '<') && (|a| < 2 || a[|a| - 2] != '<' || a[|a| - 1] != 'b'))
    ensures NoBreakTag(a + b)
  {
    var s := a + b;
    forall k | 0 <= k < |s|
      ensures !PrefixAt(s, k, "<br")
    {
      if k + 3 <= |s| {
        if k + 3 <= |a| {
          assert a[k..k + 3] == s[k..k + 3];
          assert !PrefixAt(a, k, "<br");
        } else if k >= |a| {
          assert b[k - |a|..k - |a| + 3] == s[k..k + 3];
          assert !PrefixAt(b, k - |a|, "<br");
        } else {
          assert s[k..k + 3] == [s[k], s[k + 1], s[k + 2]];
          assert s[k] == a[k] && s[|a|] == b[0];
        }
      }
    }
  }

  lemma {:induction false} QuoteTagsHaveNoBreakTag()
    ensures NoBreakTag(QuoteOpen) && NoBreakTag(QuoteClose) && NoBreakTag("\n")
  {
    NoBreakTagByChars(QuoteOpen);
    NoBreakTagByChars(QuoteClose);
    NoBreakTagByChars("\n");
  }

  /** Quoting a line adds no `<br`. */
  lemma {:induction false} QuoteLineNoBreakTag(l: string)
    requires NoBreakTag(l)
    ensures NoBreakTag(QuoteLine(l))
  {
    if |l| >= 2 && l[0] == '>' {
      QuoteTagsHaveNoBreakTag();
      NoBreakTagSlice(l, 1, |l|);
      var mid := l[1..];
      assert l[1..|l|] == mid;
      assert |QuoteOpen| == 12 && QuoteOpen[10] == 'e' && QuoteOpen[11] == '>';
      assert QuoteClose[0] == '<';
      NoBreakTagConcat(QuoteOpen, mid);
      NoBreakTagConcat(QuoteOpen + mid, QuoteClose);
    }
  }

  /** One step of the block-quote pass: a line that ends in a newline. */
  lemma {:induction false} QuoteFromStep(s: string, i: nat, e: nat)
    requires i <= |s| && e == Emphasis.LineEnd(s, i) && e < |s|
    ensures QuoteFrom(s, i) == QuoteLine(s[i..e]) + "\n" + QuoteFrom(s, e + 1)
  {
    assert Emphasis.LineEnd(s, i) != |s|;
  }

  /** A line without `<br`, a newline and a text without `<br` make none. */
  lemma {:induction false} NoBreakTagLine(line: string, rest: string)
    requires NoBreakTag(line) && NoBreakTag(rest)
    ensures NoBreakTag(line + "\n" + rest)
  {
    QuoteTagsHaveNoBreakTag();
    NoBreakTagConcat(line, "\n");
    var a := line + "\n";
    assert a[|a| - 1] == '\n';
    NoBreakTagConcat(a, rest);
  }

  /** The block-quote pass adds no `<br`. */
  lemma {:induction false} QuoteFromNoBreakTag(s: string, i: nat)
    requires i <= |s| && NoBreakTag(s)
    ensures NoBreakTag(QuoteFrom(s, i))
    decreases |s| - i
  {
    var e := Emphasis.LineEnd(s, i);
    NoBreakTagSlice(s, i, e);
    QuoteLineNoBreakTag(s[i..e]);
    if e < |s| {
      QuoteFromNoBreakTag(s, e + 1);
      NoBreakTagLine(QuoteLine(s[i..e]), QuoteFrom(s, e + 1));
      QuoteFromStep(s, i, e);
    }
  }

  /**
   * The collapse of `</blockquote><br>` changes nothing after the block-quote pass, as long as
   * the text reaching that pass holds no `<br`: the pass emits `</blockquote>` only at a line
   * end, and newlines become `<br>` only afterwards.
   */
  lemma {:induction false} CollapseIsInert(s: string)
    requires NoBreakTag(s)
    ensures Collapse(QuotePass(s)) == QuotePass(s)
  {
    var q := QuotePass(s);
    QuoteFromNoBreakTag(s, 0);
    forall k | 0 <= k < |q|
      ensures !PrefixAt(q, k, CollapsePattern)
    {
      if PrefixAt(q, k, CollapsePattern) {
        CollapseHoldsBreakTag(q, k);
      }
    }
    ReplaceAllAbsent(q, CollapsePattern, QuoteClose);
  }

  /** Where `</blockquote><br>` occurs, a `<br` starts 13 characters later. */
  lemma {:induction false} CollapseHoldsBreakTag(q: string, k: nat)
    requires PrefixAt(q, k, CollapsePattern)
    ensures PrefixAt(q, k + 13, "<br")
  {
    var w := q[k..k + 17];
    assert w == CollapsePattern;
    assert w[13] == '<' && w[14] == 'b' && w[15] == 'r';
    assert q[k + 13..k + 16] == [w[13], w[14], w[15]];
  }

  // ---------------------------------------------------------------------------
  // The block-quote pass, line by line.

  /** The line end is the first newline at or after `i`. */
  lemma {:induction false} LineEndAt(s: string, i: nat, e: nat)
    requires i <= e < |s| && s[e] == '\n'
    requires forall k :: i <= k < e ==> s[k] != '\n'
    ensures Emphasis.LineEnd(s, i) == e
  {
  }

  /** The last step of the block-quote pass: a line that runs to the end of the text. */
  lemma {:induction false} QuoteFromLast(s: string, i: nat)
    requires i <= |s| && Emphasis.LineEnd(s, i) == |s|
    ensures QuoteFrom(s, i) == QuoteLine(s[i..])
  {
  }

  /** Splitting the text from `i` on newlines yields the line at `i` first. */
  lemma {:induction false} SplitAtLineEnd(s: string, i: nat, e: nat)
    requires i <= |s| && e == Emphasis.LineEnd(s, i)
    ensures e == |s| ==> Split(s[i..], '\n') == [s[i..]]
    ensures e < |s| ==> Split(s[i..], '\n') == [s[i..e]] + Split(s[e + 1..], '\n')
  {
    var x := s[i..];
    if e == |s| {
      assert forall k :: 0 <= k < |x| ==> x[k] == s[i + k];
      assert '\n' !in x;
    } else {
      assert x[e - i] == '\n';
      var j := IndexOf(x, '\n').value;
      assert forall k :: 0 <= k < e - i ==> x[k] == s[i + k];
      assert j == e - i;
      assert x[..j] == s[i..e];
      assert x[j + 1..] == s[e + 1..];
    }
  }

  /** Joining a head line onto at least one further line puts a separator between them. */
  lemma {:induction false} JoinCons(x: string, rest: seq<string>, sep: char)
    requires |rest| >= 1
    ensures Join([x] + rest, sep) == x + [sep] + Join(rest, sep)
  {
    assert ([x] + rest)[1..] == rest;
  }

  /** `text.replace("\n", "<br>")` on a first line, a newline and the rest. */
  lemma {:induction false} BreaksLine(a: string, b: string)
    requires '\n' !in a
    ensures ReplaceChar(a + "\n" + b, '\n', Break) == a + Break + ReplaceChar(b, '\n', Break)
  {
    ReplaceCharConcat(a + "\n", b, '\n', Break);
    ReplaceCharConcat(a, "\n", '\n', Break);
    assert ReplaceChar("\n", '\n', Break) == Break + ReplaceChar([], '\n', Break);
  }

  /** Quoting the lines of a head line and at least one further line. */
  lemma {:induction false} QuoteLinesCons(l: string, rest: seq<string>)
    requires |rest| >= 1
    ensures Join(QuoteLines([l] + rest), '\n') == QuoteLine(l) + "\n" + Join(QuoteLines(rest), '\n')
  {
    assert QuoteLines([l] + rest) == [QuoteLine(l)] + QuoteLines(rest);
    JoinCons(QuoteLine(l), QuoteLines(rest), '\n');
  }

  /**
   * The block-quote pass is the line-by-line reading of `^>(.+)` under `re.MULTILINE`: split
   * the text on newlines, quote each line, and join the lines again.
   */
  lemma {:induction false} QuoteFromIsLineWise(s: string, i: nat)
    requires i <= |s|
    ensures LineWiseFrom(s, i)
    decreases |s| - i
  {
    hide *;
    var e := Emphasis.LineEnd(s, i);
    if e < |s| {
      QuoteFromIsLineWise(s, e + 1);
    }
    LineWiseLine(s, i, e);
  }

  /** The line from `i`, given the lines after it. */
  lemma {:induction false} LineWiseLine(s: string, i: nat, e: nat)
    requires i <= |s| && e == Emphasis.LineEnd(s, i)
    ensures e == |s| ==> LineWiseFrom(s, i)
    ensures e < |s| && LineWiseFrom(s, e + 1) ==> LineWiseFrom(s, i)
  {
    if e == |s| {
      LineWiseLast(s, i);
    } else if LineWiseFrom(s, e + 1) {
      LineWiseStep(s, i, e);
    }
  }

  lemma {:induction false} LineWiseLast(s: string, i: nat)
    requires i <= |s| && Emphasis.LineEnd(s, i) == |s|
    ensures LineWiseFrom(s, i)
  {
    SplitAtLineEnd(s, i, |s|);
    QuoteFromLast(s, i);
    assert QuoteLines([s[i..]]) == [QuoteLine(s[i..])];
  }

  lemma {:induction false} LineWiseStep(s: string, i: nat, e: nat)
    requires i <= |s| && e == Emphasis.LineEnd(s, i) && e < |s|
    requires LineWiseFrom(s, e + 1)
    ensures LineWiseFrom(s, i)
  {
    SplitAtLineEnd(s, i, e);
    QuoteFromStep(s, i, e);
    QuoteLinesCons(s[i..e], Split(s[e + 1..], '\n'));
  }

  lemma {:induction false} QuotePassIsLineWise(s: string)
    ensures QuotePass(s) == Join(QuoteLines(Split(s, '\n')), '\n')
  {
    QuoteFromIsLineWise(s, 0);
    assert LineWiseFrom(s, 0);
    assert s[0..] == s;
  }

  /** A piece of a text without `>` has none either. */
  lemma {:induction false} NoQuoteInSlice(s: string, i: nat, j: nat)
    requires i <= j <= |s| && '>' !in s
    ensures '>' !in s[i..j] && QuoteLine(s[i..j]) == s[i..j]
  {
    assert forall k :: 0 <= k < j - i ==> s[i..j][k] == s[i + k];
  }

  /** The text from `i` is its line, the newline, and the text after it. */
  lemma {:induction false} LineAndRest(s: string, i: nat, e: nat)
    requires i <= e < |s| && s[e] == '\n'
    ensures s[i..] == s[i..e] + "\n" + s[e + 1..]
  {
  }

  /** Text in which no line starts with `>` is not quoted. */
  lemma {:induction false} QuoteFromWithoutQuotes(s: string, i: nat)
    requires i <= |s| && '>' !in s
    ensures UnquotedFrom(s, i)
    decreases |s| - i
  {
    var e := Emphasis.LineEnd(s, i);
    if e == |s| {
      WithoutQuotesLast(s, i);
    } else {
      QuoteFromWithoutQuotes(s, e + 1);
      WithoutQuotesStep(s, i, e);
    }
  }

  lemma {:induction false} WithoutQuotesLast(s: string, i: nat)
    requires i <= |s| && '>' !in s && Emphasis.LineEnd(s, i) == |s|
    ensures UnquotedFrom(s, i)
  {
    NoQuoteInSlice(s, i, |s|);
    QuoteFromLast(s, i);
  }

  lemma {:induction false} WithoutQuotesStep(s: string, i: nat, e: nat)
    requires i <= |s| && '>' !in s && e == Emphasis.LineEnd(s, i) && e < |s|
    requires UnquotedFrom(s, e + 1)
    ensures UnquotedFrom(s, i)
  {
    NoQuoteInSlice(s, i, e);
    calc {
      QuoteFrom(s, i);
      { QuoteFromStep(s, i, e); }
      QuoteLine(s[i..e]) + "\n" + QuoteFrom(s, e + 1);
      s[i..e] + "\n" + s[e + 1..];
      { LineAndRest(s, i, e); }
      s[i..];
    }
  }

  lemma {:induction false} QuotePassWithoutQuotes(s: string)
    requires '>' !in s
    ensures QuotePass(s) == s
  {
    QuoteFromWithoutQuotes(s, 0);
    assert UnquotedFrom(s, 0);
  }

  /** Text without `<` holds no `<br`. */
  lemma {:induction false} NoBreakTagWithoutTags(s: string)
    requires '<' !in s
    ensures NoBreakTag(s)
  {
    NoBreakTagByChars(s);
  }

  /** Characters that neither entity decoding, pass 2 nor the emphasis passes react to. */
  predicate PlainChar(c: char) {
    c != '&' && c != '\t' && c != '<' && c != '*' && c != '_' && c != '`'
  }

  /** On plain text the emphasis passes and the collapse change nothing. */
  lemma {:induction false} FormattingPlain(mono: string, s: string)
    requires forall k :: 0 <= k < |s| ==> PlainChar(s[k])
    ensures Breaks(Collapse(QuotePass(
      Emphasis.Apply(Emphasis.Code(mono), Emphasis.Apply(Emphasis.Italic, Emphasis.Apply(Emphasis.Bold, s))))))
      == ReplaceChar(QuotePass(s), '\n', Break)
  {
    assert '*' !in s && '_' !in s && '`' !in s && '<' !in s;
    Emphasis.ApplyWithoutDelimiter(Emphasis.Bold, s);
    Emphasis.ApplyWithoutDelimiter(Emphasis.Italic, s);
    Emphasis.ApplyWithoutDelimiter(Emphasis.Code(mono), s);
    NoBreakTagWithoutTags(s);
    CollapseIsInert(s);
    ReplaceAllOneChar(QuotePass(s), '\n', Break);
  }

  /**
   * Text without entities, tabs, spans or emphasis characters is only quoted line by line,
   * with its newlines turned into `<br>`.
   */
  lemma {:induction false} PlainMarkup(t: Mentions.Tables, fmt: Mentions.DateFormatter, mono: string, text: string)
    requires forall k :: 0 <= k < |text| ==> PlainChar(text[k])
    ensures TransformText(t, fmt, mono, text, true) == ReplaceChar(QuotePass(text), '\n', Break)
  {
    assert '&' !in text && '\t' !in text && '<' !in text;
    assert Encoding.TransformEncoding(text) == text;
    Brackets.BracketPassWithoutBrackets(t, fmt, text);
    FormattingPlain(mono, text);
  }

  /** Three lines without newlines are joined by `<br>` tags. */
  lemma {:induction false} ThreeBreaks(a: string, b: string, c: string)
    requires '\n' !in a && '\n' !in b && '\n' !in c
    ensures ReplaceChar(a + "\n" + b + "\n" + c, '\n', Break) == a + Break + b + Break + c
  {
    assert a + "\n" + b + "\n" + c == a + "\n" + (b + "\n" + c);
    BreaksLine(a, b + "\n" + c);
    BreaksLine(b, c);
  }

  /** A text with no newline after `i` is one line. */
  lemma {:induction false} LineEndLast(s: string, i: nat)
    requires i <= |s| && forall k :: i <= k < |s| ==> s[k] != '\n'
    ensures Emphasis.LineEnd(s, i) == |s|
  {
  }

  /** Where the first of three lines ends. */
  lemma {:induction false} FirstOfThree(a: string, b: string, c: string)
    requires '\n' !in a
    ensures Emphasis.LineEnd(a + "\n" + b + "\n" + c, 0) == |a|
    ensures (a + "\n" + b + "\n" + c)[0..|a|] == a
  {
    var s := a + "\n" + b + "\n" + c;
    assert forall k :: 0 <= k < |a| ==> s[k] == a[k];
    LineEndAt(s, 0, |a|);
  }

  /** Where the second of three lines ends. */
  lemma {:induction false} SecondOfThree(a: string, b: string, c: string)
    requires '\n' !in b
    ensures Emphasis.LineEnd(a + "\n" + b + "\n" + c, |a| + 1) == |a| + 1 + |b|
    ensures (a + "\n" + b + "\n" + c)[|a| + 1..|a| + 1 + |b|] == b
  {
    var s := a + "\n" + b + "\n" + c;
    var i, j := |a| + 1, |a| + 1 + |b|;
    assert forall k :: i <= k < j ==> s[k] == b[k - i];
    LineEndAt(s, i, j);
  }

  /** The last of three lines runs to the end. */
  lemma {:induction false} LastOfThree(a: string, b: string, c: string)
    requires '\n' !in c
    ensures Emphasis.LineEnd(a + "\n" + b + "\n" + c, |a| + |b| + 2) == |a + "\n" + b + "\n" + c|
    ensures (a + "\n" + b + "\n" + c)[|a| + |b| + 2..] == c
  {
    var s := a + "\n" + b + "\n" + c;
    var j := |a| + |b| + 2;
    assert forall k :: j <= k < |s| ==> s[k] == c[k - j];
    LineEndLast(s, j);
  }

  /** One step of the block-quote pass, with the line given. */
  lemma {:induction false} QuoteStepAt(s: string, i: nat, e: nat, l: string)
    requires i <= |s| && e == Emphasis.LineEnd(s, i) && e < |s| && s[i..e] == l
    ensures QuoteFrom(s, i) == QuoteLine(l) + "\n" + QuoteFrom(s, e + 1)
  {
    QuoteFromStep(s, i, e);
  }

  /** The block-quote pass on a text whose three lines are known. */
  lemma {:induction false} QuoteOfLines(s: string, i: nat, j: nat, a: string, b: string, c: string)
    requires i < j < |s|
    requires Emphasis.LineEnd(s, 0) == i && s[0..i] == a
    requires Emphasis.LineEnd(s, i + 1) == j && s[i + 1..j] == b
    requires Emphasis.LineEnd(s, j + 1) == |s| && s[j + 1..] == c
    ensures QuotePass(s) == QuoteLine(a) + "\n" + QuoteLine(b) + "\n" + QuoteLine(c)
  {
    hide QuoteFrom, QuoteLine, Emphasis.LineEnd;
    QuoteOfLastTwo(s, i, j, b, c);
    QuoteStepAt(s, 0, i, a);
    LinesAssoc(QuoteLine(a), QuoteLine(b), QuoteLine(c));
  }

  /** The block-quote pass from the second of three known lines. */
  lemma {:induction false} QuoteOfLastTwo(s: string, i: nat, j: nat, b: string, c: string)
    requires i < j < |s|
    requires Emphasis.LineEnd(s, i + 1) == j && s[i + 1..j] == b
    requires Emphasis.LineEnd(s, j + 1) == |s| && s[j + 1..] == c
    ensures QuoteFrom(s, i + 1) == QuoteLine(b) + "\n" + QuoteLine(c)
  {
    hide *;
    QuoteStepAt(s, i + 1, j, b);
    QuoteFromLast(s, j + 1);
  }

  lemma {:induction false} LinesAssoc(x: string, y: string, z: string)
    ensures x + "\n" + (y + "\n" + z) == x + "\n" + y + "\n" + z
  {
  }

  /** The block-quote pass on three lines quotes each of them. */
  lemma {:induction false} QuoteThreeLines(a: string, b: string, c: string)
    requires '\n' !in a && '\n' !in b && '\n' !in c
    ensures QuotePass(a + "\n" + b + "\n" + c) == QuoteLine(a) + "\n" + QuoteLine(b) + "\n" + QuoteLine(c)
  {
    FirstOfThree(a, b, c);
    SecondOfThree(a, b, c);
    LastOfThree(a, b, c);
    QuoteOfLines(a + "\n" + b + "\n" + c, |a|, |a| + 1 + |b|, a, b, c);
  }

  /** Three plain lines are quoted one by one and joined by `<br>` tags. */
  lemma {:induction false} ThreePlainLines(t: Mentions.Tables, fmt: Mentions.DateFormatter, mono: string, a: string, b: string, c: string)
    requires forall k :: 0 <= k < |a| ==> PlainChar(a[k]) && a[k] != '\n'
    requires forall k :: 0 <= k < |b| ==> PlainChar(b[k]) && b[k] != '\n'
    requires forall k :: 0 <= k < |c| ==> PlainChar(c[k]) && c[k] != '\n'
    ensures TransformText(t, fmt, mono, a + "\n" + b + "\n" + c, true)
      == QuoteLine(a) + Break + QuoteLine(b) + Break + QuoteLine(c)
  {
    PlainLines(a, b, c);
    PlainMarkup(t, fmt, mono, a + "\n" + b + "\n" + c);
    QuoteThreeLines(a, b, c);
    QuoteLineKeepsLine(a);
    QuoteLineKeepsLine(b);
    QuoteLineKeepsLine(c);
    ThreeBreaks(QuoteLine(a), QuoteLine(b), QuoteLine(c));
  }

  /** Plain lines joined by newlines make plain text. */
  lemma {:induction false} PlainLines(a: string, b: string, c: string)
    requires forall k :: 0 <= k < |a| ==> PlainChar(a[k])
    requires forall k :: 0 <= k < |b| ==> PlainChar(b[k])
    requires forall k :: 0 <= k < |c| ==> PlainChar(c[k])
    ensures forall k :: 0 <= k < |a + "\n" + b + "\n" + c| ==> PlainChar((a + "\n" + b + "\n" + c)[k])
  {
    var s := a + "\n" + b + "\n" + c;
    forall k | 0 <= k < |s|
      ensures PlainChar(s[k])
    {
      if k < |a| {
        assert s[k] == a[k];
      } else if k == |a| {
        assert s[k] == '\n';
      } else if k < |a| + 1 + |b| {
        assert s[k] == b[k - |a| - 1];
      } else if k == |a| + 1 + |b| {
        assert s[k] == '\n';
      } else {
        assert s[k] == c[k - |a| - |b| - 2];
      }
    }
  }

  /** Quoting a line adds no newline. */
  lemma {:induction false} QuoteLineKeepsLine(l: string)
    requires '\n' !in l
    ensures '\n' !in QuoteLine(l)
  {
    assert '\n' !in QuoteOpen && '\n' !in QuoteClose;
    assert forall k :: 1 <= k < |l| ==> l[1..][k - 1] == l[k];
  }

  /** Each newline becomes a `<br>` tag. */
  lemma {:induction false} LinesBecomeBreaks(t: Mentions.Tables, fmt: Mentions.DateFormatter, mono: string)
    ensures TransformText(t, fmt, mono, "first" + "\n" + "second" + "\n" + "third", true)
      == "first" + Break + "second" + Break + "third"
  {
    ThreePlainLines(t, fmt, mono, "first", "second", "third");
  }

  /**
   * A line starting with `>` is quoted; the newline after the quote stays a `<br>`, because
   * the collapse runs before newlines become `<br>`.
   */
  lemma {:induction false} QuotedLineKeepsBreak(t: Mentions.Tables, fmt: Mentions.DateFormatter, mono: string)
    ensures TransformText(t, fmt, mono, "before ident" + "\n" + ">indented text" + "\n" + "after ident", true)
      == "before ident" + Break + QuoteOpen + "indented text" + QuoteClose + Break + "after ident"
  {
    ExampleLinesPlain();
    ThreePlainLines(t, fmt, mono, "before ident", ">indented text", "after ident");
    UnquotedLines();
    IndentedLine();
    QuotedMiddle("before ident", QuoteOpen, "indented text", QuoteClose, "after ident");
  }

  /** The lines of the block-quote example hold no markup character. */
  lemma {:induction false} ExampleLinesPlain()
    ensures forall k :: 0 <= k < |"before ident"| ==> PlainChar("before ident"[k]) && "before ident"[k] != '\n'
    ensures forall k :: 0 <= k < |">indented text"| ==> PlainChar(">indented text"[k]) && ">indented text"[k] != '\n'
    ensures forall k :: 0 <= k < |"after ident"| ==> PlainChar("after ident"[k]) && "after ident"[k] != '\n'
  {
  }

  /** The unquoted lines of the block-quote example. */
  lemma {:induction false} UnquotedLines()
    ensures QuoteLine("before ident") == "before ident"
    ensures QuoteLine("after ident") == "after ident"
  {
  }

  /** `>indented text` is quoted without its `>`. */
  lemma {:induction false} IndentedLine()
    ensures QuoteLine(">indented text") == QuoteOpen + "indented text" + QuoteClose
  {
    assert ">indented text"[1..] == "indented text";
  }

  /** A quoted middle line between two `<br>` tags. */
  lemma {:induction false} QuotedMiddle(a: string, o: string, x: string, c: string, b: string)
    ensures a + Break + (o + x + c) + Break + b == a + Break + o + x + c + Break + b
  {
  }

  /** A single line that does not start with `>` goes through the last three passes unchanged. */
  lemma {:induction false} SingleLineUnchanged(x: string)
    requires '\n' !in x && (x == [] || x[0] != '>') && NoBreakTag(x)
    ensures Breaks(Collapse(QuotePass(x))) == x
  {
    LineEndLast(x, 0);
    QuoteFromLast(x, 0);
    assert x[0..] == x;
    CollapseIsInert(x);
  }

  /** A code span over the whole text. */
  lemma {:induction false} CodeWord(mono: string)
    ensures Emphasis.Apply(Emphasis.Code(mono), "`code`") == Emphasis.OpenTag(Emphasis.Code(mono)) + "code</s>"
  {
    var d := Emphasis.Code(mono);
    var s := "`code`";
    assert Emphasis.LineEnd(s, 0) == 6;
    assert Emphasis.LastClose(d, s, 1, 6) == Some(5);
    Emphasis.ScanMatches(d, s, 0, 5);
    assert s[1..5] == "code";
    assert Emphasis.Scan(d, s, 6) == [];
  }

  /** The code span the transformer emits in the default monospace font. */
  const MonoSpan: string := "<s fontfamily=\"NotoSansMono\">code</s>"

  /** Text without `b` holds no `<br`. */
  lemma {:induction false} NoBreakTagWithoutB(s: string)
    requires 'b' !in s
    ensures NoBreakTag(s)
  {
    forall k | 0 <= k < |s| - 2
      ensures s[k] != '<' || s[k + 1] != 'b' || s[k + 2] != 'r'
    {
      assert s[k + 1] in s;
    }
    NoBreakTagByChars(s);
  }

  /** The code span in the default monospace font. */
  lemma {:induction false} CodeSpanMarkup()
    ensures Emphasis.OpenTag(Emphasis.Code("NotoSansMono")) + "code</s>" == MonoSpan
  {
  }

  /** The code span is one line, starts with `<`, and holds no `<br`. */
  lemma {:induction false} MonoSpanLine()
    ensures '\n' !in MonoSpan && MonoSpan[0] == '<' && NoBreakTag(MonoSpan)
  {
    assert forall k :: 0 <= k < |MonoSpan| ==> MonoSpan[k] != '\n' && MonoSpan[k] != 'b';
    NoBreakTagWithoutB(MonoSpan);
  }

  /** The back-quoted example holds no other markup character. */
  lemma {:induction false} CodeTextPlain()
    ensures '&' !in "`code`" && '\t' !in "`code`" && '<' !in "`code`" && '*' !in "`code`" && '_' !in "`code`"
  {
    var s := "`code`";
    assert forall k :: 0 <= k < |s| ==> s[k] == '`' || 'a' <= s[k] <= 'z';
  }

  /** Text whose only markup is back quotes reaches the code pass unchanged. */
  lemma {:induction false} CodeOnly(t: Mentions.Tables, fmt: Mentions.DateFormatter, mono: string, s: string)
    requires '&' !in s && '\t' !in s && '<' !in s && '*' !in s && '_' !in s
    ensures TransformText(t, fmt, mono, s, true) == Breaks(Collapse(QuotePass(Emphasis.Apply(Emphasis.Code(mono), s))))
  {
    Brackets.BracketPassWithoutBrackets(t, fmt, s);
    Emphasis.ApplyWithoutDelimiter(Emphasis.Bold, s);
    Emphasis.ApplyWithoutDelimiter(Emphasis.Italic, s);
  }

  /** Text whose only markup is back quotes, turned by the code pass into one unquoted line. */
  lemma {:induction false} CodeOnlyLine(t: Mentions.Tables, fmt: Mentions.DateFormatter, mono: string, s: string, x: string)
    requires '&' !in s && '\t' !in s && '<' !in s && '*' !in s && '_' !in s
    requires Emphasis.Apply(Emphasis.Code(mono), s) == x
    requires '\n' !in x && (x == [] || x[0] != '>') && NoBreakTag(x)
    ensures TransformText(t, fmt, mono, s, true) == x
  {
    CodeOnly(t, fmt, mono, s);
    SingleLineUnchanged(x);
  }

  /** `` `code` `` becomes a span in the monospace font. */
  lemma {:induction false} CodeSpan()
    ensures Emphasis.Apply(Emphasis.Code("NotoSansMono"), "`code`") == MonoSpan
  {
    CodeWord("NotoSansMono");
    CodeSpanMarkup();
  }

  /** Back-quoted text becomes a span in the monospace font. */
  lemma {:induction false} CodeBecomesMonospace(t: Mentions.Tables, fmt: Mentions.DateFormatter)
    ensures TransformText(t, fmt, "NotoSansMono", "`code`", true) == MonoSpan
  {
    CodeSpan();
    MonoSpanLine();
    CodeTextPlain();
    CodeOnlyLine(t, fmt, "NotoSansMono", "`code`", MonoSpan);
  }
}

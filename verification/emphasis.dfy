/**
 * The formatting substitutions of pass 3 of `transform_text`
 * (slackchannel2pdf/message_transformer.py):
 *   bold    `re.sub(r"\*(.+)\*", r"<b>\1</b>", ...)`
 *   italic  `re.sub(r"\b_(.+)_\b", r"<i>\1</i>", ...)`
 *   code    `re.sub(r"`(.*)`", r'<s fontfamily="MONO">\1</s>', ...)`
 *
 * `Scan` follows the regular-expression engine: leftmost start, greedy `.+`/`.*`
 * backtracking from the end of the line, resumption after the match. `PerLine` is an
 * independent description: on every line, the LAST closing delimiter pairs with the
 * FIRST opening delimiter far enough before it, and nothing else on that line changes.
 */
module Emphasis {
  import opened Wrappers
  import opened Text

  datatype Delim = Bold | Italic | Code(monoFamily: string)

  function Char(d: Delim): char {
    match d
    case Bold => '*'
    case Italic => '_'
    case Code(_) => '`'
  }

  /** Distance from an opening to a closing delimiter: `.+` needs one character, `.*` none. */
  function MinGap(d: Delim): nat {
    if d.Code? then 1 else 2
  }

  function OpenTag(d: Delim): string {
    match d
    case Bold => "<b>"
    case Italic => "<i>"
    case Code(f) => "<s fontfamily=\"" + f + "\">"
  }

  function CloseTag(d: Delim): string {
    match d
    case Bold => "</b>"
    case Italic => "</i>"
    case Code(_) => "</s>"
  }

  /**
   * An opening delimiter at `p`. For italic, `\b_` needs a word boundary before the `_`,
   * which (as `_` is a word character) means the start of the text or a non-word character.
   */
  predicate IsOpen(d: Delim, s: string, p: nat)
    requires p < |s|
  {
    s[p] == Char(d) && (d.Italic? ==> p == 0 || !IsWordChar(s[p - 1]))
  }

  /** A closing delimiter at `q`; for italic, `_\b` needs the end of the text or a non-word character after it. */
  predicate IsClose(d: Delim, s: string, q: nat)
    requires q < |s|
  {
    s[q] == Char(d) && (d.Italic? ==> q + 1 == |s| || !IsWordChar(s[q + 1]))
  }

  /** Index of the newline ending the line that `i` is on, or `|s|`. */
  function LineEnd(s: string, i: nat): (e: nat)
    requires i <= |s|
    ensures i <= e <= |s|
    ensures e == |s| || s[e] == '\n'
    ensures forall k :: i <= k < e ==> s[k] != '\n'
    decreases |s| - i
  {
    if i == |s| || s[i] == '\n' then i else LineEnd(s, i + 1)
  }

  /** The greatest closing delimiter in `[lo, hi)`. */
  function LastClose(d: Delim, s: string, lo: nat, hi: nat): (r: Option<nat>)
    requires hi <= |s|
    ensures r.Some? ==> lo <= r.value < hi && IsClose(d, s, r.value)
    ensures r.Some? ==> forall k :: r.value < k < hi ==> !IsClose(d, s, k)
    ensures r.None? ==> forall k :: lo <= k < hi ==> !IsClose(d, s, k)
    decreases hi
  {
    if hi <= lo then None
    else if IsClose(d, s, hi - 1) then Some(hi - 1)
    else LastClose(d, s, lo, hi - 1)
  }

  /** The least opening delimiter in `[lo, hi)`. */
  function FirstOpen(d: Delim, s: string, lo: nat, hi: int): (r: Option<nat>)
    requires hi <= |s|
    ensures r.Some? ==> lo <= r.value < hi && IsOpen(d, s, r.value)
    ensures r.Some? ==> forall k :: lo <= k < r.value ==> !IsOpen(d, s, k)
    ensures r.None? ==> forall k :: lo <= k < hi ==> !IsOpen(d, s, k)
    decreases hi - lo
  {
    if hi <= lo then None
    else if IsOpen(d, s, lo) then Some(lo)
    else FirstOpen(d, s, lo + 1, hi)
  }

  /** The substitution from position `i` on, as the regular-expression engine performs it. */
  function Scan(d: Delim, s: string, i: nat): string
    requires i <= |s|
    decreases |s| - i
  {
    if i == |s| then []
    else if IsOpen(d, s, i) then
      match LastClose(d, s, i + MinGap(d), LineEnd(s, i))
      case Some(q) => OpenTag(d) + s[i + 1..q] + CloseTag(d) + Scan(d, s, q + 1)
      case None => [s[i]] + Scan(d, s, i + 1)
    else [s[i]] + Scan(d, s, i + 1)
  }

  /** The pass over a whole text. */
  function Apply(d: Delim, s: string): string {
    Scan(d, s, 0)
  }

  /**
   * The pair matched on the line segment `[i, e)`: the last closing delimiter `q`, and
   * the first opening delimiter `p` with at least `MinGap` between them.
   */
  function LinePair(d: Delim, s: string, i: nat, e: nat): (r: Option<(nat, nat)>)
    requires e <= |s|
    ensures r.Some? ==> i <= r.value.0 && r.value.0 + MinGap(d) <= r.value.1 < e
  {
    match LastClose(d, s, i, e)
    case None => None
    case Some(q) =>
      match FirstOpen(d, s, i, q - MinGap(d) + 1)
      case None => None
      case Some(p) => Some((p, q))
  }

  /** The line segment `[i, e)` with its pair, if any, turned into tags. */
  function Segment(d: Delim, s: string, i: nat, e: nat): string
    requires i <= e <= |s|
  {
    var r := LinePair(d, s, i, e);
    if r.None? then s[i..e] else Tagged(d, s, i, r.value.0, r.value.1, e)
  }

  /** `s[i..e]` with the delimiters at `p` and `q` replaced by the tags. */
  function Tagged(d: Delim, s: string, i: nat, p: nat, q: nat, e: nat): string
    requires i <= p < q < e <= |s|
  {
    s[i..p] + OpenTag(d) + s[p + 1..q] + CloseTag(d) + s[q + 1..e]
  }

  /** Line by line from position `i`: each line's segment, newlines kept. */
  function PerLine(d: Delim, s: string, i: nat): string
    requires i <= |s|
    decreases |s| - i
  {
    var e := LineEnd(s, i);
    if e == |s| then Segment(d, s, i, e)
    else Segment(d, s, i, e) + "\n" + PerLine(d, s, e + 1)
  }

  /** The engine's scan agrees with the line-by-line description from every position. */
  lemma {:induction false} ScanIsPerLine(d: Delim, s: string, i: nat)
    requires i <= |s|
    ensures Scan(d, s, i) == PerLine(d, s, i)
    decreases |s| - i
  {
    hide *;
    if i == |s| {
      EndOfText(d, s);
    } else if s[i] == '\n' {
      ScanIsPerLine(d, s, i + 1);
      NewlineStep(d, s, i);
    } else {
      var e := LineEnd(s, i);
      var r := LastClose(d, s, i + MinGap(d), e);
      if IsOpen(d, s, i) && r.Some? {
        ScanIsPerLine(d, s, r.value + 1);
        ScanMatchStep(d, s, i, r.value, e);
      } else {
        ScanIsPerLine(d, s, i + 1);
        ScanNoMatch(d, s, i);
      }
    }
  }

  /** The step of the agreement proof where the engine matches at `i` with the closing delimiter `q`. */
  lemma {:induction false} ScanMatchStep(d: Delim, s: string, i: nat, q: nat, e: nat)
    requires i < |s| && IsOpen(d, s, i) && e == LineEnd(s, i)
    requires LastClose(d, s, i + MinGap(d), e) == Some(q)
    requires Scan(d, s, q + 1) == PerLine(d, s, q + 1)
    ensures Scan(d, s, i) == PerLine(d, s, i)
  {
    ScanMatches(d, s, i, q);
    PerLineMatches(d, s, i, q, e);
  }

  /** At the end of the text both descriptions produce nothing. */
  lemma {:induction false} EndOfText(d: Delim, s: string)
    ensures Scan(d, s, |s|) == PerLine(d, s, |s|) == []
  {
  }

  /** The step of the agreement proof at a newline. */
  lemma {:induction false} NewlineStep(d: Delim, s: string, i: nat)
    requires i < |s| && s[i] == '\n'
    requires Scan(d, s, i + 1) == PerLine(d, s, i + 1)
    ensures Scan(d, s, i) == PerLine(d, s, i)
  {
    NewlineCopied(d, s, i);
  }

  /** A newline is copied by both descriptions. */
  lemma {:induction false} NewlineCopied(d: Delim, s: string, i: nat)
    requires i < |s| && s[i] == '\n'
    ensures Scan(d, s, i) == "\n" + Scan(d, s, i + 1)
    ensures PerLine(d, s, i) == "\n" + PerLine(d, s, i + 1)
  {
    assert LineEnd(s, i) == i;
    assert LinePair(d, s, i, i).None?;
  }

  /** Where the engine matches at `i` with the closing delimiter `q`, it emits the tags and resumes after `q`. */
  lemma {:induction false} ScanMatches(d: Delim, s: string, i: nat, q: nat)
    requires i < |s| && IsOpen(d, s, i)
    requires LastClose(d, s, i + MinGap(d), LineEnd(s, i)) == Some(q)
    ensures Scan(d, s, i) == OpenTag(d) + s[i + 1..q] + CloseTag(d) + Scan(d, s, q + 1)
  {
    hide PerLine, LineTail, Segment, LinePair, Tagged, FirstOpen, LastClose, LineEnd;
  }

  /** The line-by-line description pairs the same delimiters. */
  lemma {:induction false} PerLineMatches(d: Delim, s: string, i: nat, q: nat, e: nat)
    requires i < |s| && IsOpen(d, s, i) && e == LineEnd(s, i)
    requires LastClose(d, s, i + MinGap(d), e) == Some(q)
    ensures PerLine(d, s, i) == OpenTag(d) + s[i + 1..q] + CloseTag(d) + PerLine(d, s, q + 1)
  {
    var tail := LineTail(d, s, e);
    PerLineUnfold(d, s, i);
    assert PerLine(d, s, i) == Segment(d, s, i, e) + tail;
    SegmentMatches(d, s, i, q, e);
    assert Segment(d, s, i, e) == Tagged(d, s, i, i, q, e);
    RestOfLine(d, s, i, q, e);
    assert PerLine(d, s, q + 1) == s[q + 1..e] + tail;
    TaggedAtStart(d, s, i, q, e);
    ConcatAssoc(OpenTag(d), s[i + 1..q], CloseTag(d), s[q + 1..e], tail);
  }

  lemma {:induction false} ConcatAssoc(a: string, b: string, c: string, x: string, t: string)
    ensures (a + b + c + x) + t == a + b + c + (x + t)
  {
  }

  /** A pair opened at the segment's first position: the segment is the tags around the content. */
  lemma {:induction false} TaggedAtStart(d: Delim, s: string, i: nat, q: nat, e: nat)
    requires i < q < e <= |s|
    ensures Tagged(d, s, i, i, q, e) == OpenTag(d) + s[i + 1..q] + CloseTag(d) + s[q + 1..e]
  {
    assert s[i..i] == [];
  }

  /** The segment of a line whose first character opens the engine's match. */
  lemma {:induction false} SegmentMatches(d: Delim, s: string, i: nat, q: nat, e: nat)
    requires i < |s| && IsOpen(d, s, i) && e == LineEnd(s, i)
    requires LastClose(d, s, i + MinGap(d), e) == Some(q)
    ensures Segment(d, s, i, e) == Tagged(d, s, i, i, q, e)
  {
    assert LastClose(d, s, i, e) == Some(q);
    assert FirstOpen(d, s, i, q - MinGap(d) + 1) == Some(i);
  }

  /** After the last closing delimiter of a line, the rest of the line is copied. */
  lemma {:induction false} RestOfLine(d: Delim, s: string, i: nat, q: nat, e: nat)
    requires i < |s| && e == LineEnd(s, i)
    requires LastClose(d, s, i + MinGap(d), e) == Some(q)
    ensures PerLine(d, s, q + 1) == s[q + 1..e] + LineTail(d, s, e)
  {
    hide *;
    LineEndInside(s, i, q + 1);
    assert LineEnd(s, q + 1) == e;
    NoCloseAfterMatch(d, s, i, q);
    assert LastClose(d, s, q + 1, e).None?;
    SegmentWithoutPair(d, s, q + 1, e);
    assert Segment(d, s, q + 1, e) == s[q + 1..e];
    PerLineUnfold(d, s, q + 1);
    assert PerLine(d, s, q + 1) == Segment(d, s, q + 1, e) + LineTail(d, s, e);
  }

  /** No closing delimiter follows the last one on its line. */
  lemma {:induction false} NoCloseAfterMatch(d: Delim, s: string, i: nat, q: nat)
    requires i < |s|
    requires LastClose(d, s, i + MinGap(d), LineEnd(s, i)) == Some(q)
    ensures LastClose(d, s, q + 1, LineEnd(s, i)).None?
  {
  }

  /** A segment without a closing delimiter is copied. */
  lemma {:induction false} SegmentWithoutPair(d: Delim, s: string, j: nat, e: nat)
    requires j <= e <= |s| && LastClose(d, s, j, e).None?
    ensures Segment(d, s, j, e) == s[j..e]
  {
  }

  /** The step of the agreement proof where the engine copies `s[i]`. */
  lemma {:induction false} ScanNoMatch(d: Delim, s: string, i: nat)
    requires i < |s| && s[i] != '\n'
    requires !(IsOpen(d, s, i) && LastClose(d, s, i + MinGap(d), LineEnd(s, i)).Some?)
    requires Scan(d, s, i + 1) == PerLine(d, s, i + 1)
    ensures Scan(d, s, i) == PerLine(d, s, i)
  {
    ScanCopies(d, s, i);
    PerLineCopies(d, s, i);
  }

  /** Where the engine does not match, it copies one character. */
  lemma {:induction false} ScanCopies(d: Delim, s: string, i: nat)
    requires i < |s|
    requires !(IsOpen(d, s, i) && LastClose(d, s, i + MinGap(d), LineEnd(s, i)).Some?)
    ensures Scan(d, s, i) == [s[i]] + Scan(d, s, i + 1)
  {
  }

  /** Where the engine does not match, the line-by-line description also copies one character. */
  lemma {:induction false} PerLineCopies(d: Delim, s: string, i: nat)
    requires i < |s| && s[i] != '\n'
    requires !(IsOpen(d, s, i) && LastClose(d, s, i + MinGap(d), LineEnd(s, i)).Some?)
    ensures PerLine(d, s, i) == [s[i]] + PerLine(d, s, i + 1)
  {
    hide *;
    var e := LineEnd(s, i);
    LineEndInside(s, i, i + 1);
    PerLineUnfold(d, s, i);
    PerLineUnfold(d, s, i + 1);
    SegmentStep(d, s, i, e);
  }

  /** What follows the line ending at `e`: nothing, or the newline and the later lines. */
  function LineTail(d: Delim, s: string, e: nat): string
    requires e <= |s|
    decreases |s| - e, 1
  {
    if e == |s| then [] else "\n" + PerLine(d, s, e + 1)
  }

  lemma {:induction false} PerLineUnfold(d: Delim, s: string, i: nat)
    requires i <= |s|
    ensures PerLine(d, s, i) == Segment(d, s, i, LineEnd(s, i)) + LineTail(d, s, LineEnd(s, i))
  {
    hide Scan, LastClose, FirstOpen, Segment, LinePair, Tagged, LineEnd;
  }

  /** A position inside a line has the same line end. */
  lemma {:induction false} LineEndInside(s: string, i: nat, j: nat)
    requires i <= |s| && i <= j <= LineEnd(s, i)
    ensures LineEnd(s, j) == LineEnd(s, i)
    decreases j - i
  {
    if i < j {
      assert s[i] != '\n';
      LineEndInside(s, i + 1, j);
    }
  }

  /** Widening the range by one position on the left changes the last closing delimiter only if there was none. */
  lemma {:induction false} LastCloseStep(d: Delim, s: string, i: nat, e: nat)
    requires i < e <= |s|
    ensures LastClose(d, s, i + 1, e).Some? ==> LastClose(d, s, i, e) == LastClose(d, s, i + 1, e)
    ensures LastClose(d, s, i + 1, e).None? ==> LastClose(d, s, i, e).None? || LastClose(d, s, i, e) == Some(i)
  {
    var a := LastClose(d, s, i, e);
    var b := LastClose(d, s, i + 1, e);
    if b.Some? && a.Some? {
      assert a.value >= b.value;
      assert a.value <= b.value;
    }
  }

  /** The first opening delimiter from `i` is the one from `i + 1` when there is none at `i`. */
  lemma {:induction false} FirstOpenStep(d: Delim, s: string, i: nat, h: int)
    requires i < |s| && h <= |s|
    requires !IsOpen(d, s, i)
    ensures FirstOpen(d, s, i, h) == FirstOpen(d, s, i + 1, h)
  {
  }

  lemma {:induction false} SegmentStep(d: Delim, s: string, i: nat, e: nat)
    requires i < e <= |s|
    requires !(IsOpen(d, s, i) && LastClose(d, s, i + MinGap(d), e).Some?)
    ensures Segment(d, s, i, e) == [s[i]] + Segment(d, s, i + 1, e)
  {
    SegSome(d, s, i, e);
    var r := LinePair(d, s, i + 1, e);
    if r.None? {
      SliceStep(s, i, e);
    } else {
      TaggedStep(d, s, i, r.value.0, r.value.1, e);
    }
  }

  lemma {:induction false} TaggedStep(d: Delim, s: string, i: nat, p: nat, q: nat, e: nat)
    requires i < p < q < e <= |s|
    ensures Tagged(d, s, i, p, q, e) == [s[i]] + Tagged(d, s, i + 1, p, q, e)
  {
    hide *;
    var r := OpenTag(d) + s[p + 1..q] + CloseTag(d) + s[q + 1..e];
    TaggedHead(d, s, i, p, q, e);
    TaggedHead(d, s, i + 1, p, q, e);
    assert s[i..p] == [s[i]] + s[i + 1..p];
    ConsAssoc(s[i], s[i + 1..p], r);
  }

  /** The copied text before the opening delimiter, then everything from the opening tag on. */
  lemma {:induction false} TaggedHead(d: Delim, s: string, j: nat, p: nat, q: nat, e: nat)
    requires j <= p < q < e <= |s|
    ensures Tagged(d, s, j, p, q, e) == s[j..p] + (OpenTag(d) + s[p + 1..q] + CloseTag(d) + s[q + 1..e])
  {
  }

  lemma {:induction false} ConsAssoc(x: char, a: string, r: string)
    ensures [x] + (a + r) == ([x] + a) + r
  {
  }

  lemma {:induction false} SliceStep(s: string, i: nat, e: nat)
    requires i < e <= |s|
    ensures s[i..e] == [s[i]] + s[i + 1..e]
  {
  }
  lemma {:induction false} SegNone(d: Delim, s: string, i: nat, e: nat)
    requires i < e <= |s|
    requires !(IsOpen(d, s, i) && LastClose(d, s, i + MinGap(d), e).Some?)
    requires LastClose(d, s, i + 1, e).None?
    ensures LinePair(d, s, i, e).None?
  {
    LastCloseStep(d, s, i, e);
    if LastClose(d, s, i, e).Some? {
      assert FirstOpen(d, s, i, i - MinGap(d) + 1).None?;
    }
  }
  lemma {:induction false} SegSome(d: Delim, s: string, i: nat, e: nat)
    requires i < e <= |s|
    requires !(IsOpen(d, s, i) && LastClose(d, s, i + MinGap(d), e).Some?)
    ensures LinePair(d, s, i, e) == LinePair(d, s, i + 1, e) || (LinePair(d, s, i, e).None? && LinePair(d, s, i + 1, e).None?)
  {
    hide Scan, PerLine, LineTail, Segment, Tagged, LineEnd, LastClose, FirstOpen;
    LastCloseStep(d, s, i, e);
    var b := LastClose(d, s, i + 1, e);
    if b.None? {
      SegNone(d, s, i, e);
    } else {
      var q := b.value;
      var h := q - MinGap(d) + 1;
      if i < h {
        assert LastClose(d, s, i + MinGap(d), e).Some?;
        FirstOpenStep(d, s, i, h);
      }
      assert FirstOpen(d, s, i, h) == FirstOpen(d, s, i + 1, h);
    }
  }

  /** The pass pairs, on every line, the last closing delimiter with the first opening delimiter before it. */
  lemma {:induction false} ApplyIsPerLine(d: Delim, s: string)
    ensures Apply(d, s) == PerLine(d, s, 0)
  {
    ScanIsPerLine(d, s, 0);
  }

  /** Text without the delimiter character is left unchanged. */
  lemma {:induction false} ScanWithoutDelimiter(d: Delim, s: string, i: nat)
    requires i <= |s|
    requires Char(d) !in s
    ensures Scan(d, s, i) == s[i..]
    decreases |s| - i
  {
    if i < |s| {
      ScanWithoutDelimiter(d, s, i + 1);
      assert !IsOpen(d, s, i);
      ScanCopies(d, s, i);
      assert s[i..] == [s[i]] + s[i + 1..];
    }
  }

  lemma {:induction false} ApplyWithoutDelimiter(d: Delim, s: string)
    requires Char(d) !in s
    ensures Apply(d, s) == s
  {
    ScanWithoutDelimiter(d, s, 0);
  }

  /** `*bold*` becomes `<b>bold</b>`. */
  lemma {:induction false} BoldWord()
    ensures Apply(Bold, "*bold*") == "<b>bold</b>"
  {
    var s := "*bold*";
    assert LineEnd(s, 0) == 6;
    assert LastClose(Bold, s, 2, 6) == Some(5);
    assert s[1..5] == "bold";
    assert Scan(Bold, s, 6) == [];
  }

  /** The greedy match pairs the first `*` with the last one: `*a*b*c*` becomes `<b>a*b*c</b>`. */
  lemma {:induction false} GreedyBold()
    ensures Apply(Bold, "*a*b*c*") == "<b>a*b*c</b>"
  {
    var s := "*a*b*c*";
    assert LineEnd(s, 0) == 7;
    assert LastClose(Bold, s, 2, 7) == Some(6);
    assert s[1..6] == "a*b*c";
    assert Scan(Bold, s, 7) == [];
  }

  /** A word-internal `_` does not open italic text: `snake_case_name` is unchanged. */
  lemma {:induction false} WordInternalUnderscore()
    ensures Apply(Italic, "a_b_c") == "a_b_c"
  {
    var s := "a_b_c";
    assert !IsOpen(Italic, s, 1) && !IsOpen(Italic, s, 3);
    assert forall k :: 0 <= k < |s| ==> !IsOpen(Italic, s, k);
    ScanNoOpen(Italic, s, 0);
  }

  /** Without any opening delimiter the scan copies the text. */
  lemma {:induction false} ScanNoOpen(d: Delim, s: string, i: nat)
    requires i <= |s|
    requires forall k :: i <= k < |s| ==> !IsOpen(d, s, k)
    ensures Scan(d, s, i) == s[i..]
    decreases |s| - i
  {
    if i < |s| {
      ScanNoOpen(d, s, i + 1);
      ScanCopies(d, s, i);
      assert s[i..] == [s[i]] + s[i + 1..];
    }
  }

  /** Bold around italic: `*_x_*` becomes `<b><i>x</i></b>` after the bold and the italic pass. */
  lemma {:induction false} BoldThenItalic()
    ensures Apply(Italic, Apply(Bold, "*_x_*")) == "<b><i>x</i></b>"
  {
    BoldAroundUnderscores();
    ItalicInsideBold();
  }

  lemma {:induction false} BoldAroundUnderscores()
    ensures Apply(Bold, "*_x_*") == "<b>_x_</b>"
  {
    var s := "*_x_*";
    assert LineEnd(s, 0) == 5;
    assert LastClose(Bold, s, 2, 5) == Some(4);
    assert s[1..4] == "_x_";
    assert Scan(Bold, s, 5) == [];
  }

  lemma {:induction false} ItalicInsideBold()
    ensures Apply(Italic, "<b>_x_</b>") == "<b><i>x</i></b>"
  {
    hide Scan, PerLine, LineTail, Segment, LinePair, Tagged, FirstOpen, LastClose, LineEnd, IsOpen, IsClose;
    var b := "<b>_x_</b>";
    ItalicAfterPair(b);
    ItalicPair(b);
    ItalicBeforePair(b);
    assert Scan(Italic, b, 0) == "<b>" + ("<i>" + "x" + "</i>" + "</b>");
  }

  lemma {:induction false} ItalicAfterPair(b: string)
    requires b == "<b>_x_</b>"
    ensures Scan(Italic, b, 6) == "</b>"
  {
    hide PerLine, LineTail, Segment, LinePair, Tagged, FirstOpen;
    assert forall k :: 6 <= k < |b| ==> !IsOpen(Italic, b, k);
    ScanNoOpen(Italic, b, 6);
    assert b[6..] == "</b>";
  }

  lemma {:induction false} ItalicPair(b: string)
    requires b == "<b>_x_</b>"
    ensures Scan(Italic, b, 3) == "<i>" + "x" + "</i>" + Scan(Italic, b, 6)
  {
    hide Scan, PerLine, LineTail, Segment, LinePair, Tagged, FirstOpen;
    assert IsOpen(Italic, b, 3);
    assert LineEnd(b, 3) == |b|;
    assert LastClose(Italic, b, 5, 6) == Some(5);
    assert !IsClose(Italic, b, 6) && !IsClose(Italic, b, 7) && !IsClose(Italic, b, 8) && !IsClose(Italic, b, 9);
    assert LastClose(Italic, b, 5, 7) == Some(5);
    assert LastClose(Italic, b, 5, 8) == Some(5);
    assert LastClose(Italic, b, 5, 9) == Some(5);
    assert LastClose(Italic, b, 5, |b|) == Some(5);
    ScanMatches(Italic, b, 3, 5);
    assert b[4..5] == "x";
  }

  lemma {:induction false} ItalicBeforePair(b: string)
    requires b == "<b>_x_</b>"
    ensures Scan(Italic, b, 0) == "<b>" + Scan(Italic, b, 3)
  {
    hide Scan, PerLine, LineTail, Segment, LinePair, Tagged, FirstOpen, LastClose;
    assert !IsOpen(Italic, b, 0) && !IsOpen(Italic, b, 1) && !IsOpen(Italic, b, 2);
    ScanCopies(Italic, b, 2);
    ScanCopies(Italic, b, 1);
    ScanCopies(Italic, b, 0);
    assert "<b>" == [b[0]] + [b[1]] + [b[2]];
  }
}

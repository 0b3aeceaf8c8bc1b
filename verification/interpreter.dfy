/**
 * The tag interpreter `write_html` of the extended FPDF class: the modular
 * `FPDFext` (slackchannel2pdf/fpdf_extension.py) and its predecessor `FPDF_ext`
 * (slackchannel2pdf/fpdf_ext.py). Markup is split into text and tag parts; text is
 * written (as a link while an `href` is set) and tags drive a small state machine:
 * three style counters, one `href`, one saved font for the non-nestable `<s>`, and
 * a blockquote indent.
 *
 * The PDF canvas is a record (left margin, x, font, text colour) plus the trace of
 * drawing calls made on it. Where the cursor ends after writing text depends on
 * font metrics and page geometry, so it is an oracle `adv`.
 */
module Interpreter {
  import opened Wrappers
  import opened Text
  import Markup

  /** Indent of one blockquote level. */
  const TabWidth: real := 4.0

  /** Line height of `<br>`. */
  const BreakHeight: real := 5.0

  datatype Font = Font(family: string, size: real, style: string)

  datatype Color = Color(red: int, green: int, blue: int)

  const Black := Color(0, 0, 0)
  const LinkBlue := Color(0, 0, 255)

  /** One drawing call on the canvas. */
  datatype Event =
    | Write(height: real, text: string, link: string)
    | SetFont(font: Font)
    | SetTextColor(color: Color)
    | LineFeed(lineHeight: Option<real>)
    | SetLeftMargin(margin: real)
    | SetX(x: real)

  /** The interpreter's fields and the canvas state it touches. */
  datatype Writer = Writer(
    bold: int, italic: int, underline: int,
    href: string,
    saved: Option<Font>,
    margin: real, x: real, font: Font, color: Color,
    trace: seq<Event>)

  /** The two generations differ in what a nested `<s>` does. */
  datatype Generation = Modular | Monolith

  /** How a `write_html` call ends. */
  datatype Outcome =
    | Completed(w: Writer)
      /** The modular generation catches `HtmlConversionError`, logs it and skips the rest. */
    | Abandoned(w: Writer)
      /** An exception leaves `write_html`. */
    | Raised(w: Writer, error: PyError)

  /** What processing one tag leads to. */
  datatype Step = Next(w: Writer) | Nested(w: Writer) | Failed(w: Writer, error: PyError)

  /** The state after `__init__`: no style, no link, no saved font; the cursor at the margin. */
  function Init(margin: real, font: Font): Writer {
    Writer(0, 0, 0, "", None, margin, margin, font, Black, [])
  }

  // ---------------------------------------------------------------- the canvas

  /** The text of the trace's `write` calls, concatenated in order. */
  function WrittenText(trace: seq<Event>): string {
    if trace == [] then []
    else
      var e := trace[|trace| - 1];
      WrittenText(trace[..|trace| - 1]) + (if e.Write? then e.text else [])
  }

  lemma {:induction false} WrittenSnoc(trace: seq<Event>, e: Event)
    ensures WrittenText(trace + [e]) == WrittenText(trace) + (if e.Write? then e.text else [])
  {
    assert (trace + [e])[..|trace|] == trace;
  }

  /** Records one drawing call. */
  function Emit(w: Writer, e: Event): (r: Writer)
    ensures r == w.(trace := w.trace + [e])
    ensures WrittenText(r.trace) == WrittenText(w.trace) + (if e.Write? then e.text else [])
  {
    WrittenSnoc(w.trace, e);
    w.(trace := w.trace + [e])
  }

  /** `set_font`. */
  function SetFontTo(w: Writer, f: Font): Writer {
    Emit(w, SetFont(f)).(font := f)
  }

  /** `set_text_color`. */
  function SetColorTo(w: Writer, c: Color): Writer {
    Emit(w, SetTextColor(c)).(color := c)
  }

  /** `write(height, text, link)`: the cursor moves on by the oracle. */
  function WriteText(w: Writer, height: real, adv: (real, Font, string) -> real, text: string, link: string): (r: Writer)
    ensures r.(trace := w.trace, x := w.x) == w
    ensures WrittenText(r.trace) == WrittenText(w.trace) + text
  {
    Emit(w, Write(height, text, link)).(x := adv(w.x, w.font, text))
  }

  /** `ln(h)`: a line feed puts the cursor back at the left margin. */
  function LineFeedTo(w: Writer, h: Option<real>): Writer {
    Emit(w, LineFeed(h)).(x := w.margin)
  }

  // ---------------------------------------------------------------- styles

  datatype Flag = Bold | Italic | Underline

  /** The counter of a style flag. */
  function Count(w: Writer, f: Flag): int {
    match f
    case Bold => w.bold
    case Italic => w.italic
    case Underline => w.underline
  }

  /** Tag name of a style flag. */
  function FlagOf(name: string): (r: Option<Flag>)
    ensures r.Some? <==> name in ["B", "I", "U"]
  {
    if name == "B" then Some(Bold)
    else if name == "I" then Some(Italic)
    else if name == "U" then Some(Underline)
    else None
  }

  /** Position of a style letter in "BIU". */
  function Rank(c: char): nat {
    if c == 'B' then 0 else if c == 'I' then 1 else 2
  }

  /** The style string: the letters of "BIU", in that order, whose counter is positive. */
  function StyleOf(b: int, i: int, u: int): (s: string)
    ensures 'B' in s <==> b > 0
    ensures 'I' in s <==> i > 0
    ensures 'U' in s <==> u > 0
    ensures forall k :: 0 <= k < |s| ==> s[k] in "BIU"
    ensures forall j, k :: 0 <= j < k < |s| ==> Rank(s[j]) < Rank(s[k])
  {
    (if b > 0 then "B" else "") + (if i > 0 then "I" else "") + (if u > 0 then "U" else "")
  }

  /** `_set_style`: the flag's counter moves by one, unclamped, and the font style follows. */
  function SetStyle(w: Writer, f: Flag, enable: bool): (r: Writer)
    ensures Count(r, f) == Count(w, f) + (if enable then 1 else -1)
    ensures forall g :: g != f ==> Count(r, g) == Count(w, g)
    ensures r.font == Font(w.font.family, w.font.size, StyleOf(r.bold, r.italic, r.underline))
    ensures r.href == w.href && r.saved == w.saved && r.color == w.color
    ensures r.margin == w.margin && r.x == w.x
    ensures WrittenText(r.trace) == WrittenText(w.trace)
  {
    var d := if enable then 1 else -1;
    var v := match f
      case Bold => w.(bold := w.bold + d)
      case Italic => w.(italic := w.italic + d)
      case Underline => w.(underline := w.underline + d);
    SetFontTo(v, Font(v.font.family, v.font.size, StyleOf(v.bold, v.italic, v.underline)))
  }

  // ---------------------------------------------------------------- text

  /** The first half of `_put_link`: blue text, one more underline level. */
  function LinkOn(w: Writer): (r: Writer)
    ensures r.underline == w.underline + 1 && r.bold == w.bold && r.italic == w.italic
    ensures r.font == Font(w.font.family, w.font.size, StyleOf(w.bold, w.italic, w.underline + 1))
    ensures r.color == LinkBlue
    ensures r.href == w.href && r.saved == w.saved && r.margin == w.margin
    ensures WrittenText(r.trace) == WrittenText(w.trace)
  {
    SetStyle(SetColorTo(w, LinkBlue), Underline, true)
  }

  /** The second half of `_put_link`: one underline level less, black text. */
  function LinkOff(w: Writer): (r: Writer)
    ensures r.underline == w.underline - 1 && r.bold == w.bold && r.italic == w.italic
    ensures r.font == Font(w.font.family, w.font.size, StyleOf(w.bold, w.italic, w.underline - 1))
    ensures r.color == Black
    ensures r.href == w.href && r.saved == w.saved && r.margin == w.margin
    ensures WrittenText(r.trace) == WrittenText(w.trace)
  {
    SetColorTo(SetStyle(w, Underline, false), Black)
  }

  /** `_put_link`: the write carries the url between the two halves. */
  function PutLink(w: Writer, height: real, adv: (real, Font, string) -> real, text: string): (r: Writer)
    ensures forall f :: Count(r, f) == Count(w, f)
    ensures r.color == Black
    ensures r.font == Font(w.font.family, w.font.size, StyleOf(w.bold, w.italic, w.underline))
    ensures r.href == w.href && r.saved == w.saved && r.margin == w.margin
    ensures WrittenText(r.trace) == WrittenText(w.trace) + text
  {
    var on := LinkOn(w);
    var written := WriteText(on, height, adv, text, w.href);
    LinkOff(written)
  }

  /** `_process_text`: a text part is a link exactly while `href` is non-empty. */
  function ProcessText(w: Writer, height: real, adv: (real, Font, string) -> real, text: string): (r: Writer)
    ensures forall f :: Count(r, f) == Count(w, f)
    ensures r.href == w.href && r.saved == w.saved && r.margin == w.margin
    ensures WrittenText(r.trace) == WrittenText(w.trace) + text
  {
    if |w.href| > 0 then PutLink(w, height, adv, text)
    else WriteText(w, height, adv, text, "")
  }

  // ---------------------------------------------------------------- blockquotes

  /** `_set_ident_plus`: margin and cursor move in by one tab, then a new line starts. */
  function IndentPlus(w: Writer): (r: Writer)
    ensures r.margin == w.margin + TabWidth && r.x == r.margin
    ensures forall f :: Count(r, f) == Count(w, f)
    ensures r.href == w.href && r.saved == w.saved && r.font == w.font
    ensures WrittenText(r.trace) == WrittenText(w.trace)
  {
    var w1 := Emit(w, SetLeftMargin(w.margin + TabWidth)).(margin := w.margin + TabWidth);
    var w2 := Emit(w1, SetX(w1.x + TabWidth)).(x := w1.x + TabWidth);
    LineFeedTo(w2, None)
  }

  /** `_set_ident_minus`: moves back by one tab only if margin and cursor both exceed it. */
  function IndentMinus(w: Writer): (r: Writer)
    ensures w.margin > TabWidth && w.x > TabWidth ==> r.margin == w.margin - TabWidth && r.x == r.margin
    ensures !(w.margin > TabWidth && w.x > TabWidth) ==> r == w
    ensures forall f :: Count(r, f) == Count(w, f)
    ensures r.href == w.href && r.saved == w.saved && r.font == w.font
    ensures WrittenText(r.trace) == WrittenText(w.trace)
  {
    if w.margin > TabWidth && w.x > TabWidth then
      var w1 := Emit(w, SetLeftMargin(w.margin - TabWidth)).(margin := w.margin - TabWidth);
      var w2 := Emit(w1, SetX(w.x - TabWidth)).(x := w.x - TabWidth);
      LineFeedTo(w2, None)
    else w
  }

  /**
   * Closing a blockquote undoes opening one exactly when the margin was positive:
   * otherwise the guard keeps the margin at the opened level.
   */
  lemma {:induction false} BlockquoteRoundTrip(w: Writer)
    ensures IndentMinus(IndentPlus(w)).margin == w.margin <==> w.margin > 0.0
    ensures w.margin > 0.0 ==> IndentMinus(IndentPlus(w)).x == w.margin
  {
  }

  // ---------------------------------------------------------------- the size attribute

  /** `int(s)` for a decimal literal: an optional sign, then ASCII digits. */
  function ParseInt(s: string): (r: Option<int>)
    ensures r.Some? ==> |s| > 0 && (IsDigit(s[0]) || s[0] == '-' || s[0] == '+')
    ensures r.Some? ==> forall j :: 0 < j < |s| ==> IsDigit(s[j])
  {
    if |s| > 1 && (s[0] == '-' || s[0] == '+') && forall j :: 1 <= j < |s| ==> IsDigit(s[j]) then
      var v: int := DecimalValue(s[1..]);
      Some(if s[0] == '-' then -v else v)
    else if |s| > 0 && forall j :: 0 <= j < |s| ==> IsDigit(s[j]) then Some(DecimalValue(s))
    else None
  }

  function DigitChar(d: nat): char
    requires d < 10
  {
    ('0' as int + d) as char
  }

  /** `str(n)` for a natural number. */
  function ShowNat(n: nat): (r: string)
    ensures |r| > 0
    ensures forall k :: 0 <= k < |r| ==> IsDigit(r[k])
    decreases n
  {
    if n < 10 then [DigitChar(n)] else ShowNat(n / 10) + [DigitChar(n % 10)]
  }

  /** `str(n)`. */
  function ShowInt(n: int): string {
    if n < 0 then "-" + ShowNat(-n) else ShowNat(n)
  }

  lemma {:induction false} DecimalValueShowNat(n: nat)
    ensures DecimalValue(ShowNat(n)) == n
    decreases n
  {
    var s := ShowNat(n);
    if n >= 10 {
      DecimalValueShowNat(n / 10);
      assert s[..|s| - 1] == ShowNat(n / 10);
    }
  }

  /** A size written with `str` reads back as the same number. */
  lemma {:induction false} ParseShowInt(n: int)
    ensures ParseInt(ShowInt(n)) == Some(n)
  {
    hide ParseInt, ShowNat, DecimalValue;
    if n < 0 {
      ParseNegative(-n);
    } else {
      ParseNonNegative(n);
    }
  }

  lemma {:induction false} ParseNegative(m: nat)
    ensures ParseInt("-" + ShowNat(m)) == Some(-(m as int))
  {
    var s := "-" + ShowNat(m);
    assert s[1..] == ShowNat(m);
    assert forall j :: 1 <= j < |s| ==> s[j] == ShowNat(m)[j - 1];
    DecimalValueShowNat(m);
  }

  lemma {:induction false} ParseNonNegative(n: nat)
    ensures ParseInt(ShowNat(n)) == Some(n)
  {
    var s := ShowNat(n);
    assert IsDigit(s[0]);
    DecimalValueShowNat(n);
  }

  // ---------------------------------------------------------------- tags

  /** Tag names `_open_tag` and `_close_tag` act on. */
  const KnownTags: seq<string> := ["B", "I", "U", "BLOCKQUOTE", "A", "BR", "S"]

  /**
   * `<s>`: remembers the current font, then applies the attributes present. A
   * nested `<s>` fails before anything changes; a `SIZE` that is no integer fails
   * after the font was remembered.
   */
  function OpenFont(w: Writer, attrs: map<string, string>): (r: Step)
    ensures r.Nested? <==> w.saved.Some?
    ensures r.Failed? <==> w.saved.None? && "SIZE" in attrs && ParseInt(attrs["SIZE"]).None?
    ensures r.Failed? ==> r.w == w.(saved := Some(w.font)) && r.error.ValueError?
    ensures r.Nested? ==> r.w == w
    ensures r.Next? ==> r.w.saved == Some(w.font)
    ensures r.Next? ==> r.w.font.family == (if "FONTFAMILY" in attrs then attrs["FONTFAMILY"] else w.font.family)
    ensures r.Next? ==> r.w.font.style == (if "STYLE" in attrs then attrs["STYLE"] else w.font.style)
    ensures r.Next? && "SIZE" !in attrs ==> r.w.font.size == w.font.size
    ensures r.Next? && "SIZE" in attrs ==>
      ParseInt(attrs["SIZE"]).Some? && r.w.font.size == ParseInt(attrs["SIZE"]).value as real
    ensures forall f :: Count(r.w, f) == Count(w, f)
    ensures r.w.href == w.href && r.w.margin == w.margin
    ensures WrittenText(r.w.trace) == WrittenText(w.trace)
  {
    if w.saved.Some? then Nested(w)
    else
      var w1 := w.(saved := Some(w.font));
      var family := if "FONTFAMILY" in attrs then attrs["FONTFAMILY"] else w.font.family;
      var style := if "STYLE" in attrs then attrs["STYLE"] else w.font.style;
      if "SIZE" in attrs then
        match ParseInt(attrs["SIZE"])
        case None => Failed(w1, ValueError(attrs["SIZE"]))
        case Some(n) => Next(SetFontTo(w1, Font(family, n as real, style)))
      else Next(SetFontTo(w1, Font(family, w.font.size, style)))
  }

  /** `_open_tag`. */
  function OpenTag(w: Writer, name: string, attrs: map<string, string>): (r: Step)
    ensures r.Nested? <==> name == "S" && w.saved.Some?
    ensures r.Failed? <==>
      (name == "A" && "HREF" !in attrs)
      || (name == "S" && w.saved.None? && "SIZE" in attrs && ParseInt(attrs["SIZE"]).None?)
    ensures name == "A" && r.Failed? ==> r == Failed(w, KeyError("HREF"))
    ensures name == "A" && r.Next? ==> r.w == w.(href := attrs["HREF"])
    ensures name !in KnownTags ==> r == Next(w)
    ensures name != "S" ==> r.w.saved == w.saved
    ensures forall f :: Count(r.w, f) == Count(w, f) + (if FlagOf(name) == Some(f) then 1 else 0)
    ensures WrittenText(r.w.trace) == WrittenText(w.trace)
  {
    match FlagOf(name)
    case Some(f) => Next(SetStyle(w, f, true))
    case None =>
      if name == "BLOCKQUOTE" then Next(IndentPlus(w))
      else if name == "A" then
        if "HREF" in attrs then Next(w.(href := attrs["HREF"])) else Failed(w, KeyError("HREF"))
      else if name == "BR" then Next(LineFeedTo(w, Some(BreakHeight)))
      else if name == "S" then OpenFont(w, attrs)
      else Next(w)
  }

  /** `_close_tag`. Closing never fails. */
  function CloseTag(w: Writer, name: string): (r: Writer)
    ensures name == "A" ==> r == w.(href := "")
    ensures name == "S" && w.saved.None? ==> r == w
    ensures name == "S" && w.saved.Some? ==> r.font == w.saved.value && r.saved.None?
    ensures name != "S" ==> r.saved == w.saved
    ensures name != "A" ==> r.href == w.href
    ensures name !in KnownTags ==> r == w
    ensures forall f :: Count(r, f) == Count(w, f) - (if FlagOf(name) == Some(f) then 1 else 0)
    ensures WrittenText(r.trace) == WrittenText(w.trace)
  {
    match FlagOf(name)
    case Some(f) => SetStyle(w, f, false)
    case None =>
      if name == "BLOCKQUOTE" then IndentMinus(w)
      else if name == "A" then w.(href := "")
      else if name == "S" then
        if w.saved.Some? then SetFontTo(w, w.saved.value).(saved := None) else w
      else w
  }

  /** The change a tag makes to a style counter. */
  function TagDelta(tag: string, f: Flag): int {
    match Markup.ParseTag(tag)
    case Ok(Open(n, _)) => if FlagOf(n) == Some(f) then 1 else 0
    case Ok(Close(n)) => if FlagOf(n) == Some(f) then -1 else 0
    case Err(_) => 0
  }

  /** `_process_tag`: an empty tag `<>` fails on `part[0]`. */
  function ProcessTag(w: Writer, tag: string): (r: Step)
    ensures tag == [] <==> r == Failed(w, IndexError)
    ensures r.Next? ==> forall f :: Count(r.w, f) == Count(w, f) + TagDelta(tag, f)
    ensures WrittenText(r.w.trace) == WrittenText(w.trace)
  {
    match Markup.ParseTag(tag)
    case Err(e) => Failed(w, e)
    case Ok(Close(n)) => Next(CloseTag(w, n))
    case Ok(Open(n, a)) => OpenTag(w, n, a)
  }

  // ---------------------------------------------------------------- write_html

  /** The error the monolith raises for a nested `<s>`. */
  const NestedFontError := RuntimeError("<s> tags can not be nested")

  /** Tag and text parts, strictly left to right, until a tag fails. */
  function RunPieces(w: Writer, g: Generation, height: real, adv: (real, Font, string) -> real,
                     pieces: seq<Markup.Piece>): Outcome
    decreases |pieces|
  {
    if pieces == [] then Completed(w)
    else
      match ProcessTag(w, pieces[0].tag)
      case Next(w1) => RunPieces(ProcessText(w1, height, adv, pieces[0].text), g, height, adv, pieces[1..])
      case Nested(w1) => if g == Modular then Abandoned(w1) else Raised(w1, NestedFontError)
      case Failed(w1, e) => Raised(w1, e)
  }

  /** The parts `write_html` processes: newlines become spaces, then the markup is split. */
  function HtmlParts(html: string): Markup.Parts {
    Markup.SplitMarkup(ReplaceChar(html, '\n', " "))
  }

  /** `write_html(height, html)`. */
  function WriteHtml(w: Writer, g: Generation, height: real, adv: (real, Font, string) -> real,
                     html: string): Outcome
  {
    var parts := HtmlParts(html);
    RunPieces(ProcessText(w, height, adv, parts.head), g, height, adv, parts.pieces)
  }

  // ---------------------------------------------------------------- properties

  /** Sum of the changes the tags make to a style counter. */
  function NetDelta(pieces: seq<Markup.Piece>, f: Flag): int {
    if pieces == [] then 0 else TagDelta(pieces[0].tag, f) + NetDelta(pieces[1..], f)
  }

  /** The text parts in order. */
  function Texts(pieces: seq<Markup.Piece>): string {
    if pieces == [] then [] else pieces[0].text + Texts(pieces[1..])
  }

  /** On a run that completes, every counter moves by the net count of its opening and closing tags. */
  lemma {:induction false} RunPiecesCounters(w: Writer, g: Generation, height: real,
                                             adv: (real, Font, string) -> real, pieces: seq<Markup.Piece>, f: Flag)
    ensures var o := RunPieces(w, g, height, adv, pieces);
      o.Completed? ==> Count(o.w, f) == Count(w, f) + NetDelta(pieces, f)
    decreases |pieces|
  {
    if pieces != [] {
      var st := ProcessTag(w, pieces[0].tag);
      if st.Next? {
        RunPiecesCounters(ProcessText(st.w, height, adv, pieces[0].text), g, height, adv, pieces[1..], f);
      }
    }
  }

  /** On a run that completes, the text written is the text parts in order. */
  lemma {:induction false} RunPiecesWrites(w: Writer, g: Generation, height: real,
                                           adv: (real, Font, string) -> real, pieces: seq<Markup.Piece>)
    ensures var o := RunPieces(w, g, height, adv, pieces);
      o.Completed? ==> WrittenText(o.w.trace) == WrittenText(w.trace) + Texts(pieces)
    decreases |pieces|
  {
    hide ProcessTag, ProcessText, WrittenText, PutLink, WriteText;
    if pieces != [] {
      var st := ProcessTag(w, pieces[0].tag);
      if st.Next? {
        var w2 := ProcessText(st.w, height, adv, pieces[0].text);
        assert RunPieces(w, g, height, adv, pieces) == RunPieces(w2, g, height, adv, pieces[1..]);
        RunPiecesWrites(w2, g, height, adv, pieces[1..]);
        assert WrittenText(w2.trace) == WrittenText(w.trace) + pieces[0].text;
        assert Texts(pieces) == pieces[0].text + Texts(pieces[1..]);
      }
    }
  }

  /** Whatever way a run ends, no text it writes holds a character the parts avoid. */
  lemma {:induction false} RunPiecesAvoids(w: Writer, g: Generation, height: real,
                                           adv: (real, Font, string) -> real, pieces: seq<Markup.Piece>, c: char)
    requires forall k :: 0 <= k < |pieces| ==> c !in pieces[k].text
    requires c !in WrittenText(w.trace)
    ensures c !in WrittenText(RunPieces(w, g, height, adv, pieces).w.trace)
    decreases |pieces|
  {
    if pieces != [] {
      var st := ProcessTag(w, pieces[0].tag);
      if st.Next? {
        var w2 := ProcessText(st.w, height, adv, pieces[0].text);
        assert WrittenText(w2.trace) == WrittenText(w.trace) + pieces[0].text;
        RunPiecesAvoids(w2, g, height, adv, pieces[1..], c);
      }
    }
  }

  /**
   * Style counters persist across calls and are never clamped: a completed call moves
   * each by the net number of its opening and closing tags, from wherever it was.
   */
  lemma {:induction false} WriteHtmlCounters(w: Writer, g: Generation, height: real, adv: (real, Font, string) -> real,
                          html: string, f: Flag)
    ensures var o := WriteHtml(w, g, height, adv, html);
      o.Completed? ==> Count(o.w, f) == Count(w, f) + NetDelta(HtmlParts(html).pieces, f)
  {
    var parts := HtmlParts(html);
    RunPiecesCounters(ProcessText(w, height, adv, parts.head), g, height, adv, parts.pieces, f);
  }

  /**
   * A completed call writes exactly the markup with its tags removed and its newlines
   * turned into spaces, in order.
   */
  lemma {:induction false} WriteHtmlWrites(w: Writer, g: Generation, height: real, adv: (real, Font, string) -> real,
                        html: string)
    ensures var o := WriteHtml(w, g, height, adv, html);
      var parts := HtmlParts(html);
      o.Completed? ==> WrittenText(o.w.trace) == WrittenText(w.trace) + parts.head + Texts(parts.pieces)
  {
    var parts := HtmlParts(html);
    RunPiecesWrites(ProcessText(w, height, adv, parts.head), g, height, adv, parts.pieces);
  }

  /** No call writes a newline: input newlines became spaces before the split. */
  lemma {:induction false} WriteHtmlNoNewline(w: Writer, g: Generation, height: real, adv: (real, Font, string) -> real,
                           html: string)
    requires '\n' !in WrittenText(w.trace)
    ensures '\n' !in WrittenText(WriteHtml(w, g, height, adv, html).w.trace)
  {
    var parts := HtmlParts(html);
    Markup.SplitMarkupAvoids(ReplaceChar(html, '\n', " "), '\n');
    var w1 := ProcessText(w, height, adv, parts.head);
    RunPiecesAvoids(w1, g, height, adv, parts.pieces, '\n');
  }

  /**
   * Markup without tags is written as one text part, and the link, the saved font and
   * the style counters carry over unchanged to the next call.
   */
  lemma {:induction false} WriteHtmlPlain(w: Writer, g: Generation, height: real, adv: (real, Font, string) -> real,
                       html: string)
    requires '<' !in html
    ensures var o := WriteHtml(w, g, height, adv, html);
      && o.Completed?
      && o.w.href == w.href && o.w.saved == w.saved
      && (forall f :: Count(o.w, f) == Count(w, f))
      && WrittenText(o.w.trace) == WrittenText(w.trace) + ReplaceChar(html, '\n', " ")
  {
    var s := ReplaceChar(html, '\n', " ");
    ReplaceCharAvoids(html, '\n', " ", '<');
    Markup.SplitMarkupPlain(s);
  }

  /**
   * A nested `<s>` stops the call with the state reached so far: the modular
   * generation catches and logs it, the monolith raises `RuntimeError`.
   */
  lemma {:induction false} NestedFont(w: Writer, g: Generation, height: real, adv: (real, Font, string) -> real,
                   pieces: seq<Markup.Piece>, attrs: map<string, string>)
    requires pieces != [] && Markup.ParseTag(pieces[0].tag) == Ok(Markup.Open("S", attrs))
    requires w.saved.Some?
    ensures RunPieces(w, g, height, adv, pieces) == (if g == Modular then Abandoned(w) else Raised(w, NestedFontError))
  {
  }

  /** `<s ...>` then `</s>` restores the font exactly and forgets the snapshot. */
  lemma {:induction false} FontRoundTrip(w: Writer, attrs: map<string, string>)
    requires w.saved.None?
    requires OpenTag(w, "S", attrs).Next?
    ensures CloseTag(OpenTag(w, "S", attrs).w, "S").font == w.font
    ensures CloseTag(OpenTag(w, "S", attrs).w, "S").saved.None?
  {
  }

  /** Any link text, written with or without a link, leaves the counters and link as they were. */
  lemma {:induction false} LinkTextBalanced(w: Writer, height: real, adv: (real, Font, string) -> real, text: string)
    requires |w.href| > 0
    ensures ProcessText(w, height, adv, text).underline == w.underline
    ensures ProcessText(w, height, adv, text).color == Black
    ensures Write(height, text, w.href) in ProcessText(w, height, adv, text).trace
  {
    var w1 := SetColorTo(w, LinkBlue);
    var w2 := SetStyle(w1, Underline, true);
    var w3 := WriteText(w2, height, adv, text, w.href);
    assert w3.trace[|w3.trace| - 1] == Write(height, text, w.href);
  }
}

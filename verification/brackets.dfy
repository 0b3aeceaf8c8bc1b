/**
 * Pass 2 of `transform_text` (slackchannel2pdf/message_transformer.py):
 * `re.sub(r"<(.*?)>", ...)`. Each `<` is paired with the first `>` after it on the
 * same line (the lazy `.*?` cannot cross a newline); the span between them is
 * replaced by its resolved markup. A `<` with no `>` later on its line stays text.
 *
 * The pass is split into a tokenizer and a renderer. The tokenizer is the unique
 * inverse of `Untokenize` on well-formed token sequences, which pins down exactly
 * which spans the regular expression matches.
 */
module Brackets {
  import opened Wrappers
  import opened Text
  import Mentions

  /** One piece of the text: a plain character or the content of a `<...>` span. */
  datatype Token = Lit(c: char) | Span(inner: string)

  /** The text before the next newline (or the end) holds no `>`. */
  predicate NoCloseOnLine(s: string)
    decreases |s|
  {
    s == [] || s[0] == '\n' || (s[0] != '>' && NoCloseOnLine(s[1..]))
  }

  /** Index of the first `>` in `s` that comes before any newline. */
  function FirstClose(s: string): (r: Option<nat>)
    ensures r.None? <==> NoCloseOnLine(s)
    ensures r.Some? ==>
      r.value < |s| && s[r.value] == '>'
      && forall k :: 0 <= k < r.value ==> s[k] != '>' && s[k] != '\n'
    decreases |s|
  {
    if s == [] || s[0] == '\n' then None
    else if s[0] == '>' then Some(0)
    else match FirstClose(s[1..])
      case None => None
      case Some(k) => Some(k + 1)
  }

  /** The left-to-right scan of the regular expression, as tokens. */
  function Tokenize(s: string): (toks: seq<Token>)
    decreases |s|
  {
    if s == [] then []
    else if s[0] == '<' then
      match FirstClose(s[1..])
      case Some(j) => [Span(s[1..j + 1])] + Tokenize(s[j + 2..])
      case None => [Lit('<')] + Tokenize(s[1..])
    else [Lit(s[0])] + Tokenize(s[1..])
  }

  /** The text a token sequence stands for. */
  function Untokenize(toks: seq<Token>): string {
    if toks == [] then []
    else
      (match toks[0]
       case Lit(c) => [c]
       case Span(x) => "<" + x + ">")
      + Untokenize(toks[1..])
  }

  /**
   * The token sequences the scan can produce: spans hold neither `>` nor a newline,
   * and a literal `<` has no `>` after it on its line.
   */
  predicate WellFormed(toks: seq<Token>) {
    toks == [] ||
    ((match toks[0]
      case Lit(c) => c == '<' ==> NoCloseOnLine(Untokenize(toks[1..]))
      case Span(x) => '>' !in x && '\n' !in x)
     && WellFormed(toks[1..]))
  }

  /** The first `>` of `x + ">" + y` is the one after `x` when `x` has none and no newline. */
  lemma {:induction false} FirstCloseAfter(x: string, y: string)
    requires '>' !in x && '\n' !in x
    ensures FirstClose(x + ">" + y) == Some(|x|)
    decreases |x|
  {
    if x == [] {
      assert x + ">" + y == ">" + y;
    } else {
      assert (x + ">" + y)[1..] == x[1..] + ">" + y;
      FirstCloseAfter(x[1..], y);
    }
  }

  /** Tokenizing loses nothing: the tokens spell out the text. */
  lemma {:induction false} TokenizeRoundTrip(s: string)
    ensures Untokenize(Tokenize(s)) == s
    decreases |s|
  {
    hide *;
    if s == [] {
      NoTokens();
    } else if s[0] == '<' && FirstClose(s[1..]).Some? {
      var j := FirstClose(s[1..]).value;
      TokenizeRoundTrip(s[j + 2..]);
      SpanRoundTrip(s, j);
    } else {
      TokenizeRoundTrip(s[1..]);
      LitRoundTrip(s);
    }
  }

  lemma {:induction false} NoTokens()
    ensures Untokenize(Tokenize([])) == []
  {
  }

  /** The round trip over a span at the front, given the round trip after it. */
  lemma {:induction false} SpanRoundTrip(s: string, j: nat)
    requires s != [] && s[0] == '<' && FirstClose(s[1..]) == Some(j)
    requires Untokenize(Tokenize(s[j + 2..])) == s[j + 2..]
    ensures Untokenize(Tokenize(s)) == s
  {
    hide Untokenize, FirstClose, NoCloseOnLine;
    assert Tokenize(s) == [Span(s[1..j + 1])] + Tokenize(s[j + 2..]);
    SpanText(s[1..j + 1], Tokenize(s[j + 2..]));
    assert s[1..][j] == '>';
    assert s == "<" + s[1..j + 1] + ">" + s[j + 2..];
  }

  /** The round trip over a literal at the front, given the round trip after it. */
  lemma {:induction false} LitRoundTrip(s: string)
    requires s != [] && !(s[0] == '<' && FirstClose(s[1..]).Some?)
    requires Untokenize(Tokenize(s[1..])) == s[1..]
    ensures Untokenize(Tokenize(s)) == s
  {
    hide Untokenize, FirstClose, NoCloseOnLine;
    assert Tokenize(s) == [Lit(s[0])] + Tokenize(s[1..]);
    LitText(s[0], Tokenize(s[1..]));
    assert s == [s[0]] + s[1..];
  }

  /** A span in front stands for its content between angle brackets. */
  lemma {:induction false} SpanText(x: string, rest: seq<Token>)
    ensures Untokenize([Span(x)] + rest) == "<" + x + ">" + Untokenize(rest)
  {
    assert ([Span(x)] + rest)[1..] == rest;
  }

  /** A literal in front stands for its one character. */
  lemma {:induction false} LitText(c: char, rest: seq<Token>)
    ensures Untokenize([Lit(c)] + rest) == [c] + Untokenize(rest)
  {
    assert ([Lit(c)] + rest)[1..] == rest;
  }

  /** The scan only produces well-formed token sequences. */
  lemma {:induction false} TokenizeWellFormed(s: string)
    ensures WellFormed(Tokenize(s))
    decreases |s|
  {
    if s != [] {
      if s[0] == '<' {
        match FirstClose(s[1..])
        case Some(j) =>
          TokenizeWellFormed(s[j + 2..]);
          var x := s[1..j + 1];
          assert forall k :: 0 <= k < |x| ==> x[k] == s[1..][k];
        case None =>
          TokenizeWellFormed(s[1..]);
          TokenizeRoundTrip(s[1..]);
      } else {
        TokenizeWellFormed(s[1..]);
      }
    }
  }

  /** Reading a literal character: a `<` stays literal when no `>` follows on its line. */
  lemma {:induction false} TokenizeLit(c: char, rest: string)
    requires c == '<' ==> NoCloseOnLine(rest)
    ensures Tokenize([c] + rest) == [Lit(c)] + Tokenize(rest)
  {
    var s := [c] + rest;
    assert s[1..] == rest;
  }

  /** Reading a span: `<x>` with no `>` or newline in `x` is one span. */
  lemma {:induction false} TokenizeSpan(x: string, rest: string)
    requires '>' !in x && '\n' !in x
    ensures Tokenize("<" + x + ">" + rest) == [Span(x)] + Tokenize(rest)
  {
    var s := "<" + x + ">" + rest;
    assert s[1..] == x + ">" + rest;
    FirstCloseAfter(x, rest);
    assert s[1..|x| + 1] == x;
    assert s[|x| + 2..] == rest;
  }

  /** A well-formed token sequence is exactly what the scan reads back from its text. */
  lemma {:induction false} TokenizeUntokenize(toks: seq<Token>)
    requires WellFormed(toks)
    ensures Tokenize(Untokenize(toks)) == toks
    decreases |toks|
  {
    if toks != [] {
      var rest := Untokenize(toks[1..]);
      TokenizeUntokenize(toks[1..]);
      assert toks == [toks[0]] + toks[1..];
      match toks[0]
      case Lit(c) =>
        assert Untokenize(toks) == [c] + rest;
        TokenizeLit(c, rest);
      case Span(x) =>
        assert Untokenize(toks) == "<" + x + ">" + rest;
        TokenizeSpan(x, rest);
    }
  }

  /** Replaces every span by its markup; characters outside spans are copied. */
  function Render(t: Mentions.Tables, fmt: Mentions.DateFormatter, toks: seq<Token>): string {
    if toks == [] then []
    else
      (match toks[0]
       case Lit(c) => [c]
       case Span(x) => Mentions.Replacement(t, fmt, x))
      + Render(t, fmt, toks[1..])
  }

  /** Pass 2: `re.sub(r"<(.*?)>", replace, text)`. */
  function BracketPass(t: Mentions.Tables, fmt: Mentions.DateFormatter, s: string): string {
    Render(t, fmt, Tokenize(s))
  }

  /** Tokens without spans render to the text they stand for. */
  lemma {:induction false} RenderLiterals(t: Mentions.Tables, fmt: Mentions.DateFormatter, toks: seq<Token>)
    requires forall k :: 0 <= k < |toks| ==> toks[k].Lit?
    ensures Render(t, fmt, toks) == Untokenize(toks)
    decreases |toks|
  {
    if toks != [] {
      RenderLiterals(t, fmt, toks[1..]);
    }
  }

  /** Text without `<` is only made of literal tokens. */
  lemma {:induction false} TokenizeWithoutBrackets(s: string)
    requires '<' !in s
    ensures forall k :: 0 <= k < |Tokenize(s)| ==> Tokenize(s)[k].Lit?
    decreases |s|
  {
    if s != [] {
      assert '<' !in s[1..];
      TokenizeWithoutBrackets(s[1..]);
    }
  }

  /** Text without `<` passes through pass 2 unchanged. */
  lemma {:induction false} BracketPassWithoutBrackets(t: Mentions.Tables, fmt: Mentions.DateFormatter, s: string)
    requires '<' !in s
    ensures BracketPass(t, fmt, s) == s
  {
    TokenizeWithoutBrackets(s);
    RenderLiterals(t, fmt, Tokenize(s));
    TokenizeRoundTrip(s);
  }

  /** Pass 2 on text that is one span and nothing else is the span's replacement. */
  lemma {:induction false} SingleSpan(t: Mentions.Tables, fmt: Mentions.DateFormatter, x: string)
    requires '>' !in x && '\n' !in x
    ensures BracketPass(t, fmt, "<" + x + ">") == Mentions.Replacement(t, fmt, x)
  {
    var s := "<" + x + ">";
    assert s == "<" + x + ">" + [];
    TokenizeSpan(x, []);
    assert Tokenize(s) == [Span(x)];
    assert Render(t, fmt, [Span(x)]) == Mentions.Replacement(t, fmt, x) + Render(t, fmt, []);
  }
}

/**
 * `transform_encoding` (slackchannel2pdf/helpers.py): HTML entities are unescaped,
 * then every tab becomes four spaces. The UTF-8 encode/decode round trip with
 * "replace" only rewrites lone surrogates, which a Dafny `char` cannot hold, so it
 * is the identity here.
 */
module Encoding {
  import opened Wrappers
  import opened Text

  /** The replacement for one tab character. */
  const FourSpaces: string := "    "

  /** Length of the longest prefix of `s` made of decimal digits. */
  function DigitRun(s: string): (n: nat)
    ensures n <= |s|
    ensures forall k :: 0 <= k < n ==> IsDigit(s[k])
    ensures n == |s| || !IsDigit(s[n])
  {
    if s != [] && IsDigit(s[0]) then 1 + DigitRun(s[1..]) else 0
  }

  /** Code points a numeric character reference is decoded to in this model. */
  predicate DecodableCodePoint(n: nat) {
    n == 9 || n == 10 || 32 <= n <= 126
  }

  /**
   * The character reference at the start of `s`, as the character it stands for and
   * the number of characters it spans; `None` when `s` does not start with one.
   * Named references need their `;`; a decimal reference `&#NN` takes the `;` if it
   * follows the digits.
   */
  function Reference(s: string): (r: Option<(char, nat)>)
    ensures r.Some? ==> 2 <= r.value.1 <= |s| && s[0] == '&'
  {
    if StartsWith(s, "&lt;") then Some(('<', 4))
    else if StartsWith(s, "&gt;") then Some(('>', 4))
    else if StartsWith(s, "&amp;") then Some(('&', 5))
    else if StartsWith(s, "&quot;") then Some(('"', 6))
    else if StartsWith(s, "&apos;") then Some(('\'', 6))
    else if StartsWith(s, "&#") then
      var n := DigitRun(s[2..]);
      if n == 0 then None
      else
        var v := DecimalValue(s[2..2 + n]);
        if !DecodableCodePoint(v) then None
        else
          var len := if 2 + n < |s| && s[2 + n] == ';' then 3 + n else 2 + n;
          Some((v as char, len))
    else None
  }

  /** `html.unescape`: one left-to-right pass; decoded characters are not rescanned. */
  function Unescape(s: string): (r: string)
    ensures '&' !in s ==> r == s
    ensures |r| <= |s|
    decreases |s|
  {
    if s == [] then []
    else match Reference(s)
      case Some((c, len)) => [c] + Unescape(s[len..])
      case None => [s[0]] + Unescape(s[1..])
  }

  /** Every tab becomes four spaces (`text.replace("\t", "    ")`). */
  function ExpandTabs(s: string): (r: string)
    ensures '\t' !in r
    ensures '\t' !in s ==> r == s
    ensures |s| == 1 ==> r == (if s[0] == '\t' then FourSpaces else s)
  {
    ReplaceAllOneChar(s, '\t', FourSpaces);
    ReplaceAll(s, "\t", FourSpaces)
  }

  /**
   * Tab expansion works character by character: it distributes over concatenation,
   * so with the one-character case of its contract it fixes every output.
   */
  lemma {:induction false} ExpandTabsConcat(a: string, b: string)
    ensures ExpandTabs(a + b) == ExpandTabs(a) + ExpandTabs(b)
  {
    ReplaceAllOneChar(a + b, '\t', FourSpaces);
    ReplaceAllOneChar(a, '\t', FourSpaces);
    ReplaceAllOneChar(b, '\t', FourSpaces);
    ReplaceCharConcat(a, b, '\t', FourSpaces);
  }

  /** `transform_encoding`: unescape first, then expand tabs. */
  function TransformEncoding(text: string): (r: string)
    ensures '\t' !in r
    ensures '&' !in text ==> r == ExpandTabs(text)
    ensures '&' !in text && '\t' !in text ==> r == text
  {
    ExpandTabs(Unescape(text))
  }

  /** How the chat service writes one character of message text: `&`, `<` and `>` become entities. */
  function EscapeOf(c: char): string {
    if c == '&' then "&amp;"
    else if c == '<' then "&lt;"
    else if c == '>' then "&gt;"
    else [c]
  }

  /** The escaping the chat service applies to `&`, `<` and `>` in message text. */
  function ServiceEscape(s: string): (r: string)
    ensures '<' !in r && '>' !in r
    ensures |r| >= |s|
    ensures '&' !in s && '<' !in s && '>' !in s ==> r == s
    decreases |s|
  {
    if s == [] then [] else EscapeOf(s[0]) + ServiceEscape(s[1..])
  }

  /** Unescaping undoes the chat service's escaping. */
  lemma {:induction false} UnescapeServiceEscape(s: string)
    ensures Unescape(ServiceEscape(s)) == s
    decreases |s|
  {
    hide Unescape, Reference, EscapeOf;
    if s != [] {
      UnescapeServiceEscape(s[1..]);
      UnescapeEscaped(s[0], ServiceEscape(s[1..]));
      assert s == [s[0]] + s[1..];
    }
  }

  /** One escaped character at the front decodes back to itself, and decoding resumes right after it. */
  lemma {:induction false} UnescapeEscaped(c: char, tail: string)
    ensures Unescape(EscapeOf(c) + tail) == [c] + Unescape(tail)
  {
    hide Unescape, Reference, StartsWith;
    if c == '&' {
      AmpersandHead(tail);
    } else if c == '<' {
      LessThanHead(tail);
    } else if c == '>' {
      GreaterThanHead(tail);
    } else {
      PlainHead(c, tail);
    }
  }

  lemma {:induction false} AmpersandHead(tail: string)
    ensures Unescape("&amp;" + tail) == ['&'] + Unescape(tail)
  {
    var e := "&amp;" + tail;
    assert e[..5] == "&amp;" && e[1] == 'a';
    assert Reference(e) == Some(('&', 5));
    assert e[5..] == tail;
  }

  lemma {:induction false} LessThanHead(tail: string)
    ensures Unescape("&lt;" + tail) == ['<'] + Unescape(tail)
  {
    var e := "&lt;" + tail;
    assert e[..4] == "&lt;";
    assert Reference(e) == Some(('<', 4));
    assert e[4..] == tail;
  }

  lemma {:induction false} GreaterThanHead(tail: string)
    ensures Unescape("&gt;" + tail) == ['>'] + Unescape(tail)
  {
    var e := "&gt;" + tail;
    assert e[..4] == "&gt;" && e[1] == 'g';
    assert Reference(e) == Some(('>', 4));
    assert e[4..] == tail;
  }

  /** A character other than `&` never starts a reference. */
  lemma {:induction false} PlainHead(c: char, tail: string)
    requires c != '&'
    ensures Unescape([c] + tail) == [c] + Unescape(tail)
  {
    var e := [c] + tail;
    assert Reference(e).None?;
    assert e[1..] == tail;
  }

  /** The text the author typed comes back out of `transform_encoding`, tabs expanded. */
  lemma {:induction false} TransformEncodingRecoversText(s: string)
    ensures TransformEncoding(ServiceEscape(s)) == ExpandTabs(s)
  {
    UnescapeServiceEscape(s);
  }

  /** `&lt;` and `&#60;` both decode to `<`. */
  lemma {:induction false} LessThanReferences()
    ensures TransformEncoding("&lt;") == "<"
    ensures TransformEncoding("&#60;") == "<"
  {
    hide Unescape, Reference;
    NamedLessThan();
    DecimalLessThan();
  }

  lemma {:induction false} NamedLessThan()
    ensures Unescape("&lt;") == "<"
  {
    assert Reference("&lt;") == Some(('<', 4));
  }

  lemma {:induction false} DecimalLessThan()
    ensures Unescape("&#60;") == "<"
  {
    var s := "&#60;";
    assert s[2..] == "60;" && s[2..4] == "60";
    assert DigitRun("60;") == 2;
    assert DecimalValue("60") == 60;
    assert Reference(s) == Some(('<', 5));
  }

  /** Unescaping runs before tab expansion, so an encoded tab also becomes four spaces. */
  lemma {:induction false} EncodedTabBecomesSpaces()
    ensures TransformEncoding("&#9;") == FourSpaces
  {
    var s := "&#9;";
    assert s[2..] == "9;" && s[2..3] == "9";
    assert DigitRun("9;") == 1;
    assert DecimalValue("9") == 9;
    assert (9 as char) == '\t';
    assert Reference(s) == Some(('\t', 4));
    assert Unescape("&#9;") == "\t";
  }

  /** A decoded `&` is not decoded again: `&amp;lt;` stays `&lt;`. */
  lemma {:induction false} UnescapeIsSinglePass()
    ensures TransformEncoding("&amp;lt;") == "&lt;"
  {
    hide Unescape, Reference;
    AmpersandHead("lt;");
    assert "&amp;lt;" == "&amp;" + "lt;";
    assert ['&'] + "lt;" == "&lt;";
  }

  /** Non-ASCII text without entities or tabs is returned unchanged. */
  lemma {:induction false} PlainTextUnchanged()
    ensures TransformEncoding("special char ✓") == "special char ✓"
  {
    var s := "special char ✓";
    assert forall k :: 0 <= k < |s| ==> s[k] != '&' && s[k] != '\t';
  }
}

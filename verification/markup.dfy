/**
 * The parsing half of `write_html` (slackchannel2pdf/fpdf_extension.py and
 * slackchannel2pdf/fpdf_ext.py): `re.split(r"<([^>]*)>", html)` into alternating text and
 * tag parts, and the reading of one tag into its upper-cased name and attributes.
 */
module Markup {
  import opened Wrappers
  import opened Text

  // ---------------------------------------------------------------------------
  // Splitting into text and tag parts.

  /** A tag part and the text part after it. */
  datatype Piece = Piece(tag: string, text: string)

  /**
   * The list `re.split` returns, `[text, tag, text, tag, ..., text]`, held as the first
   * text part and the (tag, text) pairs after it.
   */
  datatype Parts = Parts(head: string, pieces: seq<Piece>)

  /** The Python list itself: text at even indices, tag contents at odd ones. */
  function PartList(p: Parts): (r: seq<string>)
    ensures |r| == 2 * |p.pieces| + 1 && r[0] == p.head
    ensures forall k :: 0 <= k < |p.pieces| ==> r[2 * k + 1] == p.pieces[k].tag && r[2 * k + 2] == p.pieces[k].text
    decreases |p.pieces|
  {
    if p.pieces == [] then [p.head]
    else
      var rest := PartList(Parts(p.pieces[0].text, p.pieces[1..]));
      assert forall k :: 1 <= k < |p.pieces| ==> p.pieces[1..][k - 1] == p.pieces[k];
      [p.head, p.pieces[0].tag] + rest
  }

  /**
   * `re.split(r"<([^>]*)>", s)`: a `<` with a `>` somewhere after it opens a tag that runs to
   * the first such `>`; any other character is text.
   */
  function SplitMarkup(s: string): Parts
    decreases |s|
  {
    if s == [] then Parts("", [])
    else if s[0] == '<' && IndexOf(s[1..], '>').Some? then
      var j := IndexOf(s[1..], '>').value;
      var r := SplitMarkup(s[j + 2..]);
      Parts("", [Piece(s[1..j + 1], r.head)] + r.pieces)
    else
      var r := SplitMarkup(s[1..]);
      Parts([s[0]] + r.head, r.pieces)
  }

  function JoinPieces(ps: seq<Piece>): string {
    if ps == [] then [] else "<" + ps[0].tag + ">" + ps[0].text + JoinPieces(ps[1..])
  }

  /** The markup the parts stand for: every tag wrapped in `<` and `>` again. */
  function JoinMarkup(p: Parts): string {
    p.head + JoinPieces(p.pieces)
  }

  /** The last text part. */
  function LastText(p: Parts): string {
    if p.pieces == [] then p.head else p.pieces[|p.pieces| - 1].text
  }

  /** No `<` in `s` has a `>` after it. */
  predicate NoTagIn(s: string) {
    forall a, b :: 0 <= a < b < |s| && s[a] == '<' ==> s[b] != '>'
  }

  /** The parts the split can produce. */
  predicate PartsWellFormed(p: Parts) {
    // tags hold no `>`
    (forall k :: 0 <= k < |p.pieces| ==> '>' !in p.pieces[k].tag)
    // a `<` in text is only possible once no `>` follows anywhere
    && (p.pieces != [] ==> '<' !in p.head)
    && (forall k :: 0 <= k < |p.pieces| - 1 ==> '<' !in p.pieces[k].text)
    && NoTagIn(LastText(p))
  }

  /** Splitting loses nothing: the parts spell out the markup. */
  lemma {:induction false} SplitMarkupRoundTrip(s: string)
    ensures JoinMarkup(SplitMarkup(s)) == s
    decreases |s|
  {
    if s != [] {
      if s[0] == '<' && IndexOf(s[1..], '>').Some? {
        var j := IndexOf(s[1..], '>').value;
        SplitMarkupRoundTrip(s[j + 2..]);
        SplitTagStep(s, j);
      } else {
        SplitMarkupRoundTrip(s[1..]);
        SplitTextStep(s);
      }
    }
  }

  lemma {:induction false} SplitTagStep(s: string, j: nat)
    requires s != [] && s[0] == '<' && IndexOf(s[1..], '>') == Some(j)
    requires JoinMarkup(SplitMarkup(s[j + 2..])) == s[j + 2..]
    ensures JoinMarkup(SplitMarkup(s)) == s
  {
    var t, rest := s[1..j + 1], s[j + 2..];
    var r := SplitMarkup(rest);
    var p := Piece(t, r.head);
    assert SplitMarkup(s) == Parts("", [p] + r.pieces);
    JoinPiecesCons(p, r.pieces);
    assert r.head + JoinPieces(r.pieces) == rest;
    assert JoinPieces([p] + r.pieces) == "<" + t + ">" + rest;
    assert s[1..][j] == '>';
    Bracketed(s, j);
  }

  lemma {:induction false} JoinPiecesCons(p: Piece, rest: seq<Piece>)
    ensures JoinPieces([p] + rest) == "<" + p.tag + ">" + (p.text + JoinPieces(rest))
  {
    assert ([p] + rest)[1..] == rest;
  }

  /** A text opening with `<` and holding `>` at `j + 1` is the tag and the rest. */
  lemma {:induction false} Bracketed(s: string, j: nat)
    requires j + 2 <= |s| && s[0] == '<' && s[j + 1] == '>'
    ensures s == "<" + s[1..j + 1] + ">" + s[j + 2..]
  {
  }

  lemma {:induction false} SplitTextStep(s: string)
    requires s != [] && !(s[0] == '<' && IndexOf(s[1..], '>').Some?)
    requires JoinMarkup(SplitMarkup(s[1..])) == s[1..]
    ensures JoinMarkup(SplitMarkup(s)) == s
  {
    assert s == [s[0]] + s[1..];
  }

  /** A character missing from the markup is missing from every part. */
  predicate Avoids(p: Parts, c: char) {
    c !in p.head && forall k :: 0 <= k < |p.pieces| ==> c !in p.pieces[k].tag && c !in p.pieces[k].text
  }

  lemma {:induction false} SplitMarkupAvoids(s: string, c: char)
    requires c !in s
    ensures Avoids(SplitMarkup(s), c)
    decreases |s|
  {
    if s != [] {
      if s[0] == '<' && IndexOf(s[1..], '>').Some? {
        var j := IndexOf(s[1..], '>').value;
        assert c !in s[j + 2..];
        SplitMarkupAvoids(s[j + 2..], c);
        assert c !in s[1..j + 1];
        var r := SplitMarkup(s[j + 2..]);
        var ps := [Piece(s[1..j + 1], r.head)] + r.pieces;
        assert forall k :: 1 <= k < |ps| ==> ps[k] == r.pieces[k - 1];
      } else {
        assert c !in s[1..];
        SplitMarkupAvoids(s[1..], c);
      }
    }
  }

  /** A non-`<` character in front of a text part keeps it free of tags. */
  lemma {:induction false} NoTagInHead(c: char, t: string)
    requires c != '<' && NoTagIn(t)
    ensures NoTagIn([c] + t)
  {
    var s := [c] + t;
    forall a, b | 0 <= a < b < |s| && s[a] == '<'
      ensures s[b] != '>'
    {
      assert s[a] == t[a - 1] && s[b] == t[b - 1];
    }
  }

  /** The split always yields well-formed parts. */
  lemma {:induction false} SplitMarkupWellFormed(s: string)
    ensures PartsWellFormed(SplitMarkup(s))
    decreases |s|
  {
    if s != [] {
      if s[0] == '<' && IndexOf(s[1..], '>').Some? {
        var j := IndexOf(s[1..], '>').value;
        SplitMarkupWellFormed(s[j + 2..]);
        TagStepWellFormed(s, j);
      } else {
        SplitMarkupWellFormed(s[1..]);
        SplitMarkupRoundTrip(s[1..]);
        TextStepWellFormed(s);
      }
    }
  }

  lemma {:induction false} TagStepWellFormed(s: string, j: nat)
    requires s != [] && s[0] == '<' && IndexOf(s[1..], '>') == Some(j)
    requires PartsWellFormed(SplitMarkup(s[j + 2..]))
    ensures PartsWellFormed(SplitMarkup(s))
  {
    var t := s[1..j + 1];
    var r := SplitMarkup(s[j + 2..]);
    assert SplitMarkup(s) == Parts("", [Piece(t, r.head)] + r.pieces);
    assert t == s[1..][..j];
    ConsPieceWellFormed(t, r);
  }

  /** A tag without `>` in front of well-formed parts keeps them well-formed. */
  lemma {:induction false} ConsPieceWellFormed(t: string, r: Parts)
    requires '>' !in t && PartsWellFormed(r)
    ensures PartsWellFormed(Parts("", [Piece(t, r.head)] + r.pieces))
  {
    var ps := [Piece(t, r.head)] + r.pieces;
    assert forall k :: 1 <= k < |ps| ==> ps[k] == r.pieces[k - 1];
    assert LastText(Parts("", ps)) == LastText(r);
  }

  lemma {:induction false} TextStepWellFormed(s: string)
    requires s != [] && !(s[0] == '<' && IndexOf(s[1..], '>').Some?)
    requires PartsWellFormed(SplitMarkup(s[1..]))
    requires JoinMarkup(SplitMarkup(s[1..])) == s[1..]
    ensures PartsWellFormed(SplitMarkup(s))
  {
    var r := SplitMarkup(s[1..]);
    assert SplitMarkup(s) == Parts([s[0]] + r.head, r.pieces);
    ConsText(s[0], r, s[1..]);
  }

  /** A character in front of the parts of `t`; a `<` only when `t` holds no `>`. */
  lemma {:induction false} ConsText(c: char, r: Parts, t: string)
    requires PartsWellFormed(r) && JoinMarkup(r) == t
    requires c == '<' ==> '>' !in t
    ensures PartsWellFormed(Parts([c] + r.head, r.pieces))
  {
    if r.pieces == [] {
      if c == '<' {
        OpenBeforeNoClose(t);
      } else {
        NoTagInHead(c, r.head);
      }
    } else {
      assert c != '<' by {
        if c == '<' {
          CloseAfterHead(t, r);
        }
      }
      ConsTextWellFormed(c, r);
    }
  }

  /** A `<` in front of text without `>` opens no tag. */
  lemma {:induction false} OpenBeforeNoClose(t: string)
    requires '>' !in t
    ensures NoTagIn(['<'] + t)
  {
    var s := ['<'] + t;
    forall a, b | 0 <= a < b < |s| && s[a] == '<'
      ensures s[b] != '>'
    {
      assert s[b] == t[b - 1];
    }
  }

  /** A character other than `<` in front of the first text part of well-formed parts. */
  lemma {:induction false} ConsTextWellFormed(c: char, r: Parts)
    requires c != '<' && r.pieces != [] && PartsWellFormed(r)
    ensures PartsWellFormed(Parts([c] + r.head, r.pieces))
  {
  }

  /** When the text still has a tag after its first part, it holds a `>`. */
  lemma {:induction false} CloseAfterHead(t: string, r: Parts)
    requires r.pieces != [] && JoinMarkup(r) == t
    ensures IndexOf(t, '>').Some?
  {
    var ps := r.pieces;
    assert JoinPieces(ps) == "<" + ps[0].tag + ">" + ps[0].text + JoinPieces(ps[1..]);
    assert t[|r.head| + 1 + |ps[0].tag|] == '>';
  }

  /** Markup without `<` is one text part. */
  lemma {:induction false} SplitMarkupPlain(s: string)
    requires '<' !in s
    ensures SplitMarkup(s) == Parts(s, [])
    decreases |s|
  {
    if s != [] {
      assert '<' !in s[1..];
      SplitMarkupPlain(s[1..]);
      assert s == [s[0]] + s[1..];
    }
  }

  // ---------------------------------------------------------------------------
  // Reading one tag.

  /** What a tag part asks for. */
  datatype TagOp = Open(name: string, attrs: map<string, string>) | Close(name: string)

  /** Length of the longest prefix of `s` holding neither `"` nor `'`. */
  function UnquotedRun(s: string): (n: nat)
    ensures n <= |s|
    ensures forall k :: 0 <= k < n ==> s[k] != '"' && s[k] != '\''
    ensures n == |s| || s[n] == '"' || s[n] == '\''
  {
    if s != [] && s[0] != '"' && s[0] != '\'' then 1 + UnquotedRun(s[1..]) else 0
  }

  /**
   * `re.search(r'([^=]*)=["\']?([^"\']*)', token)`: nothing without `=`; otherwise the
   * upper-cased text before the first `=` and the unquoted run after it, skipping one
   * opening quote.
   */
  function Attribute(token: string): (r: Option<(string, string)>)
    ensures r.None? <==> '=' !in token
  {
    match IndexOf(token, '=')
    case None => None
    case Some(j) => Some((Upper(token[..j]), AttributeValue(token[j + 1..])))
  }

  /** `["\']?([^"\']*)`: one optional opening quote, then everything up to the next quote. */
  function AttributeValue(after: string): (v: string)
    ensures '"' !in v && '\'' !in v
  {
    var start := if after != [] && (after[0] == '"' || after[0] == '\'') then 1 else 0;
    after[start..start + UnquotedRun(after[start..])]
  }

  /** The attribute dictionary: tokens read left to right, a later key overwriting an earlier one. */
  function Attributes(tokens: seq<string>): map<string, string>
    decreases |tokens|
  {
    if tokens == [] then map[]
    else
      var m := Attributes(tokens[..|tokens| - 1]);
      match Attribute(tokens[|tokens| - 1])
      case None => m
      case Some(kv) => m[kv.0 := kv.1]
  }

  /** Tokens without `=` are dropped. */
  lemma {:induction false} AttributesSkipPlain(tokens: seq<string>, t: string)
    requires '=' !in t
    ensures Attributes(tokens + [t]) == Attributes(tokens)
  {
    assert (tokens + [t])[..|tokens|] == tokens;
  }

  /** A later token with a key overwrites the value and leaves every other key alone. */
  lemma {:induction false} AttributesOverwrite(tokens: seq<string>, t: string, key: string, value: string)
    requires Attribute(t) == Some((key, value))
    ensures key in Attributes(tokens + [t]) && Attributes(tokens + [t])[key] == value
    ensures forall k :: k != key ==>
      (k in Attributes(tokens + [t]) <==> k in Attributes(tokens))
      && (k in Attributes(tokens) ==> Attributes(tokens + [t])[k] == Attributes(tokens)[k])
  {
    assert (tokens + [t])[..|tokens|] == tokens;
  }

  /**
   * `_process_tag`: a part starting with `/` closes the upper-cased rest; otherwise the first
   * space-separated token, upper-cased, opens a tag with the attributes of the other tokens.
   * An empty part fails on `part[0]` with an `IndexError`.
   */
  function ParseTag(part: string): (r: Result<TagOp>)
    ensures r.Err? <==> part == []
    ensures r.Ok? && part[0] == '/' ==> r.value == Close(Upper(part[1..]))
    ensures r.Ok? && part[0] != '/' ==> r.value.Open? && r.value.name == Upper(BeforeFirst(part, ' '))
  {
    if part == [] then Err(IndexError)
    else if part[0] == '/' then Ok(Close(Upper(part[1..])))
    else
      var tokens := Split(part, ' ');
      var name := Upper(tokens[0]);
      SplitHeadIsBeforeFirst(part, ' ');
      Ok(Open(name, Attributes(tokens[1..])))
  }

  /** Closing tags are case-insensitive. */
  lemma {:induction false} CloseCaseInsensitive(x: string)
    ensures ParseTag("/" + x) == ParseTag("/" + Upper(x))
  {
    assert ("/" + x)[1..] == x;
    assert ("/" + Upper(x))[1..] == Upper(x);
    UpperIdempotent(x);
  }

  /** `IndexOf` is the position of the first occurrence. */
  lemma {:induction false} IndexOfAt(s: string, c: char, i: nat)
    requires i < |s| && s[i] == c && c !in s[..i]
    ensures IndexOf(s, c) == Some(i)
  {
    assert c in s;
    var r := IndexOf(s, c).value;
    assert forall k :: 0 <= k < i ==> s[..i][k] == s[k];
    assert forall k :: 0 <= k < r ==> s[..r][k] == s[k];
  }

  /** A tag name and one attribute token, separated by a space. */
  lemma {:induction false} SplitNameAndToken(name: string, token: string)
    requires ' ' !in name && ' ' !in token
    ensures Split(name + " " + token, ' ') == [name, token]
  {
    var s := name + " " + token;
    assert s[..|name|] == name;
    IndexOfAt(s, ' ', |name|);
    assert s[|name| + 1..] == token;
  }

  /** The run before a closing quote is the whole quoted value. */
  lemma {:induction false} UnquotedRunToQuote(value: string)
    requires '"' !in value && '\'' !in value
    ensures UnquotedRun(value + "\"") == |value|
  {
    var s := value + "\"";
    assert forall k :: 0 <= k < |value| ==> s[k] == value[k];
    assert s[|value|] == '"';
  }

  /** A double-quoted value reads as the text between the quotes. */
  lemma {:induction false} QuotedValue(value: string)
    requires '"' !in value && '\'' !in value
    ensures AttributeValue("\"" + value + "\"") == value
  {
    var after := "\"" + value + "\"";
    assert after[1..] == value + "\"";
    UnquotedRunToQuote(value);
    assert (value + "\"")[..|value|] == value;
  }

  /** `key="value"` reads as the upper-cased key and the value between the quotes. */
  lemma {:induction false} QuotedAttribute(key: string, value: string)
    requires '=' !in key && '"' !in value && '\'' !in value
    ensures Attribute(key + "=\"" + value + "\"") == Some((Upper(key), value))
  {
    var tok := key + "=\"" + value + "\"";
    assert tok[..|key|] == key;
    IndexOfAt(tok, '=', |key|);
    assert tok[|key| + 1..] == "\"" + value + "\"";
    QuotedValue(value);
  }

  /** One token with an attribute makes a one-entry dictionary. */
  lemma {:induction false} AttributesSingle(tok: string, key: string, value: string)
    requires Attribute(tok) == Some((key, value))
    ensures Attributes([tok]) == map[key := value]
  {
    assert [tok][..0] == [];
  }

  /** An opening tag read from its tokens. */
  lemma {:induction false} ParseOpenTag(part: string, tokens: seq<string>)
    requires part != [] && part[0] != '/' && Split(part, ' ') == tokens
    ensures ParseTag(part) == Ok(Open(Upper(tokens[0]), Attributes(tokens[1..])))
  {
  }

  /** A tag with one attribute. */
  lemma {:induction false} OneAttributeTag(name: string, key: string, value: string)
    requires name != [] && name[0] != '/' && ' ' !in name && '=' !in key && ' ' !in key
    requires '"' !in value && '\'' !in value && ' ' !in value
    ensures ParseTag(name + " " + key + "=\"" + value + "\"") == Ok(Open(Upper(name), map[Upper(key) := value]))
  {
    var tok := key + "=\"" + value + "\"";
    var part := name + " " + tok;
    assert name + " " + key + "=\"" + value + "\"" == part;
    SplitNameAndToken(name, tok);
    QuotedAttribute(key, value);
    AttributesSingle(tok, Upper(key), value);
    assert part[0] == name[0];
    ParseOpenTag(part, [name, tok]);
    assert [name, tok][1..] == [tok];
  }

  /** The code-span tag the transformer emits reads back as its font family. */
  lemma {:induction false} MonoTag()
    ensures ParseTag("s fontfamily=\"NotoSansMono\"") == Ok(Open("S", map["FONTFAMILY" := "NotoSansMono"]))
  {
    MonoTagText();
    UpperFontFamily();
    assert Upper("s") == [UpperChar('s')];
    MonoTagNames();
    MonoTagValue();
    OneAttributeTag("s", "fontfamily", "NotoSansMono");
  }

  lemma {:induction false} MonoTagText()
    ensures "s" + " " + "fontfamily" + "=\"" + "NotoSansMono" + "\"" == "s fontfamily=\"NotoSansMono\""
  {
  }

  lemma {:induction false} MonoTagNames()
    ensures ' ' !in "s" && '=' !in "fontfamily" && ' ' !in "fontfamily"
  {
    var f := "fontfamily";
    assert forall k :: 0 <= k < |f| ==> 'a' <= f[k] <= 'z';
  }

  lemma {:induction false} MonoTagValue()
    ensures '"' !in "NotoSansMono" && '\'' !in "NotoSansMono" && ' ' !in "NotoSansMono"
  {
    var v := "NotoSansMono";
    assert forall k :: 0 <= k < |v| ==> 'A' <= v[k] <= 'z';
  }

  lemma {:induction false} UpperFontFamily()
    ensures Upper("fontfamily") == "FONTFAMILY"
  {
    var u := Upper("fontfamily");
    assert UpperChar('f') == 'F' && UpperChar('o') == 'O' && UpperChar('n') == 'N' && UpperChar('t') == 'T';
    assert UpperChar('a') == 'A' && UpperChar('m') == 'M' && UpperChar('i') == 'I' && UpperChar('l') == 'L';
    assert UpperChar('y') == 'Y';
    assert u == [u[0], u[1], u[2], u[3], u[4], u[5], u[6], u[7], u[8], u[9]];
  }
}

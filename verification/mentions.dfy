/**
 * Resolution of one `<...>` span of chat markup (`_replace_mrkdwn_in_text` and the
 * `_process_*` helpers of slackchannel2pdf/message_transformer.py, and the inner
 * function of `_transform_text` in slackchannel2pdf/slackchannel2pdf.py).
 * The argument `m` is the span's content without the angle brackets.
 */
module Mentions {
  import opened Wrappers
  import opened Text

  /** The read-only name tables the transformer looks ids up in. */
  datatype Tables = Tables(
    users: map<string, string>,
    channels: map<string, string>,
    usergroups: map<string, string>)

  /** Formats a raw epoch-seconds string as a local date and time (a locale oracle). */
  type DateFormatter = string -> string

  /** The ordered classification of a span's content. */
  datatype Kind =
    | UserMention(id: string)
    | ChannelMention(id: string)
    | UsergroupMention
    | SpecialMention(id: string)
    | Link

  const FailedDate: string := "(failed to parse date)"

  /** `match[1:].split("|", 1)[0]`: the text after the sigil up to the first `|`. */
  function ObjectId(m: string): (id: string)
    ensures '|' !in id
  {
    BeforeFirst(Slice(m, 1, |m|), '|')
  }

  /** Only content that starts with `@`, `#` or `!` can be a mention; everything else is a link. */
  function Classify(m: string): (k: Kind)
    ensures !k.Link? ==> m != [] && (m[0] == '@' || m[0] == '#' || m[0] == '!')
  {
    var idChars := Slice(m, 0, 2);
    assert |idChars| == 2 ==> |m| >= 2 && idChars == m[..2];
    assert Slice(m, 0, 1) == "!" ==> m[..1] == "!";
    assert Slice(m, 0, 9) == "!subteam^" ==> m[..9] == "!subteam^";
    if idChars == "@U" || idChars == "@W" then UserMention(ObjectId(m))
    else if idChars == "#C" then ChannelMention(ObjectId(m))
    else if Slice(m, 0, 9) == "!subteam^" then UsergroupMention
    else if Slice(m, 0, 1) == "!" then SpecialMention(ObjectId(m))
    else Link
  }

  /** A Python slice `m[0:n]` equals an `n`-character literal exactly when `m` starts with it. */
  lemma {:induction false} SliceEqualsPrefix(m: string, p: string)
    ensures Slice(m, 0, |p|) == p <==> StartsWith(m, p)
  {
  }

  /** Length of the run of `[A-Z0-9]` characters at the start of `s`. */
  function UpperAlnumRun(s: string): (n: nat)
    ensures n <= |s|
    ensures forall k :: 0 <= k < n ==> IsUpperAlnum(s[k])
    ensures n == |s| || !IsUpperAlnum(s[n])
  {
    if s != [] && IsUpperAlnum(s[0]) then 1 + UpperAlnumRun(s[1..]) else 0
  }

  /** `re.match(r"!subteam\^(S[A-Z0-9]+)", m)`, as the captured id. */
  function UsergroupId(m: string): (r: Option<string>)
    ensures r.Some? <==> StartsWith(m, "!subteam^") && |m| > 10 && m[9] == 'S' && IsUpperAlnum(m[10])
    ensures r.Some? ==>
      var id := r.value;
      && |id| >= 2 && id[0] == 'S'
      && (forall k :: 0 <= k < |id| ==> IsUpperAlnum(id[k]))
      && StartsWith(m, "!subteam^" + id)
      && (|m| == 9 + |id| || !IsUpperAlnum(m[9 + |id|]))
  {
    if StartsWith(m, "!subteam^") && |m| > 10 && m[9] == 'S' && IsUpperAlnum(m[10]) then
      var n := UpperAlnumRun(m[10..]);
      var id := m[9..10 + n];
      assert id[0] == 'S' && id[1..] == m[10..][..n];
      assert forall k :: 1 <= k < |id| ==> id[k] == m[10..][k - 1];
      assert m[..9 + |id|] == "!subteam^" + id;
      Some(id)
    else None
  }

  /** `_process_user_group_id`: the name shown after the `@`. */
  function UsergroupName(t: Tables, m: string): string {
    match UsergroupId(m)
    case Some(id) => if id in t.usergroups then t.usergroups[id] else "usergroup_" + id
    case None => "usergroup_unknown"
  }

  /** `_process_user_id`. */
  function UserName(t: Tables, id: string): string {
    if id in t.users then t.users[id] else "user_" + id
  }

  /** `_process_channel_id`. */
  function ChannelName(t: Tables, id: string): string {
    if id in t.channels then t.channels[id] else "channel_" + id
  }

  /** The anchor markup `<a href="url">text</a>`. */
  function Anchor(url: string, text: string): string {
    "<a href=\"" + url + "\">" + text + "</a>"
  }

  /** `_process_url`: with exactly one `|` the content is `url|caption`, otherwise both are the whole content. */
  function LinkMarkup(m: string): string {
    var parts := Split(m, '|');
    if |parts| == 2 then Anchor(parts[0], parts[1]) else Anchor(m, m)
  }

  /** `_process_special_mention`: the replacement text and whether it is made bold. */
  function SpecialMarkup(fmt: DateFormatter, m: string, id: string): (string, bool) {
    if id == "here" then ("@here", true)
    else if id == "channel" then ("@channel", true)
    else if id == "everyone" then ("@everyone", true)
    else if Slice(m, 0, 5) == "!date" then
      var parts := Split(m, '^');
      (if |parts| > 1 then fmt(parts[1]) else FailedDate, false)
    else ("@special_" + id, true)
  }

  function Bold(s: string): string {
    "<b>" + s + "</b>"
  }

  /** `_replace_mrkdwn_in_text`: the markup that replaces the span `<m>`. */
  function Replacement(t: Tables, fmt: DateFormatter, m: string): string {
    match Classify(m)
    case UserMention(id) => Bold("@" + UserName(t, id))
    case ChannelMention(id) => Bold("#" + ChannelName(t, id))
    case UsergroupMention => Bold("@" + UsergroupName(t, m))
    case SpecialMention(id) =>
      var (text, bold) := SpecialMarkup(fmt, m, id);
      if bold then Bold(text) else text
    case Link => LinkMarkup(m)
  }

  /** The classification tries user, channel, usergroup and special, in that order, then link. */
  lemma {:induction false} ClassificationOrder(m: string)
    ensures Classify(m).UserMention? <==> StartsWith(m, "@U") || StartsWith(m, "@W")
    ensures Classify(m).ChannelMention? <==> StartsWith(m, "#C")
    ensures Classify(m).UsergroupMention? <==> StartsWith(m, "!subteam^")
    ensures Classify(m).SpecialMention? <==> StartsWith(m, "!") && !StartsWith(m, "!subteam^")
    ensures Classify(m).Link? <==>
      !StartsWith(m, "@U") && !StartsWith(m, "@W") && !StartsWith(m, "#C") && !StartsWith(m, "!")
  {
    SliceEqualsPrefix(m, "@U");
    SliceEqualsPrefix(m, "@W");
    SliceEqualsPrefix(m, "#C");
    SliceEqualsPrefix(m, "!subteam^");
    SliceEqualsPrefix(m, "!");
    if |m| >= 2 {
      assert Slice(m, 0, 2) == [m[0], m[1]];
    }
    if |m| >= 1 {
      assert Slice(m, 0, 1) == [m[0]];
    }
    if StartsWith(m, "!subteam^") {
      assert m[0] == '!';
    }
  }

  /** The id of a span is the text after its one-character sigil up to the first `|`. */
  lemma {:induction false} ObjectIdOf(sigil: char, a: string, rest: string)
    requires '|' !in a
    requires rest == [] || rest[0] == '|'
    ensures ObjectId([sigil] + a + rest) == a
  {
    var m := [sigil] + a + rest;
    assert Slice(m, 1, |m|) == a + rest;
    BeforeFirstOfPrefix(a, rest);
  }

  /** The text before the first `|` of `a + rest`, when `a` has none and `rest` starts with one. */
  lemma {:induction false} BeforeFirstOfPrefix(a: string, rest: string)
    requires '|' !in a
    requires rest == [] || rest[0] == '|'
    ensures BeforeFirst(a + rest, '|') == a
  {
    var s := a + rest;
    if rest == [] {
      assert s == a;
    } else {
      assert s[|a|] == '|';
      assert s[..|a|] == a;
      assert '|' in s;
    }
  }

  /**
   * A user mention `<@ID>` or `<@ID|caption>` (ID starting with `U` or `W`) shows the
   * table name, or `user_ID` when the id is unknown, in bold; the caption is ignored.
   */
  lemma {:induction false} UserMentionResolution(t: Tables, fmt: DateFormatter, sigil: char, id: string, rest: string)
    requires sigil == 'U' || sigil == 'W'
    requires '|' !in id
    requires rest == [] || rest[0] == '|'
    ensures Replacement(t, fmt, "@" + [sigil] + id + rest) == Bold("@" + UserName(t, [sigil] + id))
  {
    var m := "@" + [sigil] + id + rest;
    var full := [sigil] + id;
    assert m == "@" + full + rest;
    assert Slice(m, 0, 2) == [m[0], m[1]];
    ObjectIdOf('@', full, rest);
    assert Classify(m) == UserMention(full);
  }

  /** A channel mention `<#CID>` or `<#CID|caption>` shows `#name` or `#channel_CID`, in bold. */
  lemma {:induction false} ChannelMentionResolution(t: Tables, fmt: DateFormatter, id: string, rest: string)
    requires '|' !in id
    requires rest == [] || rest[0] == '|'
    ensures Replacement(t, fmt, "#C" + id + rest) == Bold("#" + ChannelName(t, "C" + id))
  {
    var m := "#C" + id + rest;
    var full := "C" + id;
    assert m == "#" + full + rest;
    assert Slice(m, 0, 2) == [m[0], m[1]];
    ObjectIdOf('#', full, rest);
    assert Classify(m) == ChannelMention(full);
  }

  /** The table lookups fall back to a prefixed id exactly when the id is unknown. */
  lemma {:induction false} NameFallbacks(t: Tables, id: string)
    ensures id in t.users ==> UserName(t, id) == t.users[id]
    ensures id !in t.users ==> UserName(t, id) == "user_" + id
    ensures id in t.channels ==> ChannelName(t, id) == t.channels[id]
    ensures id !in t.channels ==> ChannelName(t, id) == "channel_" + id
  {
  }

  /**
   * A usergroup mention `<!subteam^ID...>` with `ID` = `S` followed by one or more
   * `[A-Z0-9]` shows the table name or `usergroup_ID`, in bold.
   */
  lemma {:induction false} UsergroupMentionResolution(t: Tables, fmt: DateFormatter, id: string, rest: string)
    requires |id| >= 2 && id[0] == 'S'
    requires forall k :: 0 <= k < |id| ==> IsUpperAlnum(id[k])
    requires rest == [] || !IsUpperAlnum(rest[0])
    ensures Replacement(t, fmt, "!subteam^" + id + rest) ==
      Bold("@" + (if id in t.usergroups then t.usergroups[id] else "usergroup_" + id))
  {
    var m := "!subteam^" + id + rest;
    assert m[..9] == "!subteam^";
    ClassificationOrder(m);
    assert m[9] == 'S' && m[10] == id[1];
    var got := UsergroupId(m).value;
    assert m[..9 + |got|] == "!subteam^" + got;
    RunsAgree(m, 9, got, id);
    assert got == m[9..9 + |id|] == id;
  }

  /** Two maximal `[A-Z0-9]` runs starting at the same position are the same run. */
  lemma {:induction false} RunsAgree(m: string, start: nat, a: string, b: string)
    requires start + |a| <= |m| && m[start..start + |a|] == a
    requires start + |b| <= |m| && m[start..start + |b|] == b
    requires forall k :: 0 <= k < |a| ==> IsUpperAlnum(a[k])
    requires forall k :: 0 <= k < |b| ==> IsUpperAlnum(b[k])
    requires start + |a| == |m| || !IsUpperAlnum(m[start + |a|])
    requires start + |b| == |m| || !IsUpperAlnum(m[start + |b|])
    ensures a == b
  {
    forall k | start <= k < start + |a|
      ensures IsUpperAlnum(m[k])
    {
      assert m[k] == a[k - start];
    }
    forall k | start <= k < start + |b|
      ensures IsUpperAlnum(m[k])
    {
      assert m[k] == b[k - start];
    }
  }

  /** A usergroup mention whose id does not match `S[A-Z0-9]+` shows `usergroup_unknown`. */
  lemma {:induction false} UsergroupUnparsable(t: Tables, fmt: DateFormatter, m: string)
    requires StartsWith(m, "!subteam^")
    requires !(|m| > 10 && m[9] == 'S' && IsUpperAlnum(m[10]))
    ensures Replacement(t, fmt, m) == Bold("@usergroup_unknown")
  {
    hide Classify, SpecialMarkup, ObjectId, LinkMarkup, UserName, ChannelName, Split, Slice, BeforeFirst, Join, UpperAlnumRun, UsergroupId, StartsWith, Bold;
    ClassificationOrder(m);
    assert Classify(m) == UsergroupMention;
    assert UsergroupId(m).None?;
    assert UsergroupName(t, m) == "usergroup_unknown";
    assert "@" + "usergroup_unknown" == "@usergroup_unknown";
  }

  /** Content that starts with `!` but not with `!subteam^` is a special mention. */
  lemma {:induction false} SpecialClassified(m: string)
    requires StartsWith(m, "!") && !StartsWith(m, "!subteam^")
    ensures Classify(m) == SpecialMention(ObjectId(m))
  {
    ClassificationOrder(m);
  }

  /** `<!here>`, `<!channel>` and `<!everyone>`, with or without a label, become bold `@` words. */
  lemma {:induction false} BroadcastMentions(t: Tables, fmt: DateFormatter, word: string, rest: string)
    requires word == "here" || word == "channel" || word == "everyone"
    requires rest == [] || rest[0] == '|'
    ensures Replacement(t, fmt, "!" + word + rest) == Bold("@" + word)
  {
    var m := "!" + word + rest;
    assert m[..1] == "!";
    assert m[1] == word[0] != 's';
    NotSubteam(m);
    ObjectIdOf('!', word, rest);
    SpecialReplacement(t, fmt, m);
    BroadcastMarkup(fmt, m, word);
  }

  /** The three broadcast words map to themselves behind an `@`, flagged bold. */
  lemma {:induction false} BroadcastMarkup(fmt: DateFormatter, m: string, word: string)
    requires word == "here" || word == "channel" || word == "everyone"
    ensures SpecialMarkup(fmt, m, word) == ("@" + word, true)
  {
    if word == "here" {
      assert "@" + word == "@here";
    } else if word == "channel" {
      assert "@" + word == "@channel";
    } else {
      assert "@" + word == "@everyone";
    }
  }

  /** Content whose second character is not `s` cannot start with `!subteam^`. */
  lemma {:induction false} NotSubteam(m: string)
    requires |m| >= 2 && m[1] != 's'
    ensures !StartsWith(m, "!subteam^")
  {
    assert |m| >= 9 ==> m[..9][1] == m[1];
  }

  /** The replacement of a special mention is its special markup, bold when flagged. */
  lemma {:induction false} SpecialReplacement(t: Tables, fmt: DateFormatter, m: string)
    requires StartsWith(m, "!") && !StartsWith(m, "!subteam^")
    ensures var (text, bold) := SpecialMarkup(fmt, m, ObjectId(m));
      Replacement(t, fmt, m) == if bold then Bold(text) else text
  {
    hide Classify, SpecialMarkup, ObjectId, LinkMarkup, UsergroupName, UserName, ChannelName, Bold, Split, StartsWith, Slice, UsergroupId, BeforeFirst, Join;
    SpecialClassified(m);
  }

  /**
   * `<!date^TS^format|fallback>` becomes the formatter applied to `TS`, the text between
   * the first and second `^`; it is not bold.
   */
  lemma {:induction false} DateMention(t: Tables, fmt: DateFormatter, head: string, ts: string, rest: string)
    requires '^' !in head && '^' !in ts
    requires rest == [] || rest[0] == '^'
    ensures Replacement(t, fmt, "!date" + head + "^" + ts + rest) == fmt(ts)
  {
    hide Replacement, Classify, SpecialMarkup, ObjectId, LinkMarkup, UsergroupName, Split, Join, Slice, BeforeFirst, Bold;
    var m := "!date" + head + "^" + ts + rest;
    DateReplacement(t, fmt, m);
    var a := "!date" + head;
    assert '^' !in a;
    SecondField(m, a, ts, rest, '^');
  }

  /** The second field of `a + [sep] + f + rest` split on `sep`, when `rest` is empty or starts a new field. */
  lemma {:induction false} SecondField(s: string, a: string, f: string, rest: string, sep: char)
    requires s == a + [sep] + f + rest
    requires sep !in a && sep !in f
    requires rest == [] || rest[0] == sep
    ensures |Split(s, sep)| > 1 && Split(s, sep)[1] == f
  {
    var tail := f + rest;
    assert s == a + [sep] + tail;
    SplitAt(s, a, tail, sep);
    FirstField(tail, f, rest, sep);
  }

  /** The first field of `f + rest` split on `sep`, when `rest` is empty or starts a new field. */
  lemma {:induction false} FirstField(tail: string, f: string, rest: string, sep: char)
    requires tail == f + rest && sep !in f
    requires rest == [] || rest[0] == sep
    ensures Split(tail, sep)[0] == f
  {
    if rest == [] {
      assert tail == f;
    } else {
      assert tail == f + [sep] + rest[1..];
      SplitAt(tail, f, rest[1..], sep);
    }
  }

  /** A `!date` span is replaced by its second `^`-separated field, formatted, or by the failure text. */
  lemma {:induction false} DateReplacement(t: Tables, fmt: DateFormatter, m: string)
    requires StartsWith(m, "!date")
    ensures var parts := Split(m, '^');
      Replacement(t, fmt, m) == if |parts| > 1 then fmt(parts[1]) else FailedDate
  {
    DateClassified(m);
    SpecialReplacement(t, fmt, m);
  }

  /** A date directive without any `^` degrades to the fixed failure text. */
  lemma {:induction false} DateMentionWithoutCaret(t: Tables, fmt: DateFormatter, tail: string)
    requires '^' !in tail
    ensures Replacement(t, fmt, "!date" + tail) == FailedDate
  {
    var m := "!date" + tail;
    DateReplacement(t, fmt, m);
    assert '^' !in m;
  }

  /** Content starting with `!date` is a special mention that takes the date branch. */
  lemma {:induction false} DateClassified(m: string)
    requires StartsWith(m, "!date")
    ensures Classify(m).SpecialMention?
    ensures Slice(m, 0, 5) == "!date"
    ensures ObjectId(m) != "here" && ObjectId(m) != "channel" && ObjectId(m) != "everyone"
  {
    assert m[..5] == "!date";
    assert m[..1] == "!";
    assert m[1] == 'd';
    NotSubteam(m);
    SpecialClassified(m);
    var id := ObjectId(m);
    assert Slice(m, 1, |m|) == m[1..];
    if |id| >= 1 {
      assert id[0] == m[1];
    }
  }

  /** Splitting `a + [sep] + b` when `a` has no `sep` gives `a` followed by the parts of `b`. */
  lemma {:induction false} SplitAt(s: string, a: string, b: string, sep: char)
    requires s == a + [sep] + b && sep !in a
    ensures Split(s, sep) == [a] + Split(b, sep)
  {
    assert s[|a|] == sep;
    assert s[..|a|] == a;
    assert s[|a| + 1..] == b;
  }

  /** Any other `!` content becomes bold `@special_<id>`, e.g. `<!subteam>` without a caret. */
  lemma {:induction false} OtherSpecialMention(t: Tables, fmt: DateFormatter, m: string)
    requires StartsWith(m, "!") && !StartsWith(m, "!subteam^") && !StartsWith(m, "!date")
    requires ObjectId(m) != "here" && ObjectId(m) != "channel" && ObjectId(m) != "everyone"
    ensures Replacement(t, fmt, m) == Bold("@special_" + ObjectId(m))
  {
    SpecialReplacement(t, fmt, m);
    SliceEqualsPrefix(m, "!date");
  }

  /** `<url|caption>` with exactly one `|` becomes an anchor labelled with the caption; it is not bold. */
  lemma {:induction false} LabelledLink(t: Tables, fmt: DateFormatter, url: string, caption: string)
    requires '|' !in url && '|' !in caption
    requires Classify(url + "|" + caption).Link?
    ensures Replacement(t, fmt, url + "|" + caption) == Anchor(url, caption)
  {
    hide Classify, SpecialMarkup, ObjectId, UsergroupName, UserName, ChannelName, Split, Slice, BeforeFirst, UsergroupId, Bold;
    var m := url + "|" + caption;
    SplitAt(m, url, caption, '|');
    assert Split(caption, '|') == [caption];
  }

  /** Without exactly one `|`, the whole content is both target and caption. */
  lemma {:induction false} BareLink(t: Tables, fmt: DateFormatter, m: string)
    requires Classify(m).Link?
    requires |Split(m, '|')| != 2
    ensures Replacement(t, fmt, m) == Anchor(m, m)
  {
    hide Classify, SpecialMarkup, ObjectId, UsergroupName, UserName, ChannelName, Split, Slice, BeforeFirst, UsergroupId, Bold, Join, StartsWith;
  }
}

# slackchannel2pdf in Dafny

A model of the core of slackchannel2pdf, the tool that exports the messages of Slack
channels to PDF files, and proofs about it. The model covers both generations of
the code:

- the modular one: `message_transformer.py`, `fpdf_extension.py`, `channel_exporter.py`,
  `slack_service.py` and `helpers.py`;
- the earlier monolith: `slackchannel2pdf.py` with `fpdf_ext.py`.

The generations differ in a few places. A `Generation` value (`Modular` or `Monolith`)
selects the behaviour there.

What is modelled, one module per concern:

| module | what it models |
|---|---|
| `Wrappers` | `Option`, and `Result` over the Python exceptions the core raises (`KeyError`, `IndexError`, `ValueError`, `TypeError`, `RuntimeError`) |
| `Text` | the string operations the core uses: `upper`/`lower`, slicing, `split`, `replace`, Python's string order |
| `Encoding` | `transform_encoding`: HTML entities unescaped, then tabs expanded |
| `Mentions` | `_replace_mrkdwn_in_text`: the ordered classification of one `<...>` span and its replacement |
| `Brackets` | pass 2 of `transform_text`: `re.sub(r"<(.*?)>", ...)` as a tokenizer with a round trip |
| `Emphasis` | the greedy bold, italic and code passes, as the regex engine scans and as a line-wise description |
| `Quote` | the block-quote pass of `transform_text`: each line starting with `>` is wrapped in `<blockquote>` |
| `Transformer` | `transform_text`: the passes in order, block quotes, the inert `</blockquote><br>` collapse, `<br>` |
| `Markup` | `re.split(r"<([^>]*)>", html)` and the tag/attribute parser of `write_html` |
| `Interpreter` | `write_html` on an abstract canvas: style counters, links, `<s>` font snapshots, block-quote indents |
| `Messages` | the message record and the stable sort by `ts` |
| `Layout` | `_parse_message_and_write_to_pdf` and `_write_messages_to_pdf`: authors, headers, day separators, threads |
| `Service` | `_reduce_to_dict`, `_fetch_pages`, the thread map, bot names, start-up in test mode |
| `Export` | the bookkeeping of `run`: argument checks, channel resolution, file names, the message count |

In these places the model follows the code as written:

- The style counters of `_set_style` are not clamped at zero. A stray `</b>` makes the
  counter negative, and a later `<b>` then leaves the text plain (`Interpreter.SetStyle`).
- The `</blockquote><br>` collapse runs before newlines become `<br>`. Typed text
  cannot bring a `<br>` to it: a decoded `&lt;br&gt;` is a `<...>` span and becomes a
  link in the bracket pass. It matches only when a `<br` comes from a replacement
  string: a resolved user, channel or usergroup name, a formatted date or the
  monospace family. Otherwise it does nothing, so the break after a block quote
  survives (`Transformer.CollapseIsInert`, under its `NoBreakTag` precondition).
- The time-gap check compares against the previous top-level message of any author,
  not of the same author (`Layout.HeaderRepeats`).
- In the modular generation, `last_dt` after a thread is the time of the last drawn
  reply, because `msg_dt` is reassigned inside the reply loop. In the monolith it is
  the parent's time (`Layout.LastTimeAfterThread`).

## Model

| member | source | states |
|---|---|---|
| Encoding.TransformEncoding | slackchannel2pdf/helpers.py:8-13 | the result holds no tab; text without `&` is only tab-expanded; text without `&` and tabs comes back unchanged |
| Encoding.Unescape | slackchannel2pdf/helpers.py:10 | text without `&` is unchanged and unescaping never lengthens the text |
| Encoding.ExpandTabs | slackchannel2pdf/helpers.py:12 | no tab is left; text without tabs is unchanged; one tab becomes exactly four spaces and any other character stays itself |
| Encoding.ExpandTabsConcat | slackchannel2pdf/helpers.py:12 | tab expansion distributes over concatenation, so with the one-character case it fixes every output |
| Encoding.Reference | slackchannel2pdf/helpers.py:10 | a recognised character reference starts with `&` and spans at least two characters |
| Encoding.UnescapeServiceEscape | slackchannel2pdf/helpers.py:10 | unescaping undoes the chat service's escaping of `&`, `<` and `>` for every text |
| Encoding.ServiceEscape | slackchannel2pdf/helpers.py:8-13 | the escaping of `&`, `<` and `>` that `transform_encoding` undoes: the escaped text holds no `<` or `>`, is never shorter, and text without the three is unchanged |
| Encoding.TransformEncodingRecoversText | slackchannel2pdf/helpers.py:8-13 | the text the author typed comes back out of `transform_encoding`, tabs expanded |
| Encoding.LessThanReferences | tests/test_channel_exporter.py:149-158 | `&lt;` and `&#60;` both decode to `<` |
| Encoding.EncodedTabBecomesSpaces | slackchannel2pdf/helpers.py:10-12 | an encoded tab is decoded before tab expansion, so it becomes four spaces |
| Encoding.UnescapeIsSinglePass | slackchannel2pdf/helpers.py:10 | a decoded `&` is not decoded again: `&amp;lt;` gives `&lt;` |
| Encoding.PlainTextUnchanged | tests/test_channel_exporter.py:149-152 | non-ASCII text without entities or tabs is returned unchanged |
| Mentions.ObjectId | slackchannel2pdf/message_transformer.py:76-78 | the id of a span holds no `|` |
| Mentions.Classify | slackchannel2pdf/message_transformer.py:68-94 | only content starting with `@`, `#` or `!` is a mention; everything else is a link (the full order is `Mentions.ClassificationOrder`) |
| Mentions.ClassificationOrder | slackchannel2pdf/message_transformer.py:81-94 | user, channel, usergroup and special mentions are tried in that order, the rest is a link, each as an iff on the span's prefix |
| Mentions.UsergroupId | slackchannel2pdf/message_transformer.py:114-116 | an id is captured iff the span is `!subteam^S` followed by at least one `[A-Z0-9]`, and it is the maximal run |
| Mentions.Replacement | slackchannel2pdf/message_transformer.py:68-97 | the markup replacing one `<...>` span, by its classification; its behaviour per kind is stated by the resolution, special, date and link lemmas below |
| Mentions.UserMentionResolution | slackchannel2pdf/message_transformer.py:81-105 | `<@Uid>` and `<@Uid|caption>` become the bold user name, the caption ignored |
| Mentions.ChannelMentionResolution | slackchannel2pdf/message_transformer.py:84-111 | `<#Cid>` becomes the bold `#` channel name |
| Mentions.NameFallbacks | slackchannel2pdf/message_transformer.py:101-111 | a known id shows its table name; an unknown one shows `user_<id>` or `channel_<id>` |
| Mentions.UsergroupMentionResolution | slackchannel2pdf/message_transformer.py:113-123 | a well-formed usergroup id shows its table name or `usergroup_<id>`, in bold |
| Mentions.UsergroupUnparsable | slackchannel2pdf/message_transformer.py:121-123 | a usergroup span without a well-formed id shows `@usergroup_unknown` in bold |
| Mentions.SpecialClassified | slackchannel2pdf/message_transformer.py:87-91 | content starting with `!` but not `!subteam^` is a special mention |
| Mentions.BroadcastMentions | slackchannel2pdf/message_transformer.py:125-134 | `here`, `channel` and `everyone` become bold `@` words |
| Mentions.SpecialReplacement | slackchannel2pdf/message_transformer.py:90-97 | a special mention's replacement is its markup, bold exactly when flagged |
| Mentions.DateMention | slackchannel2pdf/message_transformer.py:136-140 | `<!date^TS^...>` becomes the formatter applied to the field after the first `^`, not bold |
| Mentions.DateReplacement | slackchannel2pdf/message_transformer.py:136-142 | a date span is the field after the first `^` formatted, or the failure text when there is no `^` |
| Mentions.DateMentionWithoutCaret | slackchannel2pdf/message_transformer.py:141-142 | a date span without `^` degrades to `(failed to parse date)` |
| Mentions.OtherSpecialMention | slackchannel2pdf/message_transformer.py:144-145 | any other `!` span becomes bold `@special_<id>` |
| Mentions.LabelledLink | slackchannel2pdf/message_transformer.py:149-160 | any link-classified `<url|caption>` with one `|` (`<#general|x>` and `<@here|x>` included) becomes an anchor labelled with the caption, not bold |
| Mentions.BareLink | slackchannel2pdf/message_transformer.py:154-156 | without exactly one `|` the whole content is both target and label |
| Brackets.BracketPass | slackchannel2pdf/message_transformer.py:44 | pass 2: tokenize, then replace every span; `Brackets.TokenizeRoundTrip`, `Brackets.BracketPassWithoutBrackets` and `Brackets.SingleSpan` state what it keeps and replaces |
| Brackets.FirstClose | slackchannel2pdf/message_transformer.py:44 | the lazy `.*?` stops at the first `>` and never crosses a newline |
| Brackets.TokenizeRoundTrip | slackchannel2pdf/message_transformer.py:44 | the scan loses nothing: its tokens spell out the text |
| Brackets.TokenizeWellFormed | slackchannel2pdf/message_transformer.py:44 | the scan only yields well-formed token sequences |
| Brackets.TokenizeUntokenize | slackchannel2pdf/message_transformer.py:44 | a well-formed token sequence is exactly what the scan reads back from its text |
| Brackets.TokenizeSpan | slackchannel2pdf/message_transformer.py:44 | `<x>` with no `>` or newline inside is read as one span |
| Brackets.BracketPassWithoutBrackets | slackchannel2pdf/message_transformer.py:44 | text without `<` passes through pass 2 unchanged |
| Brackets.SingleSpan | slackchannel2pdf/message_transformer.py:44-99 | a text that is one span becomes that span's replacement |
| Emphasis.LineEnd | slackchannel2pdf/message_transformer.py:49-57 | `.` does not match a newline: a match ends at the first newline after its start |
| Emphasis.LastClose | slackchannel2pdf/message_transformer.py:49-57 | the greedy group backtracks to the greatest closing delimiter of the line |
| Emphasis.FirstOpen | slackchannel2pdf/message_transformer.py:49-57 | the engine starts at the least opening delimiter |
| Emphasis.Apply | slackchannel2pdf/message_transformer.py:49-57 | one emphasis `re.sub` as the engine scans; `Emphasis.ApplyIsPerLine` equates it with the line-wise reference |
| Emphasis.ScanIsPerLine | slackchannel2pdf/message_transformer.py:49-57 | the engine's scan equals the line-wise description from every position |
| Emphasis.ApplyIsPerLine | slackchannel2pdf/message_transformer.py:49-57 | each pass pairs, on every line, the first opening delimiter with the last closing one |
| Emphasis.ApplyWithoutDelimiter | slackchannel2pdf/message_transformer.py:49-57 | text without the delimiter character is unchanged by the pass |
| Emphasis.ScanNoOpen | slackchannel2pdf/message_transformer.py:49-57 | without an opening delimiter the scan copies the text |
| Emphasis.BoldWord | tests/test_channel_exporter.py:238-241 | `*bold*` becomes `<b>bold</b>` |
| Emphasis.GreedyBold | slackchannel2pdf/message_transformer.py:49 | the greedy match pairs the first and the last `*`: `*a*b*c*` gives `<b>a*b*c</b>` |
| Emphasis.WordInternalUnderscore | slackchannel2pdf/message_transformer.py:51 | a word-internal `_` does not open italic text |
| Emphasis.BoldThenItalic | tests/test_channel_exporter.py:257-259 | `*_x_*` becomes `<b><i>x</i></b>` after the bold and italic passes |
| Transformer.MarkupPasses | slackchannel2pdf/message_transformer.py:41-64 | passes 2 and 3 in the source's order (brackets, bold, italic, code, quotes, collapse, breaks); `Transformer.TransformText` and `Transformer.Breaks` state their effect |
| Transformer.TransformText | slackchannel2pdf/message_transformer.py:23-66 | without mrkdwn only the encoding pass runs; with it the result holds no newline |
| Transformer.Breaks | slackchannel2pdf/message_transformer.py:64 | no newline is left; text without newlines is unchanged |
| Transformer.CollapseIsInert | slackchannel2pdf/message_transformer.py:59-62 | on text without `<br`, the collapse after the quote pass changes nothing |
| Transformer.QuoteFromNoBreakTag | slackchannel2pdf/message_transformer.py:59-61 | the block-quote pass adds no `<br` |
| Quote.QuotePass | slackchannel2pdf/message_transformer.py:59-61 | the `re.MULTILINE` block-quote substitution; `Transformer.QuotePassIsLineWise` equates it with line-wise quoting |
| Transformer.QuotePassIsLineWise | slackchannel2pdf/message_transformer.py:59-61 | the `re.MULTILINE` pass quotes every line on its own |
| Transformer.QuotePassWithoutQuotes | slackchannel2pdf/message_transformer.py:59-61 | text without `>` is not quoted |
| Transformer.PlainMarkup | slackchannel2pdf/message_transformer.py:39-64 | on plain text the passes reduce to quoting and `<br>` |
| Transformer.LinesBecomeBreaks | tests/test_channel_exporter.py:262-271 | `first\nsecond\nthird` becomes `first<br>second<br>third` |
| Transformer.QuotedLineKeepsBreak | tests/test_channel_exporter.py:280-286 | the block-quote example keeps its `<br>` after `</blockquote>` |
| Transformer.CodeBecomesMonospace | tests/test_channel_exporter.py:253-255 | `` `code` `` becomes `<s fontfamily="NotoSansMono">code</s>` |
| Transformer.SingleLineUnchanged | slackchannel2pdf/message_transformer.py:59-64 | one line not starting with `>` passes the last three passes unchanged |
| Markup.SplitMarkup | slackchannel2pdf/fpdf_extension.py:62 | `re.split(r"<([^>]*)>", html)` as a head text and (tag, text) pieces; `Markup.SplitMarkupRoundTrip` and `Markup.SplitMarkupWellFormed` are its round trip |
| Markup.PartList | slackchannel2pdf/fpdf_extension.py:62-71 | the part list has text at even indices and tag contents at odd ones |
| Markup.SplitMarkupRoundTrip | slackchannel2pdf/fpdf_extension.py:62 | the split loses nothing: the parts spell out the markup |
| Markup.SplitMarkupWellFormed | slackchannel2pdf/fpdf_extension.py:62 | tag parts hold no `>` and text parts hold no complete tag |
| Markup.SplitMarkupAvoids | slackchannel2pdf/fpdf_extension.py:57-62 | a character missing from the markup is missing from every part |
| Markup.SplitMarkupPlain | slackchannel2pdf/fpdf_extension.py:62 | markup without `<` is one text part |
| Markup.Attribute | slackchannel2pdf/fpdf_extension.py:90-93 | a token yields an attribute iff it holds `=` |
| Markup.AttributeValue | slackchannel2pdf/fpdf_extension.py:91 | the value holds no quote character |
| Markup.Attributes | slackchannel2pdf/fpdf_extension.py:87-93 | the attribute dict built token by token; `Markup.AttributesSkipPlain` and `Markup.AttributesOverwrite` state what each token adds |
| Markup.AttributesSkipPlain | slackchannel2pdf/fpdf_extension.py:90-93 | tokens without `=` are dropped |
| Markup.AttributesOverwrite | slackchannel2pdf/fpdf_extension.py:93 | a later token overwrites its key and leaves every other key alone |
| Markup.ParseTag | slackchannel2pdf/fpdf_extension.py:82-95 | an empty part fails on `part[0]`; `/x` closes `X`; otherwise the name is the upper-cased first token |
| Markup.CloseCaseInsensitive | slackchannel2pdf/fpdf_extension.py:84 | closing tags are case-insensitive |
| Markup.OneAttributeTag | slackchannel2pdf/fpdf_extension.py:87-95 | a tag with one quoted attribute reads as its name and a one-entry dictionary |
| Markup.MonoTag | slackchannel2pdf/message_transformer.py:53-57 | the code-span tag the transformer emits reads back as `S` with its font family |
| Interpreter.Emit | slackchannel2pdf/fpdf_extension.py:76-80 | a drawing call is appended to the trace and adds its text, if any, to the written text |
| Interpreter.FlagOf | slackchannel2pdf/fpdf_extension.py:100-142 | a tag is a style flag iff it is `B`, `I` or `U` |
| Interpreter.StyleOf | slackchannel2pdf/fpdf_extension.py:163-166 | the style holds a letter iff its counter is positive, in `BIU` order |
| Interpreter.SetStyle | slackchannel2pdf/fpdf_extension.py:160-168 | one counter moves by one, unclamped, the others stay, and the font style follows |
| Interpreter.LinkOn | slackchannel2pdf/fpdf_extension.py:187-188 | blue text and one more underline level |
| Interpreter.LinkOff | slackchannel2pdf/fpdf_extension.py:190-191 | one underline level less and black text |
| Interpreter.PutLink | slackchannel2pdf/fpdf_extension.py:185-191 | a link leaves the counters as they were, the text black, and writes its text |
| Interpreter.ProcessText | slackchannel2pdf/fpdf_extension.py:76-80 | a text part writes exactly its text and leaves counters and link alone |
| Interpreter.IndentPlus | slackchannel2pdf/fpdf_extension.py:170-174 | margin and cursor move in by one tab and a new line starts at the margin |
| Interpreter.IndentMinus | slackchannel2pdf/fpdf_extension.py:176-183 | the indent moves back only if margin and cursor both exceed the tab width; otherwise nothing changes |
| Interpreter.BlockquoteRoundTrip | slackchannel2pdf/fpdf_extension.py:170-183 | opening and closing a block quote restores the margin iff the margin was positive |
| Interpreter.ParseInt | slackchannel2pdf/fpdf_extension.py:128 | `int()` accepts only an optional sign followed by digits |
| Interpreter.ParseShowInt | slackchannel2pdf/fpdf_extension.py:127-128 | a size written with `str` reads back as the same number |
| Interpreter.OpenFont | slackchannel2pdf/fpdf_extension.py:112-137 | `<s>` fails iff a snapshot exists (nested) or the size is not an integer; it snapshots the font; the new family, size and style are the `FONTFAMILY`, parsed `SIZE` and `STYLE` attributes where given and the current ones otherwise |
| Interpreter.OpenTag | slackchannel2pdf/fpdf_extension.py:97-137 | `<a>` without `HREF` raises `KeyError`; unknown tags change nothing; style tags raise their counter |
| Interpreter.CloseTag | slackchannel2pdf/fpdf_extension.py:139-158 | `</a>` clears the link; `</s>` restores the snapshot or does nothing; unknown tags change nothing |
| Interpreter.ProcessTag | slackchannel2pdf/fpdf_extension.py:82-95 | a tag fails with `IndexError` iff it is empty; otherwise counters move by the tag's delta |
| Interpreter.RunPieces | slackchannel2pdf/fpdf_extension.py:65-74 | tag and text parts left to right until a tag fails; a nested `<s>` ends the run abandoned (modular) or raised (monolith); its contracts are the three `RunPieces` lemmas |
| Interpreter.RunPiecesCounters | slackchannel2pdf/fpdf_extension.py:65-71 | on a completed run every counter moves by the net count of its tags |
| Interpreter.RunPiecesWrites | slackchannel2pdf/fpdf_extension.py:65-71 | on a completed run the written text is the text parts in order |
| Interpreter.RunPiecesAvoids | slackchannel2pdf/fpdf_extension.py:65-71 | however a run ends, it writes no character the parts avoid |
| Interpreter.WriteHtml | slackchannel2pdf/fpdf_extension.py:55-74 | newlines to spaces, the split, then the parts in order; its contracts are the four `WriteHtml` lemmas |
| Interpreter.WriteHtmlCounters | slackchannel2pdf/fpdf_extension.py:55-74 | a completed `write_html` moves each counter by the net count of its tags |
| Interpreter.WriteHtmlWrites | slackchannel2pdf/fpdf_extension.py:55-74 | a completed `write_html` writes the text parts of the markup in order |
| Interpreter.WriteHtmlNoNewline | slackchannel2pdf/fpdf_extension.py:57 | no call writes a newline, because newlines became spaces first |
| Interpreter.WriteHtmlPlain | slackchannel2pdf/fpdf_extension.py:55-80 | markup without `<` completes, writes the text with newlines as spaces, and leaves the state alone |
| Interpreter.NestedFont | slackchannel2pdf/fpdf_extension.py:73-114 | a nested `<s>` abandons the rest in the modular generation and raises `RuntimeError` in the monolith |
| Interpreter.FontRoundTrip | slackchannel2pdf/fpdf_extension.py:116-158 | `<s ...>` then `</s>` restores the font exactly and forgets the snapshot |
| Interpreter.LinkTextBalanced | slackchannel2pdf/fpdf_extension.py:185-191 | link text leaves the underline counter as it was, the colour black, and is written with the link |
| Messages.Insert | slackchannel2pdf/channel_exporter.py:452 | inserting keeps the messages (as a multiset) and the `ts` order |
| Messages.SortByTs | slackchannel2pdf/channel_exporter.py:452 | the sort is a permutation into `ts` order |
| Messages.SortStable | slackchannel2pdf/channel_exporter.py:452 | the sort is stable: messages with equal `ts` keep their relative order |
| Messages.SortSorted | slackchannel2pdf/channel_exporter.py:452 | messages already in `ts` order are left as they are |
| Layout.UserName | slackchannel2pdf/channel_exporter.py:84-87 | a known user's name, or `unknown_user_<id>` |
| Layout.BotName | slackchannel2pdf/channel_exporter.py:92-97 | the transformed `username`, else the bot table, else `unknown_bot_<id>` |
| Layout.ResolveAuthor | slackchannel2pdf/channel_exporter.py:81-114 | `user`, then `bot_id`, then a file comment's user; fails iff a file comment lacks `comment`; no author iff none applies |
| Layout.RenderMessage | slackchannel2pdf/channel_exporter.py:116-443 | draws exactly the message; a header iff there is an author and it differs from `last_user_id` |
| Layout.Replies | slackchannel2pdf/channel_exporter.py:511-536 | the reply loop of one thread; `Layout.RepliesDraw` states what it draws and `Layout.ReplyHeaders` which replies are headed |
| Layout.Drawn | slackchannel2pdf/channel_exporter.py:516-517 | the drawn replies are the thread's entries other than the repeated parent, in order |
| Layout.RepliesDraw | slackchannel2pdf/channel_exporter.py:511-536 | replies draw their bodies in `ts` order without the repeated parent, all indented by one tab |
| Layout.ReplyHeaders | slackchannel2pdf/channel_exporter.py:511-536 | over all inputs, the replies drawn with an author header are exactly those of `Layout.HeadedAt`: a drawn reply with an author is headed iff it is the first drawn reply, or its author differs from the previous drawn reply's, or (modular generation only) more than the configured minutes passed since the previous drawn reply |
| Layout.MonolithRepliesIgnoreClock | slackchannel2pdf/slackchannel2pdf.py:1095-1102 | the monolith's replies do not depend on the clock |
| Layout.Prelude | slackchannel2pdf/channel_exporter.py:457-503 | a day separator is drawn iff it is the first message or another day; `last_user_id` is kept or reset |
| Layout.HeaderRepeats | slackchannel2pdf/channel_exporter.py:457-507 | the header repeats iff the author changed, or a time gap, new day or new page reset it |
| Layout.ThreadParentResets | slackchannel2pdf/channel_exporter.py:508-538 | after any thread parent the next message starts with a header |
| Layout.LastTimeAfterThread | slackchannel2pdf/channel_exporter.py:519-540 | `last_dt` after a thread is the last reply's time (modular) or the parent's time (monolith) |
| Layout.ItemsConcat | slackchannel2pdf/channel_exporter.py:445-546 | the messages drawn by two mark sequences are those of each, in order |
| Layout.TopStep | slackchannel2pdf/channel_exporter.py:453-540 | one iteration of the top-level loop: prelude, the message, then its thread; `Layout.TopStepDraws` states what it draws |
| Layout.Top | slackchannel2pdf/channel_exporter.py:453-540 | the top-level loop over the sorted messages; `Layout.TopDraws` and `Layout.TopKeepsPrefix` state what it draws |
| Layout.TopDraws | slackchannel2pdf/channel_exporter.py:453-540 | the loop draws each message followed by its drawn replies, and never the empty-channel line |
| Layout.WriteMessages | slackchannel2pdf/channel_exporter.py:445-546 | `_write_messages_to_pdf`: the empty-channel line, or the loop over the messages sorted by `ts`; `Layout.WriteMessagesOrder` equates its drawing with the `Expected` reference |
| Layout.WriteMessagesOrder | slackchannel2pdf/channel_exporter.py:445-546 | messages are drawn in `ts` order, each followed by its replies; the empty-channel line appears iff there are no messages |
| Layout.FirstDaySeparator | slackchannel2pdf/channel_exporter.py:465-498 | a non-empty channel starts with the day separator of its earliest message |
| Layout.TopKeepsPrefix | slackchannel2pdf/channel_exporter.py:453-540 | drawing only ever appends |
| Service.ItemValue | slackchannel2pdf/slack_service.py:331-334 | the primary column if present, else the secondary one if given and present, else none |
| Service.ReduceToDict | slackchannel2pdf/slack_service.py:313-335 | a key is in the result iff some item has the key column and a value column |
| Service.ReduceLastWins | slackchannel2pdf/slack_service.py:328-334 | the value under a key comes from the last contributing item |
| Service.ReduceOverwrites | slackchannel2pdf/slack_service.py:328-334 | a later item overwrites its key and leaves every other entry alone |
| Service.ReducePrimaryOnly | tests/test_slack_services.py:21-24 | the test records reduce to the two primary names |
| Service.ReduceWithSecondary | tests/test_slack_services.py:26-29 | with a secondary column, the third record contributes too |
| Service.ReduceMissingPrimary | tests/test_slack_services.py:31-34 | with a missing primary column, every value comes from the secondary one |
| Service.FetchPages | slackchannel2pdf/slack_service.py:240-269 | the rows are the pages concatenated in order; fetching stops at the last page or once the limit is reached, never earlier |
| Service.Chunks | tests/test_slack_services.py:57-75 | splitting rows into pages yields a cursor chain |
| Service.ChunksConcat | tests/test_slack_services.py:57-75 | the pages of a split concatenate back to the rows |
| Service.FetchInPages | tests/test_slack_services.py:57-75 | without a limit, fetching in pages of any size yields the unpaged data |
| Service.ThreadMap | slackchannel2pdf/slack_service.py:166-192 | the keys are exactly the `ts` of thread parents, each holding what the replies oracle returns |
| Service.CollectBots | slackchannel2pdf/slack_service.py:280-286 | a bot is named iff seen with `username`, and pending iff seen without one |
| Service.CollectLastWins | slackchannel2pdf/slack_service.py:280-286 | a bot's name comes from the last message with a `username` |
| Service.Finish | slackchannel2pdf/slack_service.py:298-310 | only bots never named are looked up; a failed lookup leaves the bot unnamed |
| Service.BotNamesAsWritten | slackchannel2pdf/slack_service.py:271-310 | the bot-name loop as written, with the thread loop over the dict's keys; `Service.BotNamesAsWrittenIgnoresThreads` and `Service.ThreadBotMissed` show what it misses |
| Service.BotNamesAsWrittenIgnoresThreads | slackchannel2pdf/slack_service.py:288-296 | as written, the thread loop never contributes a bot |
| Service.ThreadBotMissed | slackchannel2pdf/slack_service.py:288-296 | a bot that only writes in a thread is missed as written and named when corrected |
| Service.BotNames | slackchannel2pdf/slack_service.py:271-310 | the corrected bot-name loop over top-level and thread messages; `Service.BotNamesRule` proves it meets `Service.NamingRule` |
| Service.NamingRule | slackchannel2pdf/slack_service.py:277-310 | a bot is named iff it was seen with a `username`, or seen without one and its lookup is ok, and from the right source |
| Service.BotNamesRule | slackchannel2pdf/slack_service.py:271-310 | over the top-level messages followed by the threads' messages, the corrected loop names exactly the bots seen with a `username` or seen without one and found by an ok lookup; a bot seen with a `username` gets the transformed name of its last such message, any other the transformed looked-up name |
| Service.InitService | slackchannel2pdf/slack_service.py:19-59 | no token raises `ValueError`; `TEST` gives empty tables, `test user` and test mode; otherwise the author is resolved from the workspace |
| Export.Validate | slackchannel2pdf/channel_exporter.py:584-646 | the checks of `run` in their order: valid iff every argument has its type, the dates are naive (`localize` raises `ValueError` on an aware one) and ordered, and the destination exists; the defaults are filled in |
| Export.IdByName | slackchannel2pdf/channel_exporter.py:664-674 | the flipped table maps a name to the id of its last entry |
| Export.NameOf | slackchannel2pdf/channel_exporter.py:676 | the table's name for an id is that of its last entry |
| Export.ResolveChannel | slackchannel2pdf/channel_exporter.py:658-674 | an input matches an id via upper case, else a name via lower case; unknown iff neither |
| Export.ResolveIgnoresCase | slackchannel2pdf/channel_exporter.py:658-674 | resolution ignores the case of the input |
| Export.Sanitize | slackchannel2pdf/channel_exporter.py:677-679 | every character outside `[\w\-_.]` becomes `_` and every other is kept |
| Export.SanitizeIdempotent | slackchannel2pdf/channel_exporter.py:677-679 | sanitising twice is sanitising once |
| Export.PathJoin | slackchannel2pdf/channel_exporter.py:677-679 | the joined path starts with the directory and ends with the name |
| Export.ChannelBase | slackchannel2pdf/channel_exporter.py:677-680 | the file base starts with the destination and ends with the sanitised team and the channel name |
| Export.Plan | slackchannel2pdf/channel_exporter.py:655-680 | every job is a known channel with its table name and file base; with all inputs known there is one job per input |
| Export.PlanIds | slackchannel2pdf/channel_exporter.py:655-680 | the jobs are the resolved inputs, in input order, unknown inputs skipped |
| Export.MessageCount | slackchannel2pdf/channel_exporter.py:782-785 | without threads the count is the number of top-level messages |
| Export.MessageCountIsMessages | slackchannel2pdf/channel_exporter.py:782-785 | when each thread holds its parent, the count is the number of top-level messages plus replies |

## Left out

- `fpdf_mod` is not part of this model. `set_font` is recorded with the arguments given, without lower-casing the family or splitting off the `U` flag. `set_left_margin` only sets the margin.
- The cursor position after `write` comes from an oracle function of the font and text. The float geometry of the canvas (`get_string_width`, page width, date-stamp centring, `cell`) is left out.
- Message bodies are recorded as one mark per message. Text, reactions, files, attachments and blocks inside a body are not drawn.
- Locale and time zone: the local day, the minutes between two timestamps, formatted dates and the page number are oracle functions.
- Mentions.DateReplacement: the date formatter is a total oracle. In the source `get_datetime_formatted_str` calls `float()` on the `^` field (slackchannel2pdf/locales.py:107), so `<!date^abc|x>` raises `ValueError` out of `transform_text`, and an out-of-range timestamp raises too. The model returns the formatter's string instead.
- Mentions.DateMention: same gap as `Mentions.DateReplacement`; the `ValueError` of a non-numeric timestamp is not modelled.
- Encoding.Unescape: covers `html.unescape` for the named references `lt`, `gt`, `amp`, `quot` and `apos` with their `;`, and decimal references for printable ASCII, tab and newline. The full HTML5 entity table and hexadecimal references are left out.
- Text.Upper and Text.Lower change ASCII letters only, and `\w` is ASCII only. Python applies Unicode rules to both.
- Export.Sanitize: `\w` is ASCII only, so a non-ASCII letter such as the `é` of a team named `Café` becomes `_`, where Python's Unicode `\w` keeps it.
- Encoding.TransformEncoding: the UTF-8 encode/decode round trip with `errors="replace"` only rewrites lone surrogates. A Dafny `char` cannot hold one, so the model treats the round trip as the identity.
- Interpreter.ParseInt: accepts an optional sign and ASCII digits. It does not accept the underscores, surrounding whitespace or non-ASCII digits that Python's `int` also takes.
- Every Slack Web API call is an oracle or a page sequence. This covers `auth_test`, `users_info`, `bots_info`, the conversation and user lists, rate-limit sleeps and `assert response["ok"]`.
- Service.FetchPages: models the pages of one cursor chain as given. The first page's `limit` argument and the `print` progress lines are left out.
- Export.Validate: a list of channel inputs is modelled as a list of strings. A list with non-string items would fail later on `upper()`; this is not modelled.
- Export.Validate: `localize` is taken as order-preserving on naive datetimes. The dates are compared as given. Its `ValueError` for a datetime that already has a time zone is modelled.
- The monolith checks `type(channel_inputs) is not list` where the modular code uses `isinstance`. The two differ only for subclasses of `list`, which the model does not represent.
- PDF output, raw-data JSON files, the info table's formatted numbers and start/end dates, printing, the CLI and configuration reading are left out.
- The `add_debug_info` annotation of message text is left out.

## Findings

| source | as written | input that shows it | evidently intended | confidence | as-written member | corrected member |
|---|---|---|---|---|---|---|
| slackchannel2pdf/slack_service.py:288-296 | `for thread_messages in threads` iterates the dict's keys, then the characters of each key; `"bot_id" in msg` is a substring test on a one-character string and is never true | a bot message `{"bot_id": "B1", "username": "Bot"}` that appears only in thread `1.0` | visit the messages of each thread (`threads.values()`), so thread-only bots are named | not executed | Service.BotNamesAsWritten, Service.ThreadBotMissed | Service.BotNames, Service.BotNamesRule |

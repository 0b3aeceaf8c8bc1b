/**
 * The message layout policy of the exporter: `_parse_message_and_write_to_pdf` and
 * `_write_messages_to_pdf` in the modular `SlackChannelExporter`
 * (slackchannel2pdf/channel_exporter.py) and in the monolith
 * (slackchannel2pdf/slackchannel2pdf.py).
 *
 * The fold decides which author a message shows, when the author header is
 * repeated, where day separators go, and how thread replies are ordered, skipped
 * and indented. Drawing is recorded as a sequence of marks. The local date and time
 * of a timestamp and the current page number are oracles.
 */
module Layout {
  import opened Wrappers
  import opened Text
  import Encoding
  import opened Messages
  import Interpreter

  /** What the layout draws. */
  datatype Mark =
      /** The divider with the full date of a new day. */
    | DaySeparator(day: int)
      /** The author line: name, `App ` for bots, and the time. */
    | Header(name: string, app: bool, ts: string)
      /** The content of a message, written at the given left margin. */
    | Body(ts: string, margin: int)
      /** `[Can not process this message]`. */
    | Unprocessable(ts: string)
      /** `This channel is empty`. */
    | EmptyChannel

  /** Integer layout settings. */
  datatype Settings = Settings(marginLeft: int, tabWidth: int, repeatAfter: int)

  /** The monolith's class constants `_MARGIN_LEFT`, `_TAB_WIDTH` and its hard-coded 30 minutes. */
  const MonolithSettings := Settings(10, 4, 30)

  /**
   * Everything the layout reads besides the messages: the name tables, the local day
   * and minute of a timestamp, the page the document is on after the given marks,
   * the generation, and the settings the modular generation reads from its
   * configuration.
   */
  datatype Env = Env(
    users: map<string, string>,
    bots: map<string, string>,
    day: string -> int,
    minute: string -> real,
    page: seq<Mark> -> int,
    g: Interpreter.Generation,
    configured: Settings)

  function Cfg(env: Env): Settings {
    if env.g == Interpreter.Monolith then MonolithSettings else env.configured
  }

  // ---------------------------------------------------------------- authors

  datatype Author = Author(id: string, name: string, isBot: bool)

  /** A user's display name, or `unknown_user_<id>`. */
  function UserName(users: map<string, string>, id: string): (r: string)
    ensures id in users ==> r == users[id]
    ensures id !in users ==> r == "unknown_user_" + id
  {
    if id in users then users[id] else "unknown_user_" + id
  }

  /** A bot's name: the message's `username`, else the bot table, else `unknown_bot_<id>`. */
  function BotName(bots: map<string, string>, m: Message, id: string): (r: string)
    ensures m.username.Some? ==> r == Encoding.TransformEncoding(m.username.value)
    ensures m.username.None? && id in bots ==> r == bots[id]
    ensures m.username.None? && id !in bots ==> r == "unknown_bot_" + id
  {
    if m.username.Some? then Encoding.TransformEncoding(m.username.value)
    else if id in bots then bots[id]
    else "unknown_bot_" + id
  }

  predicate IsFileComment(m: Message) {
    m.subtype == Some("file_comment")
  }

  /**
   * The author of a message: `user`, then `bot_id`, then the user of a file
   * comment. A file comment without a `comment` key fails on the lookup.
   */
  function ResolveAuthor(users: map<string, string>, bots: map<string, string>, m: Message): (r: Result<Option<Author>>)
    ensures r.Err? <==> m.user.None? && m.botId.None? && IsFileComment(m) && m.comment.None?
    ensures m.user.Some? ==> r == Ok(Some(Author(m.user.value, UserName(users, m.user.value), false)))
    ensures m.user.None? && m.botId.Some? ==>
      r == Ok(Some(Author(m.botId.value, BotName(bots, m, m.botId.value), true)))
    ensures r == Ok(None) <==>
      m.user.None? && m.botId.None? && (!IsFileComment(m) || (m.comment.Some? && m.comment.value.user.None?))
    ensures r.Ok? && r.value.Some? && r.value.value.isBot ==> m.user.None? && m.botId == Some(r.value.value.id)
  {
    if m.user.Some? then
      Ok(Some(Author(m.user.value, UserName(users, m.user.value), false)))
    else if m.botId.Some? then
      Ok(Some(Author(m.botId.value, BotName(bots, m, m.botId.value), true)))
    else if IsFileComment(m) then
      match m.comment
      case None => Err(KeyError("comment"))
      case Some(c) =>
        if c.user.Some? then Ok(Some(Author(c.user.value, UserName(users, c.user.value), false)))
        else Ok(None)
    else Ok(None)
  }

  // ---------------------------------------------------------------- one message

  /** The id a rendered message hands on as the next `last_user_id`. */
  datatype Rendered = Rendered(author: Option<string>, marks: seq<Mark>)

  function ItemOf(k: Mark): seq<string> {
    match k
    case Body(ts, _) => [ts]
    case Unprocessable(ts) => [ts]
    case _ => []
  }

  /** The timestamps of the messages drawn, in drawing order. */
  function Items(marks: seq<Mark>): seq<string> {
    if marks == [] then [] else ItemOf(marks[0]) + Items(marks[1..])
  }

  lemma {:induction false} ItemsConcat(a: seq<Mark>, b: seq<Mark>)
    ensures Items(a + b) == Items(a) + Items(b)
    decreases |a|
  {
    if a != [] {
      var ab := a + b;
      assert ab != [] && ab[0] == a[0];
      assert ab[1..] == a[1..] + b;
      ItemsConcat(a[1..], b);
      assert Items(ab) == ItemOf(a[0]) + Items(a[1..] + b);
      assert Items(a) == ItemOf(a[0]) + Items(a[1..]);
    } else {
      assert a + b == b;
    }
  }

  /** The marks start with an author header. */
  predicate Headed(marks: seq<Mark>) {
    |marks| > 0 && marks[0].Header?
  }

  /** Every message body among the marks is at `margin`. */
  predicate AllAt(marks: seq<Mark>, margin: int) {
    forall k :: 0 <= k < |marks| && marks[k].Body? ==> marks[k].margin == margin
  }

  /** No day separator and no empty-channel line among the marks. */
  predicate MessagesOnly(marks: seq<Mark>) {
    forall k :: 0 <= k < |marks| ==> !marks[k].DaySeparator? && !marks[k].EmptyChannel?
  }

  /**
   * `_parse_message_and_write_to_pdf`: the header only when the author differs
   * from `last_user_id`; a message without author becomes the placeholder line
   * and hands on no id.
   */
  function RenderMessage(env: Env, m: Message, margin: int, lastUser: Option<string>): (r: Result<Rendered>)
    ensures r.Err? <==> ResolveAuthor(env.users, env.bots, m).Err?
    ensures r.Ok? ==> Items(r.value.marks) == [m.ts]
    ensures r.Ok? ==> (r.value.author.Some? <==> ResolveAuthor(env.users, env.bots, m).value.Some?)
    ensures r.Ok? && r.value.author.Some? ==> r.value.author.value == ResolveAuthor(env.users, env.bots, m).value.value.id
    ensures r.Ok? ==> (Headed(r.value.marks) <==> r.value.author.Some? && lastUser != r.value.author)
    ensures r.Ok? ==> AllAt(r.value.marks, margin) && MessagesOnly(r.value.marks)
  {
    match ResolveAuthor(env.users, env.bots, m)
    case Err(e) => Err(e)
    case Ok(None) => Ok(Rendered(None, [Unprocessable(m.ts)]))
    case Ok(Some(a)) =>
      var body := [Body(m.ts, margin)];
      if lastUser != Some(a.id) then
        var marks := [Header(a.name, a.isBot, m.ts)] + body;
        assert Items(body) == [m.ts] + Items([]);
        assert marks[1..] == body;
        assert Items(marks) == ItemOf(marks[0]) + Items(body);
        Ok(Rendered(Some(a.id), marks))
      else Ok(Rendered(Some(a.id), body))
  }

  // ---------------------------------------------------------------- thread replies

  /** More than the configured minutes lie between the two timestamps. */
  predicate Gap(env: Env, earlier: string, later: string) {
    env.minute(later) - env.minute(earlier) > Cfg(env).repeatAfter as real
  }

  /** Carried across the replies of one thread. */
  datatype ThreadState = ThreadState(lastUser: Option<string>, lastReply: Option<string>, marks: seq<Mark>)

  /** A reply that is not the parent repeated in its own thread. */
  predicate IsReply(m: Message) {
    m.threadTs.Some? && m.ts != m.threadTs.value
  }

  /** The timestamps of the replies that are drawn, in order. */
  function ReplyItems(rs: seq<Message>): seq<string> {
    if rs == [] then [] else (if IsReply(rs[0]) then [rs[0].ts] else []) + ReplyItems(rs[1..])
  }

  /** Every message of the thread has a `thread_ts`. */
  predicate ThreadTagged(rs: seq<Message>) {
    forall k :: 0 <= k < |rs| ==> rs[k].threadTs.Some?
  }

  /**
   * The replies of a thread, indented by one tab. The entry repeating the parent
   * (`ts == thread_ts`) is skipped. The modular generation also repeats the header
   * after a time gap between replies.
   */
  function Replies(env: Env, rs: seq<Message>, t: ThreadState): (r: Result<ThreadState>)
    decreases |rs|
  {
    if rs == [] then Ok(t)
    else
      var m := rs[0];
      match m.threadTs
      case None => Err(KeyError("thread_ts"))
      case Some(parent) =>
        if m.ts == parent then Replies(env, rs[1..], t)
        else
          var gapped := env.g == Interpreter.Modular && t.lastReply.Some? && Gap(env, t.lastReply.value, m.ts);
          var u := if gapped then None else t.lastUser;
          match RenderMessage(env, m, Cfg(env).marginLeft + Cfg(env).tabWidth, u)
          case Err(e) => Err(e)
          case Ok(rm) => Replies(env, rs[1..], ThreadState(rm.author, Some(m.ts), t.marks + rm.marks))
  }

  /** The last timestamp the replies leave behind, if any reply was drawn. */
  function LastReply(rs: seq<Message>, before: Option<string>): Option<string> {
    if rs == [] then before
    else LastReply(rs[1..], if IsReply(rs[0]) then Some(rs[0].ts) else before)
  }

  /** What the replies draw: their bodies in order, all indented, and nothing else. */
  lemma {:induction false} RepliesDraw(env: Env, rs: seq<Message>, t: ThreadState)
    requires AllAt(t.marks, Cfg(env).marginLeft + Cfg(env).tabWidth) && MessagesOnly(t.marks)
    ensures var r := Replies(env, rs, t);
      r.Ok? ==>
        && Items(r.value.marks) == Items(t.marks) + ReplyItems(rs)
        && AllAt(r.value.marks, Cfg(env).marginLeft + Cfg(env).tabWidth)
        && MessagesOnly(r.value.marks)
        && r.value.lastReply == LastReply(rs, t.lastReply)
    ensures Replies(env, rs, t).Err? ==> !ThreadTagged(rs) || exists k :: 0 <= k < |rs| && ResolveAuthor(env.users, env.bots, rs[k]).Err?
    decreases |rs|
  {
    hide Items, RenderMessage, SortByTs, TopStep, Top, Prelude, Expected, ExpectedAll;
    if rs != [] {
      var m := rs[0];
      assert ThreadTagged(rs) ==> ThreadTagged(rs[1..]);
      if m.threadTs.Some? {
        if m.ts == m.threadTs.value {
          RepliesDraw(env, rs[1..], t);
          ExistsInTail(env, rs);
        } else {
          var gapped := env.g == Interpreter.Modular && t.lastReply.Some? && Gap(env, t.lastReply.value, m.ts);
          var u := if gapped then None else t.lastUser;
          var margin := Cfg(env).marginLeft + Cfg(env).tabWidth;
          var rr := RenderMessage(env, m, margin, u);
          if rr.Ok? {
            var t1 := ThreadState(rr.value.author, Some(m.ts), t.marks + rr.value.marks);
            ItemsConcat(t.marks, rr.value.marks);
            RepliesDraw(env, rs[1..], t1);
            ExistsInTail(env, rs);
          }
        }
      }
    }
  }

  lemma {:induction false} ExistsInTail(env: Env, rs: seq<Message>)
    requires rs != []
    ensures (exists k :: 0 <= k < |rs| - 1 && ResolveAuthor(env.users, env.bots, rs[1..][k]).Err?) ==>
      exists k :: 0 <= k < |rs| && ResolveAuthor(env.users, env.bots, rs[k]).Err?
  {
    if exists k :: 0 <= k < |rs| - 1 && ResolveAuthor(env.users, env.bots, rs[1..][k]).Err? {
      var k :| 0 <= k < |rs| - 1 && ResolveAuthor(env.users, env.bots, rs[1..][k]).Err?;
      assert rs[1..][k] == rs[k + 1];
    }
  }

  /** The monolith's replies do not look at the clock: only author switches repeat the header. */
  lemma {:induction false} MonolithRepliesIgnoreClock(env: Env, rs: seq<Message>, t: ThreadState, minute: string -> real)
    requires env.g == Interpreter.Monolith
    ensures Replies(env, rs, t) == Replies(env.(minute := minute), rs, t)
    decreases |rs|
  {
    var env2 := env.(minute := minute);
    assert Cfg(env2) == Cfg(env);
    if rs != [] {
      var m := rs[0];
      if m.threadTs.Some? {
        if m.ts == m.threadTs.value {
          MonolithRepliesIgnoreClock(env, rs[1..], t, minute);
        } else {
          var rr := RenderMessage(env, m, Cfg(env).marginLeft + Cfg(env).tabWidth, t.lastUser);
          assert rr == RenderMessage(env2, m, Cfg(env2).marginLeft + Cfg(env2).tabWidth, t.lastUser);
          if rr.Ok? {
            MonolithRepliesIgnoreClock(env, rs[1..], ThreadState(rr.value.author, Some(m.ts), t.marks + rr.value.marks), minute);
          }
        }
      }
    }
  }

  /** The replies of a thread that are drawn: every entry but the repeated parent. */
  function Drawn(rs: seq<Message>): (d: seq<Message>)
    ensures |d| <= |rs|
    ensures forall k :: 0 <= k < |d| ==> IsReply(d[k])
  {
    if rs == [] then [] else (if IsReply(rs[0]) then [rs[0]] else []) + Drawn(rs[1..])
  }

  /** The id a message hands on as `last_user_id`: its author's, or none. */
  function AuthorOf(env: Env, m: Message): Option<string> {
    match ResolveAuthor(env.users, env.bots, m)
    case Ok(Some(a)) => Some(a.id)
    case _ => None
  }

  /** The timestamps of the author headers among the marks, in order. */
  function HeaderTs(marks: seq<Mark>): seq<string> {
    if marks == [] then [] else (if marks[0].Header? then [marks[0].ts] else []) + HeaderTs(marks[1..])
  }

  lemma {:induction false} HeaderTsConcat(a: seq<Mark>, b: seq<Mark>)
    ensures HeaderTs(a + b) == HeaderTs(a) + HeaderTs(b)
    decreases |a|
  {
    if a != [] {
      var ab := a + b;
      assert ab != [] && ab[0] == a[0];
      assert ab[1..] == a[1..] + b;
      HeaderTsConcat(a[1..], b);
    } else {
      assert a + b == b;
    }
  }

  /**
   * The header rule for drawn reply `k` of `d`: it has an author, and that author
   * differs from the previous drawn reply's, or (modular generation only) more than
   * the configured minutes passed since the previous drawn reply. Before the first
   * drawn reply, `u0` and `ts0` stand for the previous author and time.
   */
  predicate HeadedAt(env: Env, d: seq<Message>, k: nat, u0: Option<string>, ts0: Option<string>)
    requires k < |d|
  {
    var a := AuthorOf(env, d[k]);
    var prevAuthor := if k == 0 then u0 else AuthorOf(env, d[k - 1]);
    var prevTs := if k == 0 then ts0 else Some(d[k - 1].ts);
    a.Some? && (prevAuthor != a || (env.g == Interpreter.Modular && prevTs.Some? && Gap(env, prevTs.value, d[k].ts)))
  }

  /** The timestamps of the drawn replies from index `k` on that the header rule heads. */
  function HeadsFrom(env: Env, d: seq<Message>, k: nat, u0: Option<string>, ts0: Option<string>): seq<string>
    requires k <= |d|
    decreases |d| - k
  {
    if k == |d| then []
    else (if HeadedAt(env, d, k, u0, ts0) then [d[k].ts] else []) + HeadsFrom(env, d, k + 1, u0, ts0)
  }

  /** Dropping the first drawn reply makes it the "previous" one of the rest. */
  lemma {:induction false} HeadsShift(env: Env, x: Message, d: seq<Message>, k: nat, u0: Option<string>, ts0: Option<string>)
    requires k <= |d|
    ensures HeadsFrom(env, [x] + d, k + 1, u0, ts0) == HeadsFrom(env, d, k, AuthorOf(env, x), Some(x.ts))
    decreases |d| - k
  {
    var xd := [x] + d;
    if k < |d| {
      assert xd[k + 1] == d[k];
      assert xd[k] == (if k == 0 then x else d[k - 1]);
      assert HeadedAt(env, xd, k + 1, u0, ts0) == HeadedAt(env, d, k, AuthorOf(env, x), Some(x.ts));
      HeadsShift(env, x, d, k + 1, u0, ts0);
    }
  }

  /** One rendered message is headed, at its own time, exactly when its author differs from `lastUser`. */
  lemma {:induction false} RenderHeaders(env: Env, m: Message, margin: int, lastUser: Option<string>)
    ensures var r := RenderMessage(env, m, margin, lastUser);
      r.Ok? ==>
        && r.value.author == AuthorOf(env, m)
        && HeaderTs(r.value.marks) == (if r.value.author.Some? && lastUser != r.value.author then [m.ts] else [])
  {
    var r := RenderMessage(env, m, margin, lastUser);
    if r.Ok? {
      var marks := r.value.marks;
      match ResolveAuthor(env.users, env.bots, m)
      case Ok(None) =>
        assert marks == [Unprocessable(m.ts)];
        assert HeaderTs(marks) == [] + HeaderTs([]);
      case Ok(Some(a)) =>
        var body := [Body(m.ts, margin)];
        assert HeaderTs(body) == [] + HeaderTs([]);
        if lastUser != Some(a.id) {
          assert marks == [Header(a.name, a.isBot, m.ts)] + body;
          assert marks[1..] == body;
        } else {
          assert marks == body;
        }
    }
  }

  /** The first drawn reply is headed by the rule's first case; the rest follow it. */
  lemma {:induction false} HeadsFirst(env: Env, m: Message, rest: seq<Message>, u0: Option<string>, ts0: Option<string>)
    ensures HeadsFrom(env, [m] + rest, 0, u0, ts0) ==
      (if AuthorOf(env, m).Some? && (u0 != AuthorOf(env, m) || (env.g == Interpreter.Modular && ts0.Some? && Gap(env, ts0.value, m.ts)))
       then [m.ts] else [])
      + HeadsFrom(env, rest, 0, AuthorOf(env, m), Some(m.ts))
  {
    hide Gap, AuthorOf;
    assert ([m] + rest)[0] == m;
    HeadsShift(env, m, rest, 0, u0, ts0);
  }

  /**
   * Which replies carry an author header: over all inputs, the headers the reply
   * loop draws are exactly those the header rule gives for the drawn replies, in
   * order. Started from an empty thread state, the first drawn reply with an author
   * is always headed.
   */
  lemma {:induction false} ReplyHeaders(env: Env, rs: seq<Message>, t: ThreadState)
    ensures var r := Replies(env, rs, t);
      r.Ok? ==> HeaderTs(r.value.marks) == HeaderTs(t.marks) + HeadsFrom(env, Drawn(rs), 0, t.lastUser, t.lastReply)
    decreases |rs|
  {
    hide Items, RenderMessage, SortByTs, TopStep, Top, Prelude, Expected, ExpectedAll, HeaderTs, ResolveAuthor,
      HeadedAt, AuthorOf, Gap, Cfg;
    if rs == [] {
      assert Replies(env, rs, t) == Ok(t);
      assert Drawn(rs) == [];
      assert HeadsFrom(env, [], 0, t.lastUser, t.lastReply) == [];
      assert HeaderTs(t.marks) + [] == HeaderTs(t.marks);
    } else {
      var m := rs[0];
      if m.threadTs.Some? {
        if m.ts == m.threadTs.value {
          assert Replies(env, rs, t) == Replies(env, rs[1..], t);
          assert !IsReply(m);
          assert Drawn(rs) == Drawn(rs[1..]);
          ReplyHeaders(env, rs[1..], t);
        } else {
          ReplyHeadersStep(env, rs, t);
        }
      } else {
        assert Replies(env, rs, t).Err?;
      }
    }
  }

  /** One drawn reply: its own header, then the rest with it as the previous reply. */
  lemma {:induction false} ReplyHeadersStep(env: Env, rs: seq<Message>, t: ThreadState)
    requires rs != [] && rs[0].threadTs.Some? && rs[0].ts != rs[0].threadTs.value
    ensures var r := Replies(env, rs, t);
      r.Ok? ==> HeaderTs(r.value.marks) == HeaderTs(t.marks) + HeadsFrom(env, Drawn(rs), 0, t.lastUser, t.lastReply)
    decreases |rs|, 0
  {
    hide Items, RenderMessage, SortByTs, TopStep, Top, Prelude, Expected, ExpectedAll, HeaderTs, ResolveAuthor,
      HeadsFrom, HeadedAt, AuthorOf, Gap, Cfg;
    var m := rs[0];
    var gapped := env.g == Interpreter.Modular && t.lastReply.Some? && Gap(env, t.lastReply.value, m.ts);
    var u := if gapped then None else t.lastUser;
    var margin := Cfg(env).marginLeft + Cfg(env).tabWidth;
    var rr := RenderMessage(env, m, margin, u);
    if rr.Ok? {
      var t1 := ThreadState(rr.value.author, Some(m.ts), t.marks + rr.value.marks);
      assert Replies(env, rs, t) == Replies(env, rs[1..], t1);
      RenderHeaders(env, m, margin, u);
      HeaderTsConcat(t.marks, rr.value.marks);
      ReplyHeaders(env, rs[1..], t1);
      var rest := Drawn(rs[1..]);
      assert IsReply(m);
      assert Drawn(rs) == [m] + rest;
      HeadsFirst(env, m, rest, t.lastUser, t.lastReply);
    }
  }

  // ---------------------------------------------------------------- top-level messages

  /** Carried across top-level messages: `last_user_id`, the time of `last_dt`, `last_page`. */
  datatype State = State(lastUser: Option<string>, lastTs: Option<string>, lastPage: Option<int>, marks: seq<Mark>)

  /** The first message, or one on another local day than `last_dt`. */
  predicate NewDay(env: Env, s: State, m: Message) {
    s.lastTs.None? || env.day(m.ts) != env.day(s.lastTs.value)
  }

  /** More than the configured minutes since `last_dt`. */
  predicate TimeGap(env: Env, s: State, m: Message) {
    s.lastTs.Some? && Gap(env, s.lastTs.value, m.ts)
  }

  /** The checks before a top-level message: time gap, day separator, page change. */
  function Prelude(env: Env, s: State, m: Message): (r: State)
    ensures r.marks == s.marks + (if NewDay(env, s, m) then [DaySeparator(env.day(m.ts))] else [])
    ensures r.lastPage == Some(env.page(r.marks)) && r.lastTs == s.lastTs
    ensures r.lastUser == s.lastUser || r.lastUser.None?
  {
    var u1 := if TimeGap(env, s, m) then None else s.lastUser;
    var marks := if NewDay(env, s, m) then s.marks + [DaySeparator(env.day(m.ts))] else s.marks;
    var u2 := if NewDay(env, s, m) then None else u1;
    var page := env.page(marks);
    var u3 := if s.lastPage != Some(page) then None else u2;
    State(u3, s.lastTs, Some(page), marks)
  }

  /** `last_dt` after a thread: the last drawn reply in the modular generation, the parent in the monolith. */
  function AfterThread(g: Interpreter.Generation, parent: string, lastReply: Option<string>): string {
    if g == Interpreter.Modular then lastReply.GetOr(parent) else parent
  }

  /** One top-level message and, for a thread parent with fetched replies, its thread. */
  function TopStep(env: Env, threads: map<string, seq<Message>>, s: State, m: Message): Result<State> {
    var p := Prelude(env, s, m);
    match RenderMessage(env, m, Cfg(env).marginLeft, p.lastUser)
    case Err(e) => Err(e)
    case Ok(rm) =>
      var marks := p.marks + rm.marks;
      if IsParent(m) && m.ts in threads then
        match Replies(env, SortByTs(threads[m.ts]), ThreadState(None, None, []))
        case Err(e) => Err(e)
        case Ok(t) => Ok(State(None, Some(AfterThread(env.g, m.ts, t.lastReply)), p.lastPage, marks + t.marks))
      else if IsParent(m) then Ok(State(None, Some(m.ts), p.lastPage, marks))
      else Ok(State(rm.author, Some(m.ts), p.lastPage, marks))
  }

  /** The fold over the sorted top-level messages. */
  function Top(env: Env, threads: map<string, seq<Message>>, s: State, ms: seq<Message>): Result<State>
    decreases |ms|
  {
    if ms == [] then Ok(s)
    else
      match TopStep(env, threads, s, ms[0])
      case Err(e) => Err(e)
      case Ok(s1) => Top(env, threads, s1, ms[1..])
  }

  /** `_write_messages_to_pdf`. */
  function WriteMessages(env: Env, threads: map<string, seq<Message>>, ms: seq<Message>): Result<seq<Mark>> {
    if ms == [] then Ok([EmptyChannel])
    else
      match Top(env, threads, State(None, None, None, []), SortByTs(ms))
      case Err(e) => Err(e)
      case Ok(s) => Ok(s.marks)
  }

  // ---------------------------------------------------------------- properties

  /**
   * The header is repeated exactly when the author differs from the previous one,
   * or a day separator, a time gap or a page change reset `last_user_id`.
   */
  lemma {:induction false} HeaderRepeats(env: Env, s: State, m: Message, a: Author)
    requires ResolveAuthor(env.users, env.bots, m) == Ok(Some(a))
    ensures var p := Prelude(env, s, m);
      var rm := RenderMessage(env, m, Cfg(env).marginLeft, p.lastUser);
      rm.Ok? &&
      (Headed(rm.value.marks) <==>
        s.lastUser != Some(a.id) || TimeGap(env, s, m) || NewDay(env, s, m) || s.lastPage != p.lastPage)
  {
  }

  /** After a thread parent, the next message always starts with a header. */
  lemma {:induction false} ThreadParentResets(env: Env, threads: map<string, seq<Message>>, s: State, m: Message)
    requires IsParent(m)
    requires TopStep(env, threads, s, m).Ok?
    ensures TopStep(env, threads, s, m).value.lastUser.None?
    ensures TopStep(env, threads, s, m).value.lastTs.Some?
  {
  }

  /** Which time the next top-level message is compared against after a thread. */
  lemma {:induction false} LastTimeAfterThread(env: Env, threads: map<string, seq<Message>>, s: State, m: Message)
    requires IsParent(m) && m.ts in threads
    requires TopStep(env, threads, s, m).Ok?
    ensures var rs := SortByTs(threads[m.ts]);
      TopStep(env, threads, s, m).value.lastTs ==
        Some(if env.g == Interpreter.Modular then LastReply(rs, None).GetOr(m.ts) else m.ts)
  {
    var p := Prelude(env, s, m);
    var rm := RenderMessage(env, m, Cfg(env).marginLeft, p.lastUser);
    RepliesDraw(env, SortByTs(threads[m.ts]), ThreadState(None, None, []));
  }

  /** The timestamps a top-level message draws: its own, then its drawn replies. */
  function Expected(threads: map<string, seq<Message>>, m: Message): seq<string> {
    [m.ts] + (if IsParent(m) && m.ts in threads then ReplyItems(SortByTs(threads[m.ts])) else [])
  }

  function ExpectedAll(threads: map<string, seq<Message>>, ms: seq<Message>): seq<string> {
    if ms == [] then [] else Expected(threads, ms[0]) + ExpectedAll(threads, ms[1..])
  }

  /** The checks before a message draw no message and no empty-channel line. */
  lemma {:induction false} PreludeDraws(env: Env, s: State, m: Message)
    ensures Items(Prelude(env, s, m).marks) == Items(s.marks)
    ensures EmptyChannel !in s.marks ==> EmptyChannel !in Prelude(env, s, m).marks
  {
    var sep := if NewDay(env, s, m) then [DaySeparator(env.day(m.ts))] else [];
    ItemsConcat(s.marks, sep);
    assert Items(sep) == [];
  }

  /** A thread block draws the parent's marks, then the replies'. */
  lemma {:induction false} ThreadBlockDraws(env: Env, before: seq<Mark>, rs: seq<Message>)
    requires Replies(env, rs, ThreadState(None, None, [])).Ok?
    ensures var t := Replies(env, rs, ThreadState(None, None, [])).value;
      Items(before + t.marks) == Items(before) + ReplyItems(rs)
      && (EmptyChannel !in before ==> EmptyChannel !in before + t.marks)
  {
    var t := Replies(env, rs, ThreadState(None, None, [])).value;
    RepliesDraw(env, rs, ThreadState(None, None, []));
    ItemsConcat(before, t.marks);
    assert EmptyChannel !in t.marks;
  }

  /** One step draws its message, then its thread, and at most one day separator. */
  lemma {:induction false} TopStepDraws(env: Env, threads: map<string, seq<Message>>, s: State, m: Message)
    requires TopStep(env, threads, s, m).Ok?
    ensures Items(TopStep(env, threads, s, m).value.marks) == Items(s.marks) + Expected(threads, m)
    ensures EmptyChannel !in s.marks ==> EmptyChannel !in TopStep(env, threads, s, m).value.marks
  {
    hide Items, Replies, SortByTs, ReplyItems, RenderMessage, Prelude, Top, ExpectedAll;
    var p := Prelude(env, s, m);
    var rm := RenderMessage(env, m, Cfg(env).marginLeft, p.lastUser).value;
    PreludeDraws(env, s, m);
    ItemsConcat(p.marks, rm.marks);
    assert EmptyChannel !in rm.marks;
    var marks := p.marks + rm.marks;
    assert Items(marks) == Items(s.marks) + [m.ts];
    if IsParent(m) && m.ts in threads {
      ThreadBlockDraws(env, marks, SortByTs(threads[m.ts]));
    }
  }

  lemma {:induction false} TopDraws(env: Env, threads: map<string, seq<Message>>, s: State, ms: seq<Message>)
    requires Top(env, threads, s, ms).Ok?
    ensures Items(Top(env, threads, s, ms).value.marks) == Items(s.marks) + ExpectedAll(threads, ms)
    ensures EmptyChannel !in s.marks ==> EmptyChannel !in Top(env, threads, s, ms).value.marks
    decreases |ms|
  {
    hide TopStep, Items, Expected, RenderMessage, Replies, Prelude, SortByTs, ReplyItems;
    if ms != [] {
      var s1 := TopStep(env, threads, s, ms[0]).value;
      TopStepDraws(env, threads, s, ms[0]);
      TopDraws(env, threads, s1, ms[1..]);
    }
  }

  /**
   * Messages are drawn in `ts` order, each followed by its thread's replies in
   * `ts` order without the repeated parent; an empty channel draws only its note.
   */
  lemma {:induction false} WriteMessagesOrder(env: Env, threads: map<string, seq<Message>>, ms: seq<Message>)
    requires WriteMessages(env, threads, ms).Ok?
    ensures Items(WriteMessages(env, threads, ms).value) == ExpectedAll(threads, SortByTs(ms))
    ensures EmptyChannel in WriteMessages(env, threads, ms).value <==> ms == []
  {
    if ms != [] {
      TopDraws(env, threads, State(None, None, None, []), SortByTs(ms));
    }
  }

  /** A non-empty channel starts with the day separator of its earliest message. */
  lemma {:induction false} FirstDaySeparator(env: Env, threads: map<string, seq<Message>>, ms: seq<Message>)
    requires ms != [] && WriteMessages(env, threads, ms).Ok?
    ensures var marks := WriteMessages(env, threads, ms).value;
      |marks| > 0 && marks[0] == DaySeparator(env.day(SortByTs(ms)[0].ts))
  {
    var sorted := SortByTs(ms);
    assert |sorted| > 0 by {
      assert |multiset(sorted)| == |multiset(ms)|;
    }
    var s0 := State(None, None, None, []);
    var s1 := TopStep(env, threads, s0, sorted[0]).value;
    assert s1.marks[0] == DaySeparator(env.day(sorted[0].ts));
    TopKeepsPrefix(env, threads, s1, sorted[1..]);
  }

  /** Marks are only ever appended. */
  lemma {:induction false} TopKeepsPrefix(env: Env, threads: map<string, seq<Message>>, s: State, ms: seq<Message>)
    requires Top(env, threads, s, ms).Ok?
    ensures s.marks <= Top(env, threads, s, ms).value.marks
    decreases |ms|
  {
    if ms != [] {
      var s1 := TopStep(env, threads, s, ms[0]).value;
      TopKeepsPrefix(env, threads, s1, ms[1..]);
    }
  }
}

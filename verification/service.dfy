/**
 * The pure parts of `SlackService` (slackchannel2pdf/slack_service.py) and of the
 * monolith's `reduce_to_dict` (slackchannel2pdf/slackchannel2pdf.py): reducing API
 * records to name tables, accumulating cursor pages, building the thread map,
 * collecting bot names, and the start-up in test mode. Every Slack API call is an
 * oracle parameter.
 */
module Service {
  import opened Wrappers
  import opened Text
  import Encoding
  import opened Messages

  // ---------------------------------------------------------------- _reduce_to_dict

  /** An API record: a dictionary with string values. */
  type Item = map<string, string>

  /** The value an item contributes: its primary column, else its secondary one if given. */
  function ItemValue(item: Item, primary: string, secondary: Option<string>): (v: Option<string>)
    ensures primary in item ==> v == Some(item[primary])
    ensures primary !in item && secondary.Some? && secondary.value in item ==> v == Some(item[secondary.value])
    ensures v.None? <==> primary !in item && (secondary.None? || secondary.value !in item)
  {
    if primary in item then Some(item[primary])
    else if secondary.Some? && secondary.value in item then Some(item[secondary.value])
    else None
  }

  /** The item has the key column and a value column, and its key is `k`. */
  predicate Contributes(item: Item, key: string, primary: string, secondary: Option<string>, k: string) {
    key in item && item[key] == k && ItemValue(item, primary, secondary).Some?
  }

  /** One item of the reduction loop: a contributing item sets its key to its value. */
  function Absorb(d: map<string, string>, it: Item, key: string, primary: string, secondary: Option<string>): map<string, string> {
    if key in it && ItemValue(it, primary, secondary).Some? then d[it[key] := ItemValue(it, primary, secondary).value]
    else d
  }

  /** `_reduce_to_dict(arr, key_name, col_name_primary, col_name_secondary)`. */
  function ReduceToDict(items: seq<Item>, key: string, primary: string, secondary: Option<string>): (r: map<string, string>)
    ensures forall k :: k in r <==> exists i :: 0 <= i < |items| && Contributes(items[i], key, primary, secondary, k)
  {
    if items == [] then map[]
    else
      var init, it := items[..|items| - 1], items[|items| - 1];
      assert forall i :: 0 <= i < |init| ==> items[i] == init[i];
      Absorb(ReduceToDict(init, key, primary, secondary), it, key, primary, secondary)
  }

  lemma {:induction false} ReduceSnoc(items: seq<Item>, it: Item, key: string, primary: string, secondary: Option<string>)
    ensures ReduceToDict(items + [it], key, primary, secondary)
      == Absorb(ReduceToDict(items, key, primary, secondary), it, key, primary, secondary)
  {
    assert (items + [it])[..|items|] == items;
  }

  /** The value under `k` comes from the last item contributing to `k`. */
  lemma {:induction false} ReduceLastWins(items: seq<Item>, key: string, primary: string, secondary: Option<string>, i: nat)
    requires i < |items| && key in items[i] && Contributes(items[i], key, primary, secondary, items[i][key])
    requires forall j :: i < j < |items| ==> !Contributes(items[j], key, primary, secondary, items[i][key])
    ensures var r := ReduceToDict(items, key, primary, secondary);
      items[i][key] in r && r[items[i][key]] == ItemValue(items[i], primary, secondary).value
    decreases |items|
  {
    if i < |items| - 1 {
      var init := items[..|items| - 1];
      assert init[i] == items[i];
      ReduceLastWins(init, key, primary, secondary, i);
    }
  }

  /** A later item with the same key overwrites the earlier value; no other entry changes. */
  lemma {:induction false} ReduceOverwrites(items: seq<Item>, it: Item, key: string, primary: string, secondary: Option<string>, k: string)
    requires k in ReduceToDict(items, key, primary, secondary)
    ensures var before := ReduceToDict(items, key, primary, secondary);
      var after := ReduceToDict(items + [it], key, primary, secondary);
      && (Contributes(it, key, primary, secondary, k) ==> after[k] == ItemValue(it, primary, secondary).value)
      && (!Contributes(it, key, primary, secondary, k) ==> k in after && after[k] == before[k])
  {
    ReduceSnoc(items, it, key, primary, secondary);
  }

  /** The records of the reduction tests. */
  const Naoko: Item := map["id" := "1", "name_1" := "Naoko Kobayashi", "name_2" := "naoko.kobayashi"]
  const Janet: Item := map["id" := "2", "name_1" := "Janet Hakuli", "name_2" := "janet.hakuli"]
  const Rosie: Item := map["id" := "3", "name_2" := "rosie.dunbar"]
  const NoName: Item := map["id" := "4"]
  const NoId: Item := map["name_1" := "John Doe", "name_2" := "john.doe"]

  function People(): seq<Item> {
    [Naoko, Janet, Rosie, NoName, NoId]
  }

  /** Reducing the five records is absorbing them one by one. */
  lemma {:induction false} ReducePeople(primary: string, secondary: Option<string>)
    ensures ReduceToDict(People(), "id", primary, secondary)
      == Absorb(Absorb(Absorb(Absorb(Absorb(map[], Naoko, "id", primary, secondary),
           Janet, "id", primary, secondary), Rosie, "id", primary, secondary), NoName, "id", primary, secondary),
           NoId, "id", primary, secondary)
  {
    ReduceSnoc([], Naoko, "id", primary, secondary);
    ReduceSnoc([Naoko], Janet, "id", primary, secondary);
    ReduceSnoc([Naoko, Janet], Rosie, "id", primary, secondary);
    ReduceSnoc([Naoko, Janet, Rosie], NoName, "id", primary, secondary);
    ReduceSnoc([Naoko, Janet, Rosie, NoName], NoId, "id", primary, secondary);
    assert [] + [Naoko] == [Naoko];
    assert [Naoko] + [Janet] == [Naoko, Janet];
    assert [Naoko, Janet] + [Rosie] == [Naoko, Janet, Rosie];
    assert [Naoko, Janet, Rosie] + [NoName] == [Naoko, Janet, Rosie, NoName];
    assert [Naoko, Janet, Rosie, NoName] + [NoId] == People();
  }

  lemma {:induction false} ReducePrimaryOnly()
    ensures ReduceToDict(People(), "id", "name_1", None) == map["1" := "Naoko Kobayashi", "2" := "Janet Hakuli"]
  {
    ReducePeople("name_1", None);
  }

  lemma {:induction false} ReduceWithSecondary()
    ensures ReduceToDict(People(), "id", "name_1", Some("name_2"))
      == map["1" := "Naoko Kobayashi", "2" := "Janet Hakuli", "3" := "rosie.dunbar"]
  {
    ReducePeople("name_1", Some("name_2"));
  }

  lemma {:induction false} ReduceMissingPrimary()
    ensures ReduceToDict(People(), "id", "invalid_col", Some("name_2"))
      == map["1" := "naoko.kobayashi", "2" := "janet.hakuli", "3" := "rosie.dunbar"]
  {
    hide ReduceToDict, People;
    ReducePeople("invalid_col", Some("name_2"));
    var d1 := Absorb(map[], Naoko, "id", "invalid_col", Some("name_2"));
    assert d1 == map["1" := "naoko.kobayashi"];
    var d2 := Absorb(d1, Janet, "id", "invalid_col", Some("name_2"));
    assert d2 == map["1" := "naoko.kobayashi", "2" := "janet.hakuli"];
    var d3 := Absorb(d2, Rosie, "id", "invalid_col", Some("name_2"));
    assert d3 == map["1" := "naoko.kobayashi", "2" := "janet.hakuli", "3" := "rosie.dunbar"];
    assert Absorb(d3, NoName, "id", "invalid_col", Some("name_2")) == d3;
    assert Absorb(d3, NoId, "id", "invalid_col", Some("name_2")) == d3;
  }

  // ---------------------------------------------------------------- _fetch_pages

  /** One API response: its rows, and whether it carries a non-empty `next_cursor`. */
  datatype Page<T> = Page(rows: seq<T>, hasNext: bool)

  /** The responses of one cursor chain: every page but the last points to a next one. */
  predicate Chain<T>(pages: seq<Page<T>>) {
    pages != []
    && (forall i :: 0 <= i < |pages| - 1 ==> pages[i].hasNext)
    && !pages[|pages| - 1].hasNext
  }

  function Concat<T>(pages: seq<Page<T>>): seq<T> {
    if pages == [] then [] else Concat(pages[..|pages| - 1]) + pages[|pages| - 1].rows
  }

  /** `not max_rows or len(rows) < max_rows`: no limit, a zero limit, or still below it. */
  predicate BelowLimit(count: nat, maxRows: Option<int>) {
    maxRows.None? || maxRows.value == 0 || count < maxRows.value
  }

  /**
   * `_fetch_pages`: the first page, then further pages while the limit is not
   * reached and a cursor is present. Pages are appended whole; the limit is never
   * used to cut rows, so the result can exceed it by up to one page.
   */
  method FetchPages<T>(pages: seq<Page<T>>, maxRows: Option<int>) returns (rows: seq<T>, fetched: nat)
    requires Chain(pages)
    ensures 1 <= fetched <= |pages| && rows == Concat(pages[..fetched])
    ensures fetched == |pages| || !BelowLimit(|rows|, maxRows)
    ensures forall i :: 1 <= i < fetched ==> BelowLimit(|Concat(pages[..i])|, maxRows)
  {
    var response := pages[0];
    rows := response.rows;
    fetched := 1;
    assert pages[..1][..0] == [];
    while BelowLimit(|rows|, maxRows) && response.hasNext
      invariant 1 <= fetched <= |pages|
      invariant response == pages[fetched - 1]
      invariant rows == Concat(pages[..fetched])
      invariant forall i :: 1 <= i < fetched ==> BelowLimit(|Concat(pages[..i])|, maxRows)
      decreases |pages| - fetched
    {
      response := pages[fetched];
      rows := rows + response.rows;
      fetched := fetched + 1;
      assert pages[..fetched][..fetched - 1] == pages[..fetched - 1];
    }
  }

  /** Splits rows into pages of `size`, every page but the last with a cursor. */
  function Chunks<T>(rows: seq<T>, size: nat): (ps: seq<Page<T>>)
    requires size > 0
    ensures Chain(ps)
    decreases |rows|
  {
    if |rows| <= size then [Page(rows, false)]
    else
      var rest := Chunks(rows[size..], size);
      assert forall i :: 1 <= i < |rest| + 1 ==> ([Page(rows[..size], true)] + rest)[i] == rest[i - 1];
      [Page(rows[..size], true)] + rest
  }

  lemma {:induction false} ConcatCons<T>(p: Page<T>, ps: seq<Page<T>>)
    ensures Concat([p] + ps) == p.rows + Concat(ps)
    decreases |ps|
  {
    if ps != [] {
      var init := ps[..|ps| - 1];
      assert ([p] + ps)[..|ps|] == [p] + init;
      ConcatCons(p, init);
    } else {
      assert ([p] + ps)[..0] == [];
    }
  }

  lemma {:induction false} ChunksConcat<T>(rows: seq<T>, size: nat)
    requires size > 0
    ensures Concat(Chunks(rows, size)) == rows
    decreases |rows|
  {
    hide Concat, Chain;
    if |rows| <= size {
      SinglePage(rows);
    } else {
      ChunksConcat(rows[size..], size);
      ConcatCons(Page(rows[..size], true), Chunks(rows[size..], size));
      assert rows == rows[..size] + rows[size..];
    }
  }

  lemma {:induction false} SinglePage<T>(rows: seq<T>)
    ensures Concat([Page(rows, false)]) == rows
  {
    assert [Page(rows, false)][..0] == [];
  }

  /** Without a limit, fetching a data set in pages of any size yields the data set. */
  method FetchInPages<T>(data: seq<T>, size: nat) returns (rows: seq<T>)
    requires size > 0
    ensures rows == data
  {
    var pages := Chunks(data, size);
    var fetched;
    rows, fetched := FetchPages(pages, None);
    ChunksConcat(data, size);
    assert pages[..fetched] == pages;
  }

  // ---------------------------------------------------------------- fetch_threads_from_messages

  /** `fetch_threads_from_messages`: one entry per thread parent, holding what `replies` returns for it. */
  function ThreadMap(ms: seq<Message>, replies: string -> seq<Message>): (r: map<string, seq<Message>>)
    ensures forall k :: k in r <==> exists i :: 0 <= i < |ms| && IsParent(ms[i]) && ms[i].ts == k
    ensures forall k :: k in r ==> r[k] == replies(k)
  {
    if ms == [] then map[]
    else
      var init, m := ms[..|ms| - 1], ms[|ms| - 1];
      assert forall i :: 0 <= i < |init| ==> ms[i] == init[i];
      var d := ThreadMap(init, replies);
      if IsParent(m) then d[m.ts := replies(m.ts)] else d
  }

  // ---------------------------------------------------------------- fetch_bot_names_for_messages

  /** Bot names taken from `username`, and the ids of bots seen without one, in order. */
  datatype Collected = Collected(names: map<string, string>, pending: seq<string>)

  predicate NamedBot(m: Message, id: string) {
    m.botId == Some(id) && m.username.Some?
  }

  predicate UnnamedBot(m: Message, id: string) {
    m.botId == Some(id) && m.username.None?
  }

  /** One message of the collection loops. */
  function Visit(c: Collected, m: Message): Collected {
    match m.botId
    case None => c
    case Some(id) =>
      if m.username.Some? then c.(names := c.names[id := Encoding.TransformEncoding(m.username.value)])
      else c.(pending := c.pending + [id])
  }

  /**
   * The collection loop over messages: a bot's name is the transformed `username`
   * of the last message that has one; bots seen without one are pending.
   */
  function CollectBots(ms: seq<Message>): (c: Collected)
    ensures forall id :: id in c.names <==> exists i :: 0 <= i < |ms| && NamedBot(ms[i], id)
    ensures forall id :: id in c.pending <==> exists i :: 0 <= i < |ms| && UnnamedBot(ms[i], id)
  {
    if ms == [] then Collected(map[], [])
    else
      var init := ms[..|ms| - 1];
      assert forall i :: 0 <= i < |init| ==> ms[i] == init[i];
      Visit(CollectBots(init), ms[|ms| - 1])
  }

  lemma {:induction false} CollectLastWins(ms: seq<Message>, i: nat, id: string)
    requires i < |ms| && NamedBot(ms[i], id)
    requires forall j :: i < j < |ms| ==> !NamedBot(ms[j], id)
    ensures id in CollectBots(ms).names
    ensures CollectBots(ms).names[id] == Encoding.TransformEncoding(ms[i].username.value)
    decreases |ms|
  {
    if i < |ms| - 1 {
      var init := ms[..|ms| - 1];
      assert init[i] == ms[i];
      CollectLastWins(init, i, id);
    }
  }

  /**
   * After collection: only bots never seen with a `username` are looked up with
   * `bots_info`; a lookup that is not ok leaves the bot unnamed.
   */
  function Finish(c: Collected, info: string -> Option<string>): (r: map<string, string>)
    ensures forall id :: id in c.names ==> id in r && r[id] == c.names[id]
    ensures forall id :: id in r <==> id in c.names || (id in c.pending && info(id).Some?)
    ensures forall id :: id in c.pending && id !in c.names && info(id).Some? ==>
      r[id] == Encoding.TransformEncoding(info(id).value)
  {
    var queried := (set id | id in c.pending) - c.names.Keys;
    var fetched := map id | id in queried && info(id).Some? :: Encoding.TransformEncoding(info(id).value);
    c.names + fetched
  }

  /** The messages of the threads, in the order of the keys. */
  function ThreadMessages(keys: seq<string>, threads: map<string, seq<Message>>): seq<Message>
    requires forall k :: k in keys ==> k in threads
  {
    if keys == [] then [] else threads[keys[0]] + ThreadMessages(keys[1..], threads)
  }

  /** Python's `in` on strings: `needle` occurs in `hay`. */
  predicate Substring(needle: string, hay: string) {
    exists k :: 0 <= k <= |hay| && PrefixAt(hay, k, needle)
  }

  /**
   * The thread loop as written: iterating `threads` yields its keys, and iterating a
   * key yields one-character strings, on which `msg["bot_id"]` would fail.
   */
  function ScanKeysAsWritten(keys: seq<string>, c: Collected): Result<Collected> {
    if keys == [] then Ok(c)
    else match ScanCharsAsWritten(keys[0], c)
      case Err(e) => Err(e)
      case Ok(c1) => ScanKeysAsWritten(keys[1..], c1)
  }

  function ScanCharsAsWritten(key: string, c: Collected): Result<Collected> {
    if key == [] then Ok(c)
    else if Substring("bot_id", [key[0]]) then Err(TypeError("string indices must be integers"))
    else ScanCharsAsWritten(key[1..], c)
  }

  /** `fetch_bot_names_for_messages` as written; `keys` is the iteration order of `threads`. */
  function BotNamesAsWritten(ms: seq<Message>, threads: map<string, seq<Message>>, keys: seq<string>,
                             info: string -> Option<string>): Result<map<string, string>>
    requires forall k :: k in keys <==> k in threads
  {
    match ScanKeysAsWritten(keys, CollectBots(ms))
    case Err(e) => Err(e)
    case Ok(c) => Ok(Finish(c, info))
  }

  lemma {:induction false} ScanCharsIsInert(key: string, c: Collected)
    ensures ScanCharsAsWritten(key, c) == Ok(c)
    decreases |key|
  {
    if key != [] {
      assert !Substring("bot_id", [key[0]]);
      ScanCharsIsInert(key[1..], c);
    }
  }

  lemma {:induction false} ScanKeysIsInert(keys: seq<string>, c: Collected)
    ensures ScanKeysAsWritten(keys, c) == Ok(c)
    decreases |keys|
  {
    if keys != [] {
      ScanCharsIsInert(keys[0], c);
      ScanKeysIsInert(keys[1..], c);
    }
  }

  /** As written, thread messages never contribute: the result depends on the top-level messages only. */
  lemma {:induction false} BotNamesAsWrittenIgnoresThreads(ms: seq<Message>, threads: map<string, seq<Message>>, keys: seq<string>,
                                        info: string -> Option<string>)
    requires forall k :: k in keys <==> k in threads
    ensures BotNamesAsWritten(ms, threads, keys, info) == Ok(Finish(CollectBots(ms), info))
  {
    ScanKeysIsInert(keys, CollectBots(ms));
  }

  /** `fetch_bot_names_for_messages` as intended: the thread loop visits the threads' messages. */
  function BotNames(ms: seq<Message>, threads: map<string, seq<Message>>, keys: seq<string>,
                    info: string -> Option<string>): map<string, string>
    requires forall k :: k in keys <==> k in threads
  {
    Finish(CollectBots(ms + ThreadMessages(keys, threads)), info)
  }

  /**
   * The naming rule for bot `id` over the visited messages `all`: a bot seen with a
   * `username` is named from the last such message; any other bot is named only if it
   * was seen and its lookup is ok, with the looked-up name.
   */
  predicate FollowsNamingRule(all: seq<Message>, info: string -> Option<string>, r: map<string, string>, id: string) {
    && (id in r <==> (exists i :: 0 <= i < |all| && NamedBot(all[i], id))
                     || ((exists i :: 0 <= i < |all| && UnnamedBot(all[i], id)) && info(id).Some?))
    && (forall i :: 0 <= i < |all| && NamedBot(all[i], id) && (forall j :: i < j < |all| ==> !NamedBot(all[j], id)) ==>
          id in r && r[id] == Encoding.TransformEncoding(all[i].username.value))
    && ((!exists i :: 0 <= i < |all| && NamedBot(all[i], id)) && id in r ==> r[id] == Encoding.TransformEncoding(info(id).value))
  }

  /** Collecting and then finishing follows the naming rule. */
  lemma {:induction false} NamingRule(all: seq<Message>, info: string -> Option<string>, id: string)
    ensures FollowsNamingRule(all, info, Finish(CollectBots(all), info), id)
  {
    var c := CollectBots(all);
    var r := Finish(c, info);
    var named := id in c.names;
    var pending := id in c.pending;
    assert named <==> exists i :: 0 <= i < |all| && NamedBot(all[i], id);
    assert pending <==> exists i :: 0 <= i < |all| && UnnamedBot(all[i], id);
    assert id in r <==> named || (pending && info(id).Some?);
    forall i | 0 <= i < |all| && NamedBot(all[i], id) && (forall j :: i < j < |all| ==> !NamedBot(all[j], id))
      ensures id in r && r[id] == Encoding.TransformEncoding(all[i].username.value)
    {
      CollectLastWins(all, i, id);
    }
  }

  /** The intended loop follows the naming rule over the top-level messages followed by the threads' messages. */
  lemma {:induction false} BotNamesRule(ms: seq<Message>, threads: map<string, seq<Message>>, keys: seq<string>,
                     info: string -> Option<string>, id: string)
    requires forall k :: k in keys <==> k in threads
    ensures FollowsNamingRule(ms + ThreadMessages(keys, threads), info, BotNames(ms, threads, keys, info), id)
  {
    var all := ms + ThreadMessages(keys, threads);
    assert BotNames(ms, threads, keys, info) == Finish(CollectBots(all), info);
    NamingRule(all, info, id);
  }

  /** A bot message inside a thread, with a username. */
  const ThreadBot := Message("1.1", Some("1.0"), None, Some("B1"), Some("Bot"), None, None)

  /**
   * A bot that writes only inside a thread is named by the intended loop but not by
   * the loop as written.
   */
  lemma {:induction false} ThreadBotMissed()
    ensures BotNamesAsWritten([], ThreadOfBot(), ["1.0"], NoBotInfo) == Ok(map[])
    ensures BotNames([], ThreadOfBot(), ["1.0"], NoBotInfo) == map["B1" := "Bot"]
  {
    hide *;
    ThreadBotAsWritten();
    ThreadBotIntended();
  }

  /** One thread, `1.0`, holding only the bot message. */
  function ThreadOfBot(): map<string, seq<Message>> {
    map["1.0" := [ThreadBot]]
  }

  /** A `bots_info` lookup that never succeeds. */
  const NoBotInfo: string -> Option<string> := _ => None

  lemma {:induction false} ThreadBotAsWritten()
    ensures BotNamesAsWritten([], ThreadOfBot(), ["1.0"], NoBotInfo) == Ok(map[])
  {
    BotNamesAsWrittenIgnoresThreads([], ThreadOfBot(), ["1.0"], NoBotInfo);
    assert CollectBots([]) == Collected(map[], []);
    var r := Finish(Collected(map[], []), NoBotInfo);
    assert r.Keys == {};
  }

  lemma {:induction false} ThreadBotIntended()
    ensures BotNames([], ThreadOfBot(), ["1.0"], NoBotInfo) == map["B1" := "Bot"]
  {
    hide CollectBots, ThreadMessages, Encoding.TransformEncoding;
    ThreadOfBotMessages();
    CollectOneBot();
    var r := BotNames([], ThreadOfBot(), ["1.0"], NoBotInfo);
    assert r == Finish(CollectBots([ThreadBot]), NoBotInfo);
    assert r.Keys == {"B1"};
  }

  /** The thread loop visits the bot message only. */
  lemma {:induction false} ThreadOfBotMessages()
    ensures [] + ThreadMessages(["1.0"], ThreadOfBot()) == [ThreadBot]
  {
    assert ["1.0"][1..] == [];
    assert ThreadMessages(["1.0"], ThreadOfBot()) == [ThreadBot] + [];
  }

  /** The bot message alone names its bot. */
  lemma {:induction false} CollectOneBot()
    ensures CollectBots([ThreadBot]).names == map["B1" := "Bot"]
  {
    assert Encoding.TransformEncoding("Bot") == "Bot";
    CollectLastWins([ThreadBot], 0, "B1");
    assert CollectBots([ThreadBot]).names.Keys == {"B1"};
  }

  // ---------------------------------------------------------------- start-up

  /** What the workspace reports and holds, as fetched at start-up. */
  datatype Workspace = Workspace(
    userId: Option<string>,
    users: map<string, string>,
    channels: map<string, string>,
    usergroups: map<string, string>,
    userInfo: string -> map<string, string>)

  datatype ServiceState = ServiceState(
    users: map<string, string>,
    channels: map<string, string>,
    usergroups: map<string, string>,
    author: string,
    testMode: bool,
    authorInfo: map<string, string>)

  /** `SlackService.__init__`: the token `TEST` starts without any API call. */
  function InitService(token: Option<string>, ws: Workspace): (r: Result<ServiceState>)
    ensures r.Err? <==> token.None?
    ensures token == Some("TEST") ==> r == Ok(ServiceState(map[], map[], map[], "test user", true, map[]))
    ensures token.Some? && token != Some("TEST") ==>
      && r.Ok? && !r.value.testMode
      && r.value.users == ws.users && r.value.channels == ws.channels && r.value.usergroups == ws.usergroups
      && r.value.author == (match ws.userId
                            case None => "unknown user"
                            case Some(id) => if id in ws.users then ws.users[id] else "unknown_user_" + id)
      && r.value.authorInfo == (if ws.userId.Some? then ws.userInfo(ws.userId.value) else map[])
  {
    match token
    case None => Err(ValueError("slack_token can not be null"))
    case Some(t) =>
      if t == "TEST" then Ok(ServiceState(map[], map[], map[], "test user", true, map[]))
      else
        var author := match ws.userId
          case None => "unknown user"
          case Some(id) => if id in ws.users then ws.users[id] else "unknown_user_" + id;
        var info := if ws.userId.Some? then ws.userInfo(ws.userId.value) else map[];
        Ok(ServiceState(ws.users, ws.channels, ws.usergroups, author, false, info))
  }
}

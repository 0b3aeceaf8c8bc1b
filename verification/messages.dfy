/**
 * Slack messages as the exporter reads them, and `sorted(messages, key=lambda k: k["ts"])`
 * (slackchannel2pdf/channel_exporter.py, slackchannel2pdf/slackchannel2pdf.py): a
 * stable sort by the `ts` string under Python's string order.
 */
module Messages {
  import opened Wrappers
  import opened Text

  /** The `comment` of a `file_comment` message. */
  datatype Comment = Comment(user: Option<string>)

  /** The keys of a message dictionary the layout and the service look at; `None` is a missing key. */
  datatype Message = Message(
    ts: string,
    threadTs: Option<string>,
    user: Option<string>,
    botId: Option<string>,
    username: Option<string>,
    subtype: Option<string>,
    comment: Option<Comment>)

  /** The message is a thread parent: its `thread_ts` is its own `ts`. */
  predicate IsParent(m: Message) {
    m.threadTs == Some(m.ts)
  }

  predicate SortedByTs(ms: seq<Message>) {
    forall j, k :: 0 <= j < k < |ms| ==> LexLe(ms[j].ts, ms[k].ts)
  }

  lemma {:induction false} LexLeReflexive(a: string)
    ensures LexLe(a, a)
    decreases |a|
  {
    if a != [] {
      LexLeReflexive(a[1..]);
    }
  }

  /** Puts `m` after the last message whose `ts` is not greater than its own. */
  function Insert(sorted: seq<Message>, m: Message): (r: seq<Message>)
    requires SortedByTs(sorted)
    ensures multiset(r) == multiset(sorted) + multiset{m}
    ensures SortedByTs(r)
    decreases |sorted|
  {
    if sorted == [] then [m]
    else
      var init, last := sorted[..|sorted| - 1], sorted[|sorted| - 1];
      assert sorted == init + [last];
      if LexLe(last.ts, m.ts) then
        InsertAfter(sorted, m);
        sorted + [m]
      else
        var r := Insert(init, m);
        InsertBefore(init, last, m, r);
        r + [last]
  }

  lemma {:induction false} InsertAfter(sorted: seq<Message>, m: Message)
    requires SortedByTs(sorted) && sorted != []
    requires LexLe(sorted[|sorted| - 1].ts, m.ts)
    ensures SortedByTs(sorted + [m])
  {
    forall j | 0 <= j < |sorted|
      ensures LexLe(sorted[j].ts, m.ts)
    {
      if j < |sorted| - 1 {
        LexLeTransitive(sorted[j].ts, sorted[|sorted| - 1].ts, m.ts);
      }
    }
  }

  lemma {:induction false} InsertBefore(init: seq<Message>, last: Message, m: Message, r: seq<Message>)
    requires SortedByTs(init + [last]) && !LexLe(last.ts, m.ts)
    requires SortedByTs(r) && multiset(r) == multiset(init) + multiset{m}
    ensures SortedByTs(r + [last])
  {
    LexLeTotal(last.ts, m.ts);
    forall j | 0 <= j < |r|
      ensures LexLe(r[j].ts, last.ts)
    {
      assert r[j] in multiset(r);
      if r[j] != m {
        assert r[j] in multiset(init);
        var i :| 0 <= i < |init| && init[i] == r[j];
        assert (init + [last])[i] == init[i];
        assert (init + [last])[|init|] == last;
      }
    }
  }

  /** `sorted(messages, key=lambda k: k["ts"])`. */
  function SortByTs(ms: seq<Message>): (r: seq<Message>)
    ensures multiset(r) == multiset(ms)
    ensures SortedByTs(r)
  {
    if ms == [] then []
    else
      assert ms == ms[..|ms| - 1] + [ms[|ms| - 1]];
      Insert(SortByTs(ms[..|ms| - 1]), ms[|ms| - 1])
  }

  /** The messages with timestamp `key`, in their order. */
  function WithTs(ms: seq<Message>, key: string): seq<Message> {
    if ms == [] then []
    else WithTs(ms[..|ms| - 1], key) + Keyed(ms[|ms| - 1], key)
  }

  lemma {:induction false} WithTsSnoc(ms: seq<Message>, m: Message, key: string)
    ensures WithTs(ms + [m], key) == WithTs(ms, key) + Keyed(m, key)
  {
    assert (ms + [m])[..|ms|] == ms;
  }

  /** The messages with timestamp `key` among `[m]`. */
  function Keyed(m: Message, key: string): seq<Message> {
    if m.ts == key then [m] else []
  }

  /** Two messages with different timestamps never both have timestamp `key`. */
  lemma {:induction false} StableSwap(r: seq<Message>, init: seq<Message>, last: Message, m: Message, key: string)
    requires WithTs(r, key) == WithTs(init, key) + Keyed(m, key)
    requires last.ts != m.ts
    ensures WithTs(r + [last], key) == WithTs(init + [last], key) + Keyed(m, key)
  {
    WithTsSnoc(r, last, key);
    WithTsSnoc(init, last, key);
    if m.ts == key {
      assert Keyed(last, key) == [];
      assert WithTs(r + [last], key) == WithTs(r, key);
      assert WithTs(init + [last], key) == WithTs(init, key);
    } else {
      assert Keyed(m, key) == [];
      assert WithTs(r, key) == WithTs(init, key);
    }
  }

  lemma {:induction false} InsertStable(sorted: seq<Message>, m: Message, key: string)
    requires SortedByTs(sorted)
    ensures WithTs(Insert(sorted, m), key) == WithTs(sorted, key) + Keyed(m, key)
    decreases |sorted|
  {
    if sorted == [] {
      WithTsSnoc([], m, key);
    } else {
      var init, last := sorted[..|sorted| - 1], sorted[|sorted| - 1];
      assert sorted == init + [last];
      if LexLe(last.ts, m.ts) {
        assert Insert(sorted, m) == sorted + [m];
        WithTsSnoc(sorted, m, key);
      } else {
        var r := Insert(init, m);
        assert Insert(sorted, m) == r + [last];
        LexLeReflexive(m.ts);
        InsertStable(init, m, key);
        StableSwap(r, init, last, m, key);
      }
    }
  }

  /** The sort is stable: messages with the same `ts` keep their relative order. */
  lemma {:induction false} SortStable(ms: seq<Message>, key: string)
    ensures WithTs(SortByTs(ms), key) == WithTs(ms, key)
    decreases |ms|
  {
    if ms != [] {
      var init, last := ms[..|ms| - 1], ms[|ms| - 1];
      assert ms == init + [last];
      var s := SortByTs(init);
      calc {
        WithTs(SortByTs(ms), key);
        WithTs(Insert(s, last), key);
        { InsertStable(s, last, key); }
        WithTs(s, key) + Keyed(last, key);
        { SortStable(init, key); }
        WithTs(init, key) + Keyed(last, key);
        { WithTsSnoc(init, last, key); }
        WithTs(ms, key);
      }
    }
  }

  /** Messages already in `ts` order are left as they are. */
  lemma {:induction false} SortSorted(ms: seq<Message>)
    requires SortedByTs(ms)
    ensures SortByTs(ms) == ms
    decreases |ms|
  {
    if ms != [] {
      var init, last := ms[..|ms| - 1], ms[|ms| - 1];
      assert SortedByTs(init);
      SortSorted(init);
      if |init| > 0 {
        assert ms[|init| - 1] == init[|init| - 1];
      }
    }
  }
}

/**
 * The pure bookkeeping of `run` (slackchannel2pdf/channel_exporter.py and
 * slackchannel2pdf/slackchannel2pdf.py): the argument checks in their order,
 * resolving channel inputs case-insensitively, the sanitised file name base and the
 * message count of the info table. Fetching, PDF output and printing are left to
 * the other modules or out of the model.
 */
module Export {
  import opened Wrappers
  import opened Text
  import opened Messages

  // ---------------------------------------------------------------- argument checks

  /** A Python argument value, as far as the checks in `run` distinguish them. */
  datatype Value =
    | NoneValue
    | IntValue(i: int)
    | BoolValue(b: bool)
    | StrValue(s: string)
      /** A `datetime`: its instant, and whether it already carries a time zone. */
    | DateValue(t: real, aware: bool)
    | ListValue(items: seq<string>)
    | OtherValue

  /** `isinstance(v, int)`: Python's `bool` is a subclass of `int`. */
  predicate IsInt(v: Value) {
    v.IntValue? || v.BoolValue?
  }

  function AsInt(v: Value): int
    requires IsInt(v)
  {
    if v.IntValue? then v.i else if v.b then 1 else 0
  }

  datatype RunArgs = RunArgs(
    channelInputs: Value,
    destPath: Value,
    oldest: Value,
    latest: Value,
    pageOrientation: Value,
    pageFormat: Value,
    maxMessages: Value,
    writeRawData: Value)

  /** The arguments after the checks, with the defaults filled in. */
  datatype Checked = Checked(
    channels: seq<string>,
    dest: string,
    oldest: Option<real>,
    latest: Option<real>,
    maxMessages: int)

  /** The default message limit of the monolith; the modular version reads it from its configuration. */
  const MonolithMaxMessages := 10000

  /** What pytz's `localize` raises for a `datetime` that already has a time zone. */
  const NotNaive := ValueError("Not naive datetime (tzinfo is already set)")

  function DateOf(v: Value): Option<real> {
    if v.DateValue? then Some(v.t) else None
  }

  /**
   * The input validation of `run`, in its order. `defaultMax` is the configured
   * message limit, `here` the directory of the module (the default destination) and
   * `isDir` the file system's answer to `os.path.isdir`.
   */
  function Validate(a: RunArgs, defaultMax: int, here: string, isDir: string -> bool): (r: Result<Checked>)
    ensures !a.maxMessages.NoneValue? && !IsInt(a.maxMessages) ==> r == Err(TypeError("max_messages must be of type int"))
    ensures (a.maxMessages.NoneValue? || IsInt(a.maxMessages)) && a.oldest.DateValue? && a.oldest.aware ==> r == Err(NotNaive)
    ensures ((a.maxMessages.NoneValue? || IsInt(a.maxMessages)) && a.oldest.DateValue? && a.latest.DateValue?
             && !a.oldest.aware && !a.latest.aware
             && a.oldest.t > a.latest.t) ==> r == Err(RuntimeError("ERROR: oldest has to be before latest"))
    ensures r.Ok? <==>
      && (a.maxMessages.NoneValue? || IsInt(a.maxMessages))
      && (a.oldest.NoneValue? || (a.oldest.DateValue? && !a.oldest.aware))
      && (a.latest.NoneValue? || (a.latest.DateValue? && !a.latest.aware))
      && (a.oldest.DateValue? && a.latest.DateValue? ==> a.oldest.t <= a.latest.t)
      && a.channelInputs.ListValue?
      && (a.destPath.NoneValue? || (a.destPath.StrValue? && isDir(a.destPath.s)))
      && a.pageOrientation.StrValue? && a.pageFormat.StrValue?
      && (a.writeRawData.NoneValue? || a.writeRawData.BoolValue?)
    ensures r.Ok? ==> r.value.maxMessages == (if a.maxMessages.NoneValue? then defaultMax else AsInt(a.maxMessages))
    ensures r.Ok? ==> r.value.oldest.Some? && r.value.latest.Some? ==> r.value.oldest.value <= r.value.latest.value
    ensures r.Ok? ==> a.channelInputs == ListValue(r.value.channels)
    ensures r.Ok? ==> (a.destPath.NoneValue? && r.value.dest == here) || (a.destPath == StrValue(r.value.dest) && isDir(r.value.dest))
    ensures r.Ok? ==> r.value.oldest == DateOf(a.oldest) && r.value.latest == DateOf(a.latest)
  {
    if !a.maxMessages.NoneValue? && !IsInt(a.maxMessages) then Err(TypeError("max_messages must be of type int"))
    else if !a.oldest.NoneValue? && !a.oldest.DateValue? then Err(TypeError("oldest must be a datetime"))
    else if a.oldest.DateValue? && a.oldest.aware then Err(NotNaive)
    else if !a.latest.NoneValue? && !a.latest.DateValue? then Err(TypeError("latest must be a datetime"))
    else if a.latest.DateValue? && a.latest.aware then Err(NotNaive)
    else if a.oldest.DateValue? && a.latest.DateValue? && a.oldest.t > a.latest.t then
      Err(RuntimeError("ERROR: oldest has to be before latest"))
    else if !a.channelInputs.ListValue? then Err(TypeError("channel_inputs must be of type list"))
    else if !a.destPath.NoneValue? && !a.destPath.StrValue? then Err(TypeError("dest_path must be of type str"))
    else if a.destPath.StrValue? && !isDir(a.destPath.s) then
      Err(RuntimeError("ERROR: give destination path does not exist: " + a.destPath.s))
    else if !a.pageOrientation.StrValue? then Err(TypeError("page_orientation must be of type str"))
    else if !a.pageFormat.StrValue? then Err(TypeError("page_format must be of type str"))
    else if !a.writeRawData.NoneValue? && !a.writeRawData.BoolValue? then Err(TypeError("write_raw_data must be of type bool"))
    else
      var maxMessages := if a.maxMessages.NoneValue? then defaultMax else AsInt(a.maxMessages);
      var dest := if a.destPath.StrValue? then a.destPath.s else here;
      Ok(Checked(a.channelInputs.items, dest, DateOf(a.oldest), DateOf(a.latest), maxMessages))
  }

  // ---------------------------------------------------------------- channel resolution

  /** One entry of the channel table, `channel_names()` in its insertion order. */
  datatype Channel = Channel(id: string, name: string)

  predicate HasId(table: seq<Channel>, id: string) {
    exists k :: 0 <= k < |table| && table[k].id == id
  }

  predicate HasName(table: seq<Channel>, name: string) {
    exists k :: 0 <= k < |table| && table[k].name == name
  }

  /** The id the flipped dictionary `{v: k for k, v in ...}` maps `name` to: the last entry with that name. */
  function IdByName(table: seq<Channel>, name: string): (r: Option<string>)
    ensures r.Some? <==> HasName(table, name)
    ensures r.Some? ==> exists k :: (0 <= k < |table| && table[k].name == name && table[k].id == r.value
      && forall j :: k < j < |table| ==> table[j].name != name)
  {
    if table == [] then None
    else
      var init, last := table[..|table| - 1], table[|table| - 1];
      assert forall k :: 0 <= k < |init| ==> table[k] == init[k];
      if last.name == name then Some(last.id) else IdByName(init, name)
  }

  /** The name the table holds for `id`: the last entry with that id. */
  function NameOf(table: seq<Channel>, id: string): (r: string)
    requires HasId(table, id)
    ensures exists k :: (0 <= k < |table| && table[k].id == id && table[k].name == r
      && forall j :: k < j < |table| ==> table[j].id != id)
  {
    var init, last := table[..|table| - 1], table[|table| - 1];
    assert forall k :: 0 <= k < |init| ==> table[k] == init[k];
    if last.id == id then last.name
    else
      assert HasId(init, id);
      NameOf(init, id)
  }

  /**
   * A channel input names a channel by id in any case, or else by name in any case.
   * `None` is an unknown channel, which `run` skips.
   */
  function ResolveChannel(input: string, table: seq<Channel>): (r: Option<string>)
    ensures r.Some? ==> HasId(table, r.value)
    ensures HasId(table, Upper(input)) ==> r == Some(Upper(input))
    ensures !HasId(table, Upper(input)) && r.Some? ==>
      exists k :: 0 <= k < |table| && table[k].name == Lower(input) && table[k].id == r.value
    ensures r.None? <==> !HasId(table, Upper(input)) && !HasName(table, Lower(input))
  {
    if HasId(table, Upper(input)) then Some(Upper(input)) else IdByName(table, Lower(input))
  }

  lemma {:induction false} UpperOfLower(s: string)
    ensures Upper(Lower(s)) == Upper(s)
  {
    assert forall k :: 0 <= k < |s| ==> UpperChar(LowerChar(s[k])) == UpperChar(s[k]);
  }

  lemma {:induction false} LowerOfLower(s: string)
    ensures Lower(Lower(s)) == Lower(s)
  {
    assert forall k :: 0 <= k < |s| ==> LowerChar(LowerChar(s[k])) == LowerChar(s[k]);
  }

  lemma {:induction false} LowerOfUpper(s: string)
    ensures Lower(Upper(s)) == Lower(s)
  {
    assert forall k :: 0 <= k < |s| ==> LowerChar(UpperChar(s[k])) == LowerChar(s[k]);
  }

  /** Resolution ignores the case of the input. */
  lemma {:induction false} ResolveIgnoresCase(input: string, table: seq<Channel>)
    ensures ResolveChannel(Lower(input), table) == ResolveChannel(input, table)
    ensures ResolveChannel(Upper(input), table) == ResolveChannel(input, table)
  {
    UpperOfLower(input);
    LowerOfLower(input);
    UpperIdempotent(input);
    LowerOfUpper(input);
  }

  // ---------------------------------------------------------------- file names

  /** The characters of `[\w\-_\.]`. */
  predicate SafeChar(c: char) {
    IsWordChar(c) || c == '-' || c == '.'
  }

  /** `re.sub(r"[^\w\-_\.]", "_", name)`. */
  function Sanitize(name: string): (r: string)
    ensures |r| == |name|
    ensures forall k :: 0 <= k < |r| ==> SafeChar(r[k])
    ensures forall k :: 0 <= k < |name| && SafeChar(name[k]) ==> r[k] == name[k]
    ensures forall k :: 0 <= k < |name| && !SafeChar(name[k]) ==> r[k] == '_'
  {
    if name == [] then []
    else [if SafeChar(name[0]) then name[0] else '_'] + Sanitize(name[1..])
  }

  /** A sanitised name is left as it is by a second sanitisation. */
  lemma {:induction false} SanitizeIdempotent(name: string)
    ensures Sanitize(Sanitize(name)) == Sanitize(name)
  {
  }

  /** `os.path.join(dir, name)` for a relative `name`. */
  function PathJoin(dir: string, name: string): (r: string)
    requires name == [] || name[0] != '/'
    ensures |r| == |dir| + |name| || (|r| == |dir| + 1 + |name| && r[|dir|] == '/')
    ensures r[|r| - |name|..] == name
    ensures r[..|dir|] == dir
  {
    if dir == [] || dir[|dir| - 1] == '/' then dir + name else dir + "/" + name
  }

  /** The file name base of one channel: `<dest>/<sanitised team>_<channel name>`. */
  function ChannelBase(dest: string, team: string, channel: string): (r: string)
    ensures |r| >= |dest| + |team| + 1 + |channel|
    ensures r[..|dest|] == dest
    ensures r[|r| - |Sanitize(team) + "_" + channel|..] == Sanitize(team) + "_" + channel
  {
    var base := Sanitize(team);
    assert base == [] || base[0] != '/' by {
      if base != [] { assert SafeChar(base[0]); }
    }
    PathJoin(dest, base) + "_" + channel
  }

  /** One channel `run` exports. */
  datatype Job = Job(id: string, name: string, base: string)

  /** The channels `run` exports, in input order; unknown inputs are skipped. */
  function Plan(inputs: seq<string>, table: seq<Channel>, dest: string, team: string): (jobs: seq<Job>)
    ensures |jobs| <= |inputs|
    ensures forall j :: 0 <= j < |jobs| ==> JobOf(table, dest, team, jobs[j])
    ensures (forall k :: 0 <= k < |inputs| ==> ResolveChannel(inputs[k], table).Some?) ==> |jobs| == |inputs|
  {
    if inputs == [] then []
    else
      var rest := Plan(inputs[1..], table, dest, team);
      assert forall k :: 1 <= k < |inputs| ==> inputs[1..][k - 1] == inputs[k];
      match ResolveChannel(inputs[0], table)
      case None => rest
      case Some(id) =>
        var name := NameOf(table, id);
        var job := Job(id, name, ChannelBase(dest, team, name));
        assert JobOf(table, dest, team, job);
        [job] + rest
  }

  /** A job for a known channel, with the name the table holds for it and its file base. */
  predicate JobOf(table: seq<Channel>, dest: string, team: string, job: Job) {
    HasId(table, job.id) && job.name == NameOf(table, job.id) && job.base == ChannelBase(dest, team, job.name)
  }

  /** Every known input yields its job, in order. */
  lemma {:induction false} PlanIds(inputs: seq<string>, table: seq<Channel>, dest: string, team: string)
    ensures |Plan(inputs, table, dest, team)| == |Resolved(inputs, table)|
    ensures forall j :: 0 <= j < |Resolved(inputs, table)| ==> Plan(inputs, table, dest, team)[j].id == Resolved(inputs, table)[j]
    decreases |inputs|
  {
    if inputs != [] {
      var tail := inputs[1..];
      PlanIds(tail, table, dest, team);
      var jobs, ids := Plan(tail, table, dest, team), Resolved(tail, table);
      match ResolveChannel(inputs[0], table)
      case None =>
        assert Plan(inputs, table, dest, team) == jobs;
        assert Resolved(inputs, table) == ids;
      case Some(id) =>
        var name := NameOf(table, id);
        assert Plan(inputs, table, dest, team) == [Job(id, name, ChannelBase(dest, team, name))] + jobs;
        assert Resolved(inputs, table) == [id] + ids;
    }
  }

  /** The ids of the known inputs, in order. */
  function Resolved(inputs: seq<string>, table: seq<Channel>): (ids: seq<string>)
    ensures forall j :: 0 <= j < |ids| ==> exists k :: 0 <= k < |inputs| && ResolveChannel(inputs[k], table) == Some(ids[j])
  {
    if inputs == [] then []
    else
      var rest := Resolved(inputs[1..], table);
      assert forall j :: 0 <= j < |rest| ==> exists k :: 1 <= k < |inputs| && ResolveChannel(inputs[k], table) == Some(rest[j]) by {
        forall j | 0 <= j < |rest|
          ensures exists k :: 1 <= k < |inputs| && ResolveChannel(inputs[k], table) == Some(rest[j])
        {
          var k :| 0 <= k < |inputs[1..]| && ResolveChannel(inputs[1..][k], table) == Some(rest[j]);
          assert inputs[1..][k] == inputs[k + 1];
        }
      }
      match ResolveChannel(inputs[0], table)
      case None => rest
      case Some(id) => [id] + rest
  }

  // ---------------------------------------------------------------- message count

  /** `len(messages)` plus, for every thread, its length less one. */
  function MessageCount(top: seq<Message>, threads: seq<seq<Message>>): (n: int)
    ensures threads == [] ==> n == |top|
  {
    if threads == [] then |top|
    else MessageCount(top, threads[..|threads| - 1]) + |threads[|threads| - 1]| - 1
  }

  /** The replies of the threads: every thread without its first message, the parent. */
  function Replies(threads: seq<seq<Message>>): seq<Message>
    requires forall t :: 0 <= t < |threads| ==> threads[t] != []
  {
    if threads == [] then []
    else Replies(threads[..|threads| - 1]) + threads[|threads| - 1][1..]
  }

  /**
   * Each thread holds its parent, which is also a top-level message, so the count
   * is the number of top-level messages and replies.
   */
  lemma {:induction false} MessageCountIsMessages(top: seq<Message>, threads: seq<seq<Message>>)
    requires forall t :: 0 <= t < |threads| ==> threads[t] != []
    ensures MessageCount(top, threads) == |top + Replies(threads)|
    decreases |threads|
  {
    if threads != [] {
      MessageCountIsMessages(top, threads[..|threads| - 1]);
    }
  }
}

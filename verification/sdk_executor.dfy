/** The SDK executor (src/executors/sdk.executor.ts): the options of one agent
    query, the fold over the messages the query yields (the progress lines it
    emits and the first `result` message, which ends the run), the
    classification of that result and of a stream that ends or throws without
    one, and the table of running queries that `cancel` consults.

    The query itself is outside the model: a run is described by the messages
    it yields, how the stream ends when no result arrives, whether the abort
    signal was raised (by the timer or by `cancel`) and the elapsed time. */
module SdkExecutor {
  import opened Wrappers
  import opened Json
  import opened Types
  import Strs
  import JsonParse
  import WorkspaceManager

  // ---------------------------------------------------------------------------
  // Query options
  // ---------------------------------------------------------------------------

  /** The instruction put in front of every prompt. */
  const Preamble: string := "IMPORTANT: Your working directory is the task workspace. When creating or saving any output files, save them in the current working directory (.) unless the user explicitly specifies an absolute path. This ensures artifacts are collected properly.\n\n"

  const DefaultPermissionMode: string := "bypassPermissions"

  /** The options handed to the query; the abort controller is implicit. */
  datatype QueryOptions = QueryOptions(
    prompt: string,
    cwd: string,
    env: map<string, string>,
    model: Option<string>,
    permissionMode: string,
    allowDangerouslySkipPermissions: bool,
    mcpServers: Option<seq<Member>>,
    outputSchema: Option<Json>)

  /** `params.permissionMode || 'bypassPermissions'`. */
  function PermissionModeOf(p: ExecuteParams): (m: string)
    ensures p.permissionMode.Some? && p.permissionMode.value != "" ==> m == p.permissionMode.value
    ensures p.permissionMode.None? || p.permissionMode.value == "" ==> m == DefaultPermissionMode
    ensures m != ""
  {
    if p.permissionMode.Some? && p.permissionMode.value != "" then p.permissionMode.value
    else DefaultPermissionMode
  }

  /** The child environment: the server's own environment with the API key
      overridden and `CLAUDECODE` removed. */
  function QueryEnv(processEnv: map<string, string>, apiKey: string): (env: map<string, string>)
    ensures "ANTHROPIC_API_KEY" in env && env["ANTHROPIC_API_KEY"] == apiKey
    ensures "CLAUDECODE" !in env
    ensures forall k :: k != "ANTHROPIC_API_KEY" && k != "CLAUDECODE" ==>
      (k in env <==> k in processEnv)
    ensures forall k :: k in env && k != "ANTHROPIC_API_KEY" ==> k in processEnv && env[k] == processEnv[k]
  {
    (processEnv - {"CLAUDECODE"})["ANTHROPIC_API_KEY" := apiKey]
  }

  /** The options of the query for `p`. `servers` stands for
      `params.mcpServers`, a field the executor reads although the parameter
      interface does not declare it. */
  function Options(p: ExecuteParams, servers: Option<seq<McpServerConfig>>, processEnv: map<string, string>): (o: QueryOptions)
    ensures |o.prompt| == |Preamble| + |p.prompt|
    ensures o.prompt[..|Preamble|] == Preamble && o.prompt[|Preamble|..] == p.prompt
    ensures o.cwd == p.workspacePath && o.model == p.model && o.outputSchema == p.schema
    ensures o.env == QueryEnv(processEnv, p.apiKey)
    ensures o.permissionMode == PermissionModeOf(p)
    ensures o.allowDangerouslySkipPermissions <==> o.permissionMode == DefaultPermissionMode
    ensures o.mcpServers.None? <==> servers.None? || |servers.value| == 0
    ensures o.mcpServers.Some? ==> DistinctKeys(o.mcpServers.value)
    ensures o.mcpServers.Some? ==> forall name :: (Lookup(o.mcpServers.value, name) ==
      match WorkspaceManager.LastNamed(servers.value, name)
      case None => None
      case Some(s) => Some(WorkspaceManager.ServerEntry(s)))
  {
    var mode := PermissionModeOf(p);
    var record := if servers.Some? then WorkspaceManager.ServerMap(servers.value) else [];
    ServerMapNonEmpty(servers);
    QueryOptions(
      Preamble + p.prompt,
      p.workspacePath,
      QueryEnv(processEnv, p.apiKey),
      p.model,
      mode,
      mode == DefaultPermissionMode,
      if |record| > 0 then Some(record) else None,
      p.schema)
  }

  /** The record built from a non-empty server list has at least one key. */
  lemma {:induction false} ServerMapNonEmpty(servers: Option<seq<McpServerConfig>>)
    ensures servers.Some? ==> (|WorkspaceManager.ServerMap(servers.value)| > 0 <==> |servers.value| > 0)
  {
    if servers.Some? && |servers.value| > 0 {
      var s := servers.value;
      var ms := WorkspaceManager.ServerMap(s);
      assert WorkspaceManager.LastNamed(s, s[0].name).Some?;
      assert Lookup(ms, s[0].name).Some?;
    }
  }

  // ---------------------------------------------------------------------------
  // Messages
  // ---------------------------------------------------------------------------

  /** One content block of an assistant message, reduced to the fields the
      executor looks at; `None` is a missing field. */
  datatype Block = Block(text: Option<string>, name: Option<string>, input: Option<Json>)

  /** A `result` message. The cost is in ten-thousandths of a dollar;
      `errors` is absent on messages that carry no such field. */
  datatype ResultInfo = ResultInfo(
    subtype: string,
    structuredOutput: Option<Json>,
    text: string,
    cost: nat,
    errors: Option<seq<string>>)

  /** The messages a query yields. `Other` is every message the loop ignores
      (system messages other than `init`, user messages, stream events). An
      assistant message without content is `Assistant(None)`. */
  datatype Message =
    | Init(sessionId: string, model: Option<string>)
    | Assistant(content: Option<seq<Block>>)
    | ResultMsg(info: ResultInfo)
    | Other

  /** `a || b` on optional strings: the first present, non-empty one. */
  function OrElse(a: Option<string>, b: string): (r: string)
    ensures a.Some? && a.value != "" ==> r == a.value
    ensures a.None? || a.value == "" ==> r == b
  {
    if a.Some? && a.value != "" then a.value else b
  }

  /** The model an `init` message reports: its own, else the requested one,
      else `unknown`. */
  function SessionModel(m: Option<string>, p: ExecuteParams): (r: string)
    ensures m.Some? && m.value != "" ==> r == m.value
    ensures (m.None? || m.value == "") && p.model.Some? && p.model.value != "" ==> r == p.model.value
    ensures (m.None? || m.value == "") && (p.model.None? || p.model.value == "") ==> r == "unknown"
  {
    OrElse(m, OrElse(p.model, "unknown"))
  }

  /** The line an `init` message emits, with the session id cut to eight
      characters. */
  function InitLine(sessionId: string, model: string): (line: string)
    ensures exists short :: (short <= sessionId &&
      |short| == (if |sessionId| < 8 then |sessionId| else 8) &&
      line == "[system] Session " + short + " started (model: " + model + ")\n")
  {
    var short := Strs.Take(sessionId, 8);
    "[system] Session " + short + " started (model: " + model + ")\n"
  }

  /** The line a tool-use block emits: the tool name and at most the first
      200 characters of its JSON input (empty when there is no input). */
  function ToolLine(name: string, input: Option<Json>): (line: string)
    ensures exists arg :: (|arg| <= 200 &&
      (input.None? ==> arg == "") &&
      (input.Some? ==> arg <= Stringify(input.value) && (|Stringify(input.value)| <= 200 ==> arg == Stringify(input.value))) &&
      line == "[tool] " + name + "(" + arg + ")\n")
  {
    var full := if input.Some? then Stringify(input.value) else "";
    var arg := Strs.Take(full, 200);
    "[tool] " + name + "(" + arg + ")\n"
  }

  /** The lines one content block emits: a non-empty text wins over a tool
      name; a block with neither emits nothing. */
  function BlockLines(b: Block): (ls: seq<string>)
    ensures |ls| <= 1
    ensures |ls| == 1 <==> (b.text.Some? && b.text.value != "") || b.name.Some?
  {
    if b.text.Some? && b.text.value != "" then ["[assistant] " + b.text.value + "\n"]
    else if b.name.Some? then [ToolLine(b.name.value, b.input)]
    else []
  }

  function BlocksLines(bs: seq<Block>): (ls: seq<string>)
    ensures |ls| <= |bs|
    decreases |bs|
  {
    if |bs| == 0 then [] else BlockLines(bs[0]) + BlocksLines(bs[1..])
  }

  /** The lines a message other than `result` emits. */
  function MessageLines(p: ExecuteParams, m: Message): seq<string> {
    match m
    case Init(id, model) => [InitLine(id, SessionModel(model, p))]
    case Assistant(content) => if content.Some? then BlocksLines(content.value) else []
    case ResultMsg(_) => []
    case Other => []
  }

  /** The lines a sequence of messages emits, message by message. */
  function Transcript(p: ExecuteParams, ms: seq<Message>): seq<string>
    decreases |ms|
  {
    if |ms| == 0 then [] else MessageLines(p, ms[0]) + Transcript(p, ms[1..])
  }

  lemma {:induction false} TranscriptAppend(p: ExecuteParams, a: seq<Message>, b: seq<Message>)
    ensures Transcript(p, a + b) == Transcript(p, a) + Transcript(p, b)
    decreases |a|
  {
    if |a| == 0 {
      assert a + b == b;
    } else {
      assert (a + b)[1..] == a[1..] + b;
      TranscriptAppend(p, a[1..], b);
    }
  }

  predicate IsResult(m: Message) {
    m.ResultMsg?
  }

  /** What the `for await` loop has consumed: the lines emitted, the result
      message that ended it (if any), and how many messages were read. */
  datatype Consumed = Consumed(lines: seq<string>, result: Option<ResultInfo>, used: nat)

  /** The loop over the stream: it reads messages up to and including the
      first `result` and returns there. */
  function Consume(p: ExecuteParams, ms: seq<Message>): (c: Consumed)
    ensures c.used <= |ms|
    ensures c.lines == Transcript(p, ms[..c.used])
    ensures c.result.Some? ==> 0 < c.used && ms[c.used - 1] == ResultMsg(c.result.value)
    ensures c.result.Some? ==> forall j :: 0 <= j < c.used - 1 ==> !IsResult(ms[j])
    ensures c.result.None? <==> forall j :: 0 <= j < |ms| ==> !IsResult(ms[j])
    ensures c.result.None? ==> c.used == |ms|
    decreases |ms|
  {
    if |ms| == 0 then Consumed([], None, 0)
    else if ms[0].ResultMsg? then
      assert ms[..1][1..] == [];
      Consumed([], Some(ms[0].info), 1)
    else
      var rest := Consume(p, ms[1..]);
      assert ms[..rest.used + 1][1..] == ms[1..][..rest.used];
      assert forall j :: 1 <= j < |ms| ==> ms[j] == ms[1..][j - 1];
      Consumed(MessageLines(p, ms[0]) + rest.lines, rest.result, rest.used + 1)
  }

  /** Messages after the first result are never read: appending to a stream
      that already holds a result changes nothing. */
  lemma {:induction false} ConsumeIgnoresLater(p: ExecuteParams, ms: seq<Message>, later: seq<Message>)
    requires exists j :: 0 <= j < |ms| && IsResult(ms[j])
    ensures Consume(p, ms + later) == Consume(p, ms)
    decreases |ms|
  {
    if !ms[0].ResultMsg? {
      var j :| 0 <= j < |ms| && IsResult(ms[j]);
      assert j > 0 && ms[1..][j - 1] == ms[j];
      assert (ms + later)[1..] == ms[1..] + later;
      ConsumeIgnoresLater(p, ms[1..], later);
    }
  }

  /** The lines emitted before a result are exactly the transcript of the
      messages before it, and the result is the one that ends the loop. */
  lemma {:induction false} ConsumeUpToResult(p: ExecuteParams, before: seq<Message>, r: ResultInfo, after: seq<Message>)
    requires forall j :: 0 <= j < |before| ==> !IsResult(before[j])
    ensures Consume(p, before + [ResultMsg(r)] + after).result == Some(r)
    ensures Consume(p, before + [ResultMsg(r)] + after).lines == Transcript(p, before)
  {
    var ms := before + [ResultMsg(r)] + after;
    var c := Consume(p, ms);
    assert ms[|before|] == ResultMsg(r);
    assert forall j :: 0 <= j < |before| ==> ms[j] == before[j];
    assert c.used == |before| + 1;
    assert ms[..c.used] == before + [ResultMsg(r)];
    TranscriptAppend(p, before, [ResultMsg(r)]);
    assert Transcript(p, [ResultMsg(r)]) == [] by {
      assert [ResultMsg(r)][1..] == [];
    }
  }

  // ---------------------------------------------------------------------------
  // Classification
  // ---------------------------------------------------------------------------

  /** The data of a successful result: the structured output when there is
      one, else the result text parsed as JSON, else the text itself. */
  function ResultData(r: ResultInfo): (d: Json)
    ensures r.structuredOutput.Some? ==> d == r.structuredOutput.value
    ensures r.structuredOutput.None? && JsonParse.Parse(r.text).Some? ==> d == JsonParse.Parse(r.text).value
    ensures r.structuredOutput.None? && JsonParse.Parse(r.text).None? ==> d == JStr(r.text)
  {
    match r.structuredOutput
    case Some(j) => j
    case None =>
      match JsonParse.Parse(r.text)
      case Some(j) => j
      case None => JStr(r.text)
  }

  /** A result text that is itself a serialised value yields that value. */
  lemma {:induction false} ResultDataReadsBack(r: ResultInfo, j: Json)
    requires r.structuredOutput.None? && r.text == Stringify(j)
    ensures ResultData(r) == j
  {
    JsonParse.ParseStringify(j);
  }

  /** The message of a failed result: its errors joined by `; `, or
      `SDK error: <subtype>` when that join is empty. */
  function ErrorText(r: ResultInfo): (t: string)
    ensures t != ""
    ensures Strs.Join(r.errors.GetOr([]), "; ") != "" ==> t == Strs.Join(r.errors.GetOr([]), "; ")
    ensures Strs.Join(r.errors.GetOr([]), "; ") == "" ==> t == "SDK error: " + r.subtype
  {
    var joined := Strs.Join(r.errors.GetOr([]), "; ");
    if joined != "" then joined else "SDK error: " + r.subtype
  }

  /** A single non-empty error is reported verbatim; no errors at all give
      the fallback message. */
  lemma {:induction false} ErrorTextCases(r: ResultInfo)
    ensures r.errors == Some([]) || r.errors.None? ==> ErrorText(r) == "SDK error: " + r.subtype
    ensures forall e :: r.errors == Some([e]) && e != "" ==> ErrorText(r) == e
  {
  }

  /** `Math.round(ms / 1000)`: the nearest whole number of seconds, halves
      rounding up. */
  function RoundedSeconds(ms: int): (s: int)
    ensures 1000 * s - 500 <= ms < 1000 * s + 500
  {
    (ms + 500) / 1000
  }

  /** The four decimals of a fraction in ten-thousandths, zero-padded. */
  function Frac4(n: nat): (f: string)
    requires n < 10000
    ensures |f| == 4
    ensures forall i :: 0 <= i < 4 ==> Strs.IsDigit(f[i])
    ensures Strs.DigitsValue(f) == n
  {
    var d1 := [Strs.DigitChar(n / 1000)];
    var d2 := d1 + [Strs.DigitChar(n / 100 % 10)];
    var d3 := d2 + [Strs.DigitChar(n / 10 % 10)];
    var d4 := d3 + [Strs.DigitChar(n % 10)];
    Strs.DigitCharVal(n / 1000);
    Strs.DigitCharVal(n / 100 % 10);
    Strs.DigitCharVal(n / 10 % 10);
    Strs.DigitCharVal(n % 10);
    assert d1[..0] == [];
    assert d2[..1] == d1;
    assert d3[..2] == d2;
    assert d4[..3] == d3;
    assert Strs.DigitsValue(d1) == n / 1000;
    assert Strs.DigitsValue(d2) == n / 100;
    assert Strs.DigitsValue(d3) == n / 10;
    d4
  }

  /** A cost in ten-thousandths printed with four decimals (`toFixed(4)`):
      the whole dollars, a dot, and four digits that together give back the
      cost. */
  function FixedFour(c: nat): (t: string)
    ensures |t| >= 6 && t[|t| - 5] == '.'
    ensures forall i :: 0 <= i < |t| && i != |t| - 5 ==> Strs.IsDigit(t[i])
    ensures Strs.DigitsValue(t[..|t| - 5]) * 10000 + Strs.DigitsValue(t[|t| - 4..]) == c
  {
    var whole := Strs.NatToString(c / 10000);
    var frac := Frac4(c % 10000);
    var t := whole + "." + frac;
    Strs.DigitsValueOfNatToString(c / 10000);
    assert t[..|t| - 5] == whole;
    assert t[|t| - 4..] == frac;
    t
  }

  /** The truthiness test `params.timeout && duration >= params.timeout - 1000`. */
  predicate IsTimeout(timeout: Option<int>, duration: int) {
    timeout.Some? && timeout.value != 0 && duration >= timeout.value - 1000
  }

  function TimeoutMessage(duration: int): string {
    "Task timed out after " + Strs.IntToString(RoundedSeconds(duration)) + "s"
  }

  /** How a stream without a result message ends. */
  datatype StreamEnd = Ended | Threw(message: string)

  /** What the outside world does during one query. `aborted` says whether
      the abort signal had been raised (by the timer or by `cancel`) when the
      stream failed; `duration` is the elapsed milliseconds at the end. */
  datatype Run = Run(messages: seq<Message>, end: StreamEnd, aborted: bool, duration: nat)

  /** The lines passed to the output callback, then the returned result. */
  datatype Outcome = Outcome(output: seq<string>, result: ExecutorResult)

  /** The outcome of a result message. */
  function FromResult(r: ResultInfo, duration: nat): (o: (string, ExecutorResult))
    ensures r.subtype == "success" ==> o.1.success && o.1.error.None?
    ensures r.subtype == "success" ==> o.1.data == Some(ResultData(r)) && o.1.valid == Some(true)
    ensures r.subtype != "success" ==> !o.1.success && o.1.data.None?
    ensures r.subtype != "success" ==>
      o.1.error == Some(ErrorInfo(Strs.ToUpper(r.subtype), ErrorText(r))) && o.1.logs == ErrorText(r)
    ensures o.1.cost == Some(r.cost) && o.1.duration == duration && o.1.artifacts == []
  {
    if r.subtype == "success" then
      ("[result] Task completed (cost: $" + FixedFour(r.cost) + ", duration: " + Strs.NatToString(duration) + "ms)\n",
       ExecutorResult(true, Some(ResultData(r)), Some(true), "", [], duration, Some(r.cost), None))
    else
      var msg := ErrorText(r);
      ("[error] " + msg + "\n",
       ExecutorResult(false, None, None, msg, [], duration, Some(r.cost), Some(ErrorInfo(Strs.ToUpper(r.subtype), msg))))
  }

  /** The outcome of a stream that failed after the abort signal: a timeout
      when a timeout was set and the run lasted at least one second less than
      it, a cancellation otherwise. */
  function FromAbort(timeout: Option<int>, duration: nat): (r: ExecutorResult)
    ensures !r.success && r.error.Some? && r.duration == duration
    ensures r.error.value.code == "TIMEOUT" <==> IsTimeout(timeout, duration)
    ensures r.error.value.code == "TIMEOUT" ==> r.logs == TimeoutMessage(duration) && r.error.value.message == r.logs
    ensures r.error.value.code != "TIMEOUT" ==> r.error == Some(ErrorInfo("CANCELLED", "Task was cancelled")) && r.logs == "Task cancelled"
  {
    if IsTimeout(timeout, duration) then
      var msg := TimeoutMessage(duration);
      Failure("TIMEOUT", msg, msg, duration)
    else Failure("CANCELLED", "Task was cancelled", "Task cancelled", duration)
  }

  /** One `execute` call. */
  function Execute(p: ExecuteParams, run: Run): (o: Outcome)
    ensures var c := Consume(p, run.messages);
      |o.output| >= |c.lines| && o.output[..|c.lines|] == c.lines
    ensures var c := Consume(p, run.messages);
      c.result.Some? ==> o.result == FromResult(c.result.value, run.duration).1 && o.output == c.lines + [FromResult(c.result.value, run.duration).0]
    ensures var c := Consume(p, run.messages);
      c.result.None? && run.end == Ended ==>
        o.output == c.lines &&
        o.result == Failure("NO_RESULT", "SDK query ended without result message", "SDK query ended without result", run.duration)
    ensures var c := Consume(p, run.messages);
      c.result.None? && run.end.Threw? && run.aborted ==> o.result == FromAbort(p.timeout, run.duration)
    ensures var c := Consume(p, run.messages);
      c.result.None? && run.end.Threw? && !run.aborted ==>
        o.result == Failure("SDK_ERROR", run.end.message, run.end.message, run.duration)
    ensures var c := Consume(p, run.messages);
      !o.result.success && (c.result.Some? || run.end.Threw?) ==>
        |o.output| == |c.lines| + 1 && o.output[|c.lines|] == "[error] " + o.result.logs + "\n"
  {
    var c := Consume(p, run.messages);
    match c.result
    case Some(r) =>
      var out := FromResult(r, run.duration);
      Outcome(c.lines + [out.0], out.1)
    case None =>
      match run.end
      case Ended =>
        Outcome(c.lines, Failure("NO_RESULT", "SDK query ended without result message", "SDK query ended without result", run.duration))
      case Threw(e) =>
        if run.aborted then
          var r := FromAbort(p.timeout, run.duration);
          Outcome(c.lines + ["[error] " + r.logs + "\n"], r)
        else
          Outcome(c.lines + ["[error] " + e + "\n"], Failure("SDK_ERROR", e, e, run.duration))
  }

  /** The cut-off is not a measurement of what raised the abort: a `cancel`
      that lands within the last second before the timeout (or after it) is
      reported as a timeout, and without a timeout every abort is a
      cancellation. */
  lemma {:induction false} AbortHeuristic(p: ExecuteParams, msgs: seq<Message>, e: string, duration: nat)
    requires forall j :: 0 <= j < |msgs| ==> !IsResult(msgs[j])
    ensures p.timeout.Some? && p.timeout.value > 0 && duration >= p.timeout.value - 1000 ==>
      Execute(p, Run(msgs, Threw(e), true, duration)).result.error.value.code == "TIMEOUT"
    ensures p.timeout.None? || p.timeout.value == 0 ==>
      Execute(p, Run(msgs, Threw(e), true, duration)).result.error.value.code == "CANCELLED"
  {
  }

  // ---------------------------------------------------------------------------
  // Tracking and cancel
  // ---------------------------------------------------------------------------

  /** `cancel(taskId)` over the ids of the running queries: a tracked id has
      its query aborted (the flag) and is untracked; any other id is left
      alone. */
  function Cancel(running: set<string>, taskId: string): (r: (set<string>, bool))
    ensures r.1 <==> taskId in running
    ensures taskId !in r.0
    ensures forall id :: id != taskId ==> (id in r.0 <==> id in running)
  {
    if taskId in running then (running - {taskId}, true) else (running, false)
  }

  /** `execute` registers the task on entry and unregisters it on every exit
      path, whatever the outcome. */
  function ExecuteTracked(running: set<string>, p: ExecuteParams, run: Run): (r: (set<string>, Outcome))
    ensures r.1 == Execute(p, run)
    ensures p.taskId !in r.0
    ensures forall id :: id != p.taskId ==> (id in r.0 <==> id in running)
  {
    var during := running + {p.taskId};
    (during - {p.taskId}, Execute(p, run))
  }

  /** While a query runs, `cancel` aborts it; once `execute` has returned,
      `cancel` of the same id does nothing. */
  lemma {:induction false} CancelWhileRunning(running: set<string>, p: ExecuteParams, run: Run)
    ensures Cancel(running + {p.taskId}, p.taskId).1
    ensures var after := ExecuteTracked(running, p, run).0;
      Cancel(after, p.taskId) == (after, false)
  {
  }
}

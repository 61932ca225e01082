/** The container executor (src/executors/container.executor.ts): the
    environment and mounts of the runner container, the classification of how
    the container ended, and the table of running containers that `cancel`
    consults.

    Docker is outside the model: a run is described by its end, either an
    exception from one of the Docker calls or the exit status with the
    captured logs and the text of `result.json` (if it could be read). */
module ContainerExecutor {
  import opened Wrappers
  import opened Json
  import opened Types
  import Strs
  import JsonParse

  const RunnerImage: string := "claude-swarm-runner:latest"
  const WorkDir: string := "/workspace"

  // ---------------------------------------------------------------------------
  // Container environment
  // ---------------------------------------------------------------------------

  /** The position of each variable the executor may set; `0` for others. */
  function Rank(name: string): nat {
    if name == "ANTHROPIC_API_KEY" then 1
    else if name == "TASK_PROMPT" then 2
    else if name == "TASK_SCHEMA" then 3
    else if name == "CLAUDE_MODEL" then 4
    else if name == "TASK_TIMEOUT" then 5
    else 0
  }

  /** The value of the first variable with the given name. */
  function ValueOf(env: seq<EnvVar>, name: string): (r: Option<string>)
    ensures r.None? <==> forall i :: 0 <= i < |env| ==> env[i].name != name
    decreases |env|
  {
    if |env| == 0 then None
    else if env[0].name == name then Some(env[0].value)
    else ValueOf(env[1..], name)
  }

  lemma {:induction false} RankValues()
    ensures Rank("ANTHROPIC_API_KEY") == 1 && Rank("TASK_PROMPT") == 2 && Rank("TASK_SCHEMA") == 3
    ensures Rank("CLAUDE_MODEL") == 4 && Rank("TASK_TIMEOUT") == 5
  {
  }

  /** Every variable has a known name, in strictly increasing rank. */
  predicate Ordered(env: seq<EnvVar>) {
    forall i, j :: 0 <= i < j < |env| ==> 0 < Rank(env[i].name) < Rank(env[j].name)
  }

  /** Every variable ranks below `r`. */
  predicate Below(env: seq<EnvVar>, r: nat) {
    forall i :: 0 <= i < |env| ==> 0 < Rank(env[i].name) < r
  }

  /** `if (cond) env.push(v)`. */
  function Push(env: seq<EnvVar>, cond: bool, v: EnvVar): (r: seq<EnvVar>)
    requires 0 < Rank(v.name) && Ordered(env) && Below(env, Rank(v.name))
    ensures Ordered(r) && Below(r, Rank(v.name) + 1)
    ensures |r| == |env| + (if cond then 1 else 0) && r[..|env|] == env
  {
    if cond then env + [v] else env
  }

  /** A push sets its own variable when the condition holds and leaves every
      other name's lookup alone. */
  lemma {:induction false} PushValues(env: seq<EnvVar>, cond: bool, v: EnvVar)
    requires 0 < Rank(v.name) && Ordered(env) && Below(env, Rank(v.name))
    ensures ValueOf(Push(env, cond, v), v.name) == if cond then Some(v.value) else None
    ensures forall name :: name != v.name ==> ValueOf(Push(env, cond, v), name) == ValueOf(env, name)
  {
    ValueOfSnoc(env, v);
    assert ValueOf(env, v.name).None?;
  }

  lemma {:induction false} ValueOfSnoc(env: seq<EnvVar>, v: EnvVar)
    ensures forall name :: name != v.name ==> ValueOf(env + [v], name) == ValueOf(env, name)
    ensures ValueOf(env, v.name).None? ==> ValueOf(env + [v], v.name) == Some(v.value)
    decreases |env|
  {
    if |env| > 0 {
      assert (env + [v])[1..] == env[1..] + [v];
      ValueOfSnoc(env[1..], v);
    } else {
      assert ([] + [v])[1..] == [];
    }
  }

  function SchemaVar(p: ExecuteParams): EnvVar {
    EnvVar("TASK_SCHEMA", if p.schema.Some? then Stringify(p.schema.value) else "")
  }

  function ModelVar(p: ExecuteParams): EnvVar {
    EnvVar("CLAUDE_MODEL", p.model.GetOr(""))
  }

  function TimeoutVar(p: ExecuteParams): EnvVar {
    EnvVar("TASK_TIMEOUT", Strs.IntToString(p.timeout.GetOr(0)))
  }

  /** The variables in the order they are pushed: the API key and the prompt,
      then the schema, the model and the timeout, each only when present
      (truthy). */
  function EnvOf(p: ExecuteParams): (env: seq<EnvVar>)
    ensures 2 <= |env| <= 5
    ensures env[0] == EnvVar("ANTHROPIC_API_KEY", p.apiKey) && env[1] == EnvVar("TASK_PROMPT", p.prompt)
    ensures Ordered(env)
  {
    var base := Base(p);
    BaseReady(p);
    var e1 := Push(base, p.schema.Some?, SchemaVar(p));
    var e2 := Push(e1, p.model.Some? && p.model.value != "", ModelVar(p));
    var e3 := Push(e2, p.timeout.Some? && p.timeout.value != 0, TimeoutVar(p));
    assert e3[..2] == base;
    e3
  }

  /** The two variables every run carries. */
  function Base(p: ExecuteParams): seq<EnvVar> {
    [EnvVar("ANTHROPIC_API_KEY", p.apiKey), EnvVar("TASK_PROMPT", p.prompt)]
  }

  lemma {:induction false} BaseReady(p: ExecuteParams)
    ensures Ordered(Base(p)) && Below(Base(p), 3)
    ensures Rank(SchemaVar(p).name) == 3 && Rank(ModelVar(p).name) == 4 && Rank(TimeoutVar(p).name) == 5
  {
    RankValues();
  }

  /** The optional variables carry the serialised schema, the model and the
      decimal timeout, and are present exactly when those are truthy. */
  lemma {:induction false} EnvOfValues(p: ExecuteParams)
    ensures ValueOf(EnvOf(p), "TASK_SCHEMA") == (if p.schema.Some? then Some(Stringify(p.schema.value)) else None)
    ensures ValueOf(EnvOf(p), "CLAUDE_MODEL") ==
      (if p.model.Some? && p.model.value != "" then Some(p.model.value) else None)
    ensures ValueOf(EnvOf(p), "TASK_TIMEOUT") ==
      (if p.timeout.Some? && p.timeout.value != 0 then Some(Strs.IntToString(p.timeout.value)) else None)
  {
    var base := Base(p);
    BaseReady(p);
    var e1 := Push(base, p.schema.Some?, SchemaVar(p));
    var e2 := Push(e1, p.model.Some? && p.model.value != "", ModelVar(p));
    var e3 := Push(e2, p.timeout.Some? && p.timeout.value != 0, TimeoutVar(p));
    PushValues(base, p.schema.Some?, SchemaVar(p));
    PushValues(e1, p.model.Some? && p.model.value != "", ModelVar(p));
    PushValues(e2, p.timeout.Some? && p.timeout.value != 0, TimeoutVar(p));
    assert e3 == EnvOf(p);
    assert "TASK_SCHEMA" != "CLAUDE_MODEL" && "TASK_SCHEMA" != "TASK_TIMEOUT" && "CLAUDE_MODEL" != "TASK_TIMEOUT";
    assert ValueOf(e3, "TASK_SCHEMA") == ValueOf(e2, "TASK_SCHEMA") == ValueOf(e1, "TASK_SCHEMA");
    assert ValueOf(e3, "CLAUDE_MODEL") == ValueOf(e2, "CLAUDE_MODEL");
  }

  /** `NAME=value`, as Docker takes each variable. */
  function EnvEntry(v: EnvVar): string {
    v.name + "=" + v.value
  }

  /** The container the executor creates for `p`. */
  datatype ContainerSpec = ContainerSpec(image: string, env: seq<string>, binds: seq<string>, workingDir: string)

  function Spec(p: ExecuteParams): (c: ContainerSpec)
    ensures c.image == RunnerImage && c.workingDir == WorkDir
    ensures c.binds == [p.workspacePath + ":" + WorkDir]
    ensures |c.env| == |EnvOf(p)| && forall i :: 0 <= i < |c.env| ==> c.env[i] == EnvEntry(EnvOf(p)[i])
  {
    var vars := EnvOf(p);
    ContainerSpec(RunnerImage, seq(|vars|, i requires 0 <= i < |vars| => EnvEntry(vars[i])), [p.workspacePath + ":" + WorkDir], WorkDir)
  }

  // ---------------------------------------------------------------------------
  // Classification
  // ---------------------------------------------------------------------------

  /** How a run ended. `Threw` covers a failure of any Docker call (create,
      start, wait, logs or remove); `Exited` carries the status code, the
      captured output and `result.json`'s text, `None` when it could not be
      read. */
  datatype ContainerEnd =
    | Threw(message: string)
    | Exited(status: int, logs: string, resultFile: Option<string>)

  /** The `{output: logs}` stand-in for a missing or unparseable result. */
  function OutputObject(logs: string): (j: Json)
    ensures Field(j, "output") == Some(JStr(logs))
  {
    JObj([Member("output", JStr(logs))])
  }

  /** One `execute` call, `duration` milliseconds long. */
  function Classify(end: ContainerEnd, duration: int): (r: ExecutorResult)
    ensures r.duration == duration && r.artifacts == [] && r.cost.None?
    ensures end.Threw? ==> r == Failure("CONTAINER_ERROR", end.message, end.message, duration)
    ensures end.Exited? ==> r.logs == end.logs
    ensures end.Exited? && end.status != 0 ==> !r.success && r.data.None?
    ensures end.Exited? && end.status != 0 ==>
      r.error == Some(ErrorInfo("CONTAINER_ERROR", "Container exited with code " + Strs.IntToString(end.status)))
    ensures end.Exited? && end.status == 0 ==> r.success && r.error.None? && r.data.Some? && r.valid.Some?
    ensures end.Exited? && end.status == 0 ==>
      (r.valid.value <==> end.resultFile.Some? && JsonParse.Parse(end.resultFile.value).Some?)
    ensures end.Exited? && end.status == 0 && r.valid.value ==> r.data.value == JsonParse.Parse(end.resultFile.value).value
    ensures end.Exited? && end.status == 0 && !r.valid.value ==> r.data.value == OutputObject(end.logs)
  {
    match end
    case Threw(msg) => Failure("CONTAINER_ERROR", msg, msg, duration)
    case Exited(status, logs, file) =>
      if status != 0 then
        ExecutorResult(false, None, None, logs, [], duration, None,
          Some(ErrorInfo("CONTAINER_ERROR", "Container exited with code " + Strs.IntToString(status))))
      else
        var parsed := if file.Some? then JsonParse.Parse(file.value) else None;
        match parsed
        case Some(j) => ExecutorResult(true, Some(j), Some(true), logs, [], duration, None, None)
        case None => ExecutorResult(true, Some(OutputObject(logs)), Some(false), logs, [], duration, None, None)
  }

  /** A runner that writes a serialised value to `result.json` hands back
      that very value, marked valid. */
  lemma {:induction false} ResultFileReadsBack(j: Json, logs: string, duration: int)
    ensures Classify(Exited(0, logs, Some(Stringify(j))), duration).data == Some(j)
    ensures Classify(Exited(0, logs, Some(Stringify(j))), duration).valid == Some(true)
  {
    JsonParse.ParseStringify(j);
  }

  /** The exit status alone decides success: every clean exit succeeds, even
      without a readable result, and every other status fails. */
  lemma {:induction false} SuccessIffCleanExit(status: int, logs: string, file: Option<string>, duration: int)
    ensures Classify(Exited(status, logs, file), duration).success <==> status == 0
  {
  }

  // ---------------------------------------------------------------------------
  // Tracking and cancel
  // ---------------------------------------------------------------------------

  /** `cancel(taskId)` over the ids of the running containers: a tracked id
      has its container stopped and removed (the flag; failures of those calls
      are swallowed) and is untracked; any other id is left alone. */
  function Cancel(running: set<string>, taskId: string): (r: (set<string>, bool))
    ensures r.1 <==> taskId in running
    ensures taskId !in r.0
    ensures forall id :: id != taskId ==> (id in r.0 <==> id in running)
  {
    if taskId in running then (running - {taskId}, true) else (running, false)
  }

  /** `execute` registers the container once it is created and unregisters
      it on every exit path. */
  function ExecuteTracked(running: set<string>, p: ExecuteParams, end: ContainerEnd, duration: int): (r: (set<string>, ExecutorResult))
    ensures r.1 == Classify(end, duration)
    ensures p.taskId !in r.0
    ensures forall id :: id != p.taskId ==> (id in r.0 <==> id in running)
  {
    var during := running + {p.taskId};
    (during - {p.taskId}, Classify(end, duration))
  }

  /** While the container runs, `cancel` stops it; after `execute` has
      returned, `cancel` of the same id does nothing. */
  lemma {:induction false} CancelWhileRunning(running: set<string>, p: ExecuteParams, end: ContainerEnd, duration: int)
    ensures Cancel(running + {p.taskId}, p.taskId).1
    ensures var after := ExecuteTracked(running, p, end, duration).0;
      Cancel(after, p.taskId) == (after, false)
  {
  }
}

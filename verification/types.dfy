/** The shared vocabulary of the task engine: task status and execution mode,
    MCP server configurations, executor parameters and results. */
module Types {
  import opened Wrappers
  import opened Json

  /** The persisted life-cycle status of a task. */
  datatype TaskStatus = Queued | Running | Completed | Failed | Cancelled

  function StatusName(s: TaskStatus): string {
    match s
    case Queued => "queued"
    case Running => "running"
    case Completed => "completed"
    case Failed => "failed"
    case Cancelled => "cancelled"
  }

  function ParseStatus(name: string): (r: Option<TaskStatus>)
    ensures r.Some? ==> StatusName(r.value) == name
  {
    if name == "queued" then Some(Queued)
    else if name == "running" then Some(Running)
    else if name == "completed" then Some(Completed)
    else if name == "failed" then Some(Failed)
    else if name == "cancelled" then Some(Cancelled)
    else None
  }

  lemma {:induction false} ParseStatusName(s: TaskStatus)
    ensures ParseStatus(StatusName(s)) == Some(s)
  {
  }

  /** The back-end a task asks for. */
  datatype ExecutionMode = Process | ContainerMode | Sdk

  function ModeName(m: ExecutionMode): string {
    match m
    case Process => "process"
    case ContainerMode => "container"
    case Sdk => "sdk"
  }

  /** One MCP server: a command with optional arguments and environment. The
      environment record is kept as its entries in insertion order. */
  datatype McpServerConfig = McpServerConfig(
    name: string,
    command: string,
    args: Option<seq<string>>,
    env: Option<seq<EnvVar>>)

  datatype EnvVar = EnvVar(name: string, value: string)

  /** An environment record as the JSON object of strings it serialises to. */
  function EnvJson(env: seq<EnvVar>): (j: Json)
    ensures j.JObj? && |j.members| == |env|
    ensures forall i :: 0 <= i < |env| ==> j.members[i] == Member(env[i].name, JStr(env[i].value))
  {
    JObj(seq(|env|, i requires 0 <= i < |env| => Member(env[i].name, JStr(env[i].value))))
  }

  /** The `{code, message}` pair carried by failures. */
  datatype ErrorInfo = ErrorInfo(code: string, message: string)

  /** What one execution attempt produces. Durations are milliseconds; the cost
      is kept in ten-thousandths of a dollar. */
  datatype ExecutorResult = ExecutorResult(
    success: bool,
    data: Option<Json>,
    valid: Option<bool>,
    logs: string,
    artifacts: seq<string>,
    duration: int,
    cost: Option<int>,
    error: Option<ErrorInfo>)

  /** The fully resolved parameters of one execution. The output callback is
      not a field: executors return the chunks they would emit. */
  datatype ExecuteParams = ExecuteParams(
    taskId: string,
    prompt: string,
    apiKey: string,
    workspacePath: string,
    schema: Option<Json>,
    timeout: Option<int>,
    model: Option<string>,
    permissionMode: Option<string>)

  /** A failed result with no data, as every executor builds on its error paths. */
  function Failure(code: string, message: string, logs: string, duration: int): (r: ExecutorResult)
    ensures !r.success && r.error == Some(ErrorInfo(code, message))
    ensures r.logs == logs && r.duration == duration && r.artifacts == []
  {
    ExecutorResult(false, None, None, logs, [], duration, None, Some(ErrorInfo(code, message)))
  }
}

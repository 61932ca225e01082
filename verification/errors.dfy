/** The error hierarchy of the service (src/shared/errors.ts): every error is a
    `SwarmError` carrying a message, a machine-readable code and a details
    object; the subclasses fix the code and build message and details from
    their arguments. Details are kept as the members `JSON.stringify` would
    write, so a field holding `undefined` is absent. */
module Errors {
  import opened Wrappers
  import opened Json
  import Strs

  /** Which class constructed the error (what `instanceof` distinguishes). */
  datatype ErrorClass = Base | TaskNotFound | Validation | Execution | Timeout | Workspace

  datatype SwarmError = SwarmError(cls: ErrorClass, message: string, code: string, details: seq<Member>)

  /** Anything a handler can catch: one of ours, or some other `Error`. */
  datatype Thrown = Swarm(err: SwarmError) | Foreign(message: string)

  /** One validation issue. */
  datatype Issue = Issue(path: string, message: string)

  /** `new SwarmError(message, code, details = {})`. */
  function NewSwarmError(message: string, code: string, details: Option<seq<Member>>): (e: SwarmError)
    ensures e.cls == Base && e.message == message && e.code == code
    ensures details.None? ==> e.details == []
    ensures details.Some? ==> e.details == details.value
  {
    SwarmError(Base, message, code, details.GetOr([]))
  }

  /** `new TaskNotFoundError(taskId)`. */
  function TaskNotFoundError(taskId: string): (e: SwarmError)
    ensures e.cls == TaskNotFound && e.code == "TASK_NOT_FOUND"
    ensures |e.message| == 16 + |taskId| && e.message[..16] == "Task not found: " && e.message[16..] == taskId
    ensures Lookup(e.details, "taskId") == Some(JStr(taskId)) && |e.details| == 1
  {
    var m := "Task not found: " + taskId;
    assert m[16..] == taskId;
    SwarmError(TaskNotFound, m, "TASK_NOT_FOUND", [Member("taskId", JStr(taskId))])
  }

  function IssueJson(i: Issue): Json {
    JObj([Member("path", JStr(i.path)), Member("message", JStr(i.message))])
  }

  /** `new ValidationError(message, issues)`. */
  function ValidationError(message: string, issues: seq<Issue>): (e: SwarmError)
    ensures e.cls == Validation && e.code == "VALIDATION_ERROR" && e.message == message
    ensures match Lookup(e.details, "issues")
      case Some(JArr(items)) => |items| == |issues| && forall i :: 0 <= i < |issues| ==> items[i] == IssueJson(issues[i])
      case _ => false
  {
    SwarmError(Validation, message, "VALIDATION_ERROR",
      [Member("issues", JArr(seq(|issues|, i requires 0 <= i < |issues| => IssueJson(issues[i]))))])
  }

  /** `new ExecutionError(message, taskId, stderr?)`. */
  function ExecutionError(message: string, taskId: string, stderr: Option<string>): (e: SwarmError)
    ensures e.cls == Execution && e.code == "EXECUTION_ERROR" && e.message == message
    ensures Lookup(e.details, "taskId") == Some(JStr(taskId))
    ensures stderr.Some? ==> Lookup(e.details, "stderr") == Some(JStr(stderr.value))
    ensures stderr.None? ==> Lookup(e.details, "stderr").None?
  {
    SwarmError(Execution, message, "EXECUTION_ERROR",
      [Member("taskId", JStr(taskId))] + (if stderr.Some? then [Member("stderr", JStr(stderr.value))] else []))
  }

  /** `new TimeoutError(taskId, timeoutMs)`. */
  function TimeoutError(taskId: string, timeoutMs: int): (e: SwarmError)
    ensures e.cls == Timeout && e.code == "TIMEOUT"
    ensures e.message == "Task " + taskId + " timed out after " + Strs.IntToString(timeoutMs) + "ms"
    ensures Lookup(e.details, "taskId") == Some(JStr(taskId))
    ensures Lookup(e.details, "timeoutMs") == Some(JNum(timeoutMs))
  {
    SwarmError(Timeout, "Task " + taskId + " timed out after " + Strs.IntToString(timeoutMs) + "ms", "TIMEOUT",
      [Member("taskId", JStr(taskId)), Member("timeoutMs", JNum(timeoutMs))])
  }

  /** `new WorkspaceError(message, details = {})`. */
  function WorkspaceError(message: string, details: Option<seq<Member>>): (e: SwarmError)
    ensures e.cls == Workspace && e.code == "WORKSPACE_ERROR" && e.message == message
    ensures details.None? ==> e.details == []
    ensures details.Some? ==> e.details == details.value
  {
    SwarmError(Workspace, message, "WORKSPACE_ERROR", details.GetOr([]))
  }

  /** The subclasses' codes are pairwise distinct, and each differs from the
      code the error handler uses for foreign errors. */
  lemma {:induction false} SubclassCodesDistinct(id: string, msg: string, issues: seq<Issue>, stderr: Option<string>, ms: int)
    ensures var codes := [TaskNotFoundError(id).code, ValidationError(msg, issues).code,
                          ExecutionError(msg, id, stderr).code, TimeoutError(id, ms).code,
                          WorkspaceError(msg, None).code, "INTERNAL_ERROR"];
      forall i, j :: 0 <= i < j < |codes| ==> codes[i] != codes[j]
  {
  }
}

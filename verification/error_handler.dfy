/** The application-wide error handler (src/api/middleware/error-handler.ts):
    turns an uncaught error into an HTTP status and a JSON body. */
module ErrorHandler {
  import opened Wrappers
  import opened Json
  import opened Errors

  datatype Response = Response(status: int, body: Json)

  /** `{error: {code, message}}`. */
  function ErrorBody(code: string, message: string): (j: Json)
    ensures Field(j, "error").Some?
    ensures Field(Field(j, "error").value, "code") == Some(JStr(code))
    ensures Field(Field(j, "error").value, "message") == Some(JStr(message))
    ensures Field(Field(j, "error").value, "details").None?
  {
    var inner := [Member("code", JStr(code)), Member("message", JStr(message))];
    LookupSmall(inner[0], inner[1], inner[1], "code");
    LookupSmall(inner[0], inner[1], inner[1], "message");
    LookupSmall(inner[0], inner[1], inner[1], "details");
    JObj([Member("error", JObj(inner))])
  }

  /** `{error: {code, message, details}}`. */
  function ErrorBodyWithDetails(code: string, message: string, details: seq<Member>): (j: Json)
    ensures Field(j, "error").Some?
    ensures Field(Field(j, "error").value, "code") == Some(JStr(code))
    ensures Field(Field(j, "error").value, "message") == Some(JStr(message))
    ensures Field(Field(j, "error").value, "details") == Some(JObj(details))
  {
    var inner := [Member("code", JStr(code)), Member("message", JStr(message)), Member("details", JObj(details))];
    LookupSmall(inner[0], inner[1], inner[2], "code");
    LookupSmall(inner[0], inner[1], inner[2], "message");
    LookupSmall(inner[0], inner[1], inner[2], "details");
    JObj([Member("error", JObj(inner))])
  }

  /** The code the response body reports. */
  function BodyCode(r: Response): Option<Json> {
    match Field(r.body, "error")
    case Some(e) => Field(e, "code")
    case None => Field(r.body, "code")
  }

  /** `errorHandler(err, c)`. The not-found check comes first, so a
      `TaskNotFoundError` never reaches the generic branch; in that branch
      the status depends on the code alone. */
  function Handle(t: Thrown): (r: Response)
    ensures r.status == 404 <==> t.Swarm? && t.err.cls == TaskNotFound
    ensures r.status == 400 <==> t.Swarm? && t.err.cls != TaskNotFound && t.err.code == "VALIDATION_ERROR"
    ensures r.status == 404 || r.status == 400 || r.status == 500
    ensures t.Swarm? ==> BodyCode(r) == Some(JStr(t.err.code))
    ensures t.Foreign? ==> BodyCode(r) == Some(JStr("INTERNAL_ERROR"))
  {
    match t
    case Swarm(e) =>
      if e.cls == TaskNotFound then Response(404, ErrorBody(e.code, e.message))
      else Response(if e.code == "VALIDATION_ERROR" then 400 else 500, ErrorBodyWithDetails(e.code, e.message, e.details))
    case Foreign(_) => Response(500, ErrorBody("INTERNAL_ERROR", "Internal server error"))
  }

  /** The status each error class receives from the handler. */
  lemma {:induction false} StatusOfEachClass(id: string, msg: string, issues: seq<Issue>, stderr: Option<string>, ms: int, foreign: string)
    ensures Handle(Swarm(TaskNotFoundError(id))).status == 404
    ensures Handle(Swarm(ValidationError(msg, issues))).status == 400
    ensures Handle(Swarm(ExecutionError(msg, id, stderr))).status == 500
    ensures Handle(Swarm(TimeoutError(id, ms))).status == 500
    ensures Handle(Swarm(WorkspaceError(msg, None))).status == 500
    ensures Handle(Foreign(foreign)).status == 500
  {
    StatusOfClientErrors(id, msg, issues);
    StatusOfFailures(id, msg, stderr, ms, foreign);
  }

  lemma {:induction false} StatusOfClientErrors(id: string, msg: string, issues: seq<Issue>)
    ensures Handle(Swarm(TaskNotFoundError(id))).status == 404
    ensures Handle(Swarm(ValidationError(msg, issues))).status == 400
  {
  }

  lemma {:induction false} StatusOfFailures(id: string, msg: string, stderr: Option<string>, ms: int, foreign: string)
    ensures Handle(Swarm(ExecutionError(msg, id, stderr))).status == 500
    ensures Handle(Swarm(TimeoutError(id, ms))).status == 500
    ensures Handle(Swarm(WorkspaceError(msg, None))).status == 500
    ensures Handle(Foreign(foreign)).status == 500
  {
  }

  /** Only the not-found branch drops the details: a 400 or 500 for one of
      our errors carries them. */
  lemma {:induction false} DetailsKeptExceptNotFound(e: SwarmError)
    requires e.cls != TaskNotFound
    ensures Field(Field(Handle(Swarm(e)).body, "error").value, "details") == Some(JObj(e.details))
  {
  }
}

/** The task HTTP routes (src/api/routes/tasks.ts), mounted under
    `/api/tasks`. Each handler is a function from the service state and the
    request's pieces to a reply (and, for the routes that change something,
    the new service state). The service itself is `TaskService`; the parts
    the routes call that the service does not have are stood in for here:
    the workspace tree for the artifact listing and the log store for the
    task logs. `createApp` installs no error handler, so an error a route
    does not catch leaves it as an `Uncaught` reply (the framework's plain
    500). */
module TaskRoutes {
  import opened Wrappers
  import opened Json
  import opened Types
  import Strs
  import Paths
  import JsonParse
  import Errors
  import TaskStore
  import TaskService
  import TaskLogStore
  import Scheduler
  import Schemas
  import WorkspaceManager
  import FileSystem
  import Mime
  import Artifacts

  datatype Reply =
    | Fail(status: int, code: string, message: string)    // {error: {code, message}}
    | Uncaught(thrown: Errors.Thrown)
    | OneTask(status: int, task: TaskStore.TaskRecord)
    | TaskList(tasks: seq<TaskStore.TaskRecord>)
    | ArtifactList(paths: seq<string>)
    | Download(contentType: string, disposition: string, length: string, content: string)
    | LogSnapshot(body: Json)
    | EventStream(frames: seq<string>)
    | Acknowledged                                        // {ok: true}

  function StatusOf(r: Reply): int {
    match r
    case Fail(s, _, _) => s
    case Uncaught(_) => 500
    case OneTask(s, _) => s
    case _ => 200
  }

  /** The reply for a `TaskNotFoundError` caught by a route. */
  function NotFound(id: string): (r: Reply)
    ensures r.Fail? && r.status == 404 && r.code == "TASK_NOT_FOUND"
    ensures r.message == "Task not found: " + id
  {
    var e := Errors.TaskNotFoundError(id);
    assert e.message == e.message[..16] + e.message[16..];
    Fail(404, e.code, e.message)
  }

  // ---------------------------------------------------------------------------
  // POST /
  // ---------------------------------------------------------------------------

  /** `POST /`: the body is read as JSON (text that is not JSON throws out of
      the route), checked against the create-task schema (400 when it does
      not conform), handed to `createTask` (whose errors also escape), and
      the stored record is answered with 202. Only a successful create
      changes the service. */
  function Create(svc: TaskService.Service, text: string, isUrl: string -> bool, w: TaskService.World)
    : (r: (TaskService.Service, Reply))
    requires Scheduler.Valid(svc.scheduler)
    ensures !r.1.OneTask? ==> r.0 == svc
    ensures JsonParse.Parse(text).None? ==> r.1.Uncaught?
    ensures JsonParse.Parse(text).Some? && Schemas.ParseCreateTask(JsonParse.Parse(text).value, isUrl).None? ==>
      r.1 == Fail(400, "VALIDATION_ERROR", "Invalid request")
    ensures r.1.OneTask? <==>
      && JsonParse.Parse(text).Some?
      && Schemas.ParseCreateTask(JsonParse.Parse(text).value, isUrl).Some?
      && TaskService.CreateTask(svc, Schemas.ParseCreateTask(JsonParse.Parse(text).value, isUrl).value, w).Ok?
    ensures r.1.OneTask? ==> var input := Schemas.ParseCreateTask(JsonParse.Parse(text).value, isUrl).value;
      && r.1.status == 202
      && TaskStore.GetById(r.0.store, w.taskId) == Some(r.1.task)
      && r.1.task.id == w.taskId && r.1.task.status == Running && r.1.task.prompt == input.prompt
      && Field(JsonParse.Parse(text).value, "prompt") == Some(JStr(r.1.task.prompt))
  {
    match JsonParse.Parse(text)
    case None => (svc, Uncaught(Errors.Foreign("Unexpected token in JSON")))
    case Some(body) =>
      match Schemas.ParseCreateTask(body, isUrl)
      case None => (svc, Fail(400, "VALIDATION_ERROR", "Invalid request"))
      case Some(input) =>
        match TaskService.CreateTask(svc, input, w)
        case Err(t) => (svc, Uncaught(t))
        case Ok(c) =>
          var task := TaskService.GetTask(c.svc, c.id);
          (c.svc, OneTask(202, task.value))
  }

  // ---------------------------------------------------------------------------
  // GET / and GET /:id
  // ---------------------------------------------------------------------------

  /** `GET /?status=…`: an absent or empty query lists every task; any other
      value is compared with the stored status names, so one that names no
      status lists nothing. */
  function List(svc: TaskService.Service, status: Option<string>): (r: seq<TaskStore.TaskRecord>)
    ensures forall t :: t in r ==> status.None? || status.value == "" || StatusName(t.status) == status.value
    ensures forall k :: 0 <= k < |svc.store.rows| ==>
      (status.None? || status.value == "" || StatusName(svc.store.rows[k].status) == status.value) ==>
      TaskStore.ToRecord(svc.store.rows[k]) in r
    ensures forall t :: t in r ==> exists k :: 0 <= k < |svc.store.rows| && t == TaskStore.ToRecord(svc.store.rows[k])
  {
    if status.None? || status.value == "" then TaskService.ListTasks(svc, None)
    else
      match ParseStatus(status.value)
      case None =>
        UnknownStatusName(svc.store, status.value);
        []
      case Some(s) =>
        KnownStatusName(svc.store, status.value, s);
        TaskStore.List(svc.store, Some(s))
  }

  lemma {:induction false} UnknownStatusName(store: TaskStore.Store, name: string)
    requires ParseStatus(name).None?
    ensures forall k :: 0 <= k < |store.rows| ==> StatusName(store.rows[k].status) != name
  {
    forall k | 0 <= k < |store.rows| ensures StatusName(store.rows[k].status) != name {
      ParseStatusName(store.rows[k].status);
    }
  }

  lemma {:induction false} KnownStatusName(store: TaskStore.Store, name: string, s: TaskStatus)
    requires ParseStatus(name) == Some(s)
    ensures forall k :: 0 <= k < |store.rows| ==> (StatusName(store.rows[k].status) == name <==> store.rows[k].status == s)
  {
    forall k | 0 <= k < |store.rows| ensures StatusName(store.rows[k].status) == name <==> store.rows[k].status == s {
      ParseStatusName(store.rows[k].status);
    }
  }

  /** `GET /:id`: the record, or 404 with the error's code and message. */
  function Get(svc: TaskService.Service, id: string): (r: Reply)
    ensures r.OneTask? <==> TaskStore.GetById(svc.store, id).Some?
    ensures r.OneTask? ==> r.status == 200 && Some(r.task) == TaskStore.GetById(svc.store, id)
    ensures !r.OneTask? ==> r == NotFound(id)
  {
    match TaskService.GetTask(svc, id)
    case Ok(t) => OneTask(200, t)
    case Err(_) => NotFound(id)
  }

  // ---------------------------------------------------------------------------
  // Artifacts
  // ---------------------------------------------------------------------------

  /** The workspace a record names, when it names a non-empty one. */
  function Workspace(t: TaskStore.TaskRecord): Option<string> {
    if t.workspacePath.Some? && t.workspacePath.value != "" then t.workspacePath else None
  }

  /** `GET /:id/artifacts`: the visible files of the task's workspace (the
      workspace's directory tree is passed in), none when the task has no
      workspace, 404 for an unknown task. */
  function ListArtifacts(svc: TaskService.Service, id: string, tree: seq<FileSystem.Item>): (r: Reply)
    ensures TaskStore.GetById(svc.store, id).None? <==> r.Fail?
    ensures r.Fail? ==> r == NotFound(id)
    ensures r.ArtifactList? ==> Workspace(TaskStore.GetById(svc.store, id).value).None? ==> r.paths == []
    ensures r.ArtifactList? ==> Workspace(TaskStore.GetById(svc.store, id).value).Some? ==>
      forall p :: p in r.paths <==> p in WorkspaceManager.CollectArtifacts(tree)
  {
    match TaskService.GetTask(svc, id)
    case Err(_) => NotFound(id)
    case Ok(t) => if Workspace(t).None? then ArtifactList([]) else ArtifactList(WorkspaceManager.CollectArtifacts(tree))
  }

  // ---------------------------------------------------------------------------
  // GET /:id/artifacts/<path>
  // ---------------------------------------------------------------------------

  const MimeTypes: Mime.Table := [
    (".xlsx", "application/vnd.openxmlformats-officedocument.spreadsheetml.sheet"),
    (".xls", "application/vnd.ms-excel"),
    (".pdf", "application/pdf"),
    (".json", "application/json"),
    (".txt", "text/plain"),
    (".csv", "text/csv"),
    (".zip", "application/zip"),
    (".png", "image/png"),
    (".jpg", "image/jpeg"),
    (".md", "text/markdown"),
    (".html", "text/html"),
    (".ts", "text/plain"),
    (".js", "text/plain"),
    (".py", "text/x-python"),
    (".sh", "text/x-shellscript")
  ]

  lemma {:induction false} MimeTypesDistinct()
    ensures Mime.DistinctKeys(MimeTypes)
  {
  }

  /** `GET /:id/artifacts/<path>`: in order, 404 for an unknown task, 404
      `NO_WORKSPACE`, 400 `MISSING_PATH` for an empty artifact path, 403
      `FORBIDDEN` for a path outside the workspace, 404 `NOT_FOUND` when
      nothing is there, 400 `NOT_FILE` for a directory; otherwise the file,
      typed by its extension and named by its base name. The working
      directory `cwd` is what relative workspaces resolve against, and `guard`
      decides what counts as outside. */
  function DownloadArtifactWith(guard: Artifacts.Guard, svc: TaskService.Service, cwd: string, fs: FileSystem.Node,
                                id: string, reqPath: string)
    : (r: Reply)
    requires Paths.IsAbs(cwd)
    ensures TaskStore.GetById(svc.store, id).None? ==> r == NotFound(id)
    ensures r.Download? <==>
      && TaskStore.GetById(svc.store, id).Some?
      && var t := TaskStore.GetById(svc.store, id).value;
      && Workspace(t).Some?
      && Artifacts.ArtifactPath(reqPath) != ""
      && var full := Paths.Resolve(cwd, [Workspace(t).value, Artifacts.ArtifactPath(reqPath)]);
      && Artifacts.Admits(guard, full, Paths.Resolve(cwd, [Workspace(t).value]))
      && FileSystem.IsFile(fs, FileSystem.Loc([], full))
    ensures r.Download? ==> var t := TaskStore.GetById(svc.store, id).value;
      var full := Paths.Resolve(cwd, [Workspace(t).value, Artifacts.ArtifactPath(reqPath)]);
      && FileSystem.Get(fs, FileSystem.Loc([], full)) == Some(FileSystem.File(r.content))
      && r.contentType == Mime.ContentType(MimeTypes, full)
      && r.disposition == Artifacts.Attachment(Paths.Basename(full))
      && r.length == Strs.IntToString(|r.content|)
    ensures TaskStore.GetById(svc.store, id).Some? ==> var t := TaskStore.GetById(svc.store, id).value;
      && (Workspace(t).None? ==> r == Fail(404, "NO_WORKSPACE", "Task has no workspace"))
      && (Workspace(t).Some? && Artifacts.ArtifactPath(reqPath) == "" ==> r == Fail(400, "MISSING_PATH", "Artifact path required"))
      && (Workspace(t).Some? && Artifacts.ArtifactPath(reqPath) != "" ==>
        var full := Paths.Resolve(cwd, [Workspace(t).value, Artifacts.ArtifactPath(reqPath)]);
        && (!Artifacts.Admits(guard, full, Paths.Resolve(cwd, [Workspace(t).value])) ==> r == Fail(403, "FORBIDDEN", "Path traversal not allowed"))
        && (Artifacts.Admits(guard, full, Paths.Resolve(cwd, [Workspace(t).value])) ==>
          && (FileSystem.Get(fs, FileSystem.Loc([], full)).None? ==>
            r == Fail(404, "NOT_FOUND", "Artifact not found: " + Artifacts.ArtifactPath(reqPath)))
          && (FileSystem.IsDir(fs, FileSystem.Loc([], full)) ==> r == Fail(400, "NOT_FILE", "Path is not a file"))))
  {
    match TaskService.GetTask(svc, id)
    case Err(_) => NotFound(id)
    case Ok(t) =>
      if Workspace(t).None? then Fail(404, "NO_WORKSPACE", "Task has no workspace")
      else
        var ws := Workspace(t).value;
        var p := Artifacts.ArtifactPath(reqPath);
        if p == "" then Fail(400, "MISSING_PATH", "Artifact path required")
        else
          var full := Paths.Resolve(cwd, [ws, p]);
          if !Artifacts.Admits(guard, full, Paths.Resolve(cwd, [ws])) then Fail(403, "FORBIDDEN", "Path traversal not allowed")
          else
            match FileSystem.Get(fs, FileSystem.Loc([], full))
            case None => Fail(404, "NOT_FOUND", "Artifact not found: " + p)
            case Some(node) =>
              if node.Dir? then Fail(400, "NOT_FILE", "Path is not a file")
              else Download(Mime.ContentType(MimeTypes, full), Artifacts.Attachment(Paths.Basename(full)),
                Strs.IntToString(|node.text|), node.text)
  }

  /** The route as the server runs it: the written guard, a textual prefix
      test on the resolved paths. */
  function DownloadArtifact(svc: TaskService.Service, cwd: string, fs: FileSystem.Node, id: string, reqPath: string)
    : (r: Reply)
    requires Paths.IsAbs(cwd)
    ensures TaskStore.GetById(svc.store, id).None? ==> r == NotFound(id)
    ensures r.Download? <==>
      && TaskStore.GetById(svc.store, id).Some?
      && var t := TaskStore.GetById(svc.store, id).value;
      && Workspace(t).Some?
      && Artifacts.ArtifactPath(reqPath) != ""
      && var full := Paths.Resolve(cwd, [Workspace(t).value, Artifacts.ArtifactPath(reqPath)]);
      && Artifacts.GuardAsWritten(full, Paths.Resolve(cwd, [Workspace(t).value]))
      && FileSystem.IsFile(fs, FileSystem.Loc([], full))
    ensures r == Fail(403, "FORBIDDEN", "Path traversal not allowed") <==>
      && TaskStore.GetById(svc.store, id).Some?
      && var t := TaskStore.GetById(svc.store, id).value;
      && Workspace(t).Some?
      && Artifacts.ArtifactPath(reqPath) != ""
      && var full := Paths.Resolve(cwd, [Workspace(t).value, Artifacts.ArtifactPath(reqPath)]);
      && !Artifacts.GuardAsWritten(full, Paths.Resolve(cwd, [Workspace(t).value]))
  {
    DownloadArtifactWith(Artifacts.AsWritten, svc, cwd, fs, id, reqPath)
  }

  /** The route with the intended guard: only the workspace and what lies
      below it. */
  function DownloadArtifactIntended(svc: TaskService.Service, cwd: string, fs: FileSystem.Node, id: string, reqPath: string)
    : (r: Reply)
    requires Paths.IsAbs(cwd)
    ensures TaskStore.GetById(svc.store, id).None? ==> r == NotFound(id)
    ensures r.Download? <==>
      && TaskStore.GetById(svc.store, id).Some?
      && var t := TaskStore.GetById(svc.store, id).value;
      && Workspace(t).Some?
      && Artifacts.ArtifactPath(reqPath) != ""
      && var full := Paths.Resolve(cwd, [Workspace(t).value, Artifacts.ArtifactPath(reqPath)]);
      && Artifacts.Inside(full, Paths.Resolve(cwd, [Workspace(t).value]))
      && FileSystem.IsFile(fs, FileSystem.Loc([], full))
    ensures r == Fail(403, "FORBIDDEN", "Path traversal not allowed") <==>
      && TaskStore.GetById(svc.store, id).Some?
      && var t := TaskStore.GetById(svc.store, id).value;
      && Workspace(t).Some?
      && Artifacts.ArtifactPath(reqPath) != ""
      && var full := Paths.Resolve(cwd, [Workspace(t).value, Artifacts.ArtifactPath(reqPath)]);
      && !Artifacts.Inside(full, Paths.Resolve(cwd, [Workspace(t).value]))
  {
    DownloadArtifactWith(Artifacts.Intended, svc, cwd, fs, id, reqPath)
  }

  /** The written guard serves a file beside the workspace whose name
      extends the workspace's: for the workspace `/w/task-1`, the artifact
      path `../task-10` downloads `/w/task-10`. The intended guard answers
      403 instead. */
  lemma {:induction false} SiblingServed(svc: TaskService.Service, cwd: string, fs: FileSystem.Node, id: string,
                                         reqPath: string, parent: seq<string>, name: string, extra: string)
    requires Paths.IsAbs(cwd)
    requires Paths.Canonical(parent + [name], true)
    requires extra != "" && Paths.PlainName(name + extra)
    requires TaskStore.GetById(svc.store, id).Some?
    requires Workspace(TaskStore.GetById(svc.store, id).value) == Some(Paths.Render(parent + [name], true))
    requires Artifacts.ArtifactPath(reqPath) == ".." + "/" + name + extra
    requires FileSystem.IsFile(fs, FileSystem.Loc([], Paths.Render(parent + [name + extra], true)))
    ensures DownloadArtifact(svc, cwd, fs, id, reqPath).Download?
    ensures DownloadArtifactIntended(svc, cwd, fs, id, reqPath) == Fail(403, "FORBIDDEN", "Path traversal not allowed")
  {
    Artifacts.GuardAdmitsSibling(cwd, parent, name, extra);
    Paths.PrefixGuardAdmitsSibling(cwd, parent, name, extra);
  }
  /** The same file reached by an absolute artifact path, which survives
      any normalisation of the request path: for the workspace `/w/task-1`,
      the request `/api/tasks/1/artifacts//w/task-10/secret` downloads
      `/w/task-10/secret` through the written guard, and the intended guard
      answers 403. */
  lemma {:induction false} AbsoluteSiblingServed(svc: TaskService.Service, cwd: string, fs: FileSystem.Node, id: string,
                                                 reqPath: string, parent: seq<string>, name: string, extra: string, rest: seq<string>)
    requires Paths.IsAbs(cwd)
    requires Paths.Canonical(parent + [name], true) && Paths.Canonical(rest, true)
    requires extra != "" && Paths.PlainName(name + extra)
    requires TaskStore.GetById(svc.store, id).Some?
    requires Workspace(TaskStore.GetById(svc.store, id).value) == Some(Paths.Render(parent + [name], true))
    requires Artifacts.ArtifactPath(reqPath) == Paths.Render(parent + [name + extra] + rest, true)
    requires FileSystem.IsFile(fs, FileSystem.Loc([], Paths.Render(parent + [name + extra] + rest, true)))
    ensures DownloadArtifact(svc, cwd, fs, id, reqPath).Download?
    ensures DownloadArtifactIntended(svc, cwd, fs, id, reqPath) == Fail(403, "FORBIDDEN", "Path traversal not allowed")
  {
    Artifacts.GuardAdmitsAbsoluteSibling(cwd, parent, name, extra, rest);
  }


  // ---------------------------------------------------------------------------
  // GET /:id/logs
  // ---------------------------------------------------------------------------

  /** Whether the logs are streamed: the client accepts an event stream and
      the task is still queued or running. */
  predicate Streams(accept: Option<string>, st: TaskStatus) {
    Strs.Contains(accept.GetOr(""), "text/event-stream") && (st == Running || st == Queued)
  }

  function LogEvent(content: string): Json {
    JObj([Member("type", JStr("log")), Member("content", JStr(content))])
  }

  function DoneEvent(st: TaskStatus): Json {
    JObj([Member("type", JStr("done")), Member("status", JStr(StatusName(st)))])
  }

  /** One server-sent event: `data: <json>` and a blank line. */
  function Frame(j: Json): (f: string)
    ensures |f| >= 8 && f[..6] == "data: " && f[|f| - 2..] == "\n\n"
  {
    "data: " + Stringify(j) + "\n\n"
  }

  /** What a client takes from one event. */
  function ReadFrame(f: string): Option<Json> {
    if |f| >= 8 && f[..6] == "data: " && f[|f| - 2..] == "\n\n" then JsonParse.Parse(f[6..|f| - 2]) else None
  }

  /** A client reads back exactly the object the server framed. */
  lemma {:induction false} FrameRoundTrip(j: Json)
    ensures ReadFrame(Frame(j)) == Some(j)
  {
    var f := Frame(j);
    assert f[6..|f| - 2] == Stringify(j);
    JsonParse.ParseStringify(j);
  }

  /** `GET /:id/logs`. Streaming, the reply opens with the logs gathered so
      far as one `log` event, and with nothing when there are none; later
      chunks and the closing event are `ChunkFrame` and `Poll`. Otherwise
      it is `{taskId, status, logs}` at once. The task's logs are read from
      the log store passed in. */
  function Logs(svc: TaskService.Service, logs: TaskLogStore.Store, id: string, accept: Option<string>): (r: Reply)
    ensures TaskStore.GetById(svc.store, id).None? <==> r.Fail?
    ensures r.Fail? ==> r == NotFound(id)
    ensures !r.Fail? ==> var t := TaskStore.GetById(svc.store, id).value;
      (r.EventStream? <==> Streams(accept, t.status))
    ensures r.EventStream? ==> var existing := TaskLogStore.Get(logs, id);
      && (|r.frames| == 0 <==> existing == "")
      && |r.frames| <= 1
      && (existing != "" ==> ReadFrame(r.frames[0]) == Some(LogEvent(existing)))
    ensures r.LogSnapshot? ==> var t := TaskStore.GetById(svc.store, id).value;
      && Field(r.body, "taskId") == Some(JStr(id))
      && Field(r.body, "status") == Some(JStr(StatusName(t.status)))
      && Field(r.body, "logs") == Some(JStr(TaskLogStore.Get(logs, id)))
  {
    match TaskService.GetTask(svc, id)
    case Err(_) => NotFound(id)
    case Ok(t) =>
      var existing := TaskLogStore.Get(logs, id);
      if Streams(accept, t.status) then
        FrameRoundTrip(LogEvent(existing));
        EventStream(if existing != "" then [Frame(LogEvent(existing))] else [])
      else
        var ms := [Member("taskId", JStr(t.id)), Member("status", JStr(StatusName(t.status))), Member("logs", JStr(existing))];
        LookupSmall(ms[0], ms[1], ms[2], "taskId");
        LookupSmall(ms[0], ms[1], ms[2], "status");
        LookupSmall(ms[0], ms[1], ms[2], "logs");
        LogSnapshot(JObj(ms))
  }

  /** The event a subscriber's chunk becomes. */
  function ChunkFrame(chunk: string): (f: string)
    ensures ReadFrame(f) == Some(LogEvent(chunk))
  {
    FrameRoundTrip(LogEvent(chunk));
    Frame(LogEvent(chunk))
  }

  datatype PollOutcome = KeepOpen | Close(frame: string) | Abandon

  /** One tick of the completion poll: once the task has left `queued` and
      `running` the stream sends a `done` event with the final status and
      closes; a task that can no longer be read ends the stream silently. */
  function Poll(svc: TaskService.Service, id: string): (r: PollOutcome)
    ensures r.Abandon? <==> TaskStore.GetById(svc.store, id).None?
    ensures r.Close? <==> (TaskStore.GetById(svc.store, id).Some? &&
      TaskStore.GetById(svc.store, id).value.status !in {Running, Queued})
    ensures r.Close? ==> ReadFrame(r.frame) == Some(DoneEvent(TaskStore.GetById(svc.store, id).value.status))
  {
    match TaskService.GetTask(svc, id)
    case Err(_) => Abandon
    case Ok(t) =>
      if t.status == Running || t.status == Queued then KeepOpen
      else
        FrameRoundTrip(DoneEvent(t.status));
        Close(Frame(DoneEvent(t.status)))
  }

  // ---------------------------------------------------------------------------
  // DELETE /:id
  // ---------------------------------------------------------------------------

  /** `DELETE /:id`: cancels the task and answers `{ok: true}`, or 404 with
      nothing changed. */
  function Cancel(svc: TaskService.Service, id: string, now: string): (r: (TaskService.Service, Reply))
    requires Scheduler.Valid(svc.scheduler)
    ensures TaskStore.GetById(svc.store, id).None? <==> r.1 == NotFound(id)
    ensures r.1 == NotFound(id) ==> r.0 == svc
    ensures r.1 != NotFound(id) ==> (r.1 == Acknowledged
      && TaskStore.GetById(r.0.store, id).Some? && TaskStore.GetById(r.0.store, id).value.status == Cancelled
      && forall x :: x != id ==> TaskStore.GetById(r.0.store, x) == TaskStore.GetById(svc.store, x))
  {
    match TaskService.CancelTask(svc, id, now)
    case Err(_) => (svc, NotFound(id))
    case Ok(res) => (res.0, Acknowledged)
  }

  // ---------------------------------------------------------------------------
  // Consequences
  // ---------------------------------------------------------------------------

  /** A file uploaded with an upper-case `.PDF` extension is served as a PDF. */
  lemma {:induction false} UpperCaseExtension(dir: string)
    ensures Mime.ContentType(MimeTypes, dir + "/" + "report" + "." + "PDF") == "application/pdf"
  {
    MimeTypesDistinct();
    assert Strs.ToLower("PDF") == "pdf";
    Mime.ContentTypeOfName(MimeTypes, 2, dir, "report", "PDF");
  }

  /** A task created through the route can be read back through it. */
  lemma {:induction false} CreatedTaskCanBeRead(svc: TaskService.Service, text: string, isUrl: string -> bool, w: TaskService.World)
    requires Scheduler.Valid(svc.scheduler)
    requires Create(svc, text, isUrl, w).1.OneTask?
    ensures var c := Create(svc, text, isUrl, w);
      Get(c.0, w.taskId) == OneTask(200, c.1.task)
  {
  }
}

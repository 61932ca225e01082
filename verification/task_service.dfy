/** The task service (src/services/task.service.ts): creating a task
    (workspace, file input, MCP servers, the record, the enqueue and the
    switch to `running`), the completion callback, reading and cancelling.

    The service owns a task store and a scheduler state; each operation returns
    the new state. What the outside world decides is passed in: the random
    workspace id, the record id, the executor's identity, the timestamps, and
    whether the archive extraction or the clone failed. */
module TaskService {
  import opened Wrappers
  import opened Json
  import opened Types
  import Errors
  import Scheduler
  import TaskStore
  import McpProfileStore
  import WorkspaceManager

  datatype FileKind = Zip | Git

  datatype TaskFiles = TaskFiles(kind: FileKind, gitUrl: Option<string>, gitRef: Option<string>)

  datatype TaskMcp = TaskMcp(inline: Option<seq<McpServerConfig>>, profiles: Option<seq<string>>)

  /** The validated request (the output of the create-task schema) and
      whether an archive was uploaded. `mode` is optional here because the
      service has its own fallback; the schema's default always fills it. The
      schema's `agents` field is not read by the service and is left out. */
  datatype CreateTaskInput = CreateTaskInput(
    prompt: string,
    apiKey: string,
    schema: Option<Json>,
    mode: Option<ExecutionMode>,
    timeout: Option<int>,
    model: Option<string>,
    permissionMode: Option<string>,
    files: Option<TaskFiles>,
    mcpServers: Option<TaskMcp>,
    tags: Option<Json>,
    hasZip: bool)

  datatype Service = Service(
    store: TaskStore.Store,
    scheduler: Scheduler.State,
    profiles: Option<McpProfileStore.Store>,
    workspacesDir: string,
    defaultMode: ExecutionMode,
    defaultTimeout: int)

  /** The file step `createTask` performs. */
  datatype FileAction = NoFiles | ExtractZip | CloneGit(url: string, ref: Option<string>)

  /** The outside world's answers during one `createTask`. Each failure is
      the error message of a step that threw: creating the workspace
      directory, the extraction or clone, and writing `.claude.json`. */
  datatype World = World(
    tempId: string,
    taskId: string,
    executorId: nat,
    createdAt: string,
    startedAt: string,
    mkdirFailure: Option<string>,
    fileFailure: Option<string>,
    configFailure: Option<string>)

  /** What `createTask` leaves behind: the new state, the returned id, the
      workspace, the file step, the MCP document written (if any), and the
      scheduler's calls. */
  datatype Created = Created(
    svc: Service,
    id: string,
    workspacePath: string,
    fileAction: FileAction,
    mcpConfig: Option<Json>,
    effects: seq<Scheduler.Effect>)

  // ---------------------------------------------------------------------------
  // Pieces of createTask
  // ---------------------------------------------------------------------------

  /** `input.mode || defaultMode`; every mode name is a non-empty string, so a
      given mode always wins. */
  function ModeOf(svc: Service, input: CreateTaskInput): (m: ExecutionMode)
    ensures input.mode.Some? ==> m == input.mode.value
    ensures input.mode.None? ==> m == svc.defaultMode
  {
    input.mode.GetOr(svc.defaultMode)
  }

  /** `input.timeout || defaultTimeout`: an absent or zero timeout falls back
      on the default. */
  function TimeoutOf(svc: Service, input: CreateTaskInput): (t: int)
    ensures input.timeout.Some? && input.timeout.value != 0 ==> t == input.timeout.value
    ensures input.timeout.None? || input.timeout.value == 0 ==> t == svc.defaultTimeout
  {
    if input.timeout.Some? && input.timeout.value != 0 then input.timeout.value else svc.defaultTimeout
  }

  /** An archive is extracted only when the files say `zip` and one was
      uploaded; a repository is cloned only when the files say `git` and a
      (non-empty) URL is given; otherwise nothing happens. */
  function FileActionOf(input: CreateTaskInput): (a: FileAction)
    ensures a == ExtractZip <==> input.files.Some? && input.files.value.kind == Zip && input.hasZip
    ensures a.CloneGit? <==> (input.files.Some? && input.files.value.kind == Git &&
      input.files.value.gitUrl.Some? && input.files.value.gitUrl.value != "")
    ensures a.CloneGit? ==> a.url == input.files.value.gitUrl.value && a.ref == input.files.value.gitRef
  {
    match input.files
    case None => NoFiles
    case Some(f) =>
      if f.kind == Zip && input.hasZip then ExtractZip
      else if f.kind == Git && f.gitUrl.Some? && f.gitUrl.value != "" then CloneGit(f.gitUrl.value, f.gitRef)
      else NoFiles
  }

  /** The error a failed file step raises. */
  function FileError(a: FileAction, cause: string): (e: Errors.SwarmError)
    requires a != NoFiles
    ensures e.code == "WORKSPACE_ERROR" && e.cls == Errors.Workspace
  {
    match a
    case ExtractZip => WorkspaceManager.ExtractZipError(cause)
    case CloneGit(url, ref) => WorkspaceManager.CloneGitError(url, ref, cause)
  }

  /** The servers of the listed profiles, in list order; unknown ids add
      nothing. */
  function ProfileServers(store: McpProfileStore.Store, ids: seq<string>): seq<McpServerConfig>
    decreases |ids|
  {
    if |ids| == 0 then [] else ServersOf(store, ids[0]) + ProfileServers(store, ids[1..])
  }

  /** The servers of one profile; none for an unknown id. */
  function ServersOf(store: McpProfileStore.Store, id: string): seq<McpServerConfig> {
    match McpProfileStore.GetById(store, id)
    case None => []
    case Some(p) => p.servers
  }

  /** A server comes from the profiles exactly when some listed, known
      profile holds it. */
  lemma {:induction false} ProfileServersMembers(store: McpProfileStore.Store, ids: seq<string>, x: McpServerConfig)
    ensures x in ProfileServers(store, ids) <==>
      exists i :: 0 <= i < |ids| && KnownWith(store, ids[i], x)
    decreases |ids|
  {
    if |ids| > 0 {
      ProfileServersMembers(store, ids[1..], x);
      if exists i :: 0 <= i < |ids[1..]| && KnownWith(store, ids[1..][i], x) {
        var i :| 0 <= i < |ids[1..]| && KnownWith(store, ids[1..][i], x);
        assert ids[i + 1] == ids[1..][i];
      }
      if exists i :: 0 <= i < |ids| && KnownWith(store, ids[i], x) {
        var i :| 0 <= i < |ids| && KnownWith(store, ids[i], x);
        if i > 0 {
          assert ids[1..][i - 1] == ids[i];
        }
      }
    }
  }

  predicate KnownWith(store: McpProfileStore.Store, id: string, x: McpServerConfig) {
    McpProfileStore.GetById(store, id).Some? && x in McpProfileStore.GetById(store, id).value.servers
  }

  /** Profile lists concatenate. */
  lemma {:induction false} ProfileServersAppend(store: McpProfileStore.Store, a: seq<string>, b: seq<string>)
    ensures ProfileServers(store, a + b) == ProfileServers(store, a) + ProfileServers(store, b)
    decreases |a|
  {
    if |a| == 0 {
      assert a + b == b;
    } else {
      assert (a + b)[0] == a[0] && (a + b)[1..] == a[1..] + b;
      ProfileServersAppend(store, a[1..], b);
      ConsAssoc(ServersOf(store, a[0]), ProfileServers(store, a[1..]), ProfileServers(store, b));
    }
  }

  lemma {:induction false} ConsAssoc(h: seq<McpServerConfig>, x: seq<McpServerConfig>, y: seq<McpServerConfig>)
    ensures h + (x + y) == (h + x) + y
  {
  }

  /** Unknown profile ids can be dropped from the list without changing the
      result. */
  lemma {:induction false} UnknownProfilesSkipped(store: McpProfileStore.Store, a: seq<string>, id: string, b: seq<string>)
    requires McpProfileStore.GetById(store, id).None?
    ensures ProfileServers(store, a + [id] + b) == ProfileServers(store, a + b)
  {
    ProfileServersAppend(store, a + [id], b);
    ProfileServersAppend(store, a, [id]);
    ProfileServersAppend(store, a, b);
    ProfileServersUnknown(store, id);
    assert ProfileServers(store, a) + [] == ProfileServers(store, a);
  }

  lemma {:induction false} ProfileServersUnknown(store: McpProfileStore.Store, id: string)
    requires McpProfileStore.GetById(store, id).None?
    ensures ProfileServers(store, [id]) == []
  {
    assert [id][1..] == [];
    assert ProfileServers(store, [id][1..]) == [];
  }

  /** The MCP servers of a task: the inline ones first, then those of the
      listed profiles, which are consulted only when a profile store exists. */
  function ResolveServers(mcp: Option<TaskMcp>, profiles: Option<McpProfileStore.Store>): (r: seq<McpServerConfig>)
    ensures mcp.Some? && mcp.value.inline.Some? ==> |r| >= |mcp.value.inline.value|
    ensures mcp.Some? && mcp.value.inline.Some? ==> r[..|mcp.value.inline.value|] == mcp.value.inline.value
    ensures profiles.None? || mcp.None? || mcp.value.profiles.None? ==>
      r == (if mcp.Some? && mcp.value.inline.Some? then mcp.value.inline.value else [])
    ensures forall x :: x in r <==>
      (mcp.Some? && mcp.value.inline.Some? && x in mcp.value.inline.value) ||
      (mcp.Some? && mcp.value.profiles.Some? && profiles.Some? &&
       exists i :: 0 <= i < |mcp.value.profiles.value| && KnownWith(profiles.value, mcp.value.profiles.value[i], x))
  {
    var inline := if mcp.Some? && mcp.value.inline.Some? then mcp.value.inline.value else [];
    var fromProfiles :=
      if mcp.Some? && mcp.value.profiles.Some? && profiles.Some? then ProfileServers(profiles.value, mcp.value.profiles.value)
      else [];
    assert forall x :: x in fromProfiles <==>
      (mcp.Some? && mcp.value.profiles.Some? && profiles.Some? &&
       exists i :: 0 <= i < |mcp.value.profiles.value| && KnownWith(profiles.value, mcp.value.profiles.value[i], x)) by {
      forall x
        ensures x in fromProfiles <==>
          (mcp.Some? && mcp.value.profiles.Some? && profiles.Some? &&
           exists i :: 0 <= i < |mcp.value.profiles.value| && KnownWith(profiles.value, mcp.value.profiles.value[i], x))
      {
        if mcp.Some? && mcp.value.profiles.Some? && profiles.Some? {
          ProfileServersMembers(profiles.value, mcp.value.profiles.value, x);
        }
      }
    }
    assert (inline + fromProfiles)[..|inline|] == inline;
    inline + fromProfiles
  }

  /** The parameters handed to the executor. */
  function ParamsOf(id: string, input: CreateTaskInput, workspacePath: string, timeout: int): (p: ExecuteParams)
    ensures p.taskId == id && p.prompt == input.prompt && p.apiKey == input.apiKey
    ensures p.workspacePath == workspacePath && p.schema == input.schema && p.timeout == Some(timeout)
    ensures p.model == input.model && p.permissionMode == input.permissionMode
  {
    ExecuteParams(id, input.prompt, input.apiKey, workspacePath, input.schema, Some(timeout), input.model, input.permissionMode)
  }

  /** The record parameters: the schema is stored as its JSON text. */
  function RecordParams(input: CreateTaskInput, mode: ExecutionMode, workspacePath: string): TaskStore.CreateParams {
    TaskStore.CreateParams(input.prompt, ModeName(mode),
      if input.schema.Some? then Some(Stringify(input.schema.value)) else None,
      input.tags, Some(workspacePath))
  }

  // ---------------------------------------------------------------------------
  // createTask
  // ---------------------------------------------------------------------------

  /** `createTask(input)`. A failure to create the workspace directory, a
      failed file step (as its `WorkspaceError`) and a failure to write the
      MCP document are raised in that order, before anything is stored; a
      clash of the generated id fails the insert.
      Otherwise the record is created, the work is enqueued with a process
      executor, whatever the mode, and the record is set to `running`
      whether the scheduler started the work or queued it. */
  function CreateTask(svc: Service, input: CreateTaskInput, w: World): (r: Result<Created, Errors.Thrown>)
    requires Scheduler.Valid(svc.scheduler)
    ensures w.mkdirFailure.Some? ==> r == Err(Errors.Foreign(w.mkdirFailure.value))
    ensures var a := FileActionOf(input);
      w.mkdirFailure.None? && a != NoFiles && w.fileFailure.Some? ==> r == Err(Errors.Swarm(FileError(a, w.fileFailure.value)))
    ensures (w.mkdirFailure.None? && (FileActionOf(input) == NoFiles || w.fileFailure.None?)
      && |ResolveServers(input.mcpServers, svc.profiles)| > 0 && w.configFailure.Some?) ==>
      r == Err(Errors.Foreign(w.configFailure.value))
    ensures r.Ok? <==>
      && w.mkdirFailure.None?
      && (FileActionOf(input) == NoFiles || w.fileFailure.None?)
      && (|ResolveServers(input.mcpServers, svc.profiles)| == 0 || w.configFailure.None?)
      && TaskStore.GetById(svc.store, w.taskId).None?
    ensures r.Ok? ==> r.value.id == w.taskId && Scheduler.Valid(r.value.svc.scheduler)
    ensures r.Ok? ==> r.value.workspacePath == WorkspaceManager.WorkspacePath(svc.workspacesDir, w.tempId)
    ensures r.Ok? ==> TaskStore.GetById(r.value.svc.store, w.taskId) == Some(TaskStore.TaskRecord(
      w.taskId, Running, input.prompt, ModeName(ModeOf(svc, input)), w.createdAt, Some(w.startedAt),
      None, None, None, None, input.tags, Some(r.value.workspacePath)))
    ensures r.Ok? ==> forall x :: x != w.taskId ==> TaskStore.GetById(r.value.svc.store, x) == TaskStore.GetById(svc.store, x)
    ensures r.Ok? ==> r.value.svc.scheduler == Scheduler.Enqueue(svc.scheduler, Enqueued(svc, input, w)).state
    ensures r.Ok? ==> r.value.effects == Scheduler.Enqueue(svc.scheduler, Enqueued(svc, input, w)).effects
    ensures r.Ok? ==> var servers := ResolveServers(input.mcpServers, svc.profiles);
      r.value.mcpConfig == if |servers| > 0 then Some(WorkspaceManager.McpConfig(servers)) else None
    ensures r.Ok? ==> r.value.svc.profiles == svc.profiles && r.value.svc.defaultMode == svc.defaultMode
    ensures r.Ok? ==> r.value.svc.workspacesDir == svc.workspacesDir && r.value.svc.defaultTimeout == svc.defaultTimeout
  {
    var wsPath := WorkspaceManager.WorkspacePath(svc.workspacesDir, w.tempId);
    var action := FileActionOf(input);
    if w.mkdirFailure.Some? then Err(Errors.Foreign(w.mkdirFailure.value))
    else if action != NoFiles && w.fileFailure.Some? then Err(Errors.Swarm(FileError(action, w.fileFailure.value)))
    else
      var servers := ResolveServers(input.mcpServers, svc.profiles);
      var config := if |servers| > 0 then Some(WorkspaceManager.McpConfig(servers)) else None;
      if config.Some? && w.configFailure.Some? then Err(Errors.Foreign(w.configFailure.value))
      else
        var mode := ModeOf(svc, input);
        match StoreRunning(svc.store, w, RecordParams(input, mode, wsPath))
        case Err(m) => Err(Errors.Foreign(m))
        case Ok(store2) =>
          var step := Scheduler.Enqueue(svc.scheduler, Enqueued(svc, input, w));
          Ok(Created(svc.(store := store2, scheduler := step.state), w.taskId, wsPath, action, config, step.effects))
  }

  /** The store side of `createTask`: insert the record as `queued`, then
      mark it `running` from the start time; only an id clash fails. */
  function StoreRunning(store: TaskStore.Store, w: World, p: TaskStore.CreateParams): (r: Result<TaskStore.Store, string>)
    ensures r.Ok? <==> TaskStore.GetById(store, w.taskId).None?
    ensures r.Ok? ==> TaskStore.GetById(r.value, w.taskId) == Some(TaskStore.TaskRecord(
      w.taskId, Running, p.prompt, p.mode, w.createdAt, Some(w.startedAt),
      None, None, None, None, p.tags, p.workspacePath))
    ensures r.Ok? ==> forall x :: x != w.taskId ==> TaskStore.GetById(r.value, x) == TaskStore.GetById(store, x)
  {
    match TaskStore.Create(store, w.taskId, w.createdAt, p)
    case Err(m) => Err(m)
    case Ok(store1) => Ok(TaskStore.UpdateStatus(store1, w.taskId, Running, w.startedAt))
  }

  /** The unit of work `createTask` enqueues. */
  function Enqueued(svc: Service, input: CreateTaskInput, w: World): (t: Scheduler.QueuedTask)
    ensures t.taskId == w.taskId && t.executor == Scheduler.ExecutorRef(Process, w.executorId)
    ensures t.params == ParamsOf(w.taskId, input, WorkspaceManager.WorkspacePath(svc.workspacesDir, w.tempId), TimeoutOf(svc, input))
  {
    var wsPath := WorkspaceManager.WorkspacePath(svc.workspacesDir, w.tempId);
    Scheduler.QueuedTask(w.taskId, ParamsOf(w.taskId, input, wsPath, TimeoutOf(svc, input)),
      Scheduler.ExecutorRef(Process, w.executorId))
  }

  // ---------------------------------------------------------------------------
  // Completion, reading, cancelling
  // ---------------------------------------------------------------------------

  /** The error recorded for a failed result without one. */
  function UnknownError(): ErrorInfo {
    ErrorInfo("UNKNOWN", "Unknown error")
  }

  /** The `onComplete` callback: a successful result completes the record with
      `{data, valid}` (`valid` defaulting to true) and the duration; any other
      result fails it with the result's error (or `UNKNOWN`) and the duration.
      No status is checked first, so a cancelled record is overwritten. */
  function OnComplete(store: TaskStore.Store, id: string, res: ExecutorResult, now: string): (r: TaskStore.Store)
    ensures TaskStore.GetById(store, id).None? ==> r == store
    ensures forall x :: x != id ==> TaskStore.GetById(r, x) == TaskStore.GetById(store, x)
    ensures TaskStore.GetById(store, id).Some? ==> TaskStore.GetById(r, id).Some?
    ensures TaskStore.GetById(store, id).Some? ==> var t := TaskStore.GetById(r, id).value;
      && t.status == (if res.success then Completed else Failed)
      && t.completedAt == Some(now)
      && t.duration == Some(res.duration)
    ensures TaskStore.GetById(store, id).Some? && res.success ==> var t := TaskStore.GetById(r, id).value;
      && t.result.Some?
      && Field(t.result.value, "valid") == Some(JBool(res.valid.GetOr(true)))
      && Field(t.result.value, "data") == res.data
      && t.error == TaskStore.GetById(store, id).value.error
    ensures TaskStore.GetById(store, id).Some? && !res.success ==> var t := TaskStore.GetById(r, id).value;
      && t.error == Some(TaskStore.ErrorJson(res.error.GetOr(UnknownError())))
      && t.result == TaskStore.GetById(store, id).value.result
  {
    if res.success then TaskStore.Complete(store, id, res.data, res.valid.GetOr(true), res.duration, now)
    else TaskStore.Fail(store, id, res.error.GetOr(UnknownError()), Some(res.duration), now)
  }

  /** Runs the store side of the scheduler's calls: each `Complete` invokes the
      completion callback; starting and cancelling executions do not touch
      the store. */
  function RunEffects(store: TaskStore.Store, effects: seq<Scheduler.Effect>, now: string): TaskStore.Store
    decreases |effects|
  {
    if |effects| == 0 then store
    else
      var s1 := match effects[0]
        case Complete(id, res) => OnComplete(store, id, res, now)
        case _ => store;
      RunEffects(s1, effects[1..], now)
  }

  lemma {:induction false} RunEffectsNoComplete(store: TaskStore.Store, effects: seq<Scheduler.Effect>, now: string)
    requires forall i :: 0 <= i < |effects| ==> !effects[i].Complete?
    ensures RunEffects(store, effects, now) == store
    decreases |effects|
  {
    if |effects| > 0 {
      RunEffectsNoComplete(store, effects[1..], now);
    }
  }

  /** An execution in flight settles: the scheduler frees the slot and starts
      queued work, and the completion callback updates the record. */
  function SettleTask(svc: Service, k: nat, o: Scheduler.Outcome, now: string): (r: (Service, seq<Scheduler.Effect>))
    requires Scheduler.Valid(svc.scheduler)
    requires k < |svc.scheduler.inflight|
    ensures Scheduler.Valid(r.0.scheduler)
    ensures r.0.store == OnComplete(svc.store, svc.scheduler.inflight[k].taskId, Scheduler.OutcomeResult(o), now)
    ensures r.0.scheduler == Scheduler.Settle(svc.scheduler, k, o).state
  {
    var step := Scheduler.Settle(svc.scheduler, k, o);
    SettleStore(svc, k, o, now);
    (svc.(store := RunEffects(svc.store, step.effects, now), scheduler := step.state), step.effects)
  }

  /** Of a settlement's calls only the first, the completion callback,
      touches the store. */
  lemma {:induction false} SettleStore(svc: Service, k: nat, o: Scheduler.Outcome, now: string)
    requires Scheduler.Valid(svc.scheduler)
    requires k < |svc.scheduler.inflight|
    ensures RunEffects(svc.store, Scheduler.Settle(svc.scheduler, k, o).effects, now)
         == OnComplete(svc.store, svc.scheduler.inflight[k].taskId, Scheduler.OutcomeResult(o), now)
  {
    var es := Scheduler.Settle(svc.scheduler, k, o).effects;
    var s1 := OnComplete(svc.store, svc.scheduler.inflight[k].taskId, Scheduler.OutcomeResult(o), now);
    assert RunEffects(svc.store, es, now) == RunEffects(s1, es[1..], now);
    forall i | 0 <= i < |es[1..]| ensures !es[1..][i].Complete? {
      assert es[1..][i] == es[i + 1];
    }
    RunEffectsNoComplete(s1, es[1..], now);
  }

  /** `getTask(id)`: the record, or `TaskNotFoundError`. */
  function GetTask(svc: Service, id: string): (r: Result<TaskStore.TaskRecord, Errors.Thrown>)
    ensures r.Ok? <==> TaskStore.GetById(svc.store, id).Some?
    ensures r.Ok? ==> Some(r.value) == TaskStore.GetById(svc.store, id)
    ensures r.Err? ==> r.error == Errors.Swarm(Errors.TaskNotFoundError(id))
  {
    match TaskStore.GetById(svc.store, id)
    case None => Err(Errors.Swarm(Errors.TaskNotFoundError(id)))
    case Some(t) => Ok(t)
  }

  /** `listTasks(filter)`: the store's listing. */
  function ListTasks(svc: Service, status: Option<TaskStatus>): (r: seq<TaskStore.TaskRecord>)
    ensures forall t :: t in r ==> (status.None? || t.status == status.value)
    ensures forall k :: 0 <= k < |svc.store.rows| && TaskStore.Listed(svc.store.rows[k], status) ==>
      TaskStore.ToRecord(svc.store.rows[k]) in r
  {
    TaskStore.List(svc.store, status)
  }

  /** `cancelTask(id)`: an unknown id raises `TaskNotFoundError` before the
      scheduler is asked; otherwise the scheduler cancels and the record
      becomes `cancelled` whatever the scheduler answered. */
  function CancelTask(svc: Service, id: string, now: string): (r: Result<(Service, seq<Scheduler.Effect>), Errors.Thrown>)
    requires Scheduler.Valid(svc.scheduler)
    ensures r.Err? <==> TaskStore.GetById(svc.store, id).None?
    ensures r.Err? ==> r.error == Errors.Swarm(Errors.TaskNotFoundError(id))
    ensures r.Ok? ==> r.value.0.scheduler == Scheduler.Cancel(svc.scheduler, id).0.state
    ensures r.Ok? ==> r.value.1 == Scheduler.Cancel(svc.scheduler, id).0.effects
    ensures r.Ok? ==> TaskStore.GetById(r.value.0.store, id).Some?
    ensures r.Ok? ==> TaskStore.GetById(r.value.0.store, id).value.status == Cancelled
    ensures r.Ok? ==> TaskStore.GetById(r.value.0.store, id) == Some(TaskStore.GetById(svc.store, id).value.(status := Cancelled))
    ensures r.Ok? ==> forall x :: x != id ==> TaskStore.GetById(r.value.0.store, x) == TaskStore.GetById(svc.store, x)
    ensures r.Ok? ==> Scheduler.Valid(r.value.0.scheduler)
  {
    if TaskStore.GetById(svc.store, id).None? then Err(Errors.Swarm(Errors.TaskNotFoundError(id)))
    else
      var c := Scheduler.Cancel(svc.scheduler, id);
      Ok((svc.(store := TaskStore.UpdateStatus(svc.store, id, Cancelled, now), scheduler := c.0.state), c.0.effects))
  }

  // ---------------------------------------------------------------------------
  // Consequences
  // ---------------------------------------------------------------------------

  /** Through the HTTP route the schema always supplies a mode, so the
      service's own default mode never decides anything: two services that
      differ only in their default store the same record. */
  lemma {:induction false} DefaultModeUnusedWithMode(svc: Service, input: CreateTaskInput, w: World, other: ExecutionMode)
    requires Scheduler.Valid(svc.scheduler)
    requires input.mode.Some?
    ensures CreateTask(svc, input, w).Ok? ==>
      && CreateTask(svc.(defaultMode := other), input, w).Ok?
      && CreateTask(svc.(defaultMode := other), input, w).value.svc.store == CreateTask(svc, input, w).value.svc.store
  {
  }

  /** The executor is a process executor for every requested mode. */
  lemma {:induction false} ProcessExecutorForEveryMode(svc: Service, input: CreateTaskInput, w: World)
    requires Scheduler.Valid(svc.scheduler)
    requires CreateTask(svc, input, w).Ok?
    ensures var c := CreateTask(svc, input, w).value;
      forall e :: e in c.effects ==> e.Execute? && e.task.executor.kind == Process
    ensures var c := CreateTask(svc, input, w).value;
      forall t :: t in c.svc.scheduler.queue ==> t in svc.scheduler.queue || t.executor.kind == Process
  {
  }

  /** With every slot taken, the new task waits in the queue, yet its record
      already says `running`. */
  lemma {:induction false} QueuedTaskReportedRunning(svc: Service, input: CreateTaskInput, w: World)
    requires Scheduler.Valid(svc.scheduler)
    requires |svc.scheduler.running| == svc.scheduler.maxConcurrency
    requires CreateTask(svc, input, w).Ok?
    ensures var c := CreateTask(svc, input, w).value;
      && c.effects == []
      && c.svc.scheduler.queue[|c.svc.scheduler.queue| - 1].taskId == w.taskId
      && TaskStore.GetById(c.svc.store, w.taskId).value.status == Running
  {
  }

  /** A task cancelled while running keeps executing; when its execution
      settles, the completion callback overwrites `cancelled` with
      `completed`. */
  lemma {:induction false} LateCompletionOverwritesCancel(svc: Service, input: CreateTaskInput, w: World, res: ExecutorResult, t1: string, t2: string)
    requires svc.scheduler == Scheduler.New(1) && svc.store == TaskStore.Empty()
    requires FileActionOf(input) == NoFiles && w.mkdirFailure.None? && w.configFailure.None?
    requires res.success
    ensures var c := CreateTask(svc, input, w);
      && c.Ok?
      && var x := CancelTask(c.value.svc, w.taskId, t1);
         && x.Ok?
         && TaskStore.GetById(x.value.0.store, w.taskId).value.status == Cancelled
         && |x.value.0.scheduler.inflight| == 1
         && var s := SettleTask(x.value.0, 0, Scheduler.Fulfilled(res), t2);
            TaskStore.GetById(s.0.store, w.taskId).value.status == Completed
  {
    FreshStartRuns(svc, input, w);
    var s1 := CreateTask(svc, input, w).value.svc;
    CancelKeepsRunning(s1, w.taskId, t1);
    var x := CancelTask(s1, w.taskId, t1).value.0;
    SettleCompletes(x, res, t2);
  }

  /** Cancelling the one running task of an idle queue leaves its execution
      in flight. */
  lemma {:induction false} CancelKeepsRunning(s1: Service, id: string, now: string)
    requires Scheduler.Valid(s1.scheduler) && s1.scheduler.queue == []
    requires id in s1.scheduler.running && TaskStore.GetById(s1.store, id).Some?
    ensures CancelTask(s1, id, now).Ok?
    ensures CancelTask(s1, id, now).value.0.scheduler.inflight == s1.scheduler.inflight
  {
    assert !Scheduler.InQueue(s1.scheduler, id);
  }

  /** A successful result settling the only execution completes its record. */
  lemma {:induction false} SettleCompletes(x: Service, res: ExecutorResult, now: string)
    requires Scheduler.Valid(x.scheduler) && |x.scheduler.inflight| == 1
    requires TaskStore.GetById(x.store, x.scheduler.inflight[0].taskId).Some?
    requires res.success
    ensures TaskStore.GetById(SettleTask(x, 0, Scheduler.Fulfilled(res), now).0.store,
      x.scheduler.inflight[0].taskId).value.status == Completed
  {
  }

  /** On an idle single-slot service, a task without files whose workspace
      and MCP document are written starts at once. */
  lemma {:induction false} FreshStartRuns(svc: Service, input: CreateTaskInput, w: World)
    requires svc.scheduler == Scheduler.New(1) && svc.store == TaskStore.Empty()
    requires FileActionOf(input) == NoFiles && w.mkdirFailure.None? && w.configFailure.None?
    ensures CreateTask(svc, input, w).Ok?
    ensures var s1 := CreateTask(svc, input, w).value.svc;
      && Scheduler.Valid(s1.scheduler)
      && s1.scheduler.inflight == [Enqueued(svc, input, w)]
      && w.taskId in s1.scheduler.running
      && s1.scheduler.queue == []
      && TaskStore.GetById(s1.store, w.taskId).Some?
  {
    var c := CreateTask(svc, input, w);
    assert c.Ok?;
  }
}

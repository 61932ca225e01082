# claude-swarm in Dafny

A Dafny model of the server core of claude-swarm. The server takes prompts for Claude agents as tasks, runs them with bounded concurrency, and keeps a knowledge base of reusable skills. The model covers:

- the bounded-concurrency **scheduler**, as a state machine whose executions settle through explicit events;
- the **task lifecycle**: the task store, the task service and its completion callback;
- the per-task **log broadcaster**;
- the **SDK and container executors**: the SDK message stream folded into log lines and one result, and the container's exit status and `result.json` mapped to a result;
- the **knowledge subsystem**:
  - the SQL-backed entry store, with its filters and sort orders;
  - the service: slugs, prompt context, the running average of ratings, learning from a workspace, disk/database sync and update;
  - the on-disk skill folders (`skill.yaml`, `prompt.md`, `code/`);
- the **workspace helpers**: the workspace path, `.claude.json` and the artifact walk;
- the **HTTP routes** for tasks and knowledge, including artifact download with its path-traversal guard and the log stream's server-sent events;
- the **request schemas**, the **error classes** and the **error handler**, the **MCP profile store** and the **configuration**.

The model is functional throughout:

- Stores are sequences of rows in insertion order. Services and routes are functions from a state to a new state and a reply.
- A file system is a tree of named nodes. Paths resolve lexically, as Node's `path.resolve` and `path.join` do.
- JSON is a datatype with whole numbers only. `JSON.stringify` and `JSON.parse` are modelled, and proved inverse to each other.
- Time stamps, fresh ids, durations, the process environment and the outcome of external calls (Docker, git, zip extraction, the Agent SDK's message stream) are parameters.

One module per source component:

- Foundations: `Wrappers`, `Strs` (JavaScript string operations, `String`/`parseInt`), `Json`, `JsonParse`, `Paths`, `FileSystem`, `Mime`, `Types`, `Errors`.
- Tasks: `Config`, `Scheduler`, `TaskLogStore`, `TaskStore`, `TaskService`.
- Executors: `SdkExecutor`, `ContainerExecutor`.
- Workspace and knowledge: `WorkspaceManager`, `McpProfileStore`, `KnowledgeStore`, `KnowledgeManager`, `KnowledgeService`.
- HTTP: `Schemas`, `ErrorHandler`, `Artifacts`, `TaskRoutes`, `KnowledgeRoutes`.

Where the repository's tests and its code disagree, the model follows the code. The configuration defaults are port 3030, a timeout of 1800000 ms and mode `sdk`, as `src/config.ts` sets them. The context header is the one `buildContext` writes. The task service has none of the knowledge features its tests exercise.

## Model

| member | source | states |
|---|---|---|
| Config.Defaults | src/config.ts:19-35 | with an empty environment every setting takes its default: port 3030, host 0.0.0.0, 3 slots, a timeout of 1800000 ms, mode `sdk`, a context of 20, learning on, level `info`, and the storage paths under `<cwd>/data` |
| Config.EmptyIsUnset | src/config.ts:19-35 | setting any variable to the empty text yields the same configuration as leaving it unset |
| Config.NumbersReadBack | src/config.ts:22-31 | a number printed into PORT, MAX_CONCURRENCY, DEFAULT_TIMEOUT or KNOWLEDGE_MAX_CONTEXT is read back as that number |
| Config.DataDirMovesStorage | src/config.ts:20-30 | a non-empty DATA_DIR moves the database, the workspaces and the knowledge directory under it unless each is set itself |
| Config.GetConfig | src/config.ts:19-35 | each setting is its variable when set and non-empty, else its default; the numbers are read with `parseInt`; the database, workspaces and knowledge paths default to places under the data directory; learning is off only for the exact text `false` (Defaults, EmptyIsUnset, NumbersReadBack and DataDirMovesStorage state the consequences) |
| Config.EnvOr | src/config.ts:20-33 | the variable's value when it is set and non-empty, otherwise the fallback |
| Errors.NewSwarmError | src/shared/errors.ts:1-10 | the base error keeps message and code, and its details default to the empty object |
| Errors.TaskNotFoundError | src/shared/errors.ts:12-17 | code TASK_NOT_FOUND; the message is `Task not found: ` followed by the id, from which the id can be read back; the details hold just the id |
| Errors.ValidationError | src/shared/errors.ts:19-24 | code VALIDATION_ERROR; the details hold the issues, one object per issue, in order |
| Errors.ExecutionError | src/shared/errors.ts:26-31 | code EXECUTION_ERROR; the details hold the task id, and `stderr` exactly when one was given |
| Errors.TimeoutError | src/shared/errors.ts:33-38 | code TIMEOUT; the message names the task and the timeout in ms; the details hold both |
| Errors.WorkspaceError | src/shared/errors.ts:40-45 | code WORKSPACE_ERROR; the details given are stored as they are, and default to the empty object |
| Errors.SubclassCodesDistinct | src/shared/errors.ts:12-45 | the five subclass codes and the handler's INTERNAL_ERROR are pairwise different |
| ErrorHandler.Handle | src/api/middleware/error-handler.ts:4-14 | status 404 exactly for a TaskNotFoundError, 400 exactly for another of our errors with code VALIDATION_ERROR, 500 otherwise; the body reports the error's own code, or INTERNAL_ERROR for a foreign error |
| ErrorHandler.StatusOfEachClass | src/api/middleware/error-handler.ts:4-14 | the status each error class receives: 404, 400, then 500 for execution, timeout, workspace and foreign errors |
| ErrorHandler.DetailsKeptExceptNotFound | src/api/middleware/error-handler.ts:8-11 | a 400 or 500 for one of our errors carries its details object unchanged |
| ErrorHandler.ErrorBody | src/api/middleware/error-handler.ts:6-13 | the body `{error: {code, message}}` reads back its code and message and has no details |
| ErrorHandler.ErrorBodyWithDetails | src/api/middleware/error-handler.ts:10 | the body `{error: {code, message, details}}` reads back all three |
| Scheduler.New | src/scheduler/scheduler.ts:11-18 | a new scheduler has nothing queued, running or in flight, and meets the capacity invariant |
| Scheduler.Drain | src/scheduler/scheduler.ts:74-79 | the tasks started are a prefix of the queue, in queue order, and each becomes in flight; `running` becomes the old map with one `set` per started task, so every other task keeps its executor and each started task runs under its own; afterwards the queue is empty or every slot is taken; with every slot taken nothing happens |
| Scheduler.DrainCons | src/scheduler/scheduler.ts:74-79 | starting the head and then draining the rest is a drain of the whole queue |
| Scheduler.RunsMeans | src/scheduler/scheduler.ts:53 | after one `running.set` per started task (`Runs`), the ids are the old ones plus the started ones, an id not started keeps its executor, and a task not started again later runs under its own executor |
| Scheduler.Enqueue | src/scheduler/scheduler.ts:20-26 | keeps the invariant; with a slot free the task starts at once, takes a slot under its executor (`run`'s `running.set`, scheduler.ts:53) and the queue is unchanged; otherwise it joins the tail of the queue, nothing starts and `running` is unchanged |
| Scheduler.QueueIndex | src/scheduler/scheduler.ts:29 | `findIndex`: the first queue position holding the id, or the queue's length when none does |
| Scheduler.Cancel | src/scheduler/scheduler.ts:28-42 | a queued task is removed (first match) with no call and the answer is true; a running task has its executor's `cancel` called first and loses its slot; the tasks started next are a prefix of the queue, every other running task keeps its executor and each started one runs under its own; answer true; otherwise nothing changes and the answer is false |
| Scheduler.CancelRunning | src/scheduler/scheduler.ts:34-40 | the executor's `cancel` comes first; only executions follow, and they start a prefix of the queue, which keeps the rest; `running` becomes the old map without `id`, with one `set` per started task: the other tasks keep their executors and each started task runs under its own |
| Scheduler.SchedulerErrorResult | src/scheduler/scheduler.ts:60-68 | a rejected execution is reported as a failure with code SCHEDULER_ERROR, the rejection's message as logs and error message, no artifacts and duration 0 |
| Scheduler.Settle | src/scheduler/scheduler.ts:54-70 | a settling execution's completion callback fires first with the result (or the SCHEDULER_ERROR result); `running` loses the settled id and gains the tasks started from the head of the queue, each under its own executor, while every other running task keeps its executor; the queue keeps the rest; the invariant is kept |
| Scheduler.Apply | src/scheduler/scheduler.ts:20-79 | every enqueue, cancel and settlement keeps the invariant and the number of slots |
| Scheduler.ReplayValid | src/scheduler/scheduler.ts:20-79 | after any run of events, no more tasks run than there are slots, and a task waits only while every slot is taken |
| Scheduler.EnqueueAll | src/scheduler/scheduler.ts:20-26 | a run of enqueues keeps the invariant |
| Scheduler.EnqueueDistinctRunning | src/scheduler/scheduler.ts:20-26 | enqueuing tasks with distinct ids into a new scheduler runs exactly the first `min(n, max)` of them |
| Scheduler.EnqueueDistinctQueue | src/scheduler/scheduler.ts:20-26 | ... and queues the rest in enqueue order |
| Scheduler.GetStatusAfterEnqueues | src/scheduler/scheduler.ts:44-50 | after `n > max` distinct enqueues, `getStatus` reports `max` running, `n - max` queued and the slot count |
| Scheduler.GetStatus | src/scheduler/scheduler.ts:44-50 | the status counts the running and queued tasks and reports the slot count |
| Scheduler.OneSlotRunsInOrder | src/scheduler/scheduler.ts:20-79 | with one slot, the second of two tasks starts only when the first settles, and the callbacks fire in enqueue order |
| Scheduler.CancelledRunningTaskStillCompletes | src/scheduler/scheduler.ts:28-59 | cancelling a running task frees its slot, but its execution is still in flight and its completion callback fires when it settles |
| Scheduler.InflightCanExceedSlots | src/scheduler/scheduler.ts:20-59 | after a running task is cancelled a new task starts, so two executions are in flight with one slot while `running` stays within bounds |
| Scheduler.CancelQueuedNeverStarts | src/scheduler/scheduler.ts:28-33 | in any valid state, cancelling a task queued once calls nothing, and no later run of events that does not enqueue the id again starts an execution with it |
| Scheduler.CancelQueuedLeavesQueue | src/scheduler/scheduler.ts:29-32 | cancelling a task queued once answers true, calls nothing, and leaves no queue entry with its id |
| Scheduler.ApplyNeverStarts | src/scheduler/scheduler.ts:20-79 | an id that is not queued is not started by an enqueue of another id, a cancel or a settlement, and stays out of the queue: every start is of the task being enqueued or of the queue's head |
| Scheduler.ReplayNeverStarts | src/scheduler/scheduler.ts:20-79 | an id that is not queued is started by no run of events that does not enqueue it |
| Scheduler.CancelSecondOfTwo | src/scheduler/scheduler.ts:28-33 | an example: with one slot, cancelling the second of two tasks empties the queue and leaves only the first in flight |
| TaskLogStore.Append | src/storage/task-log.store.ts:13-19 | the chunk is added to the end of the task's buffer, creating it if needed; each listener of that task is called with it, in registration order; other buffers and all listeners are unchanged |
| TaskLogStore.Get | src/storage/task-log.store.ts:22-25 | a task without a buffer reads as the empty text |
| TaskLogStore.Subscribe | src/storage/task-log.store.ts:28-30 | the listener is registered last on that task only; buffers are unchanged |
| TaskLogStore.RemoveLast | src/storage/task-log.store.ts:31-33 | removing a listener drops one registration of it, when there is one, and keeps the others |
| TaskLogStore.Unsubscribe | src/storage/task-log.store.ts:31-33 | the returned function removes that one registration from that task's event and nothing else |
| TaskLogStore.Clear | src/storage/task-log.store.ts:37-40 | the task's buffer and all its listeners go; other tasks are unchanged |
| TaskLogStore.GetIsChunksSinceClear | src/storage/task-log.store.ts:13-45 | from an empty store, `get` is the concatenation of the chunks appended since the last `clear`, in order, and `has` tells whether any append happened since then |
| TaskLogStore.ApplyChunks | src/storage/task-log.store.ts:13-45 | what each operation does to one task's buffer: an append adds the chunk, a clear empties it, the rest leave it |
| TaskLogStore.ReceivedByBroadcast | src/storage/task-log.store.ts:18 | one append delivers its chunk to a listener once per registration on that task |
| TaskLogStore.SubscriberSeesLaterChunks | src/storage/task-log.store.ts:13-33 | a listener registered once receives exactly the chunks appended to its task afterwards, in order, until it is removed or the task is cleared |
| TaskLogStore.LateSubscriberScenario | src/storage/task-log.store.ts:13-33 | a listener that subscribes after an append sees only the later chunk while `get` returns both |
| McpProfileStore.Create | src/storage/mcp-profile.store.ts:15-24 | the insert fails exactly when the id or the name is taken, with the matching UNIQUE message; otherwise the new profile reads back with its servers and is listed last, and other ids read as before |
| McpProfileStore.Inserted | src/storage/mcp-profile.store.ts:15-33 | a row appended with a new id reads back as the profile it stores, every other id as before, and the listing grows by it |
| McpProfileStore.GetById | src/storage/mcp-profile.store.ts:26-30 | null exactly when no row has the id; otherwise a profile with that id |
| McpProfileStore.List | src/storage/mcp-profile.store.ts:32-34 | one profile per row, in table order |
| McpProfileStore.Delete | src/storage/mcp-profile.store.ts:36-38 | the profile is gone; an unknown id changes nothing |
| McpProfileStore.DeleteOthers | src/storage/mcp-profile.store.ts:36-38 | deleting one profile leaves every other one readable as before |
| McpProfileStore.ToProfile | src/storage/mcp-profile.store.ts:40-47 | a profile keeps the row's id, name and creation time |
| McpProfileStore.ReadServersWritten | src/storage/mcp-profile.store.ts:20-44 | servers stored with `JSON.stringify` are read back unchanged by `JSON.parse` |
| McpProfileStore.DecodeServersJson | src/storage/mcp-profile.store.ts:20-44 | a server list decodes from its JSON as written |
| McpProfileStore.DecodeServerJson | src/storage/mcp-profile.store.ts:20-44 | `DecodeServer`: each server decodes from its JSON object as written, `args` and `env` included |
| TaskRoutes.NotFound | src/api/routes/tasks.ts:52-53 | a caught TaskNotFoundError becomes a 404 carrying code TASK_NOT_FOUND and the message that names the id |
| TaskRoutes.Create | src/api/routes/tasks.ts:31-40 | text that is not JSON escapes the route; a body the schema refuses is a 400 VALIDATION_ERROR `Invalid request`; a 202 is answered exactly when the body parses, conforms and the service accepts it, and then the reply is the stored, running record with the request's prompt; nothing changes on any other outcome |
| TaskRoutes.List | src/api/routes/tasks.ts:42-45 | without a status, or with an empty one, every stored task is listed; otherwise exactly the tasks whose status name equals the query, and nothing that is not stored |
| TaskRoutes.UnknownStatusName | src/api/routes/tasks.ts:43-44 | a query that names no status matches no stored task, so the list is empty |
| TaskRoutes.KnownStatusName | src/api/routes/tasks.ts:43-44 | a query that names a status matches exactly the tasks in that status |
| TaskRoutes.Get | src/api/routes/tasks.ts:47-57 | the stored record with 200 exactly when the id is stored, otherwise the 404 for that id |
| TaskRoutes.ListArtifacts | src/api/routes/tasks.ts:60-74 | 404 exactly for an unknown id; an empty list for a task without a workspace; otherwise exactly the visible files of the workspace |
| TaskRoutes.MimeTypesDistinct | src/api/routes/tasks.ts:10-26 | the extension table names each extension once, so every lookup has one answer |
| TaskRoutes.DownloadArtifactWith | src/api/routes/tasks.ts:77-124 | the checks in order: 404 unknown task, 404 NO_WORKSPACE, 400 MISSING_PATH, 403 FORBIDDEN when the guard passed in refuses the resolved path, 404 NOT_FOUND, 400 NOT_FILE; a download exactly when all pass and a file is there, and then it carries that file's content, the type of its lower-cased extension, an attachment header with its base name and its length |
| TaskRoutes.DownloadArtifact | src/api/routes/tasks.ts:77-124 | the route as served, with the written guard: a download exactly when the task has a workspace, the artifact path is non-empty, the resolved path starts with the resolved workspace as text and a file is there; 403 FORBIDDEN exactly when that textual test fails |
| TaskRoutes.DownloadArtifactIntended | src/api/routes/tasks.ts:89-93 | the same route with the intended guard: a download only for a file that is the workspace or lies below it; 403 exactly for a resolved path outside it |
| TaskRoutes.SiblingServed | src/api/routes/tasks.ts:89-93 | for a workspace `…/<name>` and the artifact path `../<name><extra>`, the route downloads the file beside the workspace, while the intended route answers 403 |
| TaskRoutes.AbsoluteSiblingServed | src/api/routes/tasks.ts:84-93 | an absolute artifact path to a file below `…/<name><extra>`, such as the one in `/api/tasks/1/artifacts//w/task-10/secret` for the workspace `/w/task-1`, is downloaded by the route, while the intended route answers 403 |
| TaskRoutes.Frame | src/api/routes/tasks.ts:142 | an event is framed as `data: ` before and a blank line after |
| TaskRoutes.FrameRoundTrip | src/api/routes/tasks.ts:142-159 | a client that strips the frame and parses the rest gets back exactly the object the server sent |
| TaskRoutes.Logs | src/api/routes/tasks.ts:127-187 | 404 exactly for an unknown id; a stream exactly when the client accepts `text/event-stream` and the task is queued or running, opening with one `log` event holding the logs so far and with none when there are none; otherwise `{taskId, status, logs}` at once |
| TaskRoutes.ChunkFrame | src/api/routes/tasks.ts:146-152 | each chunk a subscriber receives reaches the client as one `log` event holding that chunk |
| TaskRoutes.Poll | src/api/routes/tasks.ts:155-168 | the stream closes with a `done` event carrying the final status exactly when the task has left queued and running, and ends silently exactly when the task can no longer be read |
| TaskRoutes.Cancel | src/api/routes/tasks.ts:189-199 | 404 with nothing changed exactly for an unknown id; otherwise `{ok: true}`, the task is cancelled and every other task reads as before |
| TaskRoutes.UpperCaseExtension | src/api/routes/tasks.ts:101-102 | an upper-case `.PDF` extension is still served as `application/pdf` |
| TaskRoutes.CreatedTaskCanBeRead | src/api/routes/tasks.ts:37-57 | a task the create route accepted is answered by the read route with the same record |
| Artifacts.ArtifactPath | src/api/routes/tasks.ts:84 | the artifact path is whatever follows the first `/artifacts/` of the request path, and empty when there is none |
| Artifacts.ArtifactPathOfRequest | src/api/routes/tasks.ts:84 | for a request `<prefix>/artifacts/<p>` whose prefix holds no `/artifacts/`, the artifact path is exactly `p`, even when `p` itself contains `/artifacts/` |
| Artifacts.GuardAsWritten | src/api/routes/tasks.ts:91 | the written guard holds exactly when every character of the resolved root appears at the same place at the start of the resolved path |
| Artifacts.Inside | src/api/routes/tasks.ts:89-93 | whatever the intended guard admits, the written one admits too; a path it admits that is longer than the root continues with `/` right after it |
| Artifacts.InsideIsGuarded | src/api/routes/tasks.ts:89-93 | every path the intended guard admits is admitted by the written one too |
| Artifacts.PlainPathsPass | src/api/routes/tasks.ts:89-93 | a relative artifact path without `..` always resolves inside the workspace |
| Artifacts.GuardAdmitsSibling | src/api/routes/tasks.ts:89-93 | the written prefix guard admits `../<name><extra>`, a sibling directory whose name extends the workspace's, which the intended guard refuses |
| Artifacts.GuardAdmitsAbsoluteSibling | src/api/routes/tasks.ts:89-93 | an absolute path below such a sibling resolves to itself, and the written guard admits it while the intended guard refuses it |
| Artifacts.AbsoluteArtifactPath | src/api/routes/tasks.ts:84 | the request `/api/tasks/1/artifacts//w/task-10/secret` carries the artifact path `/w/task-10/secret` |
| KnowledgeRoutes.Sync | src/api/routes/knowledge.ts:32-35 | the reply is the service's sync counts exactly when the sync succeeds, with `synced` the number of entries on disk; a skill file missing its title or description escapes as an error |
| KnowledgeRoutes.Query | src/api/routes/knowledge.ts:45-48 | a query parameter counts exactly when it is present and non-empty, and then as itself |
| KnowledgeRoutes.ParseSort | src/api/routes/knowledge.ts:42-48 | `rating`, `date` and `title` select the three orders, each exactly for its own name |
| KnowledgeRoutes.MeetsConds | src/api/routes/knowledge.ts:38-50 | a row meets the status, category and tag asked for exactly when it satisfies every condition the store's query is built from |
| KnowledgeRoutes.MeetsLastConds | src/storage/knowledge.store.ts:94-102 | a row answers the query as issued exactly when it meets the last filter given (tag, else category, else status), which is the one condition the store's query keeps |
| KnowledgeRoutes.List | src/api/routes/knowledge.ts:38-52 | `{data, total}` with total the length of data; data holds exactly the stored entries that meet the last filter given, since each `.where` replaces the one before; `rating` orders by descending average, `title` by ascending title, `date` newest first |
| KnowledgeRoutes.ListIntended | src/api/routes/knowledge.ts:38-52 | the list as intended: exactly the stored entries that meet every filter given, in the same orders |
| KnowledgeRoutes.ListAgreesOnOneFilter | src/api/routes/knowledge.ts:45-50 | with at most one of status, category and tag given, the route lists what was intended |
| KnowledgeRoutes.ListDropsStatus | src/api/routes/knowledge.ts:38-52 | `?status=active&tag=x` returns a deprecated entry tagged `x`, which the intended list leaves out |
| KnowledgeRoutes.EmptyQueriesIgnored | src/api/routes/knowledge.ts:45-50 | empty status, category and tag parameters list the same as none at all |
| KnowledgeRoutes.Get | src/api/routes/knowledge.ts:55-61 | the stored entry with that id exactly when there is one, otherwise 404 NOT_FOUND |
| KnowledgeRoutes.Create | src/api/routes/knowledge.ts:64-72 | 400 exactly for a JSON body the schema refuses, and then nothing changes; text that is not JSON escapes; a 201 entry has the request's title and description, the slug of the title as id, and is stored under it |
| KnowledgeRoutes.Update | src/api/routes/knowledge.ts:75-86 | text that is not JSON escapes with nothing changed; JSON is answered as the parsed body is |
| KnowledgeRoutes.UpdateBody | src/api/routes/knowledge.ts:75-86 | 400 exactly for a body the schema refuses, 404 exactly for a valid body and an unknown id, with nothing changed in both; otherwise the entry with the updates applied, as stored afterwards |
| KnowledgeRoutes.Delete | src/api/routes/knowledge.ts:89-96 | 404 exactly for an unknown id, with nothing changed; otherwise `{ok: true}` and the entry is gone; no other entry changes either way |
| KnowledgeRoutes.Rate | src/api/routes/knowledge.ts:99-113 | text that is not JSON escapes with nothing changed; JSON is answered as the parsed body is |
| KnowledgeRoutes.RateBody | src/api/routes/knowledge.ts:99-113 | 400 exactly for a score the schema refuses, checked before the id; 404 exactly for a valid score and an unknown id; nothing changes unless a rating is answered, which happens exactly for a valid score and a known id |
| KnowledgeRoutes.RateScore | src/services/knowledge.service.ts:119-147 | a rating moves the stored average to the rounded mean of the old votes and the new score, adds one vote, stamps the time, and leaves every other entry alone |
| KnowledgeRoutes.RateValidatesFirst | src/api/routes/knowledge.ts:100-109 | a score of 9 for an unknown id is a 400, not a 404 |
| KnowledgeRoutes.ListArtifacts | src/api/routes/knowledge.ts:116-123 | 404 exactly for an unknown id; otherwise exactly the names in the entry's `artifacts` directory under the knowledge base |
| KnowledgeRoutes.MimeTypesDistinct | src/api/routes/knowledge.ts:9-25 | the extension table names each extension once |
| KnowledgeRoutes.DownloadArtifactWith | src/api/routes/knowledge.ts:126-168 | the checks in order: 404 unknown entry, 400 MISSING_PATH, 403 FORBIDDEN when the guard passed in refuses the resolved path, 404 NOT_FOUND, 400 NOT_FILE; a download exactly when all pass and a file is there, carrying its content, the type of its lower-cased extension, its base name and its length |
| KnowledgeRoutes.DownloadArtifact | src/api/routes/knowledge.ts:126-168 | the route as served, with the written guard: a download exactly when the entry exists, the artifact path is non-empty, the resolved path starts with the resolved `artifacts` directory as text and a file is there; 403 FORBIDDEN exactly when that textual test fails |
| KnowledgeRoutes.DownloadArtifactIntended | src/api/routes/knowledge.ts:137-143 | the same route with the intended guard: a download only for a file inside the entry's `artifacts` directory; 403 exactly for a resolved path outside it |
| KnowledgeRoutes.SiblingServed | src/api/routes/knowledge.ts:137-143 | for an `artifacts` directory `…/<name>` and the artifact path `../<name><extra>`, the route downloads the file beside it, while the intended route answers 403 |
| KnowledgeRoutes.AbsoluteSiblingServed | src/api/routes/knowledge.ts:137-143 | an absolute artifact path to a file below `…/<name><extra>` is downloaded by the route, while the intended route answers 403 |
| TaskService.ModeOf | src/services/task.service.ts:27 | a requested mode wins, and only its absence falls back on the service's default |
| TaskService.TimeoutOf | src/services/task.service.ts:70 | a requested non-zero timeout wins; an absent or zero one falls back on the default |
| TaskService.FileActionOf | src/services/task.service.ts:34-40 | an archive is extracted exactly when the files say `zip` and one was uploaded; a repository is cloned exactly when the files say `git` with a non-empty URL, and with that URL and ref |
| TaskService.FileError | src/services/task.service.ts:34-40 | a failed extraction or clone raises a WorkspaceError |
| TaskService.ProfileServersMembers | src/services/task.service.ts:47-54 | `ProfileServers`: a server comes from the profile list exactly when some listed profile that exists holds it |
| TaskService.ProfileServersAppend | src/services/task.service.ts:48-53 | the servers of two profile lists in a row are those of the first followed by those of the second |
| TaskService.UnknownProfilesSkipped | src/services/task.service.ts:49-52 | an id naming no profile contributes nothing wherever it stands in the list |
| TaskService.ProfileServersUnknown | src/services/task.service.ts:49-52 | a list of one unknown id yields no servers |
| TaskService.ResolveServers | src/services/task.service.ts:42-54 | the inline servers come first and in order; without a profile store or profile list they are all there is; a server is resolved exactly when it is inline or held by a listed, existing profile |
| TaskService.ParamsOf | src/services/task.service.ts:72-83 | the executor receives the id, prompt, API key, workspace, schema, timeout, model and permission mode of the request |
| TaskService.CreateTask | src/services/task.service.ts:26-96 | a failure to create the workspace directory is raised first, then a failed file step as its WorkspaceError, then a failure to write the MCP document when servers were resolved; creation succeeds exactly when none of these steps fails and the id is fresh; then the record is stored as `running` with the request's prompt, mode, tags and workspace and no other record changes, the work is enqueued with the scheduler keeping its invariant, and an MCP config is written exactly when servers were resolved |
| TaskService.StoreRunning | src/services/task.service.ts:60-66 | insertion succeeds exactly for a fresh id, and the record then reads as `running` from the start time with no other record changed |
| TaskService.Enqueued | src/services/task.service.ts:69-92 | the queued work carries the task's id, a process executor and the executor parameters of the request with the resolved timeout |
| TaskService.OnComplete | src/services/task.service.ts:85-91 | a success completes the record with `{data, valid}`, valid defaulting to true, and keeps its error; a failure records the error or `UNKNOWN` and keeps its result; both stamp the time and the duration; unknown ids and every other record are left alone |
| TaskService.RunEffectsNoComplete | src/services/task.service.ts:85-91 | effects that complete nothing leave the store as it was |
| TaskService.SettleTask | src/services/task.service.ts:85-91 | a settled execution frees its slot with the scheduler keeping its invariant, and the callback updates the record |
| TaskService.GetTask | src/services/task.service.ts:98-102 | the stored record exactly when there is one, otherwise a TaskNotFoundError for that id |
| TaskService.ListTasks | src/services/task.service.ts:104-106 | exactly the stored records in the status asked for, or all of them |
| TaskService.CancelTask | src/services/task.service.ts:108-113 | an unknown id raises TaskNotFoundError; otherwise the scheduler cancels the task and keeps its invariant, and the record becomes `cancelled` with every other field and every other record unchanged |
| TaskService.DefaultModeUnusedWithMode | src/services/task.service.ts:27 | when the request names a mode, the service's default mode changes nothing that is stored |
| TaskService.ProcessExecutorForEveryMode | src/services/task.service.ts:69 | every execution started or queued by a create uses a process executor, whatever mode was asked for |
| TaskService.QueuedTaskReportedRunning | src/services/task.service.ts:72-94 | with every slot taken, the new task waits at the end of the queue while its record already says `running` |
| TaskService.LateCompletionOverwritesCancel | src/services/task.service.ts:85-112 | a task cancelled while running keeps executing, and when it settles successfully its record goes from `cancelled` to `completed` |
| TaskService.CancelKeepsRunning | src/services/task.service.ts:108-113 | cancelling the one running task of an idle queue leaves its execution in flight |
| TaskService.SettleCompletes | src/services/task.service.ts:85-87 | a successful result settling the only execution completes its record |
| TaskService.FreshStartRuns | src/services/task.service.ts:26-96 | on an idle single-slot service a task without files, whose workspace and MCP document are written, starts at once |
| TaskStore.ParseColumnStringify | src/storage/task.store.ts:89-92 | a JSON value stored as text reads back as itself |
| TaskStore.ParseColumnOptional | src/storage/task.store.ts:33 | an optional value stored as text or NULL reads back as itself |
| TaskStore.Find | src/storage/task.store.ts:39-43 | the row found is a stored row with that id, and nothing is found exactly when no row has it |
| TaskStore.GetById | src/storage/task.store.ts:39-43 | null exactly when no row has the id; otherwise the row read through `ToRecord`, a record with that id |
| TaskStore.Create | src/storage/task.store.ts:24-37 | the insert fails exactly for an id already stored; otherwise the new record is `queued` with the given prompt, mode, tags and workspace, the creation time and nothing else set, the table grows by one row and no other record changes |
| TaskStore.FindAppend | src/storage/task.store.ts:24-43 | an appended row with a fresh id is found under that id, and every other id finds what it found before |
| TaskStore.Run | src/storage/task.store.ts:50 | an update keyed by id changes that row only, and nothing for an unknown id |
| TaskStore.FindSetWhere | src/storage/task.store.ts:50 | after an update keyed by id, that id finds the updated row and every other id finds its old row |
| TaskStore.UpdateStatus | src/storage/task.store.ts:45-51 | the status is set, and the start time too exactly for `running`; nothing else changes, and nothing at all for an unknown id |
| TaskStore.ResultJson | src/storage/task.store.ts:56 | the stored result reads back its `valid` flag and its `data`, absent when undefined |
| TaskStore.ErrorJson | src/storage/task.store.ts:65 | the stored error reads back its code and message |
| TaskStore.Complete | src/storage/task.store.ts:53-60 | status `completed`, the result, the completion time and the duration, whatever the status was, keeping the error; nothing else changes |
| TaskStore.Fail | src/storage/task.store.ts:62-69 | status `failed`, the error and the completion time, and the duration only when given; the result stays; nothing else changes |
| TaskStore.List | src/storage/task.store.ts:71-78 | every record without a status, otherwise exactly the stored records in that status, and nothing that is not stored |
| TaskStore.ListRowsSound | src/storage/task.store.ts:73-77 | every selected record is in the status asked for and comes from a stored row |
| TaskStore.ListRowsComplete | src/storage/task.store.ts:73-77 | every stored row in the status asked for is selected |
| TaskStore.CreateValid | src/storage/task.store.ts:24-37 | a create keeps ids unique and every JSON column readable |
| TaskStore.AppendValid | src/storage/task.store.ts:27-35 | appending a row with a fresh id and readable columns keeps the store valid |
| TaskStore.UpdatesValid | src/storage/task.store.ts:45-69 | every update keeps ids unique and every JSON column readable |
| TaskStore.CompleteAfterFailKeepsError | src/storage/task.store.ts:53-69 | a task that failed and then completed shows both its error and its result |
| KnowledgeService.Kept | src/services/knowledge.service.ts:287-294 | only letters and digits of `[a-z0-9]` are kept |
| KnowledgeService.KeptConcat | src/services/knowledge.service.ts:287-294 | the letters and digits of two texts in a row are those of the first followed by those of the second |
| KnowledgeService.DashRuns | src/services/knowledge.service.ts:290 | each run of other characters becomes a single dash: the result has only slug characters, no two dashes in a row, starts with a dash exactly when the text starts a new run, and keeps every letter and digit |
| KnowledgeService.CollapseNoDoubleDash | src/services/knowledge.service.ts:291 | collapsing dashes changes nothing once no two are adjacent |
| KnowledgeService.TrimDashKeeps | src/services/knowledge.service.ts:292 | trimming the end dashes keeps the slug characters and the letters and digits, and leaves no dash at either end |
| KnowledgeService.GenerateSlug | src/services/knowledge.service.ts:287-294 | a slug holds only `[a-z0-9-]`, never two dashes in a row, at most 60 characters, never a leading dash, and a trailing dash only when cut at 60 |
| KnowledgeService.SlugKeeps | src/services/knowledge.service.ts:287-294 | the slug keeps the title's lower-cased letters and digits in order: all of them when not cut, a prefix of them when cut |
| KnowledgeService.SlugOfNothing | src/services/knowledge.service.ts:287-294 | a title with no letter or digit, such as `!?`, gives the empty slug |
| KnowledgeService.SlugPlain | src/services/knowledge.service.ts:287-294 | a non-empty slug is a plain file name, so the entry's folder lies directly under the knowledge base |
| KnowledgeService.Create | src/services/knowledge.service.ts:40-73 | the folder is written first, and a failed write throws with the store untouched; on success the entry has the slug as id, the request's title, description, tags and category, source `manual`, the folder under the base, and is the one stored |
| KnowledgeService.AddRow | src/services/knowledge.service.ts:58-72 | the entry read back after the upsert carries the given fields and is the one stored |
| KnowledgeService.UpsertCarries | src/storage/knowledge.store.ts:49-83 | after an upsert under an id, that id reads back the given fields whether it overwrote or inserted |
| KnowledgeService.CreateAgrees | src/services/knowledge.service.ts:40-73 | after a create, a scan of the folders finds the entry with the row's id, title, description, tags, category, source and folder |
| KnowledgeService.SliceTo | src/services/knowledge.service.ts:96 | `slice(0, n)` gives a prefix of length `n`, the whole list when `n` exceeds it, and counts back from the end for a negative `n` |
| KnowledgeService.RatingSuffix | src/services/knowledge.service.ts:105 | the rating mark is present exactly for a positive rating |
| KnowledgeService.LinePairsAt | src/services/knowledge.service.ts:103-108 | line `2i` is entry `i` numbered `i + 1`, and line `2i + 1` is its folder line |
| KnowledgeService.JoinedPairsContain | src/services/knowledge.service.ts:102-110 | each entry's two lines appear in the joined text |
| KnowledgeService.BuildContext | src/services/knowledge.service.ts:94-111 | the context is empty exactly when no entry is listed |
| KnowledgeService.ContextNamesEach | src/services/knowledge.service.ts:102-110 | every listed entry appears in the context with its numbered line and its folder line |
| KnowledgeService.RatingTextReadsBack | src/services/knowledge.service.ts:105 | a rating prints as JavaScript prints the number of stars: `parseInt` of the text gives the whole stars, a `.` appears exactly when the tenths are not zero, and the text then ends with the tenths digit |
| KnowledgeService.ActiveConds | src/services/knowledge.service.ts:95 | the context's query keeps exactly the active rows |
| KnowledgeService.ContextListsActive | src/services/knowledge.service.ts:94-96 | the context lists only active entries, highest rated first, and all of them when the limit reaches the number of rows |
| KnowledgeService.ContextTopRated | src/services/knowledge.service.ts:94-96 | no active entry left out of the context is rated above one listed |
| KnowledgeService.RoundDivNearest | src/services/knowledge.service.ts:128 | `RoundDiv`, the model of `Math.round(n / d)`: the rounded quotient is within a half of the exact one |
| KnowledgeService.RoundDivBetween | src/services/knowledge.service.ts:128 | a quotient of a value between `lo * d` and `hi * d` rounds to between `lo` and `hi` |
| KnowledgeService.NewAverageRounds | src/services/knowledge.service.ts:125-128 | `NewAverage`: the new average is the mean of the old votes and the new one, rounded to the nearest tenth with halves up |
| KnowledgeService.AverageInRange | src/services/knowledge.service.ts:125-128 | votes of one to five stars keep the average between 1.0 and 5.0 |
| KnowledgeService.RateFolder | src/services/knowledge.service.ts:133-144 | the `skill.yaml` update is best effort: either the folder is unchanged or the document's rating reads the new average, count and no votes |
| KnowledgeService.Rate | src/services/knowledge.service.ts:119-147 | an unknown id throws with nothing changed; otherwise the pair returned is the new rounded average and the count plus one, the store holds them with the time, and no other entry changes |
| KnowledgeService.RateFiveThenThree | src/services/knowledge.service.ts:119-147 | a fresh entry rated five and then three stars reads 5.0 of one vote, then 4.0 of two |
| KnowledgeService.UpsertScanned | src/storage/knowledge.store.ts:49-83 | an upsert of a scanned entry succeeds exactly when it overwrites or inserts with both title and description; a missing title or description is the error; the entry reads back the given fields; an overwrite keeps the missing ones and the status, rating, votes and creation time; an insert starts active and unrated; no other entry changes |
| KnowledgeService.LearnFromWorkspace | src/services/knowledge.service.ts:153-172 | nothing is stored when the workspace holds no entry; otherwise the entry stored has the document's id, tags and category, source `auto`, the task as origin, its folder under the base, and the document's title and description when given |
| KnowledgeService.LearnKeepsRating | src/services/knowledge.service.ts:160-171 | learning an entry already stored keeps its status, votes and creation time; a new one starts active and unrated |
| KnowledgeService.LearnCopiesSkill | src/services/knowledge.service.ts:153-172 | the learned entry's folder holds the workspace's `skill.yaml` |
| KnowledgeService.NewOnDisk | src/services/knowledge.service.ts:189-190 | exactly the disk entries whose id the store's listing lacks |
| KnowledgeService.Orphans | src/services/knowledge.service.ts:206-207 | exactly the listed entries whose id no disk entry has |
| KnowledgeService.AddMissing | src/services/knowledge.service.ts:189-203 | every disk entry missing from the store is upserted and counted; entries already listed are untouched; an entry not yet stored stays unrated; a throw is a missing title or description |
| KnowledgeService.RemoveOrphans | src/services/knowledge.service.ts:206-211 | every listed entry missing on disk is deleted and counted; nothing is created and entries found on disk are untouched |
| KnowledgeService.DiskEntries | src/workspace/knowledge-manager.ts:111-136 | every scanned entry has a non-empty id |
| KnowledgeService.Sync | src/services/knowledge.service.ts:178-218 | the folders are not touched; the counts are the disk entries, those added and those removed; a throw is a missing title or description |
| KnowledgeService.DbIdsStored | src/services/knowledge.service.ts:180-183 | the unfiltered listing names exactly the stored ids |
| KnowledgeService.SyncMirrors | src/services/knowledge.service.ts:178-218 | after a sync the store holds an entry for exactly the ids on disk; entries already stored are left as they were, rating and all; new ones start unrated |
| KnowledgeService.YamlFields | src/services/knowledge.service.ts:250-255 | the keys sent to `skill.yaml` are pairwise different |
| KnowledgeService.YamlUpdates | src/services/knowledge.service.ts:250-259 | nothing is sent exactly when the request sets nothing |
| KnowledgeService.Update | src/services/knowledge.service.ts:223-265 | an unknown id gives null with nothing changed; otherwise the stored entry is the old one with the status, fields and time the request sets, and is returned; the upsert of an empty id fails after the status is set; no other entry changes; `skill.yaml` is updated when it can be and otherwise left alone |
| KnowledgeService.UpdateStore | src/services/knowledge.service.ts:229-246 | the store side fails only for the empty id, and otherwise stores the updated entry with no other entry changed |
| KnowledgeService.UpdateFolder | src/services/knowledge.service.ts:248-262 | the folder is unchanged or holds the updated `skill.yaml`, and is updated whenever there is something to send and the file loads |
| KnowledgeService.YamlUpdatesLookup | src/services/knowledge.service.ts:250-255 | each key sent reads as the request gives it: title and description when truthy, tags, category and status when given |
| KnowledgeService.YamlUpdatesOther | src/services/knowledge.service.ts:250-255 | no other key is sent |
| KnowledgeService.UpdateWritesYaml | src/services/knowledge.service.ts:248-262 | when the file loads, an update that sets anything writes the set fields and the update time, and every other key reads what the loaded value held under it (`KnowledgeManager.OwnField`): a mapping's member, or the character or item a string or list holds at that index |
| KnowledgeService.DeleteEntry | src/services/knowledge.service.ts:270-273 | the entry is gone from the store and no other entry changes |
| KnowledgeService.DeleteAfterCreate | src/services/knowledge.service.ts:270-273 | a created entry, once deleted, is gone from the store and its prompt and `skill.yaml` can no longer be read |
| KnowledgeStore.ParseKStatus | src/shared/types.ts:84 | a text names a status exactly when it is `active`, `draft` or `deprecated`, and then that status |
| KnowledgeStore.ParseKStatusName | src/storage/knowledge.store.ts:148 | a status name reads back as its status |
| KnowledgeStore.ReadTagsWritten | src/storage/knowledge.store.ts:146 | a tag list written as JSON reads back unchanged |
| KnowledgeStore.Find | src/storage/knowledge.store.ts:85-89 | the row found is a stored row with that id, and nothing is found exactly when no row has it |
| KnowledgeStore.GetById | src/storage/knowledge.store.ts:85-89 | null exactly when no row has the id, otherwise the entry with that id |
| KnowledgeStore.Insert | src/storage/knowledge.store.ts:70-81 | the insert fails with the primary-key error exactly for a taken id; otherwise the new entry is active, unrated, `auto` unless a source is given, stamped with the time, and no other entry changes |
| KnowledgeStore.Create | src/storage/knowledge.store.ts:31-47 | the same for a generated id |
| KnowledgeStore.FindAppend | src/storage/knowledge.store.ts:70-89 | an appended row with a fresh id is found under it, and every other id finds what it found before |
| KnowledgeStore.FindSetWhere | src/storage/knowledge.store.ts:63 | after an update keyed by id, that id finds the updated row and every other id its old row |
| KnowledgeStore.Run | src/storage/knowledge.store.ts:63 | an update keyed by id changes that row only, and nothing for an unknown id |
| KnowledgeStore.Upsert | src/storage/knowledge.store.ts:49-83 | a non-empty id naming a stored entry overwrites it (keeping status, rating and creation time, the source and origin when none is given, and clearing a category not given) and returns the id; otherwise a row is inserted under the given id or the fresh one, which fails exactly when that id is taken; no other entry changes |
| KnowledgeStore.UpdateRating | src/storage/knowledge.store.ts:122-128 | the rating, the vote count and the time change and nothing else; an unknown id changes nothing |
| KnowledgeStore.UpdateStatus | src/storage/knowledge.store.ts:130-135 | the status and the time change and nothing else; an unknown id changes nothing |
| KnowledgeStore.Without | src/storage/knowledge.store.ts:137-139 | exactly the rows with another id are kept |
| KnowledgeStore.WithoutKeepsOthers | src/storage/knowledge.store.ts:137-139 | removing one id leaves what every other id finds |
| KnowledgeStore.Delete | src/storage/knowledge.store.ts:137-139 | the entry is gone, every other entry reads as before, and an unknown id changes nothing |
| KnowledgeStore.Conds | src/storage/knowledge.store.ts:94-102 | a filter asks for at most three conditions |
| KnowledgeStore.Where | src/storage/knowledge.store.ts:92-102 | exactly the stored rows meeting every condition, in table order, and every row when all meet them |
| KnowledgeStore.BeforeTotal | src/storage/knowledge.store.ts:105-117 | any two rows can be ordered under each sort key |
| KnowledgeStore.BeforeTrans | src/storage/knowledge.store.ts:105-117 | each sort key's order is transitive |
| KnowledgeStore.InsertSorted | src/storage/knowledge.store.ts:105-117 | inserting into sorted rows keeps them sorted and adds exactly the one row |
| KnowledgeStore.LeadsAll | src/storage/knowledge.store.ts:105-117 | a row before the first of sorted rows is before all of them |
| KnowledgeStore.PrependSorted | src/storage/knowledge.store.ts:105-117 | a row before all of sorted rows can go in front of them |
| KnowledgeStore.InsertStep | src/storage/knowledge.store.ts:105-117 | the first row stays in front once the new one has gone into the rest |
| KnowledgeStore.SortRows | src/storage/knowledge.store.ts:105-117 | the rows come out sorted and are a permutation of the rows given |
| KnowledgeStore.ListRows | src/storage/knowledge.store.ts:91-119 | a permutation of the rows meeting the filter, sorted by the key when one is given and in table order otherwise |
| KnowledgeStore.ListRowsMembers | src/storage/knowledge.store.ts:91-119 | the rows listed are exactly the rows meeting the filter |
| KnowledgeStore.Entries | src/storage/knowledge.store.ts:119 | each row becomes its entry through `ToEntry`, in order |
| KnowledgeStore.ListSound | src/storage/knowledge.store.ts:91-119 | every entry listed is a stored row meeting the filter |
| KnowledgeStore.ListComplete | src/storage/knowledge.store.ts:91-119 | every stored row meeting the filter is listed |
| KnowledgeStore.List | src/storage/knowledge.store.ts:91-120 | the intended listing, under every condition given: exactly the entries meeting all of them; by rating descending, title ascending or date descending when asked; every entry when nothing is asked. The code issues only the last condition (`ListAsWritten`, through `LastOnly`) and agrees with this listing only when at most one condition is given (`AsWrittenAgreesOnOneCondition`) |
| KnowledgeStore.ListOrdered | src/storage/knowledge.store.ts:104-119 | the listed entries follow the sort key asked for |
| KnowledgeStore.ToLowerQuoted | src/storage/knowledge.store.ts:101 | tags that agree ignoring ASCII case give patterns that agree ignoring case |
| KnowledgeStore.TagFilterFindsTag | src/storage/knowledge.store.ts:100-102 | a tag filter finds every entry stored with that tag, in any ASCII case, when the tag has no character JSON escapes |
| KnowledgeStore.LastOnly | src/storage/knowledge.store.ts:94-102 | the query as built keeps only the last condition asked for: tag, else category, else status |
| KnowledgeStore.ListAsWritten | src/storage/knowledge.store.ts:91-120 | the listing as the code issues it holds exactly the entries meeting that last condition, in the order asked for |
| KnowledgeStore.AsWrittenAgreesOnOneCondition | src/storage/knowledge.store.ts:94-102 | with at most one condition the code and the intended listing agree |
| KnowledgeStore.AsWrittenDropsStatus | src/storage/knowledge.store.ts:94-102 | a deprecated entry tagged `x` is listed when asking for active entries tagged `x` |
| KnowledgeManager.Load | src/workspace/knowledge-manager.ts:96 | a loaded document is what the text parses to, and a loaded mapping never repeats a key |
| KnowledgeManager.LoadDump | src/workspace/knowledge-manager.ts:65-96 | a dumped document loads back unchanged |
| KnowledgeManager.SkillFields | src/workspace/knowledge-manager.ts:53-63 | the keys of the written document are pairwise different |
| KnowledgeManager.SkillDoc | src/workspace/knowledge-manager.ts:53-63 | the written document is a mapping without repeated keys |
| KnowledgeManager.StrField | src/workspace/knowledge-manager.ts:200-215 | a field reads as text exactly when it holds a string, and then as that string |
| KnowledgeManager.ToScanned | src/workspace/knowledge-manager.ts:200-215 | the scanned entry keeps the id and folder; each text field is the document's string, or absent when missing or null; `source` falls back to `unknown` and the timestamps to now; the rating's average and count fall back to 0; missing tags read as none, and a list of strings reads back as exactly that list |
| KnowledgeManager.IdOf | src/workspace/knowledge-manager.ts:98-123 | a document names an id exactly when its `id` is a non-empty string, and then that string |
| KnowledgeManager.ScanCreated | src/workspace/knowledge-manager.ts:200-215 | a created document read back gives the entry it was created from, unrated, with the creation time as both timestamps |
| KnowledgeManager.CreatedHead | src/workspace/knowledge-manager.ts:53-57 | the created document's id, title, description and tags read back as given |
| KnowledgeManager.CreatedTail | src/workspace/knowledge-manager.ts:58-63 | its category, source, origin task and timestamps read back as given, and it has no rating |
| KnowledgeManager.SkillDocField | src/workspace/knowledge-manager.ts:53-63 | each field of the created document reads as written |
| KnowledgeManager.SkillDocUnrated | src/workspace/knowledge-manager.ts:53-63 | the created document has no rating |
| KnowledgeManager.Write | src/workspace/knowledge-manager.ts:65-73 | a write that succeeds leaves the file holding the text; after a failure nothing more happens |
| KnowledgeManager.Mkdir | src/workspace/knowledge-manager.ts:50 | a `mkdir -p` that succeeds leaves a directory there; after a failure nothing more happens |
| KnowledgeManager.WriteOther | src/workspace/knowledge-manager.ts:65-73 | a write touches nothing apart from its file |
| KnowledgeManager.MkdirOther | src/workspace/knowledge-manager.ts:50 | `mkdir -p` touches nothing off its path |
| KnowledgeManager.EntryPath | src/workspace/knowledge-manager.ts:180-182 | the entry path is never empty |
| KnowledgeManager.WriteCode | src/workspace/knowledge-manager.ts:78-80 | writing the code files succeeds only when everything before succeeded |
| KnowledgeManager.WriteMetaWrites | src/workspace/knowledge-manager.ts:65-73 | after the metadata step `skill.yaml` holds the dumped document and `prompt.md` the prompt |
| KnowledgeManager.FixedNamesPlain | src/workspace/knowledge-manager.ts:66-76 | `skill.yaml`, `prompt.md`, `code` and `artifacts` are plain names |
| KnowledgeManager.LocChild | src/workspace/knowledge-manager.ts:66-79 | joining a plain name to a directory leads into that directory |
| KnowledgeManager.WriteCodeOther | src/workspace/knowledge-manager.ts:78-80 | writing code files touches nothing apart from the files named |
| KnowledgeManager.WriteCodeReads | src/workspace/knowledge-manager.ts:78-80 | after the code files are written each reads back as given |
| KnowledgeManager.CreateEntryWrites | src/workspace/knowledge-manager.ts:48-82 | a successful `CreateEntry` leaves `skill.yaml`, `prompt.md` and every code file readable in the entry directory with the content given |
| KnowledgeManager.CreateEntryCode | src/workspace/knowledge-manager.ts:75-81 | the code step leaves the metadata files as they were and every code file readable |
| KnowledgeManager.CodeWrites | src/workspace/knowledge-manager.ts:75-81 | making `code/` and writing into it keeps the metadata files and makes every code file readable |
| KnowledgeManager.CodeReads | src/workspace/knowledge-manager.ts:75-81 | every code file reads back from `code/` |
| KnowledgeManager.CodeKeeps | src/workspace/knowledge-manager.ts:75-81 | making `code/` and writing into it leaves every sibling of `code` alone |
| KnowledgeManager.EntryChild | src/workspace/knowledge-manager.ts:148-167 | `path.join(baseDir, id, name)` for a plain file name leads into the entry directory |
| KnowledgeManager.EntryLocPlain | src/workspace/knowledge-manager.ts:180-182 | an id that is a plain name names a directory right below the base |
| KnowledgeManager.EntryDotDot | src/workspace/knowledge-manager.ts:180-182 | the id `..` names the base directory's parent, so the entry path alone does not keep an entry inside the base |
| KnowledgeManager.ReadPrompt | src/workspace/knowledge-manager.ts:157-164 | the prompt is the text of the entry's `prompt.md`, and null when it cannot be read |
| KnowledgeManager.CreateReadPrompt | src/workspace/knowledge-manager.ts:48-82 | a created entry's prompt reads back as written |
| KnowledgeManager.Names | src/workspace/knowledge-manager.ts:150 | the listing gives each item's name, in order |
| KnowledgeManager.ListArtifactsNames | src/workspace/knowledge-manager.ts:147-155 | a name is listed by `ListArtifacts` exactly when something exists under it in the entry's `artifacts` directory |
| KnowledgeManager.DeleteEntry | src/workspace/knowledge-manager.ts:138-145 | nothing is left at the entry directory, and a missing one is not an error |
| KnowledgeManager.DeleteEntryEffect | src/workspace/knowledge-manager.ts:138-145 | afterwards the prompt cannot be read, and nothing outside the entry directory and its parent's listing has changed |
| KnowledgeManager.ReadSkill | src/workspace/knowledge-manager.ts:167-169 | a loaded mapping never repeats a key |
| KnowledgeManager.AssignAll | src/workspace/knowledge-manager.ts:171-175 | the spread keeps the keys distinct and every old key in its place |
| KnowledgeManager.AssignAllLookup | src/workspace/knowledge-manager.ts:171-175 | after the spread a key reads its last update, or its old value when no update names it |
| KnowledgeManager.IndexKeyOf | src/workspace/knowledge-manager.ts:172 | `IndexKey`: the decimal text of each index below the length names that index |
| KnowledgeManager.SpreadLookup | src/workspace/knowledge-manager.ts:172 | `Spread`, the members `{...existing}` copies: each key reads the loaded value's own property of that name (`OwnField`), so a mapping gives its members, a string one member per character and a list one per item under the keys `"0"`, `"1"`, …, and null, numbers and booleans nothing |
| KnowledgeManager.Merged | src/workspace/knowledge-manager.ts:171-175 | the merged document never repeats a key |
| KnowledgeManager.MergedField | src/workspace/knowledge-manager.ts:171-175 | `updated_at` reads the time, an updated key its update, any other key the loaded value's own property of that name, index keys of a string or list included |
| KnowledgeManager.MergedString | src/workspace/knowledge-manager.ts:171-175 | a `skill.yaml` holding the string `"ab"` merges into a mapping with `"0": "a"` and `"1": "b"` and no key `"2"` |
| KnowledgeManager.UpdateSkillYaml | src/workspace/knowledge-manager.ts:166-178 | the update succeeds only when the document can be read and loaded |
| KnowledgeManager.UpdateSkillYamlSucceeds | src/workspace/knowledge-manager.ts:166-178 | under a non-empty base it fails exactly when the document cannot be read or loaded |
| KnowledgeManager.UpdateSkillYamlReads | src/workspace/knowledge-manager.ts:166-178 | afterwards the document reads back with `updated_at` set, each updated key holding its update and every other key the own property of that name of the value loaded before, index keys of a string or list included |
| KnowledgeManager.UpdateSkillYamlOther | src/workspace/knowledge-manager.ts:177 | nothing but `skill.yaml` is written |
| KnowledgeManager.KnowledgeDir | src/workspace/knowledge-manager.ts:85 | the `.knowledge` path is never empty |
| KnowledgeManager.KnowledgeDirIsDir | src/workspace/knowledge-manager.ts:85-96 | a readable `.knowledge/skill.yaml` sits in a directory |
| KnowledgeManager.ExtractFromWorkspace | src/workspace/knowledge-manager.ts:84-109 | an entry is reported only when `.knowledge/skill.yaml` loads and names an id, and then it is that document read into the entry folder for the id; without a document or id nothing changes |
| KnowledgeManager.ExtractCopies | src/workspace/knowledge-manager.ts:102-103 | after a successful extraction every file of `.knowledge` is in the entry directory at the same place with the same text |
| KnowledgeManager.ExtractSkill | src/workspace/knowledge-manager.ts:102-105 | the extracted entry's `skill.yaml` is the workspace's |
| KnowledgeManager.ScanOne | src/workspace/knowledge-manager.ts:116-129 | an item is an entry exactly when it is a directory whose `skill.yaml` loads and names an id; its folder is the item's path |
| KnowledgeManager.ScanItems | src/workspace/knowledge-manager.ts:116-130 | exactly the entries of the listed items |
| KnowledgeManager.ScanEntries | src/workspace/knowledge-manager.ts:111-136 | no entries when the base cannot be listed; every entry has a non-empty id |
| KnowledgeManager.ListedDir | src/workspace/knowledge-manager.ts:115-117 | a directory right below the base is one of its listed items |
| KnowledgeManager.CreateReadSkill | src/workspace/knowledge-manager.ts:48-68 | a created entry's `skill.yaml` reads back as the document written, in a directory |
| KnowledgeManager.CreateThenScan | src/workspace/knowledge-manager.ts:48-136 | a scan after a successful create with a plain id finds the entry as created, in its folder |
| FileSystem.Find | src/workspace/knowledge-manager.ts:115-117 | nothing is found exactly when no item has the name; otherwise an item with that name and node |
| FileSystem.Put | src/workspace/knowledge-manager.ts:65-73 | after binding a name it finds the node bound, and every other name what it found before |
| FileSystem.Drop | src/workspace/knowledge-manager.ts:141 | after dropping a name nothing is found under it, and every other name finds what it found before |
| FileSystem.AllWellFormedAt | src/workspace/knowledge-manager.ts:184-198 | each entry of a well-formed listing is well-formed |
| FileSystem.GetWellFormed | src/workspace/knowledge-manager.ts:184-198 | every node inside a well-formed tree is well-formed |
| FileSystem.Loc | src/workspace/knowledge-manager.ts:49 | a path leads to a canonical location |
| FileSystem.LocViaSegments | src/workspace/knowledge-manager.ts:49 | where a path leads depends only on its normalised segments |
| FileSystem.LocNormalize | src/workspace/knowledge-manager.ts:49 | normalising a path does not change where it leads |
| FileSystem.LocConcat | src/workspace/knowledge-manager.ts:49 | a path `a/b` leads to `b` resolved below where `a` leads |
| FileSystem.LocJoin | src/workspace/knowledge-manager.ts:49 | `path.join(a, b)` leads to `b` resolved below where `a` leads |
| FileSystem.LocJoin3 | src/workspace/knowledge-manager.ts:148 | `path.join(a, b, c)` leads to `b` and then `c` resolved below where `a` leads |
| FileSystem.NormFromPlain | src/workspace/knowledge-manager.ts:66 | a plain name resolves to one more segment |
| FileSystem.GetAppend | src/workspace/knowledge-manager.ts:119 | looking below a location is looking inside its node |
| FileSystem.ReadFile | src/workspace/knowledge-manager.ts:95 | a read succeeds exactly for a file, and gives its text |
| FileSystem.Readdir | src/workspace/knowledge-manager.ts:115 | a listing succeeds exactly for a directory, and gives its items |
| FileSystem.SetSucceeds | src/workspace/knowledge-manager.ts:65-73 | binding a location succeeds exactly when its parent is a directory |
| FileSystem.SetGet | src/workspace/knowledge-manager.ts:65-73 | afterwards the location and everything below it is the node bound |
| FileSystem.SetOther | src/workspace/knowledge-manager.ts:65-73 | binding changes nothing beside or away from the location |
| FileSystem.SetKeepsDirs | src/workspace/knowledge-manager.ts:65-73 | every directory on the way stays a directory |
| FileSystem.SetStep | src/workspace/knowledge-manager.ts:65-73 | a binding below the first level goes through the existing child |
| FileSystem.WriteFile | src/workspace/knowledge-manager.ts:65-73 | a write succeeds exactly when the target is not a directory or the root and its parent is a directory; the file then reads the text |
| FileSystem.SetHere | src/workspace/knowledge-manager.ts:65-73 | after a binding the location holds the node bound |
| FileSystem.WriteFileOther | src/workspace/knowledge-manager.ts:65-73 | a write changes nothing apart from its file |
| FileSystem.ApartSiblings | src/workspace/knowledge-manager.ts:66-71 | two locations that part ways at some step are apart |
| FileSystem.MkdirPFails | src/workspace/knowledge-manager.ts:50 | `mkdir -p` fails exactly when some prefix of the location is a file |
| FileSystem.EmptyHasOnlyRoot | src/workspace/knowledge-manager.ts:50 | an empty tree holds no file |
| FileSystem.MkdirPMakes | src/workspace/knowledge-manager.ts:50 | afterwards the location and each prefix of it is a directory |
| FileSystem.DirUnderPut | src/workspace/knowledge-manager.ts:50 | below an entry just put into a directory is what is below that entry |
| FileSystem.MkdirPOther | src/workspace/knowledge-manager.ts:50 | `mkdir -p` changes nothing that is not on the way to the location |
| FileSystem.Remove | src/workspace/knowledge-manager.ts:141 | `rm -rf` leaves nothing at the location and changes nothing when there was nothing |
| FileSystem.SetParentIsDir | src/workspace/knowledge-manager.ts:141 | above an existing node sits a directory |
| FileSystem.RemoveOther | src/workspace/knowledge-manager.ts:141 | `rm -rf` changes nothing outside the removed subtree and its parent's listing |
| FileSystem.RemoveAt | src/workspace/knowledge-manager.ts:141 | removing an existing entry leaves its parent directory without it |
| FileSystem.DropKeepsOthers | src/workspace/knowledge-manager.ts:141 | dropping one entry leaves the paths through the other entries alone |
| FileSystem.CopyDirFrame | src/workspace/knowledge-manager.ts:184-198 | a copy into a directory changes nothing apart from it |
| FileSystem.CopyItemsFrame | src/workspace/knowledge-manager.ts:188-197 | copying entries changes nothing outside the destination or below a name none of them has |
| FileSystem.CopyDirCopies | src/workspace/knowledge-manager.ts:184-198 | a successful copy of a well-formed tree puts every file of the source at the same place below the destination, with the same text |
| FileSystem.CopyDirMakes | src/workspace/knowledge-manager.ts:184-187 | a successful copy first makes the destination, then copies the entries |
| FileSystem.EntryOnPath | src/workspace/knowledge-manager.ts:188-196 | a path to a file of a directory goes through one of its entries |
| FileSystem.CopyItemsCopies | src/workspace/knowledge-manager.ts:188-197 | each copied entry's files reach the destination under its name |
| WorkspaceManager.WorkspacePath | src/workspace/workspace-manager.ts:15-18 | the workspace path is never empty |
| WorkspaceManager.WorkspacePathShape | src/workspace/workspace-manager.ts:16 | for a normalised base directory and an id without separators, the workspace is the entry `task-<id>` directly below the base directory |
| WorkspaceManager.ExtractZipError | src/workspace/workspace-manager.ts:25-27 | a failed extraction is a `WORKSPACE_ERROR` whose message carries the cause, with no details |
| WorkspaceManager.CloneGitError | src/workspace/workspace-manager.ts:39-44 | a failed clone or checkout is a `WORKSPACE_ERROR` naming the URL, and the ref exactly when one was given |
| WorkspaceManager.ServerEntry | src/workspace/workspace-manager.ts:50-54 | a server's entry holds its command, and its args and env exactly when they are given |
| WorkspaceManager.LastNamed | src/workspace/workspace-manager.ts:49-55 | the server found carries the name, and none is found exactly when no server has it |
| WorkspaceManager.ServerMap | src/workspace/workspace-manager.ts:48-55 | the record has distinct keys, and each name maps to the entry of the last server with that name |
| WorkspaceManager.McpConfig | src/workspace/workspace-manager.ts:56-60 | the written document's `mcpServers` is that record |
| WorkspaceManager.ServerMapKeys | src/workspace/workspace-manager.ts:48-55 | the record has a key exactly for each server name |
| WorkspaceManager.Walk | src/workspace/workspace-manager.ts:67-79 | every listed path has at least one segment |
| WorkspaceManager.Under | src/workspace/workspace-manager.ts:72 | every path below a directory starts with its name |
| WorkspaceManager.CollectArtifacts | src/workspace/workspace-manager.ts:63-83 | the relative paths are the walk's segments joined with `/`, one per walked file |
| WorkspaceManager.WalkSound | src/workspace/workspace-manager.ts:67-79 | everything listed is a file of the tree whose path passes no ignored name |
| WorkspaceManager.WalkEntrySound | src/workspace/workspace-manager.ts:69-77 | what one entry contributes starts with its (not ignored) name, is the entry itself for a file and a file below it for a directory |
| WorkspaceManager.WalkComplete | src/workspace/workspace-manager.ts:67-79 | every file of the tree whose path passes no ignored name is listed |
| WorkspaceManager.WalkEntryComplete | src/workspace/workspace-manager.ts:69-77 | every such file below an entry is in that entry's contribution |
| WorkspaceManager.WalkAt | src/workspace/workspace-manager.ts:69 | each entry's contribution is part of the listing |
| WorkspaceManager.FileIsNotDir | src/workspace/workspace-manager.ts:73-77 | in a well-formed tree (distinct names in every directory) no path is both a file and a directory |
| WorkspaceManager.HasFileGet | src/workspace/workspace-manager.ts:68-76 | the walk reads the file-system tree itself: in a well-formed tree a path holds a file for the walk exactly when `FileSystem.Get` finds a file there |
| WorkspaceManager.ArtifactsAreVisibleFiles | src/workspace/workspace-manager.ts:63-83 | the listing is exactly the visible files, and holds no directory |
| Paths.SplitSlash | src/api/routes/tasks.ts:89 | the pieces of a path hold no `/`, and joining them with `/` gives the path back |
| Paths.SplitSlashConcat | src/api/routes/tasks.ts:89 | splitting `a/b` splits `a` and `b` separately |
| Paths.SplitSlashJoin | src/api/routes/tasks.ts:89 | splitting a join of slash-free pieces gives the pieces back |
| Paths.NormFromCanonical | src/api/routes/tasks.ts:89 | normalising segments yields a normalised list |
| Paths.NormFromCanonicalId | src/api/routes/tasks.ts:89 | normalisation leaves an already normalised tail alone |
| Paths.NormFromAppend | src/api/routes/tasks.ts:89 | normalising `a + b` is normalising `a`, then `b` |
| Paths.NormFromViaRelative | src/api/routes/tasks.ts:89 | resolving a path against an absolute list gives the same result whether or not it was normalised on its own first |
| Paths.Canon | src/api/routes/tasks.ts:91 | the normalised form is never empty and is absolute exactly when the input is |
| Paths.SplitRender | src/api/routes/tasks.ts:91 | the segments of a written-out normalised list are that list |
| Paths.NormRender | src/api/routes/tasks.ts:91 | normalising a written-out normalised list gives the list back |
| Paths.CanonIdempotent | src/api/routes/tasks.ts:91 | normalising twice is normalising once |
| Paths.Normalize | src/workspace/workspace-manager.ts:16 | `path.normalize` is never empty and keeps absoluteness |
| Paths.NormalizeCanon | src/workspace/workspace-manager.ts:16 | without a trailing separator `path.normalize` is the normalised form |
| Paths.NonEmpty | src/workspace/workspace-manager.ts:16 | exactly the non-empty arguments are kept |
| Paths.Join | src/workspace/workspace-manager.ts:16 | `path.join` never yields the empty string |
| Paths.JoinPlainName | src/workspace/workspace-manager.ts:16 | joining a plain name onto a normalised directory other than the root appends `/name` |
| Paths.JoinAppend | src/workspace/workspace-manager.ts:72 | joining a concatenation of segment lists puts one `/` between the two joins |
| Paths.ResolveJoin | src/api/routes/tasks.ts:89 | the arguments glued from the right form an absolute path |
| Paths.Resolve | src/api/routes/tasks.ts:89 | `path.resolve` is absolute and already normalised |
| Paths.ResolveStaysInside | src/api/routes/tasks.ts:89-91 | a relative path without `..` resolves to the directory itself or below it |
| Paths.ResolveAppends | src/api/routes/tasks.ts:89-91 | resolving such a path after a directory appends segments to the directory's resolution |
| Paths.RenderExtends | src/api/routes/tasks.ts:91 | writing out more segments gives the directory itself or a path below it |
| Paths.PrefixGuardAdmitsSibling | src/api/routes/tasks.ts:89-91 | `../<name><extra>` from a directory resolves to a sibling that starts with the directory's path without lying below it |
| Paths.ResolveSibling | src/api/routes/tasks.ts:89 | going up from a directory and into `m` resolves to `m` beside it |
| Paths.BackUpThenEnter | src/api/routes/tasks.ts:89 | `..` then a plain name replaces the last segment |
| Paths.SiblingRendered | src/api/routes/tasks.ts:91 | a sibling whose name extends the directory's starts with its path but not with the path and a `/` |
| Paths.LastNonEmpty | src/api/routes/tasks.ts:103 | the last non-empty segment is one of the segments, or empty |
| Paths.Basename | src/api/routes/tasks.ts:103 | `path.basename` holds no separator |
| Paths.LastDot | src/api/routes/tasks.ts:101 | the position found holds a `.` and no later position does; -1 when there is none |
| Paths.Extname | src/api/routes/tasks.ts:101 | a non-empty extension starts with its only `.` and is a proper suffix of the base name |
| Paths.ExtnameOfName | src/api/routes/tasks.ts:101 | a name `stem.ext` with dot-free, non-empty parts has extension `.ext` in any directory |
| Paths.LastDotAfter | src/api/routes/tasks.ts:101 | after a trailing `.` and dot-free text, the last `.` is that one |
| Strs.DigitCharVal | src/config.ts:22 | a digit's character reads back as the digit |
| Strs.NatToString | src/api/routes/tasks.ts:107 | `String(n)` of a natural number is a non-empty string of digits |
| Strs.IntToString | src/api/routes/tasks.ts:107 | `String(n)` is non-empty and starts with `-` exactly when `n` is negative |
| Strs.DigitsValueOfNatToString | src/config.ts:22 | the digits printed have the number's value |
| Strs.TrimStartSpace | src/config.ts:22 | the trimmed text is a suffix that does not start with white space |
| Strs.DigitPrefixLen | src/config.ts:22 | the leading digits end at the first non-digit |
| Strs.LeadingDigits | src/config.ts:22 | there is a value exactly when the text starts with a digit |
| Strs.LeadingDigitsOfNat | src/config.ts:22 | the leading digits of a printed number are that number |
| Strs.ParseIntRoundTrip | src/config.ts:22 | `parseInt` (`Strs.ParseInt`) reads back every integer that `String` prints |
| Strs.ParseIntStopsAtNonDigit | src/config.ts:25 | digits followed by a non-digit are read up to the non-digit only |
| Strs.DigitPrefixAppend | src/config.ts:25 | a digit string followed by a non-digit has exactly its own length of leading digits |
| Strs.ContainsWithin | src/api/routes/tasks.ts:133 | an occurrence survives text added on either side |
| Strs.ContainsLower | src/storage/knowledge.store.ts:100-102 | lower-casing both sides keeps an occurrence |
| Strs.FirstIndex | src/api/routes/tasks.ts:84 | the index found is an occurrence with none before it, and none is found exactly when there is no occurrence |
| Strs.JoinContains | src/services/knowledge.service.ts:94-111 | every part occurs in the joined text |
| Strs.Split | src/api/routes/tasks.ts:84 | the pieces of a split joined with the separator give the text back |
| Strs.SplitTailJoin | src/api/routes/tasks.ts:84 | dropping the first piece and joining again gives everything after the first separator, or nothing when there is none |
| Strs.LowerChar | src/services/knowledge.service.ts:289 | an upper-case ASCII letter becomes lower case; every other character is kept |
| Strs.ToLower | src/services/knowledge.service.ts:289 | lower-casing keeps the length and maps each character |
| Strs.UpperChar | src/executors/sdk.executor.ts:131 | a lower-case ASCII letter becomes upper case; every other character is kept |
| Strs.ToUpper | src/executors/sdk.executor.ts:131 | upper-casing keeps the length and maps each character |
| Strs.Take | src/services/knowledge.service.ts:293 | `slice(0, n)` is a prefix of length `n`, or the whole text when it is shorter |
| Strs.LexLeTotal | src/storage/knowledge.store.ts:104-116 | any two strings are ordered one way or the other |
| Strs.LexLeTrans | src/storage/knowledge.store.ts:104-116 | the string order is transitive |
| Strs.LexLeAntisym | src/storage/knowledge.store.ts:104-116 | strings ordered both ways are equal |
| Json.Field | src/storage/task.store.ts:89-92 | a field read is a member of the object, and nothing is read exactly when no member has the key |
| Json.Lookup | src/storage/task.store.ts:89-92 | the value read belongs to the last member with the key; nothing when there is none |
| Json.LookupSnoc | src/workspace/workspace-manager.ts:50 | a member added last wins for its key and leaves every other key alone |
| Json.LookupDistinct | src/storage/task.store.ts:89-92 | without repeated keys each member is what its key reads |
| Json.KeyIndex | src/workspace/workspace-manager.ts:50 | the position found holds the key and no earlier one does |
| Json.Assign | src/workspace/workspace-manager.ts:50-54 | `obj[key] = v` makes the key read `v`, leaves every other key alone, keeps the keys distinct and in place, and adds a new key last |
| Json.Record | src/workspace/workspace-manager.ts:50-54 | an object literal keeps exactly its defined fields |
| Json.RecordLookup | src/workspace/workspace-manager.ts:50-54 | a field of a literal with distinct keys reads its value when defined and nothing otherwise |
| Json.RecordOfThree | src/workspace/workspace-manager.ts:50-54 | each field of a three-field literal reads as written |
| Json.RecordAbsent | src/workspace/workspace-manager.ts:50-54 | a key no field has is absent |
| Json.RecordDistinct | src/workspace/workspace-manager.ts:50-54 | a literal with distinct field names has distinct keys |
| Json.LookupSmall | src/api/routes/tasks.ts:142 | lookups in literal objects of up to three members read the last member with the key |
| Json.EscapeChar | src/storage/task.store.ts:56 | a character is escaped exactly when it is a quote, a backslash or a control character |
| Json.EscapePlain | src/storage/task.store.ts:56 | text without quotes, backslashes or control characters is written unchanged |
| Json.Quote | src/storage/task.store.ts:56 | a string is written between double quotes |
| Json.StrArray | src/storage/knowledge.store.ts:38 | an array of strings has one item per string |
| Json.DecodeStrings | src/storage/knowledge.store.ts:146 | decoding succeeds exactly when every item is a string, and gives those strings in order |
| Json.DecodeStringsOf | src/storage/knowledge.store.ts:146 | decoding reads back an array of strings |
| JsonParse.SkipWs | src/storage/task.store.ts:89 | skipped text is a suffix that does not start with white space |
| JsonParse.HexValOfDigit | src/storage/task.store.ts:89 | a hex digit reads back as its value |
| JsonParse.Parse | src/storage/task.store.ts:89 | a successful parse is the value read from the whole text |
| JsonParse.EscapeCharParses | src/storage/task.store.ts:89 | an escaped character reads back as that character |
| JsonParse.EscapeStringParses | src/storage/task.store.ts:89 | an escaped string followed by a closing quote reads back as that string |
| JsonParse.ParseNatOfNat | src/storage/task.store.ts:89 | a printed natural number reads back as itself |
| JsonParse.ParseNumberOfInt | src/storage/task.store.ts:89 | a printed integer reads back as itself |
| JsonParse.StringifyStart | src/storage/task.store.ts:56 | every rendering is non-empty and opens with a character that starts a value |
| JsonParse.ItemTexts | src/storage/task.store.ts:56 | there is one rendering per array item |
| JsonParse.MemberTexts | src/storage/task.store.ts:56 | there is one rendering per object member |
| JsonParse.ParseValueAt | src/storage/task.store.ts:89 | the parser picks the kind of value by its first character |
| JsonParse.ParseMemberText | src/storage/task.store.ts:89 | a rendered member reads back as itself when its value does |
| JsonParse.ParseValueStringify | src/storage/task.store.ts:89 | a rendered value followed by a delimiter reads back as itself |
| JsonParse.ParseElementsStringify | src/storage/task.store.ts:89 | rendered array items, joined with commas and closed, read back as themselves |
| JsonParse.ParseMembersStringify | src/storage/task.store.ts:89 | rendered object members, joined with commas and closed, read back as themselves |
| JsonParse.ParseStringify | src/storage/task.store.ts:89 | `JSON.parse(JSON.stringify(j))` is `j`: `Json.Stringify` writes a text the parser reads back whole |
| Mime.Lookup | src/api/routes/tasks.ts:102 | the type found is the first one listed for the key; none is found exactly when the key is not listed |
| Mime.LookupEntry | src/api/routes/tasks.ts:10-26 | with distinct keys every entry is found under its key |
| Mime.ContentType | src/api/routes/tasks.ts:101-102 | the type served is a listed type or the generic one |
| Mime.ContentTypeOfName | src/api/routes/tasks.ts:101-102 | a file `stem.ext` in any directory gets the type listed for its extension, whatever its case |
| Mime.UnlistedExtension | src/api/routes/tasks.ts:101-102 | an extension not listed in any case gives `application/octet-stream` |
| Mime.LoweredExtension | src/api/routes/tasks.ts:101 | the lower-cased extension of `stem.ext` is `.` and the lower-cased `ext` |
| Mime.NoExtension | src/api/routes/tasks.ts:101-102 | a name without extension gets `application/octet-stream` |
| Types.ParseStatus | src/shared/types.ts:1 | a status read from a name prints back as that name |
| Types.ParseStatusName | src/shared/types.ts:1 | every status's name reads back as that status |
| Types.EnvJson | src/shared/types.ts:4-9 | an environment record is the object of its variables, in order |
| Types.Failure | src/shared/types.ts:64-76 | a failure result is unsuccessful, carries the code and message, the logs and duration, and no artifacts |
| Schemas.ReqString | src/api/schemas/task.schema.ts:31-32 | a required string is accepted exactly when present, a string, and at least `min` long |
| Schemas.OptString | src/api/schemas/task.schema.ts:36-37 | an optional string is absent exactly when missing, and accepted exactly when a string of at least `min` characters |
| Schemas.OptStrings | src/api/schemas/knowledge.schema.ts:16 | an optional string array is absent exactly when missing, and what is accepted is that array |
| Schemas.RecordEntries | src/api/schemas/task.schema.ts:41 | an object's entries are read exactly when every value is a string, one per member in order |
| Schemas.EntriesJson | src/api/schemas/knowledge.schema.ts:9 | the object written for entries is a string record |
| Schemas.RecordEntriesOf | src/api/schemas/knowledge.schema.ts:9 | a string record's entries read back as written |
| Schemas.OptStringRecord | src/api/schemas/task.schema.ts:41 | an optional string record is accepted exactly when every value is a string, and kept as given |
| Schemas.OptObject | src/api/schemas/task.schema.ts:33 | an optional schema is accepted exactly when it is an object, and kept as given |
| Schemas.FieldOfRecord | src/api/schemas/task.schema.ts:30-42 | a field of a body literal with distinct keys reads as written |
| Schemas.ParseMode | src/api/schemas/task.schema.ts:34 | an absent mode is `process`; a present one must be one of the three names and is that mode |
| Schemas.ParseTimeout | src/api/schemas/task.schema.ts:35 | a timeout is absent when missing and accepted exactly when it is a number above zero |
| Schemas.ParseKind | src/api/schemas/task.schema.ts:11 | the files kind is accepted exactly for `zip` or `git` |
| Schemas.ParseFiles | src/api/schemas/task.schema.ts:10-14 | accepted files carry their kind's name, and a repository address that is a URL |
| Schemas.ParseFilesJson | src/api/schemas/task.schema.ts:10-14 | every files value with a URL address reads back from its own JSON |
| Schemas.ParseFilesOf | src/api/schemas/task.schema.ts:10-14 | fields that decode to a files value parse to it |
| Schemas.OptServers | src/api/schemas/task.schema.ts:17 | an inline server list is absent exactly when missing |
| Schemas.ParseMcp | src/api/schemas/task.schema.ts:16-19 | the parsed MCP options have inline servers and profiles exactly when the body has them |
| Schemas.ParseMcpJson | src/api/schemas/task.schema.ts:16-19 | every MCP options value reads back from its own JSON |
| Schemas.OptFiles | src/api/schemas/task.schema.ts:38 | optional files are absent exactly when missing; a given repository address is a URL |
| Schemas.OptMcp | src/api/schemas/task.schema.ts:39 | optional MCP options are absent exactly when missing |
| Schemas.ParseCreateTask | src/api/schemas/task.schema.ts:30-42 | an accepted body is an object whose prompt and key are non-empty strings, whose mode defaults to `process`, whose timeout is positive, whose agents are well-formed, and whose schema and tags are kept |
| Schemas.ParseTaskBody | src/api/schemas/task.schema.ts:30-42 | every well-formed input parses back from its own body, so the schema accepts exactly the well-formed inputs |
| Schemas.AssembleExpected | src/api/schemas/task.schema.ts:30-42 | the parts of a well-formed input assemble back to it |
| Schemas.TaskBodyParts | src/api/schemas/task.schema.ts:30-42 | each member of an input's body decodes to the input's value |
| Schemas.TaskFieldsDistinct | src/api/schemas/task.schema.ts:30-42 | the body's eleven keys are pairwise different |
| Schemas.TaskBodyFields | src/api/schemas/task.schema.ts:30-42 | each key of the body reads the input's value |
| Schemas.OptCode | src/api/schemas/knowledge.schema.ts:9 | optional code is absent exactly when missing |
| Schemas.ParseCreateKnowledge | src/api/schemas/knowledge.schema.ts:3-10 | an accepted body has non-empty title, description and prompt template, read from the body, and tags default to none |
| Schemas.ParseCreateBody | src/api/schemas/knowledge.schema.ts:3-10 | every well-formed create request parses back from its own body |
| Schemas.CreateBodyDecodes | src/api/schemas/knowledge.schema.ts:3-10 | each member of a create body decodes to the request's value |
| Schemas.CreateBodyFields | src/api/schemas/knowledge.schema.ts:3-10 | each key of a create body reads the request's value |
| Schemas.OptStatus | src/api/schemas/knowledge.schema.ts:18 | an optional status is absent exactly when missing; an unknown name is refused |
| Schemas.ParseUpdateKnowledge | src/api/schemas/knowledge.schema.ts:13-19 | an accepted update has no empty title or description and has a status exactly when the body does |
| Schemas.ParseUpdateBody | src/api/schemas/knowledge.schema.ts:13-19 | every well-formed update parses back from its own body |
| Schemas.UpdateBodyDecodes | src/api/schemas/knowledge.schema.ts:13-19 | each member of an update body decodes to the update's value |
| Schemas.UpdateEdgeCases | src/api/schemas/knowledge.schema.ts:13-19 | `{}` is the update that changes nothing; an empty title or an unknown status is refused |
| Schemas.ParseRate | src/api/schemas/knowledge.schema.ts:22-24 | a rating body is accepted exactly when its score is an integer from 1 to 5 |
| Schemas.ParseRateBody | src/api/schemas/knowledge.schema.ts:22-24 | every score from 1 to 5 is accepted as itself |
| Schemas.ParseCreateProfile | src/api/schemas/mcp-profile.schema.ts:10-13 | an accepted profile has a non-empty name from the body and one server per item of a present server list |
| Schemas.ParseProfileBody | src/api/schemas/mcp-profile.schema.ts:10-13 | every profile input with a name parses back from its own body |
| Schemas.ProfileServersRequired | src/api/schemas/mcp-profile.schema.ts:10-13 | an empty server list is accepted, a missing one is not |
| Schemas.ParseProfileResponse | src/api/schemas/mcp-profile.schema.ts:17-22 | a parsed response carries the body's id, name and creation time |
| Schemas.ProfileResponseRoundTrip | src/api/schemas/mcp-profile.schema.ts:17-22 | every stored profile, written as a response, has the response shape and reads back as itself |
| Schemas.ProfileFields | src/api/schemas/mcp-profile.schema.ts:17-22 | each key of a written profile reads the profile's value |
| SdkExecutor.PermissionModeOf | src/executors/sdk.executor.ts:38 | a given non-empty permission mode is used; otherwise `bypassPermissions` |
| SdkExecutor.QueryEnv | src/executors/sdk.executor.ts:33-35 | the child environment is the server's own, with the API key set and `CLAUDECODE` removed |
| SdkExecutor.Options | src/executors/sdk.executor.ts:50-64 | the query gets the workspace preamble before the prompt, the workspace as working directory, the model and schema, that environment and permission mode, skips permissions exactly under `bypassPermissions`, and gets the last server per name, or no servers when the list is empty or absent |
| SdkExecutor.ServerMapNonEmpty | src/executors/sdk.executor.ts:61 | the server record is non-empty exactly when the server list is |
| SdkExecutor.OrElse | src/executors/sdk.executor.ts:72 | `a \|\| b` is `a` when present and non-empty, `b` otherwise |
| SdkExecutor.SessionModel | src/executors/sdk.executor.ts:72 | an init message reports its own model, else the requested one, else `unknown` |
| SdkExecutor.InitLine | src/executors/sdk.executor.ts:73 | the init line shows the session id cut to eight characters, and the model |
| SdkExecutor.ToolLine | src/executors/sdk.executor.ts:78-82 | a tool line shows the tool name and at most the first 200 characters of its JSON input |
| SdkExecutor.BlockLines | src/executors/sdk.executor.ts:75-83 | a block emits one line exactly when it has non-empty text or a tool name |
| SdkExecutor.BlocksLines | src/executors/sdk.executor.ts:75-83 | a message emits at most one line per block |
| SdkExecutor.TranscriptAppend | src/executors/sdk.executor.ts:69-135 | `Transcript`, the lines each message adds through `MessageLines`: the lines of two runs of messages are the lines of each, in order |
| SdkExecutor.Consume | src/executors/sdk.executor.ts:69-135 | the loop reads up to and including the first result message, emits the transcript of what it read, and reads everything when there is no result |
| SdkExecutor.ConsumeIgnoresLater | src/executors/sdk.executor.ts:84-134 | messages after the first result are never read |
| SdkExecutor.ConsumeUpToResult | src/executors/sdk.executor.ts:84-134 | the lines before a result are the transcript of the messages before it, and that result ends the loop |
| SdkExecutor.ResultData | src/executors/sdk.executor.ts:96-106 | the data is the structured output, else the result text parsed as JSON, else the text itself |
| SdkExecutor.ResultDataReadsBack | src/executors/sdk.executor.ts:101-102 | a result text that is a serialised value yields that value |
| SdkExecutor.ErrorText | src/executors/sdk.executor.ts:119-120 | the message is the errors joined by `; `, or `SDK error: <subtype>` when that is empty |
| SdkExecutor.ErrorTextCases | src/executors/sdk.executor.ts:119-120 | no errors give the fallback; a single non-empty error is reported verbatim |
| SdkExecutor.RoundedSeconds | src/executors/sdk.executor.ts:158 | `Math.round(ms / 1000)` is the nearest whole second, halves up |
| SdkExecutor.Frac4 | src/executors/sdk.executor.ts:91 | four zero-padded digits give back the fraction |
| SdkExecutor.FixedFour | src/executors/sdk.executor.ts:91 | `toFixed(4)` prints whole dollars, a dot and four digits that together give back the cost |
| SdkExecutor.FromResult | src/executors/sdk.executor.ts:84-133 | a `success` result succeeds with its data and `valid`; any other fails with the upper-cased subtype and the error text; both carry the cost and duration and no artifacts |
| SdkExecutor.FromAbort | src/executors/sdk.executor.ts:155-176 | an aborted stream is a timeout exactly when a timeout was set and the run lasted at least it less a second, and a cancellation otherwise |
| SdkExecutor.Execute | src/executors/sdk.executor.ts:11-190 | the output starts with the transcript; a result decides the outcome; a stream that ends without one gives `NO_RESULT`; a stream that throws gives a timeout or cancellation when aborted and `SDK_ERROR` otherwise; every failure but `NO_RESULT` emits one `[error]` line |
| SdkExecutor.AbortHeuristic | src/executors/sdk.executor.ts:154-176 | any abort within the last second before the timeout (or later) is reported as a timeout, and without a timeout every abort is a cancellation |
| SdkExecutor.Cancel | src/executors/sdk.executor.ts:192-198 | a tracked id is aborted and untracked; any other id is left alone |
| SdkExecutor.ExecuteTracked | src/executors/sdk.executor.ts:17-18 | `execute` untracks its task on every exit path and leaves the other ids alone |
| SdkExecutor.CancelWhileRunning | src/executors/sdk.executor.ts:192-198 | `cancel` aborts a running query, and does nothing once `execute` has returned |
| ContainerExecutor.ValueOf | src/executors/container.executor.ts:20-26 | a variable has no value exactly when no entry has its name |
| ContainerExecutor.Push | src/executors/container.executor.ts:24-26 | a conditional push adds the variable last exactly when the condition holds and keeps the list in order |
| ContainerExecutor.PushValues | src/executors/container.executor.ts:24-26 | a push sets its own variable when the condition holds and leaves every other variable alone |
| ContainerExecutor.ValueOfSnoc | src/executors/container.executor.ts:24-26 | a variable added last leaves the other names alone and sets its own when it was unset |
| ContainerExecutor.EnvOf | src/executors/container.executor.ts:20-26 | the environment starts with the API key and the prompt, holds two to five variables and names none twice |
| ContainerExecutor.EnvOfValues | src/executors/container.executor.ts:24-26 | the schema, model and timeout variables carry the serialised schema, the model and the decimal timeout, and are present exactly when those are truthy |
| ContainerExecutor.Spec | src/executors/container.executor.ts:28-33 | the container runs the runner image in `/workspace`, with the workspace bound there and one `NAME=value` per variable |
| ContainerExecutor.OutputObject | src/executors/container.executor.ts:57 | the stand-in result holds the logs under `output` |
| ContainerExecutor.Classify | src/executors/container.executor.ts:17-67 | a throw is a `CONTAINER_ERROR` with its message; a non-zero exit fails naming the code; a clean exit succeeds, valid exactly when `result.json` parses, with that value or the logs as data |
| ContainerExecutor.ResultFileReadsBack | src/executors/container.executor.ts:51-55 | a runner that writes a serialised value hands back that value, marked valid |
| ContainerExecutor.SuccessIffCleanExit | src/executors/container.executor.ts:42-60 | success depends only on the exit status being zero |
| ContainerExecutor.Cancel | src/executors/container.executor.ts:70-76 | a tracked id has its container stopped and is untracked; any other id is left alone |
| ContainerExecutor.ExecuteTracked | src/executors/container.executor.ts:35-62 | `execute` untracks its container on every exit path and leaves the other ids alone |
| ContainerExecutor.CancelWhileRunning | src/executors/container.executor.ts:70-76 | `cancel` stops a running container and does nothing once `execute` has returned |

## Left out

- I/O of every kind is a parameter or a returned value: the database, the disk, Docker, git, zip extraction, the Agent SDK's message stream, the process environment, logging. The file system is a tree value passed in and handed back.
- `Date.now`, `new Date().toISOString()` and uuid generation are parameters. One operation receives one `now`, even where the source calls the clock twice.
- Timers and promise scheduling are not modelled. The scheduler's executions settle through explicit `Settle` events. The SDK executor's timer is summed up by the `aborted` flag and the elapsed duration. The log stream's 2-second poll is one `Poll` step per tick.
- `src/executors/process.executor.ts` is an opaque executor. The task service always picks it, and that choice is what the model records.
- The health and MCP-profile routes and services only pass calls through to the scheduler and the profile store, so they are not modelled. The knowledge service's `getById`, `list`, `delete` and `listArtifacts` are modelled only as the store and manager operations they forward to.
- `src/server.ts` does not mount the knowledge routes and does not install the error handler. Both are modelled as their own files define them.
- The task service has no `getTaskLogs`, `subscribeTaskLogs` or `listArtifacts`, although the task routes call them. The routes' model reads the log store and the workspace tree passed in.
- The knowledge routes list artifacts through the manager (`<baseDir>/<id>/artifacts`) but download them from `<folderPath>/artifacts`. Each path is modelled as written. The model does not assume the two directories coincide.
- A JSON body that does not parse makes Hono's `c.req.json()` throw. The routes' model answers with an uncaught error carrying a fixed stand-in message, not the parser's own text.
- JSON numbers are whole numbers. Fractions and exponents are refused by the parser model. The schemas therefore never see a fractional timeout, score or `maxTurns`.
- YAML is modelled by its JSON subset: `yaml.dump` writes what `JSON.stringify` would, and `yaml.load` reads JSON text.
- `JSON.stringify`'s indentation argument (`null, 2` for `.claude.json`) is not modelled. The compact rendering is used, which carries the same value.
- Zod is modelled field by field, without its issue texts and paths. `z.string().url()` is a parameter `isUrl`. The agents record is checked and then dropped, as the service never reads it.
- An object that repeats a key reads as the last occurrence, as JavaScript objects do. The schema lemmas build bodies with distinct keys.
- The rating average is kept in integer tenths. `Math.round` rounds half up, so the model rounds half up on tenths. Floating-point error is not modelled. `toFixed(4)` on the cost is modelled on a cost given in ten-thousandths.
- Case mapping covers ASCII letters only: `toLowerCase`, `toUpperCase`, and SQLite's `LIKE` case folding.
- SQLite `LIKE` wildcards inside a tag (`%`, `_`) are not interpreted. A tag filter is modelled as a case-insensitive substring test for `"tag"`.
- Sorting by title or date compares strings character by character. SQLite compares UTF-8 bytes, which can order characters outside the Basic Multilingual Plane differently. The order among rows with equal keys is left open.
- `Content-Length` is modelled as the file's length in characters, not in bytes.
- Symbolic links are not modelled. Paths resolve lexically.
- Copying a directory reads from a snapshot of the source tree, taken before the copy starts.
- Removing the root directory is not modelled. `rm -rf` of the root leaves it in place.
- Error messages of failed file-system calls (errno texts) are not modelled. Only whether a call fails is.
- The config tests expect port 3000, a 900000 ms timeout and mode `process`. The code sets 3030, 1800000 and `sdk`, and the model follows the code.
- KnowledgeService.BuildContext: its contract says only when the context is empty. The lines it holds are stated by `KnowledgeService.ContextNamesEach`.
- Paths.Join: its contract says only that the result is non-empty. What a join leads to is stated by `Paths.JoinPlainName` and `FileSystem.LocJoin`.
- Paths.Resolve: its contract says only that the result is absolute and normalised. Where it leads is stated by `Paths.ResolveStaysInside`, `Paths.ResolveSibling` and `Paths.PrefixGuardAdmitsSibling`.
- SdkExecutor.ToolLine: for an input longer than 200 characters, the contract says the shown argument is a prefix of at most 200 characters, not that it is exactly the first 200.
- WorkspaceManager.Walk: the contracts state which paths are listed (`WorkspaceManager.ArtifactsAreVisibleFiles`), not their order.
- KnowledgeManager.IdOf: the scan keeps a folder whose `skill.yaml` has a non-empty string id. The code keeps any truthy id, so a numeric or boolean id (`id: 5`, `id: true`) is synced there; what such an id becomes in the database and in the sync comparison is left out, so those folders are skipped here.
- KnowledgeManager.TagsOf: a `tags` value that is not a list of strings reads as no tags. The code passes any non-null value through `?? []` unchanged.
- KnowledgeManager.ScanOne: inherits the id and tags gaps of `IdOf` and `TagsOf`: a folder with a truthy non-string id is skipped, and non-list tags read as none.
- KnowledgeManager.ScanEntries: inherits the same two gaps through `ScanOne`.
- KnowledgeManager.ToScanned: a `title`, `description`, `category`, `source`, `origin_task_id`, `created_at` or `updated_at` that holds a value other than a string (`title: 5`) reads as absent, or as its fallback (`unknown`, `now`); the code passes such a value through, and `??` falls back only on null or undefined. A rating `average` or `count` that is not a number reads as 0, where the code keeps it. The scanned entry's fields are typed as the database columns they feed, so these values are not represented.
- Scheduler.Cancel: cancelling a running task is one atomic step, while the code awaits `executor.cancel` before `running.delete` and `drainQueue`. So two interleavings are not modelled. First, a second `cancel` of the same id during that await still finds the task running there: it answers true and calls `executor.cancel` again, where the model answers false and calls nothing. Second, an execution that settles during the await has already left `running`, yet its executor's `cancel` was called; the model orders that settlement before the cancel, which then finds nothing running.
- TaskService.CancelTask: the code awaits `scheduler.cancel` before `updateStatus`, and the model does both in one step. A completion callback that runs during that await writes `completed`, and `updateStatus` then overwrites it with `cancelled`. The model reaches the same record by settling before the cancel, but then the scheduler answers false and emits no executor cancel. `TaskService.LateCompletionOverwritesCancel` covers the other order.
- KnowledgeManager.Merged: the merged members keep insertion order. JavaScript lists integer-like keys (`"0"`, `"1"`, …) first, so the text written can order the members differently; every key reads the same value. A string is spread one member per `char` of the model's strings, where JavaScript spreads UTF-16 code units.
- KnowledgeManager.UpdateSkillYaml: an empty `skill.yaml` is not JSON, so the model fails to load it. `yaml.load` returns `undefined` for it, and the code's spread then writes a document holding only the updates and `updated_at`.
- JsonParse.Parse: the contract relates `Parse` only to `ParseValue`. The parser is characterised on the texts `JSON.stringify` writes (`JsonParse.ParseStringify`), not on arbitrary JSON text.

## Findings

| source | as written | input that shows it | evidently intended | confidence | as-written member | corrected member |
|---|---|---|---|---|---|---|
| src/api/routes/tasks.ts:89-93 | the traversal guard checks that the resolved path starts with the resolved workspace path as text | workspace `/w/task-1` and artifact path `../task-10/secret`: it resolves to `/w/task-10/secret`, which starts with `/w/task-1`; the request `/api/tasks/1/artifacts//w/task-10/secret` reaches the same file through an absolute artifact path, which no normalisation of `..` removes (`TaskRoutes.AbsoluteSiblingServed`) | only the workspace itself or paths below it (`root + "/"` as prefix) pass | not executed | TaskRoutes.SiblingServed | TaskRoutes.DownloadArtifactIntended |
| src/storage/knowledge.store.ts:94-102 | each filter is a separate `.where` call, and each call replaces the previous condition, so only the last one (tag, else category, else status) applies | one deprecated entry tagged `x`, listed with status `active` and tag `x`: the status condition is dropped and the entry is returned | an entry is listed only when it meets every condition given | not executed | KnowledgeRoutes.ListDropsStatus | KnowledgeRoutes.ListIntended |
| src/api/routes/knowledge.ts:139-143 | the download guard checks that the resolved path starts with the resolved `artifacts` directory as text | an entry whose artifacts directory is `/k/a/artifacts` and artifact path `../artifacts2`: it resolves to `/k/a/artifacts2`, which starts with `/k/a/artifacts`; the absolute artifact path `/k/a/artifacts2` reaches it too (`KnowledgeRoutes.AbsoluteSiblingServed`) | only the directory itself or paths below it pass | not executed | KnowledgeRoutes.SiblingServed | KnowledgeRoutes.DownloadArtifactIntended |

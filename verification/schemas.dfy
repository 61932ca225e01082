/** The request schemas (src/api/schemas/task.schema.ts,
    src/api/schemas/knowledge.schema.ts, src/api/schemas/mcp-profile.schema.ts).

    A schema's `safeParse` is a parser from the request body to the validated
    input: `None` when the body is refused, the input with its defaults filled
    in otherwise. Members the schema does not name are dropped; a member that
    is present must have the declared type (`null` is not `undefined`). Every
    parser comes with an encoder, and the two are proved to be inverse on the
    inputs the parser can return. Whether a text is a URL is decided by a
    parameter. */
module Schemas {
  import opened Wrappers
  import opened Json
  import opened Types
  import TaskService
  import KnowledgeService
  import KnowledgeStore
  import McpProfileStore

  // ---------------------------------------------------------------------------
  // Member decoders
  // ---------------------------------------------------------------------------

  /** A required string of at least `min` characters. */
  function ReqString(f: Option<Json>, min: nat): (r: Option<string>)
    ensures r.Some? <==> f.Some? && f.value.JStr? && |f.value.s| >= min
    ensures r.Some? ==> f == Some(JStr(r.value))
  {
    match f
    case Some(JStr(s)) => if |s| >= min then Some(s) else None
    case _ => None
  }

  /** An optional string of at least `min` characters: `Some(None)` when
      absent, `None` when present but refused. */
  function OptString(f: Option<Json>, min: nat): (r: Option<Option<string>>)
    ensures r == Some(None) <==> f.None?
    ensures r.Some? && r.value.Some? <==> f.Some? && f.value.JStr? && |f.value.s| >= min
    ensures r.Some? && r.value.Some? ==> f == Some(JStr(r.value.value))
  {
    match f
    case None => Some(None)
    case Some(JStr(s)) => if |s| >= min then Some(Some(s)) else None
    case Some(_) => None
  }

  /** An optional array of strings. */
  function OptStrings(f: Option<Json>): (r: Option<Option<seq<string>>>)
    ensures r == Some(None) <==> f.None?
    ensures r.Some? && r.value.Some? ==> f == Some(StrArray(r.value.value))
  {
    match f
    case None => Some(None)
    case Some(JArr(items)) =>
      (match DecodeStrings(items)
       case None => None
       case Some(xs) =>
         assert items == StrArray(xs).items;
         Some(Some(xs)))
    case Some(_) => None
  }

  /** An object whose every value is a string (`z.record(z.string(), z.string())`). */
  predicate IsStringRecord(j: Json) {
    j.JObj? && forall i :: 0 <= i < |j.members| ==> j.members[i].value.JStr?
  }

  /** The entries of a string record, in member order. */
  function RecordEntries(ms: seq<Member>): (r: Option<seq<(string, string)>>)
    ensures r.Some? <==> forall i :: 0 <= i < |ms| ==> ms[i].value.JStr?
    ensures r.Some? ==> |r.value| == |ms| && forall i :: 0 <= i < |ms| ==> ms[i] == Member(r.value[i].0, JStr(r.value[i].1))
    decreases |ms|
  {
    if |ms| == 0 then Some([])
    else if !ms[0].value.JStr? then None
    else
      var rest := RecordEntries(ms[1..]);
      assert forall i :: 1 <= i < |ms| ==> ms[i] == ms[1..][i - 1];
      if rest.None? then None else Some([(ms[0].key, ms[0].value.s)] + rest.value)
  }

  /** The string record holding the given entries. */
  function EntriesJson(es: seq<(string, string)>): (j: Json)
    ensures IsStringRecord(j)
  {
    JObj(seq(|es|, i requires 0 <= i < |es| => Member(es[i].0, JStr(es[i].1))))
  }

  lemma {:induction false} RecordEntriesOf(es: seq<(string, string)>)
    ensures RecordEntries(EntriesJson(es).members) == Some(es)
  {
    var r := RecordEntries(EntriesJson(es).members);
    assert r.Some?;
    assert |r.value| == |es|;
    assert forall i :: 0 <= i < |es| ==> r.value[i] == es[i] by {
      forall i | 0 <= i < |es| ensures r.value[i] == es[i] {
        assert EntriesJson(es).members[i] == Member(es[i].0, JStr(es[i].1));
        assert r.value[i].0 == es[i].0 && r.value[i].1 == es[i].1;
      }
    }
    assert r.value == es;
  }

  /** An optional string record, kept as the object it is. */
  function OptStringRecord(f: Option<Json>): (r: Option<Option<Json>>)
    ensures r == Some(None) <==> f.None?
    ensures r.Some? && r.value.Some? <==> f.Some? && IsStringRecord(f.value)
    ensures r.Some? && r.value.Some? ==> f == r.value
  {
    match f
    case None => Some(None)
    case Some(j) => if IsStringRecord(j) then Some(Some(j)) else None
  }

  /** An optional object of any members (`z.record(z.string(), z.unknown())`). */
  function OptObject(f: Option<Json>): (r: Option<Option<Json>>)
    ensures r == Some(None) <==> f.None?
    ensures r.Some? && r.value.Some? <==> f.Some? && f.value.JObj?
    ensures r.Some? && r.value.Some? ==> f == r.value
  {
    match f
    case None => Some(None)
    case Some(j) => if j.JObj? then Some(Some(j)) else None
  }

  /** A field of a record literal with distinct keys reads as written. */
  lemma {:induction false} FieldOfRecord(fields: seq<(string, Option<Json>)>, i: int)
    requires DistinctFieldKeys(fields) && 0 <= i < |fields|
    ensures Field(JObj(Record(fields)), fields[i].0) == fields[i].1
  {
    RecordLookup(fields, i);
  }

  // ---------------------------------------------------------------------------
  // CreateTaskSchema
  // ---------------------------------------------------------------------------

  /** `mode`: one of the three names, `process` when absent. */
  function ParseMode(f: Option<Json>): (r: Option<ExecutionMode>)
    ensures f.None? ==> r == Some(Process)
    ensures r.Some? && f.Some? ==> f == Some(JStr(ModeName(r.value)))
    ensures forall m :: f == Some(JStr(ModeName(m))) ==> r == Some(m)
  {
    match f
    case None => Some(Process)
    case Some(JStr(s)) =>
      if s == "process" then Some(Process)
      else if s == "container" then Some(ContainerMode)
      else if s == "sdk" then Some(Sdk)
      else None
    case Some(_) => None
  }

  /** `timeout`: absent, or a strictly positive number. */
  function ParseTimeout(f: Option<Json>): (r: Option<Option<int>>)
    ensures r == Some(None) <==> f.None?
    ensures r.Some? && r.value.Some? <==> f.Some? && f.value.JNum? && f.value.n > 0
    ensures r.Some? && r.value.Some? ==> f == Some(JNum(r.value.value))
  {
    match f
    case None => Some(None)
    case Some(JNum(n)) => if n > 0 then Some(Some(n)) else None
    case Some(_) => None
  }

  function KindName(k: TaskService.FileKind): string {
    match k
    case Zip => "zip"
    case Git => "git"
  }

  /** `type`: `zip` or `git`. */
  function ParseKind(f: Option<Json>): (r: Option<TaskService.FileKind>)
    ensures r.Some? ==> f == Some(JStr(KindName(r.value)))
    ensures forall k :: f == Some(JStr(KindName(k))) ==> r == Some(k)
  {
    match f
    case Some(JStr(s)) => if s == "zip" then Some(TaskService.Zip) else if s == "git" then Some(TaskService.Git) else None
    case _ => None
  }

  /** `TaskFilesSchema`: `type` is `zip` or `git`; `gitUrl`, when given,
      must be a URL. */
  function ParseFiles(j: Json, isUrl: string -> bool): (r: Option<TaskService.TaskFiles>)
    ensures r.Some? ==> j.JObj? && Field(j, "type") == Some(JStr(KindName(r.value.kind)))
    ensures r.Some? && r.value.gitUrl.Some? ==> isUrl(r.value.gitUrl.value)
  {
    var kind := ParseKind(Field(j, "type"));
    var url := OptString(Field(j, "gitUrl"), 0);
    var ref := OptString(Field(j, "gitRef"), 0);
    if kind.None? || url.None? || ref.None? then None
    else if url.value.Some? && !isUrl(url.value.value) then None
    else Some(TaskService.TaskFiles(kind.value, url.value, ref.value))
  }

  function FilesJson(f: TaskService.TaskFiles): Json {
    JObj(Record([
      ("type", Some(JStr(KindName(f.kind)))),
      ("gitUrl", if f.gitUrl.Some? then Some(JStr(f.gitUrl.value)) else None),
      ("gitRef", if f.gitRef.Some? then Some(JStr(f.gitRef.value)) else None)]))
  }

  lemma {:induction false} ParseFilesJson(f: TaskService.TaskFiles, isUrl: string -> bool)
    requires f.gitUrl.Some? ==> isUrl(f.gitUrl.value)
    ensures ParseFiles(FilesJson(f), isUrl) == Some(f)
  {
    var kind := Some(JStr(KindName(f.kind)));
    var url := if f.gitUrl.Some? then Some(JStr(f.gitUrl.value)) else None;
    var ref := if f.gitRef.Some? then Some(JStr(f.gitRef.value)) else None;
    RecordOfThree("type", kind, "gitUrl", url, "gitRef", ref);
    ParseFilesOf(FilesJson(f), isUrl, f);
  }

  /** `ParseFiles` in terms of what its three fields decode to. */
  lemma {:induction false} ParseFilesOf(j: Json, isUrl: string -> bool, f: TaskService.TaskFiles)
    requires f.gitUrl.Some? ==> isUrl(f.gitUrl.value)
    requires Field(j, "type") == Some(JStr(KindName(f.kind)))
    requires Field(j, "gitUrl") == if f.gitUrl.Some? then Some(JStr(f.gitUrl.value)) else None
    requires Field(j, "gitRef") == if f.gitRef.Some? then Some(JStr(f.gitRef.value)) else None
    ensures ParseFiles(j, isUrl) == Some(f)
  {
    assert ParseKind(Field(j, "type")) == Some(f.kind);
  }

  /** An optional list of inline servers, each of the server schema's shape. */
  function OptServers(f: Option<Json>): (r: Option<Option<seq<McpServerConfig>>>)
    ensures r == Some(None) <==> f.None?
  {
    match f
    case None => Some(None)
    case Some(j) =>
      match McpProfileStore.DecodeServers(j)
      case None => None
      case Some(xs) => Some(Some(xs))
  }

  /** `TaskMcpSchema`: an object with optional `inline` servers and optional
      `profiles` ids. */
  function ParseMcp(j: Json): (r: Option<TaskService.TaskMcp>)
    ensures r.Some? ==> j.JObj?
    ensures r.Some? ==> r.value.profiles.Some? == Field(j, "profiles").Some?
    ensures r.Some? ==> r.value.inline.Some? == Field(j, "inline").Some?
  {
    var inline := OptServers(Field(j, "inline"));
    var profiles := OptStrings(Field(j, "profiles"));
    if !j.JObj? || inline.None? || profiles.None? then None
    else Some(TaskService.TaskMcp(inline.value, profiles.value))
  }

  function McpJson(m: TaskService.TaskMcp): Json {
    JObj(Record([
      ("inline", if m.inline.Some? then Some(McpProfileStore.ServersJson(m.inline.value)) else None),
      ("profiles", if m.profiles.Some? then Some(StrArray(m.profiles.value)) else None)]))
  }

  lemma {:induction false} ParseMcpJson(m: TaskService.TaskMcp)
    ensures ParseMcp(McpJson(m)) == Some(m)
  {
    var fields := [
      ("inline", if m.inline.Some? then Some(McpProfileStore.ServersJson(m.inline.value)) else None),
      ("profiles", if m.profiles.Some? then Some(StrArray(m.profiles.value)) else None)];
    var j := McpJson(m);
    FieldOfRecord(fields, 0);
    FieldOfRecord(fields, 1);
    if m.inline.Some? {
      McpProfileStore.DecodeServersJson(m.inline.value);
    }
    assert OptServers(Field(j, "inline")) == Some(m.inline);
    if m.profiles.Some? {
      DecodeStringsOf(m.profiles.value);
    }
    assert OptStrings(Field(j, "profiles")) == Some(m.profiles);
  }

  /** `AgentDefinitionSchema`: checked, then dropped (the service does not
      read agents). */
  predicate ValidAgent(j: Json) {
    && j.JObj?
    && ReqString(Field(j, "description"), 0).Some?
    && ReqString(Field(j, "prompt"), 0).Some?
    && (match Field(j, "model")
        case None => true
        case Some(JStr(s)) => s == "sonnet" || s == "opus" || s == "haiku" || s == "inherit"
        case Some(_) => false)
    && OptStrings(Field(j, "tools")).Some?
    && OptStrings(Field(j, "disallowedTools")).Some?
    && (Field(j, "maxTurns").None? || Field(j, "maxTurns").value.JNum?)
  }

  /** The optional `agents` record. */
  predicate ValidAgents(f: Option<Json>) {
    f.None? || (f.value.JObj? && forall i :: 0 <= i < |f.value.members| ==> ValidAgent(f.value.members[i].value))
  }

  function OptFiles(f: Option<Json>, isUrl: string -> bool): (r: Option<Option<TaskService.TaskFiles>>)
    ensures r == Some(None) <==> f.None?
    ensures r.Some? && r.value.Some? ==> r.value.value.gitUrl.Some? ==> isUrl(r.value.value.gitUrl.value)
  {
    match f
    case None => Some(None)
    case Some(j) => (match ParseFiles(j, isUrl) case None => None case Some(x) => Some(Some(x)))
  }

  function OptMcp(f: Option<Json>): (r: Option<Option<TaskService.TaskMcp>>)
    ensures r == Some(None) <==> f.None?
  {
    match f
    case None => Some(None)
    case Some(j) => (match ParseMcp(j) case None => None case Some(x) => Some(Some(x)))
  }

  /** What a request the schema accepts looks like once parsed: the two
      required strings are non-empty, the mode is filled in, a timeout is
      positive, a repository URL is a URL, the tags are a string record and
      the schema an object. No archive comes with a JSON body. */
  predicate WellFormedTask(x: TaskService.CreateTaskInput, isUrl: string -> bool) {
    && |x.prompt| >= 1 && |x.apiKey| >= 1
    && x.mode.Some?
    && (x.timeout.Some? ==> x.timeout.value > 0)
    && (x.schema.Some? ==> x.schema.value.JObj?)
    && (x.tags.Some? ==> IsStringRecord(x.tags.value))
    && (x.files.Some? && x.files.value.gitUrl.Some? ==> isUrl(x.files.value.gitUrl.value))
    && !x.hasZip
  }

  /** The members of a task body, each decoded on its own: `None` is a
      refused member, `Some(None)` an absent optional one. */
  datatype TaskParts = TaskParts(
    prompt: Option<string>,
    apiKey: Option<string>,
    schema: Option<Option<Json>>,
    mode: Option<ExecutionMode>,
    timeout: Option<Option<int>>,
    model: Option<Option<string>>,
    permissionMode: Option<Option<string>>,
    files: Option<Option<TaskService.TaskFiles>>,
    mcp: Option<Option<TaskService.TaskMcp>>,
    tags: Option<Option<Json>>,
    agentsValid: bool)

  function TaskPartsOf(body: Json, isUrl: string -> bool): TaskParts {
    TaskParts(
      ReqString(Field(body, "prompt"), 1),
      ReqString(Field(body, "apiKey"), 1),
      OptObject(Field(body, "schema")),
      ParseMode(Field(body, "mode")),
      ParseTimeout(Field(body, "timeout")),
      OptString(Field(body, "model"), 0),
      OptString(Field(body, "permissionMode"), 0),
      OptFiles(Field(body, "files"), isUrl),
      OptMcp(Field(body, "mcpServers")),
      OptStringRecord(Field(body, "tags")),
      ValidAgents(Field(body, "agents")))
  }

  /** The input, when no member was refused. */
  function Assemble(p: TaskParts): Option<TaskService.CreateTaskInput> {
    if p.prompt.None? || p.apiKey.None? || p.schema.None? || p.mode.None? || p.timeout.None?
      || p.model.None? || p.permissionMode.None? || p.files.None? || p.mcp.None? || p.tags.None? || !p.agentsValid
    then None
    else Some(TaskService.CreateTaskInput(p.prompt.value, p.apiKey.value, p.schema.value, Some(p.mode.value),
      p.timeout.value, p.model.value, p.permissionMode.value, p.files.value, p.mcp.value, p.tags.value, false))
  }

  /** `CreateTaskSchema.safeParse(body)`. */
  function ParseCreateTask(body: Json, isUrl: string -> bool): (r: Option<TaskService.CreateTaskInput>)
    ensures r.Some? ==> WellFormedTask(r.value, isUrl)
    ensures r.Some? ==> body.JObj?
    ensures r.Some? ==> Field(body, "prompt") == Some(JStr(r.value.prompt)) && Field(body, "apiKey") == Some(JStr(r.value.apiKey))
    ensures r.Some? && Field(body, "mode").None? ==> r.value.mode == Some(Process)
    ensures r.Some? ==> r.value.tags == Field(body, "tags") && r.value.schema == Field(body, "schema")
    ensures r.Some? ==> ValidAgents(Field(body, "agents"))
    ensures r.Some? && Field(body, "mode").Some? ==> Field(body, "mode") == Some(JStr(ModeName(r.value.mode.value)))
    ensures r.Some? ==> (r.value.timeout.None? <==> Field(body, "timeout").None?)
    ensures r.Some? && r.value.timeout.Some? ==> Field(body, "timeout") == Some(JNum(r.value.timeout.value))
  {
    if !body.JObj? then None else Assemble(TaskPartsOf(body, isUrl))
  }

  function OptStr(o: Option<string>): Option<Json> {
    if o.Some? then Some(JStr(o.value)) else None
  }

  function OptStrArray(o: Option<seq<string>>): Option<Json> {
    if o.Some? then Some(StrArray(o.value)) else None
  }

  function TaskFields(x: TaskService.CreateTaskInput): seq<(string, Option<Json>)> {
    [("prompt", Some(JStr(x.prompt))),
     ("apiKey", Some(JStr(x.apiKey))),
     ("schema", x.schema),
     ("mode", if x.mode.Some? then Some(JStr(ModeName(x.mode.value))) else None),
     ("timeout", if x.timeout.Some? then Some(JNum(x.timeout.value)) else None),
     ("model", OptStr(x.model)),
     ("permissionMode", OptStr(x.permissionMode)),
     ("files", if x.files.Some? then Some(FilesJson(x.files.value)) else None),
     ("mcpServers", if x.mcpServers.Some? then Some(McpJson(x.mcpServers.value)) else None),
     ("tags", x.tags),
     ("agents", None)]
  }

  /** The request body a client sends for an input (with no agents). */
  function TaskBody(x: TaskService.CreateTaskInput): Json {
    JObj(Record(TaskFields(x)))
  }

  /** Every input the schema can produce is what it parses back from its own
      body: together with `ParseCreateTask`'s contract, the parser accepts
      exactly the well-formed inputs. */
  lemma {:induction false} ParseTaskBody(x: TaskService.CreateTaskInput, isUrl: string -> bool)
    requires WellFormedTask(x, isUrl)
    ensures ParseCreateTask(TaskBody(x), isUrl) == Some(x)
  {
    TaskBodyParts(x, isUrl);
    AssembleExpected(x, isUrl);
  }

  /** The parts a well-formed input's body decodes to. */
  function ExpectedParts(x: TaskService.CreateTaskInput): TaskParts {
    TaskParts(Some(x.prompt), Some(x.apiKey), Some(x.schema), Some(x.mode.GetOr(Process)), Some(x.timeout),
      Some(x.model), Some(x.permissionMode), Some(x.files), Some(x.mcpServers), Some(x.tags), true)
  }

  lemma {:induction false} AssembleExpected(x: TaskService.CreateTaskInput, isUrl: string -> bool)
    requires WellFormedTask(x, isUrl)
    ensures Assemble(ExpectedParts(x)) == Some(x)
  {
  }

  lemma {:induction false} TaskBodyParts(x: TaskService.CreateTaskInput, isUrl: string -> bool)
    requires WellFormedTask(x, isUrl)
    ensures TaskPartsOf(TaskBody(x), isUrl) == ExpectedParts(x)
  {
    TaskBodyPartsFirst(x, isUrl);
    TaskBodyPartsRest(x, isUrl);
  }

  lemma {:induction false} TaskBodyPartsFirst(x: TaskService.CreateTaskInput, isUrl: string -> bool)
    requires WellFormedTask(x, isUrl)
    ensures var p := TaskPartsOf(TaskBody(x), isUrl);
      && p.prompt == Some(x.prompt) && p.apiKey == Some(x.apiKey) && p.schema == Some(x.schema)
      && p.mode == Some(x.mode.value) && p.timeout == Some(x.timeout)
  {
    TaskBodyFields(x);
  }

  lemma {:induction false} TaskBodyPartsRest(x: TaskService.CreateTaskInput, isUrl: string -> bool)
    requires WellFormedTask(x, isUrl)
    ensures var p := TaskPartsOf(TaskBody(x), isUrl);
      && p.model == Some(x.model) && p.permissionMode == Some(x.permissionMode) && p.files == Some(x.files)
      && p.mcp == Some(x.mcpServers) && p.tags == Some(x.tags) && p.agentsValid
  {
    TaskBodyFields(x);
    TaskBodyNested(x, isUrl);
  }

  lemma {:induction false} TaskBodyNested(x: TaskService.CreateTaskInput, isUrl: string -> bool)
    requires WellFormedTask(x, isUrl)
    ensures var j := TaskBody(x);
      && OptFiles(Field(j, "files"), isUrl) == Some(x.files)
      && OptMcp(Field(j, "mcpServers")) == Some(x.mcpServers)
  {
    TaskBodyFields(x);
    if x.files.Some? {
      ParseFilesJson(x.files.value, isUrl);
    }
    if x.mcpServers.Some? {
      ParseMcpJson(x.mcpServers.value);
    }
  }

  /** The members of a task body read back as written. */
  /** The body's eleven keys are pairwise different. */
  lemma {:induction false} TaskFieldsDistinct(x: TaskService.CreateTaskInput)
    ensures DistinctFieldKeys(TaskFields(x))
  {
  }

  lemma {:induction false} TaskBodyFields(x: TaskService.CreateTaskInput)
    ensures var j := TaskBody(x);
      && Field(j, "prompt") == Some(JStr(x.prompt))
      && Field(j, "apiKey") == Some(JStr(x.apiKey))
      && Field(j, "schema") == x.schema
      && Field(j, "mode") == (if x.mode.Some? then Some(JStr(ModeName(x.mode.value))) else None)
      && Field(j, "timeout") == (if x.timeout.Some? then Some(JNum(x.timeout.value)) else None)
      && Field(j, "model") == OptStr(x.model)
      && Field(j, "permissionMode") == OptStr(x.permissionMode)
      && Field(j, "files") == (if x.files.Some? then Some(FilesJson(x.files.value)) else None)
      && Field(j, "mcpServers") == (if x.mcpServers.Some? then Some(McpJson(x.mcpServers.value)) else None)
      && Field(j, "tags") == x.tags
      && Field(j, "agents") == None
  {
    var fields := TaskFields(x);
    TaskFieldsDistinct(x);
    FieldOfRecord(fields, 0);
    FieldOfRecord(fields, 1);
    FieldOfRecord(fields, 2);
    FieldOfRecord(fields, 3);
    FieldOfRecord(fields, 4);
    FieldOfRecord(fields, 5);
    FieldOfRecord(fields, 6);
    FieldOfRecord(fields, 7);
    FieldOfRecord(fields, 8);
    FieldOfRecord(fields, 9);
    FieldOfRecord(fields, 10);
  }

  // ---------------------------------------------------------------------------
  // Knowledge schemas
  // ---------------------------------------------------------------------------

  /** `code`: an optional string record, as its entries. */
  function OptCode(f: Option<Json>): (r: Option<Option<seq<(string, string)>>>)
    ensures r == Some(None) <==> f.None?
  {
    match f
    case None => Some(None)
    case Some(JObj(ms)) => (match RecordEntries(ms) case None => None case Some(es) => Some(Some(es)))
    case Some(_) => None
  }

  predicate WellFormedCreate(x: KnowledgeService.CreateRequest) {
    |x.title| >= 1 && |x.description| >= 1 && |x.promptTemplate| >= 1 && x.tags.Some?
  }

  /** `CreateKnowledgeSchema.safeParse(body)`: three non-empty strings, the
      tags defaulting to none. */
  function ParseCreateKnowledge(body: Json): (r: Option<KnowledgeService.CreateRequest>)
    ensures r.Some? ==> WellFormedCreate(r.value) && body.JObj?
    ensures r.Some? ==> Field(body, "title") == Some(JStr(r.value.title))
    ensures r.Some? ==> Field(body, "description") == Some(JStr(r.value.description))
    ensures r.Some? ==> Field(body, "promptTemplate") == Some(JStr(r.value.promptTemplate))
    ensures r.Some? && Field(body, "tags").None? ==> r.value.tags == Some([])
  {
    var title := ReqString(Field(body, "title"), 1);
    var description := ReqString(Field(body, "description"), 1);
    var tags := OptStrings(Field(body, "tags"));
    var category := OptString(Field(body, "category"), 0);
    var prompt := ReqString(Field(body, "promptTemplate"), 1);
    var code := OptCode(Field(body, "code"));
    if !body.JObj? || title.None? || description.None? || tags.None? || category.None? || prompt.None? || code.None?
    then None
    else Some(KnowledgeService.CreateRequest(title.value, description.value, Some(tags.value.GetOr([])),
      category.value, prompt.value, code.value))
  }

  function CreateFields(x: KnowledgeService.CreateRequest): seq<(string, Option<Json>)> {
    [("title", Some(JStr(x.title))),
     ("description", Some(JStr(x.description))),
     ("tags", OptStrArray(x.tags)),
     ("category", OptStr(x.category)),
     ("promptTemplate", Some(JStr(x.promptTemplate))),
     ("code", if x.code.Some? then Some(EntriesJson(x.code.value)) else None)]
  }

  function CreateBody(x: KnowledgeService.CreateRequest): Json {
    JObj(Record(CreateFields(x)))
  }

  lemma {:induction false} ParseCreateBody(x: KnowledgeService.CreateRequest)
    requires WellFormedCreate(x)
    ensures ParseCreateKnowledge(CreateBody(x)) == Some(x)
  {
    CreateBodyDecodes(x);
  }

  lemma {:induction false} CreateBodyDecodes(x: KnowledgeService.CreateRequest)
    requires WellFormedCreate(x)
    ensures var j := CreateBody(x);
      && ReqString(Field(j, "title"), 1) == Some(x.title)
      && ReqString(Field(j, "description"), 1) == Some(x.description)
      && OptStrings(Field(j, "tags")) == Some(x.tags)
      && OptString(Field(j, "category"), 0) == Some(x.category)
      && ReqString(Field(j, "promptTemplate"), 1) == Some(x.promptTemplate)
      && OptCode(Field(j, "code")) == Some(x.code)
  {
    CreateTextsDecode(x);
    CreateTagsDecode(x);
    CreateCodeDecodes(x);
  }

  lemma {:induction false} CreateTextsDecode(x: KnowledgeService.CreateRequest)
    requires WellFormedCreate(x)
    ensures var j := CreateBody(x);
      && ReqString(Field(j, "title"), 1) == Some(x.title)
      && ReqString(Field(j, "description"), 1) == Some(x.description)
      && OptString(Field(j, "category"), 0) == Some(x.category)
      && ReqString(Field(j, "promptTemplate"), 1) == Some(x.promptTemplate)
  {
    CreateBodyFields(x);
  }

  lemma {:induction false} CreateTagsDecode(x: KnowledgeService.CreateRequest)
    ensures OptStrings(Field(CreateBody(x), "tags")) == Some(x.tags)
  {
    CreateBodyFields(x);
    OptStringsOf(x.tags);
  }

  lemma {:induction false} CreateCodeDecodes(x: KnowledgeService.CreateRequest)
    ensures OptCode(Field(CreateBody(x), "code")) == Some(x.code)
  {
    CreateBodyFields(x);
    OptCodeOf(x.code);
  }

  lemma {:induction false} OptCodeOf(code: Option<seq<(string, string)>>)
    ensures OptCode(if code.Some? then Some(EntriesJson(code.value)) else None) == Some(code)
  {
    if code.Some? {
      RecordEntriesOf(code.value);
    }
  }

  lemma {:induction false} CreateBodyFields(x: KnowledgeService.CreateRequest)
    ensures var j := CreateBody(x);
      && Field(j, "title") == Some(JStr(x.title))
      && Field(j, "description") == Some(JStr(x.description))
      && Field(j, "tags") == OptStrArray(x.tags)
      && Field(j, "category") == OptStr(x.category)
      && Field(j, "promptTemplate") == Some(JStr(x.promptTemplate))
      && Field(j, "code") == (if x.code.Some? then Some(EntriesJson(x.code.value)) else None)
  {
    var fields := CreateFields(x);
    assert DistinctFieldKeys(fields);
    FieldOfRecord(fields, 0);
    FieldOfRecord(fields, 1);
    FieldOfRecord(fields, 2);
    FieldOfRecord(fields, 3);
    FieldOfRecord(fields, 4);
    FieldOfRecord(fields, 5);
  }

  /** An optional status, one of the three names. */
  function OptStatus(f: Option<Json>): (r: Option<Option<KnowledgeStore.KStatus>>)
    ensures r == Some(None) <==> f.None?
    ensures r.Some? && r.value.Some? ==> f == Some(JStr(KnowledgeStore.KStatusName(r.value.value)))
    ensures f.Some? && f.value.JStr? && KnowledgeStore.ParseKStatus(f.value.s).None? ==> r.None?
  {
    match f
    case None => Some(None)
    case Some(JStr(s)) => (match KnowledgeStore.ParseKStatus(s) case None => None case Some(st) => Some(Some(st)))
    case Some(_) => None
  }

  predicate WellFormedUpdate(u: KnowledgeService.UpdateRequest) {
    (u.title.Some? ==> |u.title.value| >= 1) && (u.description.Some? ==> |u.description.value| >= 1)
  }

  /** `UpdateKnowledgeSchema.safeParse(body)`: every member optional; a
      title or description that is given must not be empty. */
  function ParseUpdateKnowledge(body: Json): (r: Option<KnowledgeService.UpdateRequest>)
    ensures r.Some? ==> WellFormedUpdate(r.value) && body.JObj?
    ensures r.Some? ==> (r.value.status.Some? <==> Field(body, "status").Some?)
    ensures r.Some? ==> (r.value.title.Some? ==> Field(body, "title") == Some(JStr(r.value.title.value)))
  {
    var title := OptString(Field(body, "title"), 1);
    var description := OptString(Field(body, "description"), 1);
    var tags := OptStrings(Field(body, "tags"));
    var category := OptString(Field(body, "category"), 0);
    var status := OptStatus(Field(body, "status"));
    if !body.JObj? || title.None? || description.None? || tags.None? || category.None? || status.None?
    then None
    else Some(KnowledgeService.UpdateRequest(title.value, description.value, tags.value, category.value, status.value))
  }

  function UpdateFields(u: KnowledgeService.UpdateRequest): seq<(string, Option<Json>)> {
    [("title", OptStr(u.title)),
     ("description", OptStr(u.description)),
     ("tags", OptStrArray(u.tags)),
     ("category", OptStr(u.category)),
     ("status", if u.status.Some? then Some(JStr(KnowledgeStore.KStatusName(u.status.value))) else None)]
  }

  function UpdateBody(u: KnowledgeService.UpdateRequest): Json {
    JObj(Record(UpdateFields(u)))
  }

  lemma {:induction false} ParseUpdateBody(u: KnowledgeService.UpdateRequest)
    requires WellFormedUpdate(u)
    ensures ParseUpdateKnowledge(UpdateBody(u)) == Some(u)
  {
    UpdateBodyDecodes(u);
  }

  lemma {:induction false} UpdateBodyDecodes(u: KnowledgeService.UpdateRequest)
    requires WellFormedUpdate(u)
    ensures var j := UpdateBody(u);
      && OptString(Field(j, "title"), 1) == Some(u.title)
      && OptString(Field(j, "description"), 1) == Some(u.description)
      && OptStrings(Field(j, "tags")) == Some(u.tags)
      && OptString(Field(j, "category"), 0) == Some(u.category)
      && OptStatus(Field(j, "status")) == Some(u.status)
  {
    UpdateBodyFields(u);
    OptStringOf(u.title, 1);
    OptStringOf(u.description, 1);
    OptStringOf(u.category, 0);
    OptStringsOf(u.tags);
    OptStatusOf(u.status);
  }

  lemma {:induction false} OptStringOf(o: Option<string>, min: nat)
    requires o.Some? ==> |o.value| >= min
    ensures OptString(OptStr(o), min) == Some(o)
  {
  }

  lemma {:induction false} OptStringsOf(o: Option<seq<string>>)
    ensures OptStrings(OptStrArray(o)) == Some(o)
  {
    if o.Some? {
      DecodeStringsOf(o.value);
    }
  }

  lemma {:induction false} OptStatusOf(o: Option<KnowledgeStore.KStatus>)
    ensures OptStatus(if o.Some? then Some(JStr(KnowledgeStore.KStatusName(o.value))) else None) == Some(o)
  {
    if o.Some? {
      KnowledgeStore.ParseKStatusName(o.value);
    }
  }

  lemma {:induction false} UpdateBodyFields(u: KnowledgeService.UpdateRequest)
    ensures var j := UpdateBody(u);
      && Field(j, "title") == OptStr(u.title)
      && Field(j, "description") == OptStr(u.description)
      && Field(j, "tags") == OptStrArray(u.tags)
      && Field(j, "category") == OptStr(u.category)
      && Field(j, "status") == (if u.status.Some? then Some(JStr(KnowledgeStore.KStatusName(u.status.value))) else None)
  {
    var fields := UpdateFields(u);
    assert DistinctFieldKeys(fields);
    FieldOfRecord(fields, 0);
    FieldOfRecord(fields, 1);
    FieldOfRecord(fields, 2);
    FieldOfRecord(fields, 3);
    FieldOfRecord(fields, 4);
  }

  /** `{}` is a valid update that changes nothing; an empty title is not. */
  lemma {:induction false} UpdateEdgeCases()
    ensures ParseUpdateKnowledge(JObj([])) == Some(KnowledgeService.UpdateRequest(None, None, None, None, None))
    ensures ParseUpdateKnowledge(JObj([Member("title", JStr(""))])).None?
    ensures ParseUpdateKnowledge(JObj([Member("status", JStr("archived"))])).None?
  {
    LookupSmall(Member("title", JStr("")), Member("title", JStr("")), Member("title", JStr("")), "title");
    LookupSmall(Member("status", JStr("archived")), Member("status", JStr("archived")), Member("status", JStr("archived")), "status");
  }

  /** `RateKnowledgeSchema.safeParse(body)`: an integer score from 1 to 5. */
  function ParseRate(body: Json): (r: Option<int>)
    ensures r.Some? <==> body.JObj? && exists n :: 1 <= n <= 5 && Field(body, "score") == Some(JNum(n))
    ensures r.Some? ==> Field(body, "score") == Some(JNum(r.value))
  {
    match Field(body, "score")
    case Some(JNum(n)) => if body.JObj? && 1 <= n <= 5 then Some(n) else None
    case _ => None
  }

  lemma {:induction false} ParseRateBody(n: int)
    requires 1 <= n <= 5
    ensures ParseRate(JObj([Member("score", JNum(n))])) == Some(n)
  {
    LookupSmall(Member("score", JNum(n)), Member("score", JNum(n)), Member("score", JNum(n)), "score");
  }

  // ---------------------------------------------------------------------------
  // MCP profile schemas
  // ---------------------------------------------------------------------------

  datatype ProfileInput = ProfileInput(name: string, servers: seq<McpServerConfig>)

  /** `CreateMcpProfileSchema.safeParse(body)`: a non-empty name and a server
      list that must be present but may be empty. */
  function ParseCreateProfile(body: Json): (r: Option<ProfileInput>)
    ensures r.Some? ==> body.JObj? && |r.value.name| >= 1 && Field(body, "name") == Some(JStr(r.value.name))
    ensures r.Some? ==> Field(body, "servers").Some? && Field(body, "servers").value.JArr?
    ensures r.Some? ==> |r.value.servers| == |Field(body, "servers").value.items|
  {
    var name := ReqString(Field(body, "name"), 1);
    var servers := match Field(body, "servers") case None => None case Some(j) => McpProfileStore.DecodeServers(j);
    if !body.JObj? || name.None? || servers.None? then None
    else Some(ProfileInput(name.value, servers.value))
  }

  function ProfileBody(x: ProfileInput): Json {
    JObj([Member("name", JStr(x.name)), Member("servers", McpProfileStore.ServersJson(x.servers))])
  }

  lemma {:induction false} ParseProfileBody(x: ProfileInput)
    requires |x.name| >= 1
    ensures ParseCreateProfile(ProfileBody(x)) == Some(x)
  {
    var ms := ProfileBody(x).members;
    LookupSmall(ms[0], ms[1], ms[1], "name");
    LookupSmall(ms[0], ms[1], ms[1], "servers");
    McpProfileStore.DecodeServersJson(x.servers);
  }

  /** A profile with no servers is accepted; one with no server list is not. */
  lemma {:induction false} ProfileServersRequired(name: string)
    requires |name| >= 1
    ensures ParseCreateProfile(JObj([Member("name", JStr(name)), Member("servers", JArr([]))])) == Some(ProfileInput(name, []))
    ensures ParseCreateProfile(JObj([Member("name", JStr(name))])).None?
  {
    var n := Member("name", JStr(name));
    var s := Member("servers", JArr([]));
    LookupSmall(n, s, s, "name");
    LookupSmall(n, s, s, "servers");
    LookupSmall(n, n, n, "servers");
  }

  /** `McpProfileResponseSchema.safeParse(body)`. */
  function ParseProfileResponse(body: Json): (r: Option<McpProfileStore.McpProfile>)
    ensures r.Some? ==> Field(body, "id") == Some(JStr(r.value.id)) && Field(body, "name") == Some(JStr(r.value.name))
    ensures r.Some? ==> Field(body, "createdAt") == Some(JStr(r.value.createdAt))
  {
    var id := ReqString(Field(body, "id"), 0);
    var name := ReqString(Field(body, "name"), 0);
    var servers := match Field(body, "servers") case None => None case Some(j) => McpProfileStore.DecodeServers(j);
    var createdAt := ReqString(Field(body, "createdAt"), 0);
    if !body.JObj? || id.None? || name.None? || servers.None? || createdAt.None? then None
    else Some(McpProfileStore.McpProfile(id.value, name.value, servers.value, createdAt.value))
  }

  /** A profile as `c.json(profile)` writes it. */
  function ProfileJson(p: McpProfileStore.McpProfile): Json {
    JObj(Record([
      ("id", Some(JStr(p.id))),
      ("name", Some(JStr(p.name))),
      ("servers", Some(McpProfileStore.ServersJson(p.servers))),
      ("createdAt", Some(JStr(p.createdAt)))]))
  }

  /** Every profile, written as a response, has the response shape and
      reads back as itself. */
  lemma {:induction false} ProfileResponseRoundTrip(p: McpProfileStore.McpProfile)
    ensures ParseProfileResponse(ProfileJson(p)) == Some(p)
  {
    ProfileFields(p);
    McpProfileStore.DecodeServersJson(p.servers);
  }

  lemma {:induction false} ProfileFields(p: McpProfileStore.McpProfile)
    ensures var body := ProfileJson(p);
      && body.JObj?
      && Field(body, "id") == Some(JStr(p.id))
      && Field(body, "name") == Some(JStr(p.name))
      && Field(body, "servers") == Some(McpProfileStore.ServersJson(p.servers))
      && Field(body, "createdAt") == Some(JStr(p.createdAt))
  {
    var fields := [
      ("id", Some(JStr(p.id))),
      ("name", Some(JStr(p.name))),
      ("servers", Some(McpProfileStore.ServersJson(p.servers))),
      ("createdAt", Some(JStr(p.createdAt)))];
    FieldOfRecord(fields, 0);
    FieldOfRecord(fields, 1);
    FieldOfRecord(fields, 2);
    FieldOfRecord(fields, 3);
  }
}

/** The task table (src/storage/task.store.ts). Rows are kept in insertion
    order; the JSON columns hold the text `JSON.stringify` wrote, and reading a
    row parses them back. Identifiers and timestamps are parameters. */
module TaskStore {
  import opened Wrappers
  import opened Json
  import opened Types
  import JsonParse

  /** What `create` is given. `tags` is the tag record as a JSON object. */
  datatype CreateParams = CreateParams(
    prompt: string,
    mode: string,
    schemaJson: Option<string>,
    tags: Option<Json>,
    workspacePath: Option<string>)

  /** One stored row; `...Json` columns are JSON text. */
  datatype Row = Row(
    id: string,
    status: TaskStatus,
    prompt: string,
    mode: string,
    schemaJson: Option<string>,
    createdAt: string,
    startedAt: Option<string>,
    completedAt: Option<string>,
    resultJson: Option<string>,
    errorJson: Option<string>,
    duration: Option<int>,
    tagsJson: Option<string>,
    workspacePath: Option<string>)

  /** A task as callers see it, JSON columns parsed. */
  datatype TaskRecord = TaskRecord(
    id: string,
    status: TaskStatus,
    prompt: string,
    mode: string,
    createdAt: string,
    startedAt: Option<string>,
    completedAt: Option<string>,
    result: Option<Json>,
    error: Option<Json>,
    duration: Option<int>,
    tags: Option<Json>,
    workspacePath: Option<string>)

  datatype Store = Store(rows: seq<Row>)

  function Empty(): Store {
    Store([])
  }

  // ---------------------------------------------------------------------------
  // Reading rows
  // ---------------------------------------------------------------------------

  /** A JSON column read back: absent when NULL or empty, otherwise parsed. */
  function ParseColumn(c: Option<string>): Option<Json> {
    match c
    case None => None
    case Some(t) => if t == "" then None else JsonParse.Parse(t)
  }

  lemma {:induction false} ParseColumnStringify(j: Json)
    ensures ParseColumn(Some(Stringify(j))) == Some(j)
  {
    JsonParse.StringifyStart(j);
    JsonParse.ParseStringify(j);
  }

  lemma {:induction false} ParseColumnOptional(o: Option<Json>)
    ensures ParseColumn(if o.Some? then Some(Stringify(o.value)) else None) == o
  {
    if o.Some? {
      ParseColumnStringify(o.value);
    }
  }

  /** `toTaskRecord(row)`. */
  function ToRecord(r: Row): (t: TaskRecord)
    ensures t.id == r.id && t.status == r.status
  {
    TaskRecord(r.id, r.status, r.prompt, r.mode, r.createdAt, r.startedAt, r.completedAt,
      ParseColumn(r.resultJson), ParseColumn(r.errorJson), r.duration, ParseColumn(r.tagsJson), r.workspacePath)
  }

  /** The first row with the given id. */
  function Find(rows: seq<Row>, id: string): (r: Option<Row>)
    ensures r.Some? ==> r.value in rows && r.value.id == id
    ensures r.None? <==> forall i :: 0 <= i < |rows| ==> rows[i].id != id
    decreases |rows|
  {
    if |rows| == 0 then None
    else if rows[0].id == id then Some(rows[0])
    else
      var r := Find(rows[1..], id);
      assert forall i :: 1 <= i < |rows| ==> rows[i] == rows[1..][i - 1];
      r
  }

  /** `getById(id)`: the record, or `None` (null) for an unknown id. */
  function GetById(s: Store, id: string): (r: Option<TaskRecord>)
    ensures r.None? <==> forall i :: 0 <= i < |s.rows| ==> s.rows[i].id != id
    ensures r.Some? ==> r.value.id == id
  {
    match Find(s.rows, id)
    case None => None
    case Some(row) => Some(ToRecord(row))
  }

  /** Ids are unique and every JSON column parses. */
  ghost predicate Valid(s: Store) {
    && (forall i, j :: 0 <= i < j < |s.rows| ==> s.rows[i].id != s.rows[j].id)
    && (forall i :: 0 <= i < |s.rows| ==> ColumnsParse(s.rows[i]))
  }

  ghost predicate ColumnParses(c: Option<string>) {
    c.Some? ==> JsonParse.Parse(c.value).Some?
  }

  ghost predicate ColumnsParse(r: Row) {
    ColumnParses(r.resultJson) && ColumnParses(r.errorJson) && ColumnParses(r.tagsJson)
  }

  // ---------------------------------------------------------------------------
  // Writing rows
  // ---------------------------------------------------------------------------

  /** `create(params)` with the generated id and the current time. A repeated
      id violates the primary key and the insert fails. The row starts
      `queued` (the column default) with no start, completion, result, error
      or duration. */
  function Create(s: Store, id: string, now: string, p: CreateParams): (r: Result<Store, string>)
    ensures r.Ok? <==> GetById(s, id).None?
    ensures r.Ok? ==> GetById(r.value, id) == Some(TaskRecord(id, Queued, p.prompt, p.mode, now,
      None, None, None, None, None, p.tags, p.workspacePath))
    ensures r.Ok? ==> forall x :: x != id ==> GetById(r.value, x) == GetById(s, x)
    ensures r.Ok? ==> |r.value.rows| == |s.rows| + 1
  {
    if Find(s.rows, id).Some? then Err("UNIQUE constraint failed: tasks.id")
    else
      var tags := if p.tags.Some? then Some(Stringify(p.tags.value)) else None;
      var row := Row(id, Queued, p.prompt, p.mode, p.schemaJson, now, None, None, None, None, None, tags, p.workspacePath);
      ParseColumnOptional(p.tags);
      FindAppend(s.rows, row);
      Ok(Store(s.rows + [row]))
  }

  lemma {:induction false} FindAppend(rows: seq<Row>, row: Row)
    requires Find(rows, row.id).None?
    ensures Find(rows + [row], row.id) == Some(row)
    ensures forall x :: x != row.id ==> Find(rows + [row], x) == Find(rows, x)
  {
    forall x
      ensures Find(rows + [row], x) == if x == row.id then Some(row) else Find(rows, x)
    {
      FindAppendAny(rows, row, x);
    }
  }

  lemma {:induction false} FindAppendAny(rows: seq<Row>, row: Row, x: string)
    requires x == row.id ==> Find(rows, row.id).None?
    ensures Find(rows + [row], x) == if x == row.id then Some(row) else Find(rows, x)
    decreases |rows|
  {
    if |rows| == 0 {
      assert rows + [row] == [row];
    } else {
      assert (rows + [row])[1..] == rows[1..] + [row];
      if rows[0].id != x {
        FindAppendAny(rows[1..], row, x);
      }
    }
  }

  /** The three column updates the store issues. */
  datatype Update =
    | SetStatus(st: TaskStatus, now: string)
    | SetResult(data: Option<Json>, valid: bool, duration: int, now: string)
    | SetError(e: ErrorInfo, optDuration: Option<int>, now: string)

  /** The row after one update. A duration left `undefined` is not part of
      the update, so the stored one stays. */
  function ApplyUpdate(u: Update, r: Row): (r': Row)
    ensures r'.id == r.id
  {
    match u
    case SetStatus(st, now) =>
      r.(status := st, startedAt := if st == Running then Some(now) else r.startedAt)
    case SetResult(data, valid, d, now) =>
      r.(status := Completed, resultJson := Some(Stringify(ResultJson(data, valid))),
         completedAt := Some(now), duration := Some(d))
    case SetError(e, od, now) =>
      r.(status := Failed, errorJson := Some(Stringify(ErrorJson(e))),
         completedAt := Some(now), duration := if od.Some? then od else r.duration)
  }

  /** Applies `u` to every row with the given id (an `UPDATE ... WHERE id`). */
  function SetWhere(rows: seq<Row>, id: string, u: Update): (r: seq<Row>)
    ensures |r| == |rows|
  {
    seq(|rows|, i requires 0 <= i < |rows| => if rows[i].id == id then ApplyUpdate(u, rows[i]) else rows[i])
  }

  lemma {:induction false} FindSetWhere(rows: seq<Row>, id: string, u: Update, x: string)
    ensures Find(SetWhere(rows, id, u), x) ==
      match Find(rows, x)
      case None => None
      case Some(r) => Some(if x == id then ApplyUpdate(u, r) else r)
    decreases |rows|
  {
    if |rows| > 0 {
      assert SetWhere(rows, id, u)[1..] == SetWhere(rows[1..], id, u);
      FindSetWhere(rows[1..], id, u, x);
    }
  }

  lemma {:induction false} SetWhereAbsent(rows: seq<Row>, id: string, u: Update)
    requires Find(rows, id).None?
    ensures SetWhere(rows, id, u) == rows
  {
  }

  /** What `Find` returns after `u` is applied to the rows with id `id`. */
  function FindAfter(rows: seq<Row>, id: string, u: Update, x: string): Option<Row> {
    match Find(rows, x)
    case None => None
    case Some(row) => Some(if x == id then ApplyUpdate(u, row) else row)
  }

  /** Runs an update against the store; unknown ids change nothing. */
  function Run(s: Store, id: string, u: Update): (r: Store)
    ensures Find(s.rows, id).None? ==> r == s
    ensures forall x :: Find(r.rows, x) == FindAfter(s.rows, id, u, x)
  {
    assert forall x :: Find(SetWhere(s.rows, id, u), x) == FindAfter(s.rows, id, u, x) by {
      forall x ensures Find(SetWhere(s.rows, id, u), x) == FindAfter(s.rows, id, u, x) {
        FindSetWhere(s.rows, id, u, x);
      }
    }
    if Find(s.rows, id).None? then
      SetWhereAbsent(s.rows, id, u);
      s
    else
      Store(SetWhere(s.rows, id, u))
  }

  /** `updateStatus(id, status)`: sets the status, and the start time when the
      new status is `running`; nothing else changes. There is no check of the
      current status, and an unknown id changes nothing. */
  function UpdateStatus(s: Store, id: string, st: TaskStatus, now: string): (r: Store)
    ensures GetById(s, id).None? ==> r == s
    ensures GetById(s, id).Some? ==> GetById(r, id) == Some(GetById(s, id).value.(
      status := st,
      startedAt := if st == Running then Some(now) else GetById(s, id).value.startedAt))
    ensures forall x :: x != id ==> GetById(r, x) == GetById(s, x)
  {
    Run(s, id, SetStatus(st, now))
  }

  /** The object `complete` stores: `{data, valid}`, where `data` is left out
      when it is `undefined`. */
  function ResultJson(data: Option<Json>, valid: bool): (j: Json)
    ensures Field(j, "valid") == Some(JBool(valid))
    ensures Field(j, "data") == data
  {
    var v := Member("valid", JBool(valid));
    if data.Some? then
      LookupSmall(Member("data", data.value), v, v, "valid");
      LookupSmall(Member("data", data.value), v, v, "data");
      JObj([Member("data", data.value), v])
    else
      LookupSmall(v, v, v, "data");
      JObj([v])
  }

  /** The object `fail` stores: `{code, message}`. */
  function ErrorJson(e: ErrorInfo): (j: Json)
    ensures Field(j, "code") == Some(JStr(e.code))
    ensures Field(j, "message") == Some(JStr(e.message))
  {
    var a := Member("code", JStr(e.code));
    var b := Member("message", JStr(e.message));
    LookupSmall(a, b, b, "code");
    LookupSmall(a, b, b, "message");
    JObj([a, b])
  }

  /** `complete(id, {data, valid}, duration)`: status `completed`, the result,
      the completion time and the duration; a stored error stays. Applies
      whatever the current status, including `cancelled`. */
  function Complete(s: Store, id: string, data: Option<Json>, valid: bool, duration: int, now: string): (r: Store)
    ensures GetById(s, id).None? ==> r == s
    ensures GetById(s, id).Some? ==> GetById(r, id) == Some(GetById(s, id).value.(
      status := Completed, result := Some(ResultJson(data, valid)),
      completedAt := Some(now), duration := Some(duration)))
    ensures forall x :: x != id ==> GetById(r, x) == GetById(s, x)
  {
    ParseColumnStringify(ResultJson(data, valid));
    Run(s, id, SetResult(data, valid, duration, now))
  }

  /** `fail(id, error, duration?)`: status `failed`, the error, the completion
      time, and the duration when one is given (an `undefined` value is left
      out of the update, so the stored duration stays); a stored result stays.
      Applies whatever the current status. */
  function Fail(s: Store, id: string, e: ErrorInfo, duration: Option<int>, now: string): (r: Store)
    ensures GetById(s, id).None? ==> r == s
    ensures GetById(s, id).Some? ==> GetById(r, id) == Some(GetById(s, id).value.(
      status := Failed, error := Some(ErrorJson(e)), completedAt := Some(now),
      duration := if duration.Some? then duration else GetById(s, id).value.duration))
    ensures forall x :: x != id ==> GetById(r, x) == GetById(s, x)
  {
    ParseColumnStringify(ErrorJson(e));
    Run(s, id, SetError(e, duration, now))
  }

  // ---------------------------------------------------------------------------
  // Listing
  // ---------------------------------------------------------------------------

  /** `list({status})`: the records in table order, only those with the given
      status when one is given. */
  function List(s: Store, status: Option<TaskStatus>): (r: seq<TaskRecord>)
    ensures status.None? ==> |r| == |s.rows|
    ensures forall i :: 0 <= i < |r| ==> status.None? || r[i].status == status.value
    ensures forall i :: 0 <= i < |r| ==> exists k :: 0 <= k < |s.rows| && r[i] == ToRecord(s.rows[k])
    ensures forall k :: 0 <= k < |s.rows| && (status.None? || s.rows[k].status == status.value) ==>
      ToRecord(s.rows[k]) in r
  {
    ListRows(s.rows, status)
  }

  /** Whether a listing for `status` includes the row. */
  predicate Listed(row: Row, status: Option<TaskStatus>) {
    status.None? || row.status == status.value
  }

  function ListRows(rows: seq<Row>, status: Option<TaskStatus>): (r: seq<TaskRecord>)
    ensures status.None? ==> |r| == |rows|
    ensures forall i :: 0 <= i < |r| ==> status.None? || r[i].status == status.value
    ensures forall i :: 0 <= i < |r| ==> exists k :: 0 <= k < |rows| && r[i] == ToRecord(rows[k])
    ensures forall k :: 0 <= k < |rows| && (status.None? || rows[k].status == status.value) ==>
      ToRecord(rows[k]) in r
  {
    ListRowsSound(rows, status);
    ListRowsComplete(rows, status);
    Select(rows, status)
  }

  /** The records of the listed rows, in table order. */
  function Select(rows: seq<Row>, status: Option<TaskStatus>): (r: seq<TaskRecord>)
    ensures status.None? ==> |r| == |rows|
    decreases |rows|
  {
    if |rows| == 0 then []
    else (if Listed(rows[0], status) then [ToRecord(rows[0])] else []) + Select(rows[1..], status)
  }

  lemma {:induction false} ListRowsSound(rows: seq<Row>, status: Option<TaskStatus>)
    ensures forall t :: t in Select(rows, status) ==>
      (status.None? || t.status == status.value) && exists k :: 0 <= k < |rows| && t == ToRecord(rows[k])
    decreases |rows|
  {
    if |rows| > 0 {
      ListRowsSound(rows[1..], status);
      var head := if Listed(rows[0], status) then [ToRecord(rows[0])] else [];
      var rest := Select(rows[1..], status);
      assert Select(rows, status) == head + rest;
      forall t | t in rest ensures exists k :: 0 <= k < |rows| && t == ToRecord(rows[k]) {
        var k :| 0 <= k < |rows[1..]| && t == ToRecord(rows[1..][k]);
        assert rows[1..][k] == rows[k + 1];
      }
    }
  }

  lemma {:induction false} ListRowsComplete(rows: seq<Row>, status: Option<TaskStatus>)
    ensures forall k :: 0 <= k < |rows| && Listed(rows[k], status) ==> ToRecord(rows[k]) in Select(rows, status)
    decreases |rows|
  {
    if |rows| > 0 {
      ListRowsComplete(rows[1..], status);
      forall k | 0 <= k < |rows| && Listed(rows[k], status) ensures ToRecord(rows[k]) in Select(rows, status) {
        if k > 0 {
          assert rows[k] == rows[1..][k - 1];
        }
      }
    }
  }

  // ---------------------------------------------------------------------------
  // Invariant
  // ---------------------------------------------------------------------------

  lemma {:induction false} CreateValid(s: Store, id: string, now: string, p: CreateParams)
    requires Valid(s)
    ensures Create(s, id, now, p).Ok? ==> Valid(Create(s, id, now, p).value)
  {
    if Find(s.rows, id).None? {
      var tags := if p.tags.Some? then Some(Stringify(p.tags.value)) else None;
      var row := Row(id, Queued, p.prompt, p.mode, p.schemaJson, now, None, None, None, None, None, tags, p.workspacePath);
      if p.tags.Some? {
        ParseColumnStringify(p.tags.value);
      }
      assert ColumnsParse(row);
      AppendValid(s, row);
      assert Create(s, id, now, p) == Ok(Store(s.rows + [row]));
    }
  }

  /** Appending a row with a fresh id and readable columns keeps a store valid. */
  lemma {:induction false} AppendValid(s: Store, row: Row)
    requires Valid(s) && Find(s.rows, row.id).None? && ColumnsParse(row)
    ensures Valid(Store(s.rows + [row]))
  {
    var rows := s.rows + [row];
    forall i | 0 <= i < |rows| ensures rows[i] == if i < |s.rows| then s.rows[i] else row {
    }
  }

  lemma {:induction false} UpdatesValid(s: Store, id: string, u: Update)
    requires Valid(s)
    ensures Valid(Run(s, id, u))
  {
    match u
    case SetStatus(_, _) =>
    case SetResult(data, valid, _, _) => ParseColumnStringify(ResultJson(data, valid));
    case SetError(e, _, _) => ParseColumnStringify(ErrorJson(e));
  }

  /** A record keeps its result when it later fails and its error when it
      later completes, so a task that failed and was then completed shows
      both. */
  lemma {:induction false} CompleteAfterFailKeepsError(s: Store, id: string, e: ErrorInfo, data: Option<Json>, valid: bool, d: int, t1: string, t2: string)
    requires GetById(s, id).Some?
    ensures var r := GetById(Complete(Fail(s, id, e, Some(d), t1), id, data, valid, d, t2), id).value;
      r.status == Completed && r.error == Some(ErrorJson(e)) && r.result == Some(ResultJson(data, valid))
  {
  }
}

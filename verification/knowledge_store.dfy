/** The knowledge table (src/storage/knowledge.store.ts). Rows are kept in
    insertion order; `tagsJson` holds the text `JSON.stringify` wrote for the
    tag list. Identifiers and timestamps are parameters. Ratings are stored in
    tenths of a star (the service rounds averages to one decimal). */
module KnowledgeStore {
  import opened Wrappers
  import opened Json
  import Strs
  import JsonParse

  /** `KnowledgeStatus`. */
  datatype KStatus = Active | Draft | Deprecated

  function KStatusName(s: KStatus): string {
    match s
    case Active => "active"
    case Draft => "draft"
    case Deprecated => "deprecated"
  }

  /** The status a text names, if any. */
  function ParseKStatus(t: string): (r: Option<KStatus>)
    ensures r.Some? ==> KStatusName(r.value) == t
    ensures r.None? ==> t != "active" && t != "draft" && t != "deprecated"
  {
    if t == "active" then Some(Active)
    else if t == "draft" then Some(Draft)
    else if t == "deprecated" then Some(Deprecated)
    else None
  }

  lemma {:induction false} ParseKStatusName(s: KStatus)
    ensures ParseKStatus(KStatusName(s)) == Some(s)
  {
  }

  /** What `create` and `upsert` are given; optional fields are `None` when
      `undefined`. */
  datatype Params = Params(
    title: string,
    description: string,
    tags: seq<string>,
    category: Option<string>,
    source: Option<string>,
    originTaskId: Option<string>,
    folderPath: string)

  /** One stored row. */
  datatype Row = Row(
    id: string,
    title: string,
    description: string,
    tagsJson: Option<string>,
    category: Option<string>,
    status: KStatus,
    avgRating: int,
    voteCount: nat,
    source: string,
    originTaskId: Option<string>,
    folderPath: string,
    createdAt: string,
    updatedAt: string)

  /** `KnowledgeEntry`: a row with its tags parsed. */
  datatype Entry = Entry(
    id: string,
    title: string,
    description: string,
    tags: seq<string>,
    category: Option<string>,
    status: KStatus,
    avgRating: int,
    voteCount: nat,
    source: string,
    originTaskId: Option<string>,
    folderPath: string,
    createdAt: string,
    updatedAt: string)

  datatype Store = Store(rows: seq<Row>)

  function Empty(): Store {
    Store([])
  }

  // ---------------------------------------------------------------------------
  // Reading rows
  // ---------------------------------------------------------------------------

  /** The stored text of a tag list. */
  function TagsText(tags: seq<string>): string {
    Stringify(StrArray(tags))
  }

  /** The tags of a row: none when the column is NULL or empty, otherwise the
      parsed array. A column that is not a JSON array of strings reads as no
      tags; the store never writes one. */
  function ReadTags(c: Option<string>): seq<string> {
    match c
    case None => []
    case Some(t) =>
      if t == "" then []
      else
        match JsonParse.Parse(t)
        case Some(JArr(items)) => DecodeStrings(items).GetOr([])
        case _ => []
  }

  /** A written tag list reads back unchanged. */
  lemma {:induction false} ReadTagsWritten(tags: seq<string>)
    ensures ReadTags(Some(TagsText(tags))) == tags
  {
    JsonParse.StringifyStart(StrArray(tags));
    JsonParse.ParseStringify(StrArray(tags));
    DecodeStringsOf(tags);
  }

  function ToEntry(r: Row): Entry {
    Entry(r.id, r.title, r.description, ReadTags(r.tagsJson), r.category, r.status, r.avgRating,
      r.voteCount, r.source, r.originTaskId, r.folderPath, r.createdAt, r.updatedAt)
  }

  /** The first row with the given id. */
  function Find(rows: seq<Row>, id: string): (r: Option<Row>)
    ensures r.Some? ==> r.value in rows && r.value.id == id
    ensures r.None? <==> forall i :: 0 <= i < |rows| ==> rows[i].id != id
    decreases |rows|
  {
    if |rows| == 0 then None
    else if rows[0].id == id then Some(rows[0])
    else
      var r := Find(rows[1..], id);
      assert forall i :: 1 <= i < |rows| ==> rows[i] == rows[1..][i - 1];
      r
  }

  /** `getById(id)`: the entry, or `None` (null) for an unknown id. */
  function GetById(s: Store, id: string): (r: Option<Entry>)
    ensures r.None? <==> forall i :: 0 <= i < |s.rows| ==> s.rows[i].id != id
    ensures r.Some? ==> r.value.id == id
  {
    match Find(s.rows, id)
    case None => None
    case Some(row) => Some(ToEntry(row))
  }

  // ---------------------------------------------------------------------------
  // Inserting rows
  // ---------------------------------------------------------------------------

  /** The row an insert writes: status `active`, no rating and no votes (the
      column defaults), source `auto` unless one is given, both timestamps
      `now`. */
  function NewRow(id: string, p: Params, now: string): Row {
    Row(id, p.title, p.description, Some(TagsText(p.tags)), p.category, Active, 0, 0,
      p.source.GetOr("auto"), p.originTaskId, p.folderPath, now, now)
  }

  /** The entry a fresh insert reads back as. */
  function NewEntry(id: string, p: Params, now: string): Entry {
    Entry(id, p.title, p.description, p.tags, p.category, Active, 0, 0,
      p.source.GetOr("auto"), p.originTaskId, p.folderPath, now, now)
  }

  const DuplicateId := "UNIQUE constraint failed: knowledge_entries.id"

  /** An `INSERT`: refused when the id is taken (the primary key). */
  function Insert(s: Store, id: string, p: Params, now: string): (r: Result<Store, string>)
    ensures r.Ok? <==> GetById(s, id).None?
    ensures r.Err? ==> r.error == DuplicateId
    ensures r.Ok? ==> GetById(r.value, id) == Some(NewEntry(id, p, now))
    ensures r.Ok? ==> forall x :: x != id ==> GetById(r.value, x) == GetById(s, x)
  {
    if Find(s.rows, id).Some? then Err(DuplicateId)
    else
      var row := NewRow(id, p, now);
      ReadTagsWritten(p.tags);
      FindAppend(s.rows, row);
      Ok(Store(s.rows + [row]))
  }

  /** `create(params)` with the generated id and the current time. */
  function Create(s: Store, id: string, p: Params, now: string): (r: Result<Store, string>)
    ensures r.Ok? <==> GetById(s, id).None?
    ensures r.Ok? ==> GetById(r.value, id) == Some(NewEntry(id, p, now))
    ensures r.Ok? ==> forall x :: x != id ==> GetById(r.value, x) == GetById(s, x)
  {
    Insert(s, id, p, now)
  }

  lemma {:induction false} FindAppend(rows: seq<Row>, row: Row)
    requires Find(rows, row.id).None?
    ensures Find(rows + [row], row.id) == Some(row)
    ensures forall x :: x != row.id ==> Find(rows + [row], x) == Find(rows, x)
  {
    forall x
      ensures Find(rows + [row], x) == if x == row.id then Some(row) else Find(rows, x)
    {
      FindAppendAny(rows, row, x);
    }
  }

  lemma {:induction false} FindAppendAny(rows: seq<Row>, row: Row, x: string)
    requires x == row.id ==> Find(rows, row.id).None?
    ensures Find(rows + [row], x) == if x == row.id then Some(row) else Find(rows, x)
    decreases |rows|
  {
    if |rows| == 0 {
      assert rows + [row] == [row];
    } else {
      assert (rows + [row])[1..] == rows[1..] + [row];
      if rows[0].id != x {
        FindAppendAny(rows[1..], row, x);
      }
    }
  }

  // ---------------------------------------------------------------------------
  // Updating rows
  // ---------------------------------------------------------------------------

  /** The three column updates the store issues. `Overwrite` carries the
      source and origin task already resolved against the stored entry. */
  datatype Update =
    | Overwrite(p: Params, source: string, originTaskId: Option<string>, now: string)
    | SetRating(avg: int, count: nat, now: string)
    | SetStatus(st: KStatus, now: string)

  function ApplyUpdate(u: Update, r: Row): (r': Row)
    ensures r'.id == r.id && r'.createdAt == r.createdAt
  {
    match u
    case Overwrite(p, source, origin, now) =>
      r.(title := p.title, description := p.description, tagsJson := Some(TagsText(p.tags)),
         category := p.category, source := source, originTaskId := origin,
         folderPath := p.folderPath, updatedAt := now)
    case SetRating(avg, count, now) => r.(avgRating := avg, voteCount := count, updatedAt := now)
    case SetStatus(st, now) => r.(status := st, updatedAt := now)
  }

  /** Applies `u` to every row with the given id (an `UPDATE ... WHERE id`). */
  function SetWhere(rows: seq<Row>, id: string, u: Update): (r: seq<Row>)
    ensures |r| == |rows|
  {
    seq(|rows|, i requires 0 <= i < |rows| => if rows[i].id == id then ApplyUpdate(u, rows[i]) else rows[i])
  }

  /** What `Find` returns after `u` is applied to the rows with id `id`. */
  function FindAfter(rows: seq<Row>, id: string, u: Update, x: string): Option<Row> {
    match Find(rows, x)
    case None => None
    case Some(row) => Some(if x == id then ApplyUpdate(u, row) else row)
  }

  lemma {:induction false} FindSetWhere(rows: seq<Row>, id: string, u: Update, x: string)
    ensures Find(SetWhere(rows, id, u), x) == FindAfter(rows, id, u, x)
    decreases |rows|
  {
    if |rows| > 0 {
      assert SetWhere(rows, id, u)[1..] == SetWhere(rows[1..], id, u);
      FindSetWhere(rows[1..], id, u, x);
    }
  }

  /** Runs an update against the store; unknown ids change nothing. */
  function Run(s: Store, id: string, u: Update): (r: Store)
    ensures Find(s.rows, id).None? ==> r == s
    ensures forall x :: Find(r.rows, x) == FindAfter(s.rows, id, u, x)
  {
    assert forall x :: Find(SetWhere(s.rows, id, u), x) == FindAfter(s.rows, id, u, x) by {
      forall x ensures Find(SetWhere(s.rows, id, u), x) == FindAfter(s.rows, id, u, x) {
        FindSetWhere(s.rows, id, u, x);
      }
    }
    if Find(s.rows, id).None? then s else Store(SetWhere(s.rows, id, u))
  }

  /** The entry an overwrite of `e` reads back as: every field from the
      parameters except the status, the rating and the creation time, with the
      stored source and origin task kept when none is given. The category is
      cleared when none is given. */
  function Overwritten(e: Entry, p: Params, now: string): Entry {
    e.(title := p.title, description := p.description, tags := p.tags, category := p.category,
       source := p.source.GetOr(e.source),
       originTaskId := if p.originTaskId.Some? then p.originTaskId else e.originTaskId,
       folderPath := p.folderPath, updatedAt := now)
  }

  /** `upsert(params)`. A non-empty id naming a stored entry overwrites it and
      returns that id. Otherwise a row is inserted under the given id, or
      under `freshId` when none is given (an empty id is kept, since `??` only
      replaces `undefined`); the insert fails when that id is taken. */
  function Upsert(s: Store, id: Option<string>, freshId: string, p: Params, now: string): (r: Result<(Store, string), string>)
    ensures id.Some? && id.value != "" && GetById(s, id.value).Some? ==>
      r.Ok? && r.value.1 == id.value &&
      GetById(r.value.0, id.value) == Some(Overwritten(GetById(s, id.value).value, p, now))
    ensures !(id.Some? && id.value != "" && GetById(s, id.value).Some?) ==>
      (r.Ok? <==> GetById(s, id.GetOr(freshId)).None?)
    ensures !(id.Some? && id.value != "" && GetById(s, id.value).Some?) && r.Ok? ==>
      r.value.1 == id.GetOr(freshId) && GetById(r.value.0, r.value.1) == Some(NewEntry(r.value.1, p, now))
    ensures r.Err? ==> r.error == DuplicateId
    ensures r.Ok? ==> forall x :: x != r.value.1 ==> GetById(r.value.0, x) == GetById(s, x)
  {
    if id.Some? && id.value != "" && Find(s.rows, id.value).Some? then
      var existing := Find(s.rows, id.value).value;
      var u := Overwrite(p, p.source.GetOr(existing.source),
        if p.originTaskId.Some? then p.originTaskId else existing.originTaskId, now);
      ReadTagsWritten(p.tags);
      Ok((Run(s, id.value, u), id.value))
    else
      match Insert(s, id.GetOr(freshId), p, now)
      case Err(e) => Err(e)
      case Ok(s') => Ok((s', id.GetOr(freshId)))
  }

  /** `updateRating(id, avgRating, voteCount)`: the rating, the vote count and
      the update time change; an unknown id changes nothing. */
  function UpdateRating(s: Store, id: string, avg: int, count: nat, now: string): (r: Store)
    ensures GetById(s, id).None? ==> r == s
    ensures GetById(s, id).Some? ==> GetById(r, id) == Some(GetById(s, id).value.(
      avgRating := avg, voteCount := count, updatedAt := now))
    ensures forall x :: x != id ==> GetById(r, x) == GetById(s, x)
  {
    Run(s, id, SetRating(avg, count, now))
  }

  /** `updateStatus(id, status)`: the status and the update time change; an
      unknown id changes nothing. */
  function UpdateStatus(s: Store, id: string, st: KStatus, now: string): (r: Store)
    ensures GetById(s, id).None? ==> r == s
    ensures GetById(s, id).Some? ==> GetById(r, id) == Some(GetById(s, id).value.(
      status := st, updatedAt := now))
    ensures forall x :: x != id ==> GetById(r, x) == GetById(s, x)
  {
    Run(s, id, SetStatus(st, now))
  }

  // ---------------------------------------------------------------------------
  // Deleting rows
  // ---------------------------------------------------------------------------

  /** The rows whose id differs from `id`, in order. */
  function Without(rows: seq<Row>, id: string): (r: seq<Row>)
    ensures forall i :: 0 <= i < |r| ==> r[i].id != id && r[i] in rows
    ensures forall x :: x in rows && x.id != id ==> x in r
  {
    if |rows| == 0 then []
    else if rows[0].id == id then Without(rows[1..], id)
    else [rows[0]] + Without(rows[1..], id)
  }

  lemma {:induction false} WithoutKeepsOthers(rows: seq<Row>, id: string, x: string)
    requires x != id
    ensures Find(Without(rows, id), x) == Find(rows, x)
    decreases |rows|
  {
    if |rows| > 0 {
      WithoutKeepsOthers(rows[1..], id, x);
      if rows[0].id != id {
        assert ([rows[0]] + Without(rows[1..], id))[1..] == Without(rows[1..], id);
      }
    }
  }

  /** `delete(id)`: the entry is gone, the others read as before, and an
      unknown id changes nothing. */
  function Delete(s: Store, id: string): (r: Store)
    ensures GetById(r, id).None?
    ensures GetById(s, id).None? ==> r == s
    ensures forall x :: x != id ==> GetById(r, x) == GetById(s, x)
  {
    assert forall x :: x != id ==> Find(Without(s.rows, id), x) == Find(s.rows, x) by {
      forall x | x != id ensures Find(Without(s.rows, id), x) == Find(s.rows, x) {
        WithoutKeepsOthers(s.rows, id, x);
      }
    }
    if Find(s.rows, id).None? then s else Store(Without(s.rows, id))
  }

  // ---------------------------------------------------------------------------
  // Listing
  // ---------------------------------------------------------------------------

  datatype SortKey = ByRating | ByDate | ByTitle

  /** `ListKnowledgeFilter`. The status is text: the list route passes the
      query parameter on unchecked. */
  datatype Filter = Filter(
    status: Option<string>,
    category: Option<string>,
    tag: Option<string>,
    sortBy: Option<SortKey>)

  function NoFilter(): Filter {
    Filter(None, None, None, None)
  }

  /** One `WHERE` condition. */
  datatype Cond = StatusIs(name: string) | CategoryIs(cat: string) | TagLike(tag: string)

  /** The `LIKE` pattern for a tag: the tag between double quotes. */
  function TagPattern(tag: string): string {
    "\"" + tag + "\""
  }

  /** Whether a row meets a condition. `LIKE '%"tag"%'` is a substring test
      that ignores ASCII case; a NULL column matches nothing. */
  predicate Holds(c: Cond, r: Row) {
    match c
    case StatusIs(name) => KStatusName(r.status) == name
    case CategoryIs(cat) => r.category == Some(cat)
    case TagLike(tag) =>
      r.tagsJson.Some? && Strs.Contains(Strs.ToLower(r.tagsJson.value), Strs.ToLower(TagPattern(tag)))
  }

  /** The conditions a filter asks for, in the order the store adds them; an
      empty status, category or tag asks for nothing. */
  function Conds(f: Filter): (cs: seq<Cond>)
    ensures |cs| <= 3
  {
    (if f.status.Some? && f.status.value != "" then [StatusIs(f.status.value)] else [])
    + (if f.category.Some? && f.category.value != "" then [CategoryIs(f.category.value)] else [])
    + (if f.tag.Some? && f.tag.value != "" then [TagLike(f.tag.value)] else [])
  }

  predicate HoldsAll(cs: seq<Cond>, r: Row) {
    forall i :: 0 <= i < |cs| ==> Holds(cs[i], r)
  }

  /** The rows meeting every condition, in table order. */
  function Where(rows: seq<Row>, cs: seq<Cond>): (r: seq<Row>)
    ensures |r| <= |rows|
    ensures forall i :: 0 <= i < |r| ==> r[i] in rows && HoldsAll(cs, r[i])
    ensures forall k :: 0 <= k < |rows| && HoldsAll(cs, rows[k]) ==> rows[k] in r
    ensures (forall k :: 0 <= k < |rows| ==> HoldsAll(cs, rows[k])) ==> r == rows
    decreases |rows|
  {
    if |rows| == 0 then []
    else
      var rest := Where(rows[1..], cs);
      assert forall k :: 1 <= k < |rows| ==> rows[k] == rows[1..][k - 1];
      if HoldsAll(cs, rows[0]) then [rows[0]] + rest else rest
  }

  /** Whether `a` may precede `b` under a sort key: rating and creation date
      descending, title ascending. */
  predicate Before(k: SortKey, a: Row, b: Row) {
    match k
    case ByRating => a.avgRating >= b.avgRating
    case ByTitle => Strs.LexLe(a.title, b.title)
    case ByDate => Strs.LexLe(b.createdAt, a.createdAt)
  }

  lemma {:induction false} BeforeTotal(k: SortKey, a: Row, b: Row)
    ensures Before(k, a, b) || Before(k, b, a)
  {
    match k
    case ByRating =>
    case ByTitle => Strs.LexLeTotal(a.title, b.title);
    case ByDate => Strs.LexLeTotal(a.createdAt, b.createdAt);
  }

  lemma {:induction false} BeforeTrans(k: SortKey, a: Row, b: Row, c: Row)
    requires Before(k, a, b) && Before(k, b, c)
    ensures Before(k, a, c)
  {
    match k
    case ByRating =>
    case ByTitle => Strs.LexLeTrans(a.title, b.title, c.title);
    case ByDate => Strs.LexLeTrans(c.createdAt, b.createdAt, a.createdAt);
  }

  predicate Sorted(k: SortKey, rows: seq<Row>) {
    forall i, j :: 0 <= i < j < |rows| ==> Before(k, rows[i], rows[j])
  }

  /** Inserts `x` into sorted rows, after every row it does not precede. */
  function InsertSorted(k: SortKey, x: Row, rows: seq<Row>): (r: seq<Row>)
    requires Sorted(k, rows)
    ensures Sorted(k, r)
    ensures multiset(r) == multiset(rows) + multiset{x}
    decreases |rows|
  {
    if |rows| == 0 then [x]
    else if Before(k, x, rows[0]) then
      LeadsAll(k, x, rows);
      PrependSorted(k, x, rows);
      [x] + rows
    else
      BeforeTotal(k, x, rows[0]);
      var rest := InsertSorted(k, x, rows[1..]);
      InsertStep(k, x, rows, rest);
      [rows[0]] + rest
  }

  /** A row before the first of sorted rows is before all of them. */
  lemma {:induction false} LeadsAll(k: SortKey, x: Row, rows: seq<Row>)
    requires Sorted(k, rows) && |rows| > 0 && Before(k, x, rows[0])
    ensures forall j :: 0 <= j < |rows| ==> Before(k, x, rows[j])
  {
    forall j | 0 < j < |rows| ensures Before(k, x, rows[j]) {
      BeforeTrans(k, x, rows[0], rows[j]);
    }
  }

  /** A row before all of sorted rows can go in front of them. */
  lemma {:induction false} PrependSorted(k: SortKey, x: Row, rows: seq<Row>)
    requires Sorted(k, rows) && forall j :: 0 <= j < |rows| ==> Before(k, x, rows[j])
    ensures Sorted(k, [x] + rows)
  {
    var r := [x] + rows;
    forall i, j | 0 <= i < j < |r| ensures Before(k, r[i], r[j]) {
      assert r[j] == rows[j - 1];
      if i > 0 {
        assert r[i] == rows[i - 1];
      }
    }
  }

  /** The first row stays in front once `x` has gone into the others. */
  lemma {:induction false} InsertStep(k: SortKey, x: Row, rows: seq<Row>, rest: seq<Row>)
    requires |rows| > 0 && Sorted(k, rows) && Before(k, rows[0], x)
    requires Sorted(k, rest) && multiset(rest) == multiset(rows[1..]) + multiset{x}
    ensures Sorted(k, [rows[0]] + rest)
    ensures multiset([rows[0]] + rest) == multiset(rows) + multiset{x}
  {
    assert rows == [rows[0]] + rows[1..];
    forall j | 0 <= j < |rest| ensures Before(k, rows[0], rest[j]) {
      assert rest[j] in multiset(rest);
      if rest[j] != x {
        assert rest[j] in rows[1..];
        var i :| 0 <= i < |rows[1..]| && rows[1..][i] == rest[j];
        assert rows[1..][i] == rows[i + 1];
      }
    }
    PrependSorted(k, rows[0], rest);
  }

  /** The rows ordered by a sort key (an insertion sort). */
  function SortRows(k: SortKey, rows: seq<Row>): (r: seq<Row>)
    ensures Sorted(k, r)
    ensures multiset(r) == multiset(rows)
    decreases |rows|
  {
    if |rows| == 0 then []
    else
      assert rows == [rows[0]] + rows[1..];
      InsertSorted(k, rows[0], SortRows(k, rows[1..]))
  }

  /** The rows `list(filter)` returns, before they are turned into entries:
      those meeting every condition of the filter, in table order when no
      sort key is given. */
  function ListRows(s: Store, f: Filter): (r: seq<Row>)
    ensures multiset(r) == multiset(Where(s.rows, Conds(f)))
    ensures f.sortBy.Some? ==> Sorted(f.sortBy.value, r)
    ensures f.sortBy.None? ==> r == Where(s.rows, Conds(f))
  {
    var rows := Where(s.rows, Conds(f));
    if f.sortBy.Some? then SortRows(f.sortBy.value, rows) else rows
  }

  /** The rows listed are exactly the rows meeting the filter. */
  lemma {:induction false} ListRowsMembers(s: Store, f: Filter)
    ensures forall i :: 0 <= i < |ListRows(s, f)| ==> ListRows(s, f)[i] in Where(s.rows, Conds(f))
    ensures forall k :: 0 <= k < |s.rows| && HoldsAll(Conds(f), s.rows[k]) ==> s.rows[k] in ListRows(s, f)
  {
    var rows := ListRows(s, f);
    var w := Where(s.rows, Conds(f));
    forall i | 0 <= i < |rows| ensures rows[i] in w {
      assert rows[i] in multiset(rows);
    }
    forall k | 0 <= k < |s.rows| && HoldsAll(Conds(f), s.rows[k]) ensures s.rows[k] in rows {
      assert s.rows[k] in multiset(w);
    }
  }

  function Entries(rows: seq<Row>): (r: seq<Entry>)
    ensures |r| == |rows| && forall i :: 0 <= i < |rows| ==> r[i] == ToEntry(rows[i])
  {
    seq(|rows|, i requires 0 <= i < |rows| => ToEntry(rows[i]))
  }

  lemma {:induction false} ListSound(s: Store, f: Filter)
    ensures forall e :: e in Entries(ListRows(s, f)) ==>
      exists row :: row in s.rows && HoldsAll(Conds(f), row) && e == ToEntry(row)
  {
    ListRowsMembers(s, f);
    var rows := ListRows(s, f);
    var r := Entries(rows);
    var w := Where(s.rows, Conds(f));
    forall e | e in r
      ensures exists row :: row in s.rows && HoldsAll(Conds(f), row) && e == ToEntry(row)
    {
      var i :| 0 <= i < |r| && r[i] == e;
      assert rows[i] in w;
      var j :| 0 <= j < |w| && w[j] == rows[i];
      assert rows[i] in s.rows && HoldsAll(Conds(f), rows[i]) && e == ToEntry(rows[i]);
    }
  }

  lemma {:induction false} ListComplete(s: Store, f: Filter)
    ensures forall k :: 0 <= k < |s.rows| && HoldsAll(Conds(f), s.rows[k]) ==>
      ToEntry(s.rows[k]) in Entries(ListRows(s, f))
  {
    ListRowsMembers(s, f);
    var rows := ListRows(s, f);
    var r := Entries(rows);
    forall k | 0 <= k < |s.rows| && HoldsAll(Conds(f), s.rows[k]) ensures ToEntry(s.rows[k]) in r {
      var i :| 0 <= i < |rows| && rows[i] == s.rows[k];
      assert r[i] == ToEntry(s.rows[k]);
    }
  }

  /** The listing under every condition the filter gives: each entry meeting
      all of them, once per row, ordered by the sort key when one is given.
      `list(filter)` as written issues only the last condition
      (`ListAsWritten`, through `LastOnly`); the two agree when at most one
      condition is given (`AsWrittenAgreesOnOneCondition`). */
  function List(s: Store, f: Filter): (r: seq<Entry>)
    ensures forall e :: e in r ==> exists row :: row in s.rows && HoldsAll(Conds(f), row) && e == ToEntry(row)
    ensures forall k :: 0 <= k < |s.rows| && HoldsAll(Conds(f), s.rows[k]) ==> ToEntry(s.rows[k]) in r
    ensures f.sortBy == Some(ByRating) ==> forall i, j :: 0 <= i < j < |r| ==> r[i].avgRating >= r[j].avgRating
    ensures f.sortBy == Some(ByTitle) ==> forall i, j :: 0 <= i < j < |r| ==> Strs.LexLe(r[i].title, r[j].title)
    ensures f.sortBy == Some(ByDate) ==> forall i, j :: 0 <= i < j < |r| ==> Strs.LexLe(r[j].createdAt, r[i].createdAt)
    ensures Conds(f) == [] && f.sortBy.None? ==> |r| == |s.rows|
  {
    ListSound(s, f);
    ListComplete(s, f);
    ListOrdered(s, f);
    Entries(ListRows(s, f))
  }

  /** The entries come in the order of their rows' sort key. */
  lemma {:induction false} ListOrdered(s: Store, f: Filter)
    ensures var r := Entries(ListRows(s, f));
      && (f.sortBy == Some(ByRating) ==> forall i, j :: 0 <= i < j < |r| ==> r[i].avgRating >= r[j].avgRating)
      && (f.sortBy == Some(ByTitle) ==> forall i, j :: 0 <= i < j < |r| ==> Strs.LexLe(r[i].title, r[j].title))
      && (f.sortBy == Some(ByDate) ==> forall i, j :: 0 <= i < j < |r| ==> Strs.LexLe(r[j].createdAt, r[i].createdAt))
      && (Conds(f) == [] && f.sortBy.None? ==> |r| == |s.rows|)
  {
    var rows := ListRows(s, f);
    var r := Entries(rows);
    if f.sortBy.Some? {
      var k := f.sortBy.value;
      forall i, j | 0 <= i < j < |r| ensures Before(k, rows[i], rows[j]) {
      }
    } else if Conds(f) == [] {
      assert forall k :: 0 <= k < |s.rows| ==> HoldsAll([], s.rows[k]);
    }
  }

  // ---------------------------------------------------------------------------
  // Properties of listing
  // ---------------------------------------------------------------------------

  lemma {:induction false} ToLowerQuoted(a: string, b: string)
    requires Strs.ToLower(a) == Strs.ToLower(b)
    ensures Strs.ToLower(TagPattern(a)) == Strs.ToLower(TagPattern(b))
  {
    var pa, pb := TagPattern(a), TagPattern(b);
    assert |pa| == |pb|;
    forall k | 0 <= k < |pa| ensures Strs.ToLower(pa)[k] == Strs.ToLower(pb)[k] {
      if 0 < k < |pa| - 1 {
        assert pa[k] == a[k - 1] && pb[k] == b[k - 1];
        assert Strs.ToLower(a)[k - 1] == Strs.ToLower(b)[k - 1];
      }
    }
  }

  /** A tag filter finds every entry stored with that tag, in any ASCII case,
      as long as the tag has no character `JSON.stringify` escapes. */
  lemma {:induction false} TagFilterFindsTag(r: Row, tags: seq<string>, i: int, query: string)
    requires r.tagsJson == Some(TagsText(tags))
    requires 0 <= i < |tags| && Plain(tags[i])
    requires Strs.ToLower(query) == Strs.ToLower(tags[i])
    ensures Holds(TagLike(query), r)
  {
    var items := StrArray(tags).items;
    var parts := seq(|items|, k requires 0 <= k < |items| => Stringify(items[k]));
    assert TagsText(tags) == "[" + Strs.Join(parts, ",") + "]";
    EscapePlain(tags[i]);
    assert parts[i] == TagPattern(tags[i]);
    Strs.JoinContains(parts, ",", i);
    Strs.ContainsWithin("[", Strs.Join(parts, ","), "]", parts[i]);
    Strs.ContainsLower(TagsText(tags), TagPattern(tags[i]));
    ToLowerQuoted(query, tags[i]);
  }

  // ---------------------------------------------------------------------------
  // As written: one condition at a time
  // ---------------------------------------------------------------------------

  /** The filter the query builder actually applies: each `.where` call
      replaces the previous one, so only the last condition asked for
      (tag, else category, else status) survives. */
  function LastOnly(f: Filter): (g: Filter)
    ensures g.sortBy == f.sortBy
    ensures |Conds(g)| == if |Conds(f)| == 0 then 0 else 1
    ensures |Conds(f)| > 0 ==> Conds(g)[0] == Conds(f)[|Conds(f)| - 1]
  {
    if f.tag.Some? && f.tag.value != "" then Filter(None, None, f.tag, f.sortBy)
    else if f.category.Some? && f.category.value != "" then Filter(None, f.category, None, f.sortBy)
    else f
  }

  /** `list(filter)` as the code issues it. */
  function ListAsWritten(s: Store, f: Filter): (r: seq<Entry>)
    ensures forall e :: e in r ==>
      exists row :: row in s.rows && HoldsAll(Conds(LastOnly(f)), row) && e == ToEntry(row)
    ensures forall k :: 0 <= k < |s.rows| && HoldsAll(Conds(LastOnly(f)), s.rows[k]) ==>
      ToEntry(s.rows[k]) in r
    ensures f.sortBy == Some(ByRating) ==> forall i, j :: 0 <= i < j < |r| ==> r[i].avgRating >= r[j].avgRating
    ensures f.sortBy == Some(ByTitle) ==> forall i, j :: 0 <= i < j < |r| ==> Strs.LexLe(r[i].title, r[j].title)
    ensures f.sortBy == Some(ByDate) ==> forall i, j :: 0 <= i < j < |r| ==> Strs.LexLe(r[j].createdAt, r[i].createdAt)
  {
    List(s, LastOnly(f))
  }

  /** With at most one condition the two readings agree; the context the
      service builds for prompts (status only) is unaffected. */
  lemma {:induction false} AsWrittenAgreesOnOneCondition(s: Store, f: Filter)
    requires |Conds(f)| <= 1
    ensures ListAsWritten(s, f) == List(s, f)
  {
  }

  /** A deprecated entry tagged `x` is listed when asking for active entries
      tagged `x`: the status condition is dropped. */
  lemma {:induction false} AsWrittenDropsStatus()
    ensures var row := Row("k", "T", "D", Some(TagsText(["x"])), None, Deprecated, 0, 0, "auto",
      None, "/k", "t0", "t0");
      var f := Filter(Some("active"), None, Some("x"), None);
      List(Store([row]), f) == [] && ListAsWritten(Store([row]), f) == [ToEntry(row)]
  {
    var row := Row("k", "T", "D", Some(TagsText(["x"])), None, Deprecated, 0, 0, "auto",
      None, "/k", "t0", "t0");
    var f := Filter(Some("active"), None, Some("x"), None);
    var s := Store([row]);
    assert Conds(f) == [StatusIs("active"), TagLike("x")];
    assert !HoldsAll(Conds(f), row) by {
      assert |KStatusName(row.status)| != |"active"|;
      assert !Holds(Conds(f)[0], row);
    }
    assert |Where(s.rows, Conds(f))| == 0;
    assert |ListRows(s, f)| == 0 by {
      assert multiset(ListRows(s, f)) == multiset{};
    }
    TagFilterFindsTag(row, ["x"], 0, "x");
    assert HoldsAll(Conds(LastOnly(f)), s.rows[0]);
    var w := ListAsWritten(s, f);
    assert ToEntry(row) in w;
    assert |w| == 1 by {
      assert |w| == |ListRows(s, LastOnly(f))| <= |Where(s.rows, Conds(LastOnly(f)))| <= 1;
    }
  }
}

/** The knowledge HTTP routes (src/api/routes/knowledge.ts). Each handler
    takes the service's state (`KnowledgeService.Sys`), its settings and the
    request's pieces, and gives back a reply and, where something may
    change, the new state. The reads the service merely passes on
    (`getById`, `list`, `listArtifacts`) go to the store and the folder
    manager directly. An error a route does not catch leaves it as an
    `Uncaught` reply (the framework's plain 500). */
module KnowledgeRoutes {
  import opened Wrappers
  import opened Json
  import Strs
  import Paths
  import JsonParse
  import FileSystem
  import KnowledgeStore
  import KnowledgeManager
  import KnowledgeService
  import Schemas
  import Mime
  import Artifacts

  type Sys = KnowledgeService.Sys
  type Entry = KnowledgeStore.Entry

  datatype Reply =
    | Fail(status: int, code: string, message: string)    // {error: {code, message}}
    | Uncaught(message: string)
    | Synced(counts: KnowledgeService.SyncCounts)
    | Listing(data: seq<Entry>, total: nat)                // {data, total}
    | OneEntry(status: int, entry: Entry)
    | Rated(average: int, count: nat)                     // {average, count}, average in tenths
    | Names(names: seq<string>)
    | Download(contentType: string, disposition: string, length: string, content: string)
    | Acknowledged                                        // {ok: true}

  function StatusOf(r: Reply): int {
    match r
    case Fail(s, _, _) => s
    case Uncaught(_) => 500
    case OneEntry(s, _) => s
    case _ => 200
  }

  const NotFound := Fail(404, "NOT_FOUND", "Knowledge entry not found")
  const Invalid := Fail(400, "VALIDATION_ERROR", "Invalid request")

  /** The text of a JSON body that does not parse. */
  const BadJson := "Unexpected token in JSON"

  // ---------------------------------------------------------------------------
  // POST /sync
  // ---------------------------------------------------------------------------

  /** `POST /sync`: the counts of `syncFromFilesystem`. */
  function Sync(sys: Sys, c: KnowledgeService.Settings, now: string): (r: (Sys, Reply))
    requires KnowledgeService.ValidSettings(c)
    ensures r.0 == KnowledgeService.Sync(sys, c, now).sys
    ensures r.1.Synced? <==> KnowledgeService.Sync(sys, c, now).result.Ok?
    ensures r.1.Synced? ==> r.1.counts.synced == |KnowledgeService.DiskEntries(sys, c, now)|
    ensures r.1.Uncaught? ==> r.1.message == KnowledgeService.TitleMissing || r.1.message == KnowledgeService.DescriptionMissing
  {
    var d := KnowledgeService.Sync(sys, c, now);
    match d.result
    case Ok(counts) => (d.sys, Synced(counts))
    case Err(m) => (d.sys, Uncaught(m))
  }

  // ---------------------------------------------------------------------------
  // GET /
  // ---------------------------------------------------------------------------

  /** A query parameter as the route uses it: an empty one counts as absent. */
  function Query(q: Option<string>): (r: Option<string>)
    ensures r.Some? <==> q.Some? && q.value != ""
    ensures r.Some? ==> r == q
  {
    if q.Some? && q.value != "" then q else None
  }

  /** `sort`: one of the three known keys; anything else orders nothing. */
  function ParseSort(q: Option<string>): (r: Option<KnowledgeStore.SortKey>)
    ensures r == Some(KnowledgeStore.ByRating) <==> q == Some("rating")
    ensures r == Some(KnowledgeStore.ByDate) <==> q == Some("date")
    ensures r == Some(KnowledgeStore.ByTitle) <==> q == Some("title")
  {
    if q == Some("rating") then Some(KnowledgeStore.ByRating)
    else if q == Some("date") then Some(KnowledgeStore.ByDate)
    else if q == Some("title") then Some(KnowledgeStore.ByTitle)
    else None
  }

  function ListFilter(status: Option<string>, category: Option<string>, tag: Option<string>, sort: Option<string>)
    : KnowledgeStore.Filter
  {
    KnowledgeStore.Filter(Query(status), Query(category), Query(tag), ParseSort(sort))
  }

  /** Whether a row answers the list query: the status, category and tag
      asked for, each only when asked for. */
  predicate Meets(row: KnowledgeStore.Row, status: Option<string>, category: Option<string>, tag: Option<string>) {
    && (Query(status).Some? ==> KnowledgeStore.KStatusName(row.status) == status.value)
    && (Query(category).Some? ==> row.category == category)
    && (Query(tag).Some? ==> KnowledgeStore.Holds(KnowledgeStore.TagLike(tag.value), row))
  }

  lemma {:induction false} MeetsConds(row: KnowledgeStore.Row, status: Option<string>, category: Option<string>, tag: Option<string>, sort: Option<string>)
    ensures Meets(row, status, category, tag) <==>
      KnowledgeStore.HoldsAll(KnowledgeStore.Conds(ListFilter(status, category, tag, sort)), row)
  {
    var cs := KnowledgeStore.Conds(ListFilter(status, category, tag, sort));
    var s := if Query(status).Some? then [KnowledgeStore.StatusIs(status.value)] else [];
    var k := if Query(category).Some? then [KnowledgeStore.CategoryIs(category.value)] else [];
    var t := if Query(tag).Some? then [KnowledgeStore.TagLike(tag.value)] else [];
    assert cs == s + k + t;
    if Query(status).Some? {
      assert cs[0] == s[0];
    }
    if Query(category).Some? {
      assert cs[|s|] == k[0];
    }
    if Query(tag).Some? {
      assert cs[|s| + |k|] == t[0];
    }
    assert forall i :: 0 <= i < |cs| ==>
      (i < |s| && cs[i] == s[i]) || (|s| <= i < |s| + |k| && cs[i] == k[i - |s|]) || (|s| + |k| <= i && cs[i] == t[i - |s| - |k|]);
  }

  /** Whether a row answers the list query as the store issues it: each
      condition replaces the one before, so only the last filter given
      counts (tag, else category, else status). */
  predicate MeetsLast(row: KnowledgeStore.Row, status: Option<string>, category: Option<string>, tag: Option<string>) {
    if Query(tag).Some? then Meets(row, None, None, tag)
    else if Query(category).Some? then Meets(row, None, category, None)
    else Meets(row, status, None, None)
  }

  lemma {:induction false} MeetsLastConds(row: KnowledgeStore.Row, status: Option<string>, category: Option<string>,
                                          tag: Option<string>, sort: Option<string>)
    ensures MeetsLast(row, status, category, tag) <==>
      KnowledgeStore.HoldsAll(KnowledgeStore.Conds(KnowledgeStore.LastOnly(ListFilter(status, category, tag, sort))), row)
  {
    var g := KnowledgeStore.LastOnly(ListFilter(status, category, tag, sort));
    if Query(tag).Some? {
      assert g == ListFilter(None, None, tag, sort);
      MeetsConds(row, None, None, tag, sort);
    } else if Query(category).Some? {
      assert g == ListFilter(None, category, None, sort);
      MeetsConds(row, None, category, None, sort);
    } else {
      assert g == ListFilter(status, None, None, sort);
      MeetsConds(row, status, None, None, sort);
    }
  }

  /** `GET /`: `{data, total}` with the entries the store's query returns:
      those meeting the last filter given, and only those, sorted when a
      known sort key is asked for. */
  function List(sys: Sys, status: Option<string>, category: Option<string>, tag: Option<string>, sort: Option<string>)
    : (r: Reply)
    ensures r.Listing? && r.total == |r.data|
    ensures forall e :: e in r.data ==> exists row :: row in sys.store.rows && MeetsLast(row, status, category, tag) && e == KnowledgeStore.ToEntry(row)
    ensures forall k :: 0 <= k < |sys.store.rows| && MeetsLast(sys.store.rows[k], status, category, tag) ==>
      KnowledgeStore.ToEntry(sys.store.rows[k]) in r.data
    ensures sort == Some("rating") ==> forall i, j :: 0 <= i < j < |r.data| ==> r.data[i].avgRating >= r.data[j].avgRating
    ensures sort == Some("title") ==> forall i, j :: 0 <= i < j < |r.data| ==> Strs.LexLe(r.data[i].title, r.data[j].title)
    ensures sort == Some("date") ==> forall i, j :: 0 <= i < j < |r.data| ==> Strs.LexLe(r.data[j].createdAt, r.data[i].createdAt)
  {
    var f := ListFilter(status, category, tag, sort);
    var es := KnowledgeStore.ListAsWritten(sys.store, f);
    forall row | row in sys.store.rows
      ensures MeetsLast(row, status, category, tag) <==> KnowledgeStore.HoldsAll(KnowledgeStore.Conds(KnowledgeStore.LastOnly(f)), row)
    {
      MeetsLastConds(row, status, category, tag, sort);
    }
    Listing(es, |es|)
  }

  /** The list as intended: every entry that meets the whole query, and only
      those, sorted when a known sort key is asked for. */
  function ListIntended(sys: Sys, status: Option<string>, category: Option<string>, tag: Option<string>, sort: Option<string>)
    : (r: Reply)
    ensures r.Listing? && r.total == |r.data|
    ensures forall e :: e in r.data ==> exists row :: row in sys.store.rows && Meets(row, status, category, tag) && e == KnowledgeStore.ToEntry(row)
    ensures forall k :: 0 <= k < |sys.store.rows| && Meets(sys.store.rows[k], status, category, tag) ==>
      KnowledgeStore.ToEntry(sys.store.rows[k]) in r.data
    ensures sort == Some("rating") ==> forall i, j :: 0 <= i < j < |r.data| ==> r.data[i].avgRating >= r.data[j].avgRating
    ensures sort == Some("title") ==> forall i, j :: 0 <= i < j < |r.data| ==> Strs.LexLe(r.data[i].title, r.data[j].title)
    ensures sort == Some("date") ==> forall i, j :: 0 <= i < j < |r.data| ==> Strs.LexLe(r.data[j].createdAt, r.data[i].createdAt)
  {
    var f := ListFilter(status, category, tag, sort);
    var es := KnowledgeStore.List(sys.store, f);
    forall row | row in sys.store.rows
      ensures Meets(row, status, category, tag) <==> KnowledgeStore.HoldsAll(KnowledgeStore.Conds(f), row)
    {
      MeetsConds(row, status, category, tag, sort);
    }
    Listing(es, |es|)
  }

  /** With at most one filter given, the route lists what was intended. */
  lemma {:induction false} ListAgreesOnOneFilter(sys: Sys, status: Option<string>, category: Option<string>,
                                                 tag: Option<string>, sort: Option<string>)
    requires (if Query(status).Some? then 1 else 0) + (if Query(category).Some? then 1 else 0)
      + (if Query(tag).Some? then 1 else 0) <= 1
    ensures List(sys, status, category, tag, sort) == ListIntended(sys, status, category, tag, sort)
  {
    KnowledgeStore.AsWrittenAgreesOnOneCondition(sys.store, ListFilter(status, category, tag, sort));
  }

  /** `GET /?status=active&tag=x` returns a deprecated entry tagged `x`; the
      intended list leaves it out. */
  lemma {:induction false} ListDropsStatus(fs: FileSystem.Node)
    ensures var row := KnowledgeStore.Row("k", "T", "D", Some(KnowledgeStore.TagsText(["x"])), None,
      KnowledgeStore.Deprecated, 0, 0, "auto", None, "/k", "t0", "t0");
      var sys := KnowledgeService.Sys(KnowledgeStore.Store([row]), fs);
      && List(sys, Some("active"), None, Some("x"), None).data == [KnowledgeStore.ToEntry(row)]
      && ListIntended(sys, Some("active"), None, Some("x"), None).data == []
  {
    KnowledgeStore.AsWrittenDropsStatus();
    var f := ListFilter(Some("active"), None, Some("x"), None);
    assert f == KnowledgeStore.Filter(Some("active"), None, Some("x"), None);
  }

  /** Empty query parameters are no query parameters. */
  lemma {:induction false} EmptyQueriesIgnored(sys: Sys, sort: Option<string>)
    ensures List(sys, Some(""), Some(""), Some(""), sort) == List(sys, None, None, None, sort)
  {
  }

  // ---------------------------------------------------------------------------
  // GET /:id, POST /, PUT /:id, DELETE /:id
  // ---------------------------------------------------------------------------

  /** `GET /:id`. */
  function Get(sys: Sys, id: string): (r: Reply)
    ensures r.OneEntry? <==> KnowledgeStore.GetById(sys.store, id).Some?
    ensures r.OneEntry? ==> r.status == 200 && r.entry.id == id && Some(r.entry) == KnowledgeStore.GetById(sys.store, id)
    ensures !r.OneEntry? ==> r == NotFound
  {
    match KnowledgeStore.GetById(sys.store, id)
    case None => NotFound
    case Some(e) => OneEntry(200, e)
  }

  /** `POST /`: 400 for a body the create schema refuses, 201 with the
      created entry otherwise; a failure of `create` escapes. */
  function Create(sys: Sys, c: KnowledgeService.Settings, text: string, now: string): (r: (Sys, Reply))
    requires KnowledgeService.ValidSettings(c)
    ensures r.1 == Invalid <==> JsonParse.Parse(text).Some? && Schemas.ParseCreateKnowledge(JsonParse.Parse(text).value).None?
    ensures r.1 == Invalid || JsonParse.Parse(text).None? ==> r.0 == sys
    ensures JsonParse.Parse(text).None? ==> r.1 == Uncaught(BadJson)
    ensures r.1.OneEntry? ==> var req := Schemas.ParseCreateKnowledge(JsonParse.Parse(text).value).value;
      && r.1.status == 201
      && r.1.entry.title == req.title && r.1.entry.description == req.description
      && r.1.entry.id == KnowledgeService.GenerateSlug(req.title)
      && KnowledgeStore.GetById(r.0.store, r.1.entry.id) == Some(r.1.entry)
      && Field(JsonParse.Parse(text).value, "title") == Some(JStr(r.1.entry.title))
  {
    match JsonParse.Parse(text)
    case None => (sys, Uncaught(BadJson))
    case Some(body) =>
      match Schemas.ParseCreateKnowledge(body)
      case None => (sys, Invalid)
      case Some(req) =>
        var d := KnowledgeService.Create(sys, c, req, now);
        match d.result
        case Err(m) => (d.sys, Uncaught(m))
        case Ok(e) => (d.sys, OneEntry(201, e))
  }

  /** `PUT /:id`: 400 for a body the update schema refuses, before anything
      is looked up; 404 for an unknown id, with nothing changed; otherwise
      the updated entry. */
  function Update(sys: Sys, c: KnowledgeService.Settings, id: string, text: string, now: string): (r: (Sys, Reply))
    requires KnowledgeService.ValidSettings(c)
    ensures JsonParse.Parse(text).None? ==> r == (sys, Uncaught(BadJson))
    ensures JsonParse.Parse(text).Some? ==> r == UpdateBody(sys, c, id, JsonParse.Parse(text).value, now)
  {
    match JsonParse.Parse(text)
    case None => (sys, Uncaught(BadJson))
    case Some(body) => UpdateBody(sys, c, id, body, now)
  }

  /** `PUT /:id` once the body has parsed as JSON. */
  function UpdateBody(sys: Sys, c: KnowledgeService.Settings, id: string, body: Json, now: string): (r: (Sys, Reply))
    requires KnowledgeService.ValidSettings(c)
    ensures r.1 == Invalid <==> Schemas.ParseUpdateKnowledge(body).None?
    ensures r.1 == NotFound <==> Schemas.ParseUpdateKnowledge(body).Some? && KnowledgeStore.GetById(sys.store, id).None?
    ensures r.1 == Invalid || r.1 == NotFound ==> r.0 == sys
    ensures r.1.OneEntry? ==>
      && Schemas.ParseUpdateKnowledge(body).Some? && KnowledgeStore.GetById(sys.store, id).Some?
      && r.1.status == 200
      && r.1.entry == KnowledgeService.Updated(KnowledgeStore.GetById(sys.store, id).value, Schemas.ParseUpdateKnowledge(body).value, now)
      && KnowledgeStore.GetById(r.0.store, id) == Some(r.1.entry)
  {
    match Schemas.ParseUpdateKnowledge(body)
    case None => (sys, Invalid)
    case Some(u) =>
      var d := KnowledgeService.Update(sys, c, id, u, now);
      match d.result
      case Err(m) => (d.sys, Uncaught(m))
      case Ok(None) => (d.sys, NotFound)
      case Ok(Some(e)) => (d.sys, OneEntry(200, e))
  }

  /** `DELETE /:id`: 404 for an unknown id, deleting nothing; otherwise the
      entry is gone afterwards and nothing else changed. */
  function Delete(sys: Sys, c: KnowledgeService.Settings, id: string): (r: (Sys, Reply))
    requires KnowledgeService.ValidSettings(c)
    ensures r.1 == NotFound <==> KnowledgeStore.GetById(sys.store, id).None?
    ensures r.1 == NotFound ==> r.0 == sys
    ensures r.1 != NotFound ==> r.1 == Acknowledged && KnowledgeStore.GetById(r.0.store, id).None?
    ensures forall x :: x != id ==> KnowledgeStore.GetById(r.0.store, x) == KnowledgeStore.GetById(sys.store, x)
  {
    if KnowledgeStore.GetById(sys.store, id).None? then (sys, NotFound)
    else (KnowledgeService.DeleteEntry(sys, c, id), Acknowledged)
  }

  // ---------------------------------------------------------------------------
  // POST /:id/rate
  // ---------------------------------------------------------------------------

  /** `POST /:id/rate`: the body is checked before the id, so a bad score
      for an unknown entry is a 400; a good score for an unknown entry is a
      404; otherwise the new average (in tenths) and vote count. */
  function Rate(sys: Sys, c: KnowledgeService.Settings, id: string, text: string, now: string): (r: (Sys, Reply))
    requires KnowledgeService.ValidSettings(c)
    ensures JsonParse.Parse(text).None? ==> r == (sys, Uncaught(BadJson))
    ensures JsonParse.Parse(text).Some? ==> r == RateBody(sys, c, id, JsonParse.Parse(text).value, now)
  {
    match JsonParse.Parse(text)
    case None => (sys, Uncaught(BadJson))
    case Some(body) => RateBody(sys, c, id, body, now)
  }

  /** `POST /:id/rate` once the body has parsed as JSON. */
  function RateBody(sys: Sys, c: KnowledgeService.Settings, id: string, body: Json, now: string): (r: (Sys, Reply))
    requires KnowledgeService.ValidSettings(c)
    ensures r.1 == Invalid <==> Schemas.ParseRate(body).None?
    ensures r.1 == NotFound <==> Schemas.ParseRate(body).Some? && KnowledgeStore.GetById(sys.store, id).None?
    ensures !r.1.Rated? ==> r.0 == sys
    ensures r.1.Rated? <==> Schemas.ParseRate(body).Some? && KnowledgeStore.GetById(sys.store, id).Some?
    ensures r.1.Rated? ==> r == RateScore(sys, c, id, Schemas.ParseRate(body).value, now)
  {
    match Schemas.ParseRate(body)
    case None => (sys, Invalid)
    case Some(score) =>
      if KnowledgeStore.GetById(sys.store, id).None? then (sys, NotFound)
      else RateScore(sys, c, id, score, now)
  }

  /** A valid score for an existing entry: the stored average moves to the
      rounded mean of the old votes and the new one, and the count grows by
      one; no other entry changes. */
  function RateScore(sys: Sys, c: KnowledgeService.Settings, id: string, score: int, now: string): (r: (Sys, Reply))
    requires KnowledgeService.ValidSettings(c)
    requires KnowledgeStore.GetById(sys.store, id).Some?
    ensures r.1.Rated?
    ensures var e := KnowledgeStore.GetById(sys.store, id).value;
      && r.1.average == KnowledgeService.NewAverage(e.avgRating, e.voteCount, score)
      && r.1.count == e.voteCount + 1
      && KnowledgeStore.GetById(r.0.store, id) == Some(e.(avgRating := r.1.average, voteCount := r.1.count, updatedAt := now))
    ensures forall x :: x != id ==> KnowledgeStore.GetById(r.0.store, x) == KnowledgeStore.GetById(sys.store, x)
  {
    var d := KnowledgeService.Rate(sys, c, id, score, now);
    (d.sys, Rated(d.result.value.0, d.result.value.1))
  }

  /** A score out of range is refused as invalid even for an id that does
      not exist. */
  lemma {:induction false} RateValidatesFirst(sys: Sys, c: KnowledgeService.Settings, id: string, now: string)
    requires KnowledgeService.ValidSettings(c)
    requires KnowledgeStore.GetById(sys.store, id).None?
    ensures RateBody(sys, c, id, JObj([Member("score", JNum(9))]), now).1 == Invalid
  {
    var m := Member("score", JNum(9));
    LookupSmall(m, m, m, "score");
  }

  // ---------------------------------------------------------------------------
  // Artifacts
  // ---------------------------------------------------------------------------

  /** `GET /:id/artifacts`: the names in `<base>/<id>/artifacts`. */
  function ListArtifacts(sys: Sys, c: KnowledgeService.Settings, id: string): (r: Reply)
    requires KnowledgeService.ValidSettings(c)
    ensures r.Names? <==> KnowledgeStore.GetById(sys.store, id).Some?
    ensures !r.Names? ==> r == NotFound
    ensures r.Names? && c.base != "" ==> forall x :: x in r.names <==>
      FileSystem.IsDir(sys.fs, FileSystem.Loc(c.cwd, Paths.Join([c.base, id, "artifacts"]))) &&
      FileSystem.Find(FileSystem.Get(sys.fs, FileSystem.Loc(c.cwd, Paths.Join([c.base, id, "artifacts"]))).value.entries, x).Some?
  {
    if KnowledgeStore.GetById(sys.store, id).None? then NotFound
    else
      var names := KnowledgeManager.ListArtifacts(sys.fs, c.cwd, c.base, id);
      forall x ensures x in names <==>
        FileSystem.IsDir(sys.fs, FileSystem.Loc(c.cwd, Paths.Join([c.base, id, "artifacts"]))) &&
        FileSystem.Find(FileSystem.Get(sys.fs, FileSystem.Loc(c.cwd, Paths.Join([c.base, id, "artifacts"]))).value.entries, x).Some?
      {
        if c.base != "" {
          KnowledgeManager.ListArtifactsNames(sys.fs, c.cwd, c.base, id, x);
        }
      }
      Names(names)
  }

  const MimeTypes: Mime.Table := [
    (".xlsx", "application/vnd.openxmlformats-officedocument.spreadsheetml.sheet"),
    (".xls", "application/vnd.ms-excel"),
    (".pdf", "application/pdf"),
    (".json", "application/json"),
    (".txt", "text/plain"),
    (".csv", "text/csv"),
    (".zip", "application/zip"),
    (".png", "image/png"),
    (".jpg", "image/jpeg"),
    (".md", "text/markdown"),
    (".html", "text/html"),
    (".ts", "text/plain"),
    (".js", "text/plain"),
    (".yaml", "text/yaml"),
    (".yml", "text/yaml")
  ]

  lemma {:induction false} MimeTypesDistinct()
    ensures Mime.DistinctKeys(MimeTypes)
  {
  }

  /** The directory downloads are confined to: `artifacts` in the entry's
      folder. */
  function ArtifactsDir(e: Entry): string {
    Paths.Join([e.folderPath, "artifacts"])
  }

  /** `GET /:id/artifacts/<path>`: in order, 404 for an unknown entry, 400
      `MISSING_PATH`, 403 `FORBIDDEN` for a path outside the entry's
      artifacts directory, 404 `NOT_FOUND` when nothing is there, 400
      `NOT_FILE` for a directory; otherwise the file. `guard` decides what
      counts as outside. */
  function DownloadArtifactWith(guard: Artifacts.Guard, sys: Sys, c: KnowledgeService.Settings, id: string,
                                reqPath: string): (r: Reply)
    requires KnowledgeService.ValidSettings(c)
    ensures KnowledgeStore.GetById(sys.store, id).None? ==> r == NotFound
    ensures r.Download? <==>
      && KnowledgeStore.GetById(sys.store, id).Some?
      && Artifacts.ArtifactPath(reqPath) != ""
      && var dir := ArtifactsDir(KnowledgeStore.GetById(sys.store, id).value);
      && var cwd := Paths.Render(c.cwd, true);
      && var full := Paths.Resolve(cwd, [dir, Artifacts.ArtifactPath(reqPath)]);
      && Artifacts.Admits(guard, full, Paths.Resolve(cwd, [dir]))
      && FileSystem.IsFile(sys.fs, FileSystem.Loc(c.cwd, full))
    ensures r.Download? ==>
      var dir := ArtifactsDir(KnowledgeStore.GetById(sys.store, id).value);
      var full := Paths.Resolve(Paths.Render(c.cwd, true), [dir, Artifacts.ArtifactPath(reqPath)]);
      && FileSystem.Get(sys.fs, FileSystem.Loc(c.cwd, full)) == Some(FileSystem.File(r.content))
      && r.contentType == Mime.ContentType(MimeTypes, full)
      && r.disposition == Artifacts.Attachment(Paths.Basename(full))
      && r.length == Strs.IntToString(|r.content|)
    ensures KnowledgeStore.GetById(sys.store, id).Some? && Artifacts.ArtifactPath(reqPath) == "" ==>
      r == Fail(400, "MISSING_PATH", "Artifact path required")
    ensures KnowledgeStore.GetById(sys.store, id).Some? && Artifacts.ArtifactPath(reqPath) != "" ==>
      var dir := ArtifactsDir(KnowledgeStore.GetById(sys.store, id).value);
      var cwd := Paths.Render(c.cwd, true);
      var full := Paths.Resolve(cwd, [dir, Artifacts.ArtifactPath(reqPath)]);
      && (!Artifacts.Admits(guard, full, Paths.Resolve(cwd, [dir])) ==> r == Fail(403, "FORBIDDEN", "Path traversal not allowed"))
      && (Artifacts.Admits(guard, full, Paths.Resolve(cwd, [dir])) ==>
        && (FileSystem.Get(sys.fs, FileSystem.Loc(c.cwd, full)).None? ==>
          r == Fail(404, "NOT_FOUND", "Artifact not found: " + Artifacts.ArtifactPath(reqPath)))
        && (FileSystem.IsDir(sys.fs, FileSystem.Loc(c.cwd, full)) ==> r == Fail(400, "NOT_FILE", "Path is not a file")))
  {
    match KnowledgeStore.GetById(sys.store, id)
    case None => NotFound
    case Some(e) =>
      var p := Artifacts.ArtifactPath(reqPath);
      if p == "" then Fail(400, "MISSING_PATH", "Artifact path required")
      else
        var cwd := Paths.Render(c.cwd, true);
        var dir := ArtifactsDir(e);
        var full := Paths.Resolve(cwd, [dir, p]);
        if !Artifacts.Admits(guard, full, Paths.Resolve(cwd, [dir])) then Fail(403, "FORBIDDEN", "Path traversal not allowed")
        else
          match FileSystem.Get(sys.fs, FileSystem.Loc(c.cwd, full))
          case None => Fail(404, "NOT_FOUND", "Artifact not found: " + p)
          case Some(node) =>
            if node.Dir? then Fail(400, "NOT_FILE", "Path is not a file")
            else Download(Mime.ContentType(MimeTypes, full), Artifacts.Attachment(Paths.Basename(full)),
              Strs.IntToString(|node.text|), node.text)
  }

  /** The route as the server runs it: the written guard, a textual prefix
      test on the resolved paths. */
  function DownloadArtifact(sys: Sys, c: KnowledgeService.Settings, id: string, reqPath: string): (r: Reply)
    requires KnowledgeService.ValidSettings(c)
    ensures KnowledgeStore.GetById(sys.store, id).None? ==> r == NotFound
    ensures r.Download? <==>
      && KnowledgeStore.GetById(sys.store, id).Some?
      && Artifacts.ArtifactPath(reqPath) != ""
      && var dir := ArtifactsDir(KnowledgeStore.GetById(sys.store, id).value);
      && var cwd := Paths.Render(c.cwd, true);
      && var full := Paths.Resolve(cwd, [dir, Artifacts.ArtifactPath(reqPath)]);
      && Artifacts.GuardAsWritten(full, Paths.Resolve(cwd, [dir]))
      && FileSystem.IsFile(sys.fs, FileSystem.Loc(c.cwd, full))
    ensures r == Fail(403, "FORBIDDEN", "Path traversal not allowed") <==>
      && KnowledgeStore.GetById(sys.store, id).Some?
      && Artifacts.ArtifactPath(reqPath) != ""
      && var dir := ArtifactsDir(KnowledgeStore.GetById(sys.store, id).value);
      && var cwd := Paths.Render(c.cwd, true);
      && var full := Paths.Resolve(cwd, [dir, Artifacts.ArtifactPath(reqPath)]);
      && !Artifacts.GuardAsWritten(full, Paths.Resolve(cwd, [dir]))
  {
    DownloadArtifactWith(Artifacts.AsWritten, sys, c, id, reqPath)
  }

  /** The route with the intended guard: only the artifacts directory and
      what lies below it. */
  function DownloadArtifactIntended(sys: Sys, c: KnowledgeService.Settings, id: string, reqPath: string): (r: Reply)
    requires KnowledgeService.ValidSettings(c)
    ensures KnowledgeStore.GetById(sys.store, id).None? ==> r == NotFound
    ensures r.Download? <==>
      && KnowledgeStore.GetById(sys.store, id).Some?
      && Artifacts.ArtifactPath(reqPath) != ""
      && var dir := ArtifactsDir(KnowledgeStore.GetById(sys.store, id).value);
      && var cwd := Paths.Render(c.cwd, true);
      && var full := Paths.Resolve(cwd, [dir, Artifacts.ArtifactPath(reqPath)]);
      && Artifacts.Inside(full, Paths.Resolve(cwd, [dir]))
      && FileSystem.IsFile(sys.fs, FileSystem.Loc(c.cwd, full))
    ensures r == Fail(403, "FORBIDDEN", "Path traversal not allowed") <==>
      && KnowledgeStore.GetById(sys.store, id).Some?
      && Artifacts.ArtifactPath(reqPath) != ""
      && var dir := ArtifactsDir(KnowledgeStore.GetById(sys.store, id).value);
      && var cwd := Paths.Render(c.cwd, true);
      && var full := Paths.Resolve(cwd, [dir, Artifacts.ArtifactPath(reqPath)]);
      && !Artifacts.Inside(full, Paths.Resolve(cwd, [dir]))
  {
    DownloadArtifactWith(Artifacts.Intended, sys, c, id, reqPath)
  }

  /** The written guard serves a file beside the artifacts directory whose
      name extends the directory's: for `/k/a/artifacts`, the artifact path
      `../artifacts2` downloads `/k/a/artifacts2`. The intended guard answers
      403 instead. */
  lemma {:induction false} SiblingServed(sys: Sys, c: KnowledgeService.Settings, id: string, reqPath: string,
                                         parent: seq<string>, name: string, extra: string)
    requires KnowledgeService.ValidSettings(c)
    requires Paths.Canonical(parent + [name], true)
    requires extra != "" && Paths.PlainName(name + extra)
    requires KnowledgeStore.GetById(sys.store, id).Some?
    requires ArtifactsDir(KnowledgeStore.GetById(sys.store, id).value) == Paths.Render(parent + [name], true)
    requires Artifacts.ArtifactPath(reqPath) == ".." + "/" + name + extra
    requires FileSystem.IsFile(sys.fs, FileSystem.Loc(c.cwd, Paths.Render(parent + [name + extra], true)))
    ensures DownloadArtifact(sys, c, id, reqPath).Download?
    ensures DownloadArtifactIntended(sys, c, id, reqPath) == Fail(403, "FORBIDDEN", "Path traversal not allowed")
  {
    var cwd := Paths.Render(c.cwd, true);
    Artifacts.GuardAdmitsSibling(cwd, parent, name, extra);
    Paths.PrefixGuardAdmitsSibling(cwd, parent, name, extra);
  }

  /** The same file reached by an absolute artifact path, which survives
      any normalisation of the request path: for `/k/a/artifacts`, the
      request `…/artifacts//k/a/artifacts2/x` downloads `/k/a/artifacts2/x`
      through the written guard, and the intended guard answers 403. */
  lemma {:induction false} AbsoluteSiblingServed(sys: Sys, c: KnowledgeService.Settings, id: string, reqPath: string,
                                                 parent: seq<string>, name: string, extra: string, rest: seq<string>)
    requires KnowledgeService.ValidSettings(c)
    requires Paths.Canonical(parent + [name], true) && Paths.Canonical(rest, true)
    requires extra != "" && Paths.PlainName(name + extra)
    requires KnowledgeStore.GetById(sys.store, id).Some?
    requires ArtifactsDir(KnowledgeStore.GetById(sys.store, id).value) == Paths.Render(parent + [name], true)
    requires Artifacts.ArtifactPath(reqPath) == Paths.Render(parent + [name + extra] + rest, true)
    requires FileSystem.IsFile(sys.fs, FileSystem.Loc(c.cwd, Paths.Render(parent + [name + extra] + rest, true)))
    ensures DownloadArtifact(sys, c, id, reqPath).Download?
    ensures DownloadArtifactIntended(sys, c, id, reqPath) == Fail(403, "FORBIDDEN", "Path traversal not allowed")
  {
    var cwd := Paths.Render(c.cwd, true);
    Artifacts.GuardAdmitsAbsoluteSibling(cwd, parent, name, extra, rest);
  }
}

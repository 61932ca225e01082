/** The knowledge folders on disk (src/workspace/knowledge-manager.ts). Each
    entry is a directory under a base directory holding `skill.yaml` (the
    entry's metadata), `prompt.md`, an optional `code/` directory and
    whatever else was copied in with it. The file system is a
    `FileSystem.Node` passed in and handed back; the working directory that
    relative paths resolve against and the current time are parameters.
    YAML is modelled by its JSON subset: `yaml.dump` writes the text
    `JSON.stringify` would and `yaml.load` reads JSON text. */
module KnowledgeManager {
  import opened Wrappers
  import opened Json
  import JsonParse
  import Strs
  import Paths
  import FileSystem

  type Node = FileSystem.Node
  type Outcome = FileSystem.Outcome

  // ---------------------------------------------------------------------------
  // Documents
  // ---------------------------------------------------------------------------

  /** `yaml.dump(doc)`. */
  function Dump(doc: Json): string {
    Stringify(doc)
  }

  /** `yaml.load(text)`: `None` when the text does not parse, or when the
      top-level mapping repeats a key (js-yaml refuses duplicated keys). */
  function Load(text: string): (r: Option<Json>)
    ensures r.Some? ==> JsonParse.Parse(text) == r
    ensures r.Some? && r.value.JObj? ==> DistinctKeys(r.value.members)
  {
    match JsonParse.Parse(text)
    case Some(JObj(ms)) => if DistinctKeys(ms) then Some(JObj(ms)) else None
    case other => other
  }

  /** A dumped document loads back unchanged. */
  lemma {:induction false} LoadDump(doc: Json)
    requires doc.JObj? ==> DistinctKeys(doc.members)
    ensures Load(Dump(doc)) == Some(doc)
  {
    JsonParse.ParseStringify(doc);
  }

  /** What `createEntry` is given. `code` maps file names to contents, in
      the order `Object.entries` lists them. */
  datatype CreateInput = CreateInput(
    id: string,
    title: string,
    description: string,
    tags: seq<string>,
    category: Option<string>,
    source: string,
    originTaskId: Option<string>,
    promptTemplate: string,
    code: Option<seq<(string, string)>>)

  function OptStr(v: Option<string>): Option<Json> {
    if v.Some? then Some(JStr(v.value)) else None
  }

  /** The fields of the `skill.yaml` document `createEntry` writes, in the
      order its object literal lists them. */
  function SkillFields(input: CreateInput, now: string): (fields: seq<(string, Option<Json>)>)
    ensures DistinctFieldKeys(fields)
  {
    [("id", Some(JStr(input.id))), ("title", Some(JStr(input.title))),
     ("description", Some(JStr(input.description))), ("tags", Some(StrArray(input.tags))),
     ("category", OptStr(input.category)), ("source", Some(JStr(input.source))),
     ("origin_task_id", OptStr(input.originTaskId)),
     ("created_at", Some(JStr(now))), ("updated_at", Some(JStr(now)))]
  }

  /** The `skill.yaml` document itself; undefined fields are left out. */
  function SkillDoc(input: CreateInput, now: string): (doc: Json)
    ensures doc.JObj? && DistinctKeys(doc.members)
  {
    RecordDistinct(SkillFields(input, now));
    JObj(Record(SkillFields(input, now)))
  }

  // ---------------------------------------------------------------------------
  // Scanned entries
  // ---------------------------------------------------------------------------

  /** `ScannedEntry`. A field the document does not hold as a string is
      `None`. */
  datatype Scanned = Scanned(
    id: string,
    title: Option<string>,
    description: Option<string>,
    tags: seq<string>,
    category: Option<string>,
    source: string,
    originTaskId: Option<string>,
    avgRating: int,
    voteCount: int,
    folderPath: string,
    createdAt: string,
    updatedAt: string)

  function StrField(doc: Json, key: string): (r: Option<string>)
    ensures r.Some? <==> Field(doc, key).Some? && Field(doc, key).value.JStr?
    ensures r.Some? ==> Field(doc, key) == Some(JStr(r.value))
  {
    match Field(doc, key)
    case Some(JStr(s)) => Some(s)
    case _ => None
  }

  function NumField(j: Option<Json>, key: string): int {
    if j.None? then 0
    else
      match Field(j.value, key)
      case Some(JNum(n)) => n
      case _ => 0
  }

  /** The id a document names, when it is truthy: a non-empty string. */
  function IdOf(doc: Json): (r: Option<string>)
    ensures r.Some? <==> exists s :: s != "" && Field(doc, "id") == Some(JStr(s))
    ensures r.Some? ==> Field(doc, "id") == Some(JStr(r.value))
  {
    match StrField(doc, "id")
    case Some(s) => if s != "" then Some(s) else None
    case None => None
  }

  /** `tags ?? []`, with a value that is not a list of strings read as no
      tags. */
  function TagsOf(doc: Json): seq<string> {
    match Field(doc, "tags")
    case Some(JArr(items)) => DecodeStrings(items).GetOr([])
    case _ => []
  }

  /** A list of strings reads back as exactly those strings. */
  lemma {:induction false} TagsRead(doc: Json)
    ensures (Field(doc, "tags").Some? && Field(doc, "tags").value.JArr? &&
             (forall j :: j in Field(doc, "tags").value.items ==> j.JStr?)) ==> StrArray(TagsOf(doc)) == Field(doc, "tags").value
  {
    var f := Field(doc, "tags");
    if f.Some? && f.value.JArr? && (forall j :: j in f.value.items ==> j.JStr?) {
      var items := f.value.items;
      var d := DecodeStrings(items);
      if d.None? {
        assert false;
      }
      assert StrArray(d.value).items == items;
    }
  }

  /** An optional text field read from a document: the string when the
      field holds one, nothing when it is missing or null. */
  ghost predicate TextOpt(v: Option<Json>, r: Option<string>) {
    && (v.Some? && v.value.JStr? ==> r == Some(v.value.s))
    && (v.None? || v == Some(JNull) ==> r.None?)
  }

  /** `field ?? fallback` on a text field: the string when the field holds
      one, the fallback when it is missing or null. */
  ghost predicate TextOr(v: Option<Json>, fallback: string, r: string) {
    && (v.Some? && v.value.JStr? ==> r == v.value.s)
    && (v.None? || v == Some(JNull) ==> r == fallback)
  }

  /** `rating?.[key] ?? 0`: the number when the rating holds one, 0 when the
      rating or the number is missing or null. */
  ghost predicate RatingOr(rating: Option<Json>, key: string, r: int) {
    && (rating.Some? && Field(rating.value, key).Some? && Field(rating.value, key).value.JNum? ==>
          r == Field(rating.value, key).value.n)
    && (rating.None? || rating == Some(JNull) || Field(rating.value, key).None? || Field(rating.value, key) == Some(JNull) ==>
          r == 0)
  }

  /** `skillYamlToScannedEntry(doc, folder)`: missing tags read as none,
      a missing source as `unknown`, a missing rating as 0 of 0 votes and
      missing timestamps as `now`. */
  function ToScanned(doc: Json, id: string, folder: string, now: string): (r: Scanned)
    ensures r.id == id && r.folderPath == folder
    ensures TextOpt(Field(doc, "title"), r.title) && TextOpt(Field(doc, "description"), r.description)
    ensures TextOpt(Field(doc, "category"), r.category) && TextOpt(Field(doc, "origin_task_id"), r.originTaskId)
    ensures TextOr(Field(doc, "source"), "unknown", r.source)
    ensures TextOr(Field(doc, "created_at"), now, r.createdAt) && TextOr(Field(doc, "updated_at"), now, r.updatedAt)
    ensures RatingOr(Field(doc, "rating"), "average", r.avgRating) && RatingOr(Field(doc, "rating"), "count", r.voteCount)
    ensures Field(doc, "tags").None? || Field(doc, "tags") == Some(JNull) ==> r.tags == []
    ensures (Field(doc, "tags").Some? && Field(doc, "tags").value.JArr? &&
             (forall j :: j in Field(doc, "tags").value.items ==> j.JStr?)) ==> StrArray(r.tags) == Field(doc, "tags").value
  {
    var rating := Field(doc, "rating");
    TagsRead(doc);
    Scanned(id, StrField(doc, "title"), StrField(doc, "description"), TagsOf(doc),
      StrField(doc, "category"), StrField(doc, "source").GetOr("unknown"),
      StrField(doc, "origin_task_id"), NumField(rating, "average"), NumField(rating, "count"),
      folder, StrField(doc, "created_at").GetOr(now), StrField(doc, "updated_at").GetOr(now))
  }

  /** Reading back a created document gives the entry it was created from,
      unrated, with the creation time as both timestamps. */
  lemma {:induction false} ScanCreated(input: CreateInput, now: string, folder: string, later: string)
    ensures IdOf(SkillDoc(input, now)) == (if input.id != "" then Some(input.id) else None)
    ensures ToScanned(SkillDoc(input, now), input.id, folder, later)
         == Scanned(input.id, Some(input.title), Some(input.description), input.tags, input.category,
              input.source, input.originTaskId, 0, 0, folder, now, now)
  {
    CreatedHead(input, now);
    CreatedTail(input, now);
  }

  lemma {:induction false} CreatedHead(input: CreateInput, now: string)
    ensures var doc := SkillDoc(input, now);
      && IdOf(doc) == (if input.id != "" then Some(input.id) else None)
      && StrField(doc, "title") == Some(input.title)
      && StrField(doc, "description") == Some(input.description)
      && TagsOf(doc) == input.tags
  {
    SkillDocField(input, now, 0);
    SkillDocField(input, now, 1);
    SkillDocField(input, now, 2);
    SkillDocField(input, now, 3);
    DecodeStringsOf(input.tags);
  }

  lemma {:induction false} CreatedTail(input: CreateInput, now: string)
    ensures var doc := SkillDoc(input, now);
      && StrField(doc, "category") == input.category
      && StrField(doc, "source") == Some(input.source)
      && StrField(doc, "origin_task_id") == input.originTaskId
      && StrField(doc, "created_at") == Some(now)
      && StrField(doc, "updated_at") == Some(now)
      && Field(doc, "rating") == None
  {
    SkillDocField(input, now, 4);
    SkillDocField(input, now, 5);
    SkillDocField(input, now, 6);
    SkillDocField(input, now, 7);
    SkillDocField(input, now, 8);
    SkillDocUnrated(input, now);
  }

  /** Each field of a created document reads as written. */
  lemma {:induction false} SkillDocField(input: CreateInput, now: string, i: int)
    requires 0 <= i < 9
    ensures Field(SkillDoc(input, now), SkillFields(input, now)[i].0) == SkillFields(input, now)[i].1
  {
    RecordLookup(SkillFields(input, now), i);
  }

  lemma {:induction false} SkillDocUnrated(input: CreateInput, now: string)
    ensures Field(SkillDoc(input, now), "rating") == None
  {
    RecordAbsent(SkillFields(input, now), "rating");
  }

  // ---------------------------------------------------------------------------
  // Writing, one step at a time
  // ---------------------------------------------------------------------------

  /** `writeFile` unless an earlier step already failed. */
  function Write(o: Outcome, loc: seq<string>, text: string): (r: Outcome)
    ensures r.ok ==> o.ok && FileSystem.ReadFile(r.fs, loc) == Some(text)
    ensures !o.ok ==> r == o
  {
    if !o.ok then o
    else
      match FileSystem.WriteFile(o.fs, loc, text)
      case None => FileSystem.Outcome(o.fs, false)
      case Some(n) => FileSystem.Outcome(n, true)
  }

  /** `mkdir -p` unless an earlier step already failed. */
  function Mkdir(o: Outcome, loc: seq<string>): (r: Outcome)
    ensures r.ok ==> o.ok && FileSystem.IsDir(r.fs, loc)
    ensures !o.ok ==> r == o
  {
    if !o.ok then o
    else
      match FileSystem.MkdirP(o.fs, loc)
      case None => FileSystem.Outcome(o.fs, false)
      case Some(n) =>
        FileSystem.MkdirPMakes(o.fs, loc, |loc|);
        assert loc[..|loc|] == loc;
        FileSystem.Outcome(n, true)
  }

  lemma {:induction false} WriteOther(o: Outcome, loc: seq<string>, text: string, q: seq<string>)
    requires FileSystem.Apart(q, loc)
    ensures FileSystem.Get(Write(o, loc, text).fs, q) == FileSystem.Get(o.fs, q)
  {
    if o.ok && FileSystem.WriteFile(o.fs, loc, text).Some? {
      FileSystem.WriteFileOther(o.fs, loc, text, q);
    }
  }

  lemma {:induction false} MkdirOther(o: Outcome, loc: seq<string>, q: seq<string>)
    requires !(q <= loc)
    ensures FileSystem.Get(Mkdir(o, loc).fs, q) == FileSystem.Get(o.fs, q)
  {
    if o.ok && FileSystem.MkdirP(o.fs, loc).Some? {
      FileSystem.MkdirPOther(o.fs, loc, q);
    }
  }

  // ---------------------------------------------------------------------------
  // createEntry
  // ---------------------------------------------------------------------------

  /** `getEntryPath(id)`: `path.join(baseDir, id)`. */
  function EntryPath(base: string, id: string): (p: string)
    ensures p != ""
  {
    Paths.Join([base, id])
  }

  /** The code files, each written into `dir` in turn. */
  function WriteCode(o: Outcome, cwd: seq<string>, dir: string, files: seq<(string, string)>): (r: Outcome)
    requires Paths.Canonical(cwd, true)
    ensures r.ok ==> o.ok
    decreases |files|
  {
    if |files| == 0 then o
    else
      var loc := FileSystem.Loc(cwd, Paths.Join([dir, files[0].0]));
      WriteCode(Write(o, loc, files[0].1), cwd, dir, files[1..])
  }

  /** `createEntry(input)`: makes the entry directory, writes `skill.yaml`
      and `prompt.md`, then the code files into `code/`. A failed step
      stops the rest; what was written before it stays. */
  function CreateEntry(fs: Node, cwd: seq<string>, base: string, input: CreateInput, now: string): (r: Outcome)
    requires Paths.Canonical(cwd, true)
  {
    var dir := EntryPath(base, input.id);
    var o := WriteMeta(fs, cwd, dir, input, now);
    if input.code.None? then o
    else
      var codeDir := Paths.Join([dir, "code"]);
      WriteCode(Mkdir(o, FileSystem.Loc(cwd, codeDir)), cwd, codeDir, input.code.value)
  }

  /** The directory, `skill.yaml` and `prompt.md`. */
  function WriteMeta(fs: Node, cwd: seq<string>, dir: string, input: CreateInput, now: string): (r: Outcome)
    requires Paths.Canonical(cwd, true)
  {
    var o1 := Mkdir(FileSystem.Outcome(fs, true), FileSystem.Loc(cwd, dir));
    var o2 := Write(o1, FileSystem.Loc(cwd, Paths.Join([dir, "skill.yaml"])), Dump(SkillDoc(input, now)));
    Write(o2, FileSystem.Loc(cwd, Paths.Join([dir, "prompt.md"])), input.promptTemplate)
  }

  lemma {:induction false} WriteMetaWrites(fs: Node, cwd: seq<string>, dir: string, input: CreateInput, now: string)
    requires Paths.Canonical(cwd, true) && dir != ""
    requires WriteMeta(fs, cwd, dir, input, now).ok
    ensures var el := FileSystem.Loc(cwd, dir);
      var r := WriteMeta(fs, cwd, dir, input, now).fs;
      && FileSystem.ReadFile(r, el + ["skill.yaml"]) == Some(Dump(SkillDoc(input, now)))
      && FileSystem.ReadFile(r, el + ["prompt.md"]) == Some(input.promptTemplate)
  {
    var el := FileSystem.Loc(cwd, dir);
    var yl := el + ["skill.yaml"];
    var pl := el + ["prompt.md"];
    FixedNamesPlain();
    LocChild(cwd, dir, "skill.yaml");
    LocChild(cwd, dir, "prompt.md");
    var o1 := Mkdir(FileSystem.Outcome(fs, true), el);
    var o2 := Write(o1, yl, Dump(SkillDoc(input, now)));
    FileSystem.ApartSiblings(el, "skill.yaml", "prompt.md", [], []);
    WriteOther(o2, pl, input.promptTemplate, yl);
  }

  /** The fixed names inside an entry directory are plain names. */
  lemma {:induction false} FixedNamesPlain()
    ensures Paths.PlainName("skill.yaml") && Paths.PlainName("prompt.md")
    ensures Paths.PlainName("code") && Paths.PlainName("artifacts")
  {
  }

  /** Where a plain name inside a directory path leads. */
  lemma {:induction false} LocChild(cwd: seq<string>, dir: string, name: string)
    requires Paths.Canonical(cwd, true)
    requires dir != "" && Paths.PlainName(name)
    ensures FileSystem.Loc(cwd, Paths.Join([dir, name])) == FileSystem.Loc(cwd, dir) + [name]
  {
    FileSystem.LocJoin(cwd, dir, name);
    FileSystem.NormFromPlain(FileSystem.Loc(cwd, dir), name);
  }

  predicate PlainNames(files: seq<(string, string)>) {
    forall i :: 0 <= i < |files| ==> Paths.PlainName(files[i].0)
  }

  predicate DistinctFileNames(files: seq<(string, string)>) {
    forall i, j :: 0 <= i < j < |files| ==> files[i].0 != files[j].0
  }

  /** Writing code files touches nothing apart from the files named. */
  lemma {:induction false} WriteCodeOther(o: Outcome, cwd: seq<string>, dir: string, files: seq<(string, string)>, q: seq<string>)
    requires Paths.Canonical(cwd, true) && dir != "" && PlainNames(files)
    requires forall i :: 0 <= i < |files| ==> FileSystem.Apart(q, FileSystem.Loc(cwd, dir) + [files[i].0])
    ensures FileSystem.Get(WriteCode(o, cwd, dir, files).fs, q) == FileSystem.Get(o.fs, q)
    decreases |files|
  {
    if |files| > 0 {
      var loc := FileSystem.Loc(cwd, Paths.Join([dir, files[0].0]));
      LocChild(cwd, dir, files[0].0);
      WriteOther(o, loc, files[0].1, q);
      assert forall i :: 0 <= i < |files[1..]| ==> files[1..][i] == files[i + 1];
      WriteCodeOther(Write(o, loc, files[0].1), cwd, dir, files[1..], q);
    }
  }

  /** After the code files are written, each reads back as given. */
  lemma {:induction false} WriteCodeReads(o: Outcome, cwd: seq<string>, dir: string, files: seq<(string, string)>, i: int)
    requires Paths.Canonical(cwd, true) && dir != ""
    requires PlainNames(files) && DistinctFileNames(files)
    requires WriteCode(o, cwd, dir, files).ok && 0 <= i < |files|
    ensures FileSystem.ReadFile(WriteCode(o, cwd, dir, files).fs, FileSystem.Loc(cwd, dir) + [files[i].0])
         == Some(files[i].1)
    decreases |files|
  {
    var loc := FileSystem.Loc(cwd, Paths.Join([dir, files[0].0]));
    var o' := Write(o, loc, files[0].1);
    var rest := files[1..];
    assert forall k :: 0 <= k < |rest| ==> rest[k] == files[k + 1];
    assert WriteCode(o, cwd, dir, files) == WriteCode(o', cwd, dir, rest);
    LocChild(cwd, dir, files[0].0);
    if i == 0 {
      assert o'.ok;
      forall k | 0 <= k < |rest|
        ensures FileSystem.Apart(loc, FileSystem.Loc(cwd, dir) + [rest[k].0])
      {
        FileSystem.ApartSiblings(FileSystem.Loc(cwd, dir), files[0].0, rest[k].0, [], []);
      }
      WriteCodeOther(o', cwd, dir, rest, loc);
    } else {
      WriteCodeReads(o', cwd, dir, rest, i - 1);
    }
  }

  /** The location of an entry's directory. */
  function EntryLoc(cwd: seq<string>, base: string, id: string): seq<string>
    requires Paths.Canonical(cwd, true)
  {
    FileSystem.Loc(cwd, EntryPath(base, id))
  }

  /** A successful `createEntry` leaves the metadata, the prompt and every
      code file readable in the entry directory. */
  lemma {:induction false} CreateEntryWrites(fs: Node, cwd: seq<string>, base: string, input: CreateInput, now: string)
    requires Paths.Canonical(cwd, true)
    requires input.code.Some? ==> PlainNames(input.code.value) && DistinctFileNames(input.code.value)
    requires CreateEntry(fs, cwd, base, input, now).ok
    ensures var el := EntryLoc(cwd, base, input.id);
      var r := CreateEntry(fs, cwd, base, input, now).fs;
      && FileSystem.ReadFile(r, el + ["skill.yaml"]) == Some(Dump(SkillDoc(input, now)))
      && FileSystem.ReadFile(r, el + ["prompt.md"]) == Some(input.promptTemplate)
      && (input.code.Some? ==> forall i :: 0 <= i < |input.code.value| ==>
            FileSystem.ReadFile(r, el + ["code", input.code.value[i].0]) == Some(input.code.value[i].1))
  {
    var dir := EntryPath(base, input.id);
    WriteMetaWrites(fs, cwd, dir, input, now);
    if input.code.Some? {
      CreateEntryCode(fs, cwd, base, input, now);
    }
  }

  lemma {:induction false} CreateEntryCode(fs: Node, cwd: seq<string>, base: string, input: CreateInput, now: string)
    requires Paths.Canonical(cwd, true)
    requires input.code.Some? && PlainNames(input.code.value) && DistinctFileNames(input.code.value)
    requires CreateEntry(fs, cwd, base, input, now).ok
    ensures var dir := EntryPath(base, input.id);
      var el := FileSystem.Loc(cwd, dir);
      var o := WriteMeta(fs, cwd, dir, input, now);
      var r := CreateEntry(fs, cwd, base, input, now).fs;
      && o.ok
      && FileSystem.Get(r, el + ["skill.yaml"]) == FileSystem.Get(o.fs, el + ["skill.yaml"])
      && FileSystem.Get(r, el + ["prompt.md"]) == FileSystem.Get(o.fs, el + ["prompt.md"])
      && forall i :: 0 <= i < |input.code.value| ==>
           FileSystem.ReadFile(r, el + ["code", input.code.value[i].0]) == Some(input.code.value[i].1)
  {
    var dir := EntryPath(base, input.id);
    var o := WriteMeta(fs, cwd, dir, input, now);
    assert dir != "";
    CodeWrites(o, cwd, dir, input.code.value);
  }

  /** Making `code/` after the metadata and writing the files into it: the
      metadata files stay as they were and every file reads back. */
  lemma {:induction false} CodeWrites(o: Outcome, cwd: seq<string>, dir: string, files: seq<(string, string)>)
    requires Paths.Canonical(cwd, true) && dir != ""
    requires PlainNames(files) && DistinctFileNames(files)
    requires var codeDir := Paths.Join([dir, "code"]);
      WriteCode(Mkdir(o, FileSystem.Loc(cwd, codeDir)), cwd, codeDir, files).ok
    ensures var el := FileSystem.Loc(cwd, dir);
      var codeDir := Paths.Join([dir, "code"]);
      var r := WriteCode(Mkdir(o, FileSystem.Loc(cwd, codeDir)), cwd, codeDir, files).fs;
      && o.ok
      && FileSystem.Get(r, el + ["skill.yaml"]) == FileSystem.Get(o.fs, el + ["skill.yaml"])
      && FileSystem.Get(r, el + ["prompt.md"]) == FileSystem.Get(o.fs, el + ["prompt.md"])
      && forall i :: 0 <= i < |files| ==>
           FileSystem.ReadFile(r, el + ["code", files[i].0]) == Some(files[i].1)
  {
    FixedNamesPlain();
    CodeKeeps(o, cwd, dir, files, "skill.yaml");
    CodeKeeps(o, cwd, dir, files, "prompt.md");
    CodeReads(o, cwd, dir, files);
  }

  lemma {:induction false} CodeReads(o: Outcome, cwd: seq<string>, dir: string, files: seq<(string, string)>)
    requires Paths.Canonical(cwd, true) && dir != ""
    requires PlainNames(files) && DistinctFileNames(files)
    requires var codeDir := Paths.Join([dir, "code"]);
      WriteCode(Mkdir(o, FileSystem.Loc(cwd, codeDir)), cwd, codeDir, files).ok
    ensures var el := FileSystem.Loc(cwd, dir);
      var codeDir := Paths.Join([dir, "code"]);
      var r := WriteCode(Mkdir(o, FileSystem.Loc(cwd, codeDir)), cwd, codeDir, files).fs;
      forall i :: 0 <= i < |files| ==>
           FileSystem.ReadFile(r, el + ["code", files[i].0]) == Some(files[i].1)
  {
    var el := FileSystem.Loc(cwd, dir);
    var codeDir := Paths.Join([dir, "code"]);
    FixedNamesPlain();
    LocChild(cwd, dir, "code");
    var o4 := Mkdir(o, el + ["code"]);
    forall i | 0 <= i < |files|
      ensures FileSystem.ReadFile(WriteCode(o4, cwd, codeDir, files).fs, el + ["code", files[i].0])
           == Some(files[i].1)
    {
      WriteCodeReads(o4, cwd, codeDir, files, i);
      assert el + ["code"] + [files[i].0] == el + ["code", files[i].0];
    }
  }

  /** Making `code/` and writing into it leaves a sibling of `code` alone. */
  lemma {:induction false} CodeKeeps(o: Outcome, cwd: seq<string>, dir: string, files: seq<(string, string)>, name: string)
    requires Paths.Canonical(cwd, true) && dir != "" && PlainNames(files) && name != "code"
    ensures var el := FileSystem.Loc(cwd, dir);
      var codeDir := Paths.Join([dir, "code"]);
      FileSystem.Get(WriteCode(Mkdir(o, FileSystem.Loc(cwd, codeDir)), cwd, codeDir, files).fs, el + [name])
        == FileSystem.Get(o.fs, el + [name])
  {
    var el := FileSystem.Loc(cwd, dir);
    var codeDir := Paths.Join([dir, "code"]);
    FixedNamesPlain();
    LocChild(cwd, dir, "code");
    var cl := el + ["code"];
    var q := el + [name];
    FileSystem.ApartSiblings(el, name, "code", [], []);
    assert q == el + [name] + [] && cl == el + ["code"] + [];
    MkdirOther(o, cl, q);
    forall i | 0 <= i < |files|
      ensures FileSystem.Apart(q, FileSystem.Loc(cwd, codeDir) + [files[i].0])
    {
      FileSystem.ApartSiblings(el, name, "code", [], [files[i].0]);
      assert cl + [files[i].0] == el + ["code"] + [files[i].0];
    }
    WriteCodeOther(Mkdir(o, cl), cwd, codeDir, files, q);
  }

  // ---------------------------------------------------------------------------
  // Paths inside an entry
  // ---------------------------------------------------------------------------

  /** `path.join(baseDir, id, name)` for a plain file name leads into the
      entry directory. */
  lemma {:induction false} EntryChild(cwd: seq<string>, base: string, id: string, name: string)
    requires Paths.Canonical(cwd, true) && base != "" && Paths.PlainName(name)
    ensures FileSystem.Loc(cwd, Paths.Join([base, id, name])) == EntryLoc(cwd, base, id) + [name]
  {
    FileSystem.LocJoin3(cwd, base, id, name);
    FileSystem.LocJoin(cwd, base, id);
    FileSystem.NormFromPlain(EntryLoc(cwd, base, id), name);
  }

  /** An id that is a plain name names a directory right below the base. */
  lemma {:induction false} EntryLocPlain(cwd: seq<string>, base: string, id: string)
    requires Paths.Canonical(cwd, true) && base != "" && Paths.PlainName(id)
    ensures EntryLoc(cwd, base, id) == FileSystem.Loc(cwd, base) + [id]
  {
    LocChild(cwd, base, id);
  }

  /** The id `..` names the parent of the base directory: `getEntryPath`
      does not keep an entry inside the base directory by itself. */
  lemma {:induction false} EntryDotDot(cwd: seq<string>, base: string)
    requires Paths.Canonical(cwd, true) && base != ""
    requires |FileSystem.Loc(cwd, base)| > 0
    ensures var bl := FileSystem.Loc(cwd, base);
      EntryLoc(cwd, base, "..") == bl[..|bl| - 1]
  {
    var bl := FileSystem.Loc(cwd, base);
    FileSystem.LocJoin(cwd, base, "..");
    assert Paths.SplitSlash("..") == [".."] by {
      assert Paths.SplitSlash("") == [""];
      assert Paths.SplitSlash(".") == ["."];
    }
    assert bl[|bl| - 1] != "..";
  }

  // ---------------------------------------------------------------------------
  // readPrompt, listArtifacts, deleteEntry
  // ---------------------------------------------------------------------------

  /** `readPrompt(id)`: the text of the entry's `prompt.md`; `None` when it
      cannot be read. */
  function ReadPrompt(fs: Node, cwd: seq<string>, base: string, id: string): (r: Option<string>)
    requires Paths.Canonical(cwd, true)
    ensures base != "" ==> r == FileSystem.ReadFile(fs, EntryLoc(cwd, base, id) + ["prompt.md"])
  {
    FixedNamesPlain();
    if base != "" then EntryChild(cwd, base, id, "prompt.md"); FileSystem.ReadFile(fs, FileSystem.Loc(cwd, Paths.Join([base, id, "prompt.md"])))
    else FileSystem.ReadFile(fs, FileSystem.Loc(cwd, Paths.Join([base, id, "prompt.md"])))
  }

  /** A created entry's prompt reads back as written. */
  lemma {:induction false} CreateReadPrompt(fs: Node, cwd: seq<string>, base: string, input: CreateInput, now: string)
    requires Paths.Canonical(cwd, true) && base != ""
    requires input.code.Some? ==> PlainNames(input.code.value) && DistinctFileNames(input.code.value)
    requires CreateEntry(fs, cwd, base, input, now).ok
    ensures ReadPrompt(CreateEntry(fs, cwd, base, input, now).fs, cwd, base, input.id) == Some(input.promptTemplate)
  {
    CreateEntryWrites(fs, cwd, base, input, now);
  }

  /** The names in a directory listing. */
  function Names(es: seq<FileSystem.Item>): (r: seq<string>)
    ensures |r| == |es| && forall i :: 0 <= i < |es| ==> r[i] == es[i].name
  {
    seq(|es|, i requires 0 <= i < |es| => es[i].name)
  }

  /** `listArtifacts(id)`: the names in the entry's `artifacts` directory;
      none when it cannot be listed. */
  function ListArtifacts(fs: Node, cwd: seq<string>, base: string, id: string): seq<string>
    requires Paths.Canonical(cwd, true)
  {
    match FileSystem.Readdir(fs, FileSystem.Loc(cwd, Paths.Join([base, id, "artifacts"])))
    case Some(es) => Names(es)
    case None => []
  }

  /** A name is listed exactly when something exists under that name in the
      entry's `artifacts` directory. */
  lemma {:induction false} ListArtifactsNames(fs: Node, cwd: seq<string>, base: string, id: string, x: string)
    requires Paths.Canonical(cwd, true) && base != ""
    ensures x in ListArtifacts(fs, cwd, base, id)
        <==> FileSystem.Get(fs, EntryLoc(cwd, base, id) + ["artifacts", x]).Some?
  {
    FixedNamesPlain();
    EntryChild(cwd, base, id, "artifacts");
    var al := EntryLoc(cwd, base, id) + ["artifacts"];
    assert al + [x] == EntryLoc(cwd, base, id) + ["artifacts", x];
    FileSystem.GetAppend(fs, al, [x]);
    var g := FileSystem.Get(fs, al);
    if g.Some? && g.value.Dir? {
      var es := g.value.entries;
      assert FileSystem.Get(g.value, [x]) == FileSystem.Find(es, x);
      if x in Names(es) {
        var i :| 0 <= i < |es| && Names(es)[i] == x;
      }
    }
  }

  /** `deleteEntry(id)`: `rm -rf` of the entry directory; a missing
      directory is not an error. */
  function DeleteEntry(fs: Node, cwd: seq<string>, base: string, id: string): (r: Node)
    requires Paths.Canonical(cwd, true)
    ensures |EntryLoc(cwd, base, id)| > 0 ==> FileSystem.Get(r, EntryLoc(cwd, base, id)).None?
  {
    FileSystem.Remove(fs, EntryLoc(cwd, base, id))
  }

  /** After `deleteEntry` the prompt cannot be read and nothing outside the
      entry directory and its parent's listing has changed. */
  lemma {:induction false} DeleteEntryEffect(fs: Node, cwd: seq<string>, base: string, id: string, q: seq<string>)
    requires Paths.Canonical(cwd, true) && base != ""
    requires |EntryLoc(cwd, base, id)| > 0
    ensures ReadPrompt(DeleteEntry(fs, cwd, base, id), cwd, base, id).None?
    ensures var el := EntryLoc(cwd, base, id);
      !(el <= q) && !(q < el) ==> FileSystem.Get(DeleteEntry(fs, cwd, base, id), q) == FileSystem.Get(fs, q)
  {
    var el := EntryLoc(cwd, base, id);
    FileSystem.GetAppend(DeleteEntry(fs, cwd, base, id), el, ["prompt.md"]);
    if !(el <= q) && !(q < el) {
      FileSystem.RemoveOther(fs, el, q);
    }
  }

  // ---------------------------------------------------------------------------
  // updateSkillYaml
  // ---------------------------------------------------------------------------

  /** The document in the entry's `skill.yaml`, when it reads and loads. */
  function ReadSkill(fs: Node, cwd: seq<string>, base: string, id: string): (r: Option<Json>)
    requires Paths.Canonical(cwd, true)
    ensures r.Some? && r.value.JObj? ==> DistinctKeys(r.value.members)
  {
    match FileSystem.ReadFile(fs, FileSystem.Loc(cwd, Paths.Join([base, id, "skill.yaml"])))
    case None => None
    case Some(text) => Load(text)
  }

  /** Spreading `updates` over `ms`, one member after the other: a key
      already present keeps its place and takes the new value. */
  function AssignAll(ms: seq<Member>, updates: seq<Member>): (r: seq<Member>)
    requires DistinctKeys(ms)
    ensures DistinctKeys(r)
    ensures |r| >= |ms| && forall i :: 0 <= i < |ms| ==> r[i].key == ms[i].key
    decreases |updates|
  {
    if |updates| == 0 then ms
    else
      var last := updates[|updates| - 1];
      Assign(AssignAll(ms, updates[..|updates| - 1]), last.key, last.value)
  }

  /** After the spread a key reads its last update, or its old value when
      no update names it. */
  lemma {:induction false} AssignAllLookup(ms: seq<Member>, updates: seq<Member>, k: string)
    requires DistinctKeys(ms)
    ensures Lookup(AssignAll(ms, updates), k)
         == if Lookup(updates, k).Some? then Lookup(updates, k) else Lookup(ms, k)
    decreases |updates|
  {
    if |updates| > 0 {
      AssignAllLookup(ms, updates[..|updates| - 1], k);
    }
  }

  /** The position the key `k` names among `n`: `Some(i)` when `k` is
      `String(i)` for some `i < n`, which is how JavaScript names the
      indices of a string or an array. */
  function IndexKey(k: string, n: nat): (r: Option<nat>)
    ensures r.Some? ==> r.value < n && Strs.NatToString(r.value) == k
  {
    match Strs.LeadingDigits(k)
    case None => None
    case Some(v) => if v < n && Strs.NatToString(v) == k then Some(v) else None
  }

  /** Every index below `n` is named by its decimal text, and by nothing
      else. */
  lemma {:induction false} IndexKeyOf(i: nat, n: nat)
    requires i < n
    ensures IndexKey(Strs.NatToString(i), n) == Some(i)
  {
    Strs.LeadingDigitsOfNat(i);
  }

  /** The members `{...v}` copies out of a loaded value `v`: a mapping's
      members; one member per character of a string and per item of a
      list, keyed by the index in decimal; nothing from null, a number or a
      boolean. */
  function Spread(doc: Json): (r: seq<Member>)
    requires doc.JObj? ==> DistinctKeys(doc.members)
    ensures DistinctKeys(r)
  {
    match doc
    case JObj(ms) => ms
    case JStr(s) =>
      IndexKeysDistinct(|s|);
      seq(|s|, i requires 0 <= i < |s| => Member(Strs.NatToString(i), JStr([s[i]])))
    case JArr(items) =>
      IndexKeysDistinct(|items|);
      seq(|items|, i requires 0 <= i < |items| => Member(Strs.NatToString(i), items[i]))
    case _ => []
  }

  lemma {:induction false} IndexKeysDistinct(n: nat)
    ensures forall i, j :: 0 <= i < j < n ==> Strs.NatToString(i) != Strs.NatToString(j)
  {
    forall i, j | 0 <= i < j < n ensures Strs.NatToString(i) != Strs.NatToString(j) {
      IndexKeyOf(i, n);
      IndexKeyOf(j, n);
    }
  }

  /** `v[k]` for an own property of a loaded value: a mapping's member, the
      character or item at the index `k` names in a string or a list, and
      nothing for null, a number or a boolean. */
  function OwnField(doc: Json, k: string): Option<Json> {
    match doc
    case JObj(ms) => Lookup(ms, k)
    case JStr(s) => (match IndexKey(k, |s|) case Some(i) => Some(JStr([s[i]])) case None => None)
    case JArr(items) => (match IndexKey(k, |items|) case Some(i) => Some(items[i]) case None => None)
    case _ => None
  }

  /** After the spread each key reads the value's own property of that
      name. */
  lemma {:induction false} SpreadLookup(doc: Json, k: string)
    requires doc.JObj? ==> DistinctKeys(doc.members)
    ensures Lookup(Spread(doc), k) == OwnField(doc, k)
  {
    var r := Spread(doc);
    var n := if doc.JStr? then |doc.s| else if doc.JArr? then |doc.items| else 0;
    if doc.JStr? || doc.JArr? {
      assert |r| == n;
      assert forall j :: 0 <= j < n ==> r[j].key == Strs.NatToString(j);
      match IndexKey(k, n)
      case Some(i) =>
        LookupDistinct(r, i);
      case None =>
        forall j | 0 <= j < n ensures r[j].key != k {
          IndexKeyOf(j, n);
        }
    }
  }

  /** `{...existing, ...updates, updated_at: now}`. */
  function Merged(doc: Json, updates: seq<Member>, now: string): (r: seq<Member>)
    requires doc.JObj? ==> DistinctKeys(doc.members)
    ensures DistinctKeys(r)
  {
    Assign(AssignAll(Spread(doc), updates), "updated_at", JStr(now))
  }

  /** What each key of the merged document holds. */
  lemma {:induction false} MergedField(doc: Json, updates: seq<Member>, now: string, k: string)
    requires doc.JObj? ==> DistinctKeys(doc.members)
    ensures Lookup(Merged(doc, updates, now), k)
         == if k == "updated_at" then Some(JStr(now))
            else if Lookup(updates, k).Some? then Lookup(updates, k)
            else OwnField(doc, k)
  {
    AssignAllLookup(Spread(doc), updates, k);
    SpreadLookup(doc, k);
  }

  /** The spread of a string: `{..."ab", ...updates}` holds `"0": "a"` and
      `"1": "b"` beside the updates. */
  lemma {:induction false} MergedString(updates: seq<Member>, now: string)
    requires Lookup(updates, "0").None? && Lookup(updates, "1").None? && Lookup(updates, "2").None?
    ensures Lookup(Merged(JStr("ab"), updates, now), "0") == Some(JStr("a"))
    ensures Lookup(Merged(JStr("ab"), updates, now), "1") == Some(JStr("b"))
    ensures Lookup(Merged(JStr("ab"), updates, now), "2").None?
  {
    MergedField(JStr("ab"), updates, now, "0");
    MergedField(JStr("ab"), updates, now, "1");
    MergedField(JStr("ab"), updates, now, "2");
    OwnFieldAb();
  }

  lemma {:induction false} OwnFieldAb()
    ensures OwnField(JStr("ab"), "0") == Some(JStr("a"))
    ensures OwnField(JStr("ab"), "1") == Some(JStr("b"))
    ensures OwnField(JStr("ab"), "2").None?
  {
    assert Strs.NatToString(0) == "0";
    assert Strs.NatToString(1) == "1";
    IndexKeyOf(0, 2);
    IndexKeyOf(1, 2);
    Strs.LeadingDigitsOfNat(2);
    assert Strs.NatToString(2) == "2";
  }

  /** `updateSkillYaml(id, updates)`: reads and loads `skill.yaml`, spreads
      the updates and the new `updated_at` over it and writes it back.
      `None` is the error thrown when the file cannot be read or loaded, or
      cannot be written. */
  function UpdateSkillYaml(fs: Node, cwd: seq<string>, base: string, id: string, updates: seq<Member>, now: string): (r: Option<Node>)
    requires Paths.Canonical(cwd, true)
    ensures r.Some? ==> ReadSkill(fs, cwd, base, id).Some?
  {
    match ReadSkill(fs, cwd, base, id)
    case None => None
    case Some(doc) =>
      var loc := FileSystem.Loc(cwd, Paths.Join([base, id, "skill.yaml"]));
      FileSystem.WriteFile(fs, loc, Dump(JObj(Merged(doc, updates, now))))
  }

  /** Under a non-empty base directory the update fails only when the
      document cannot be read or loaded. */
  lemma {:induction false} UpdateSkillYamlSucceeds(fs: Node, cwd: seq<string>, base: string, id: string, updates: seq<Member>, now: string)
    requires Paths.Canonical(cwd, true) && base != ""
    ensures UpdateSkillYaml(fs, cwd, base, id, updates, now).Some? <==> ReadSkill(fs, cwd, base, id).Some?
  {
    FixedNamesPlain();
    EntryChild(cwd, base, id, "skill.yaml");
    var loc := EntryLoc(cwd, base, id) + ["skill.yaml"];
    if ReadSkill(fs, cwd, base, id).Some? {
      FileSystem.SetParentIsDir(fs, loc);
      assert loc[..|loc| - 1] == EntryLoc(cwd, base, id);
    }
  }

  /** After a successful update the document reads back with `updated_at`
      set to now, each updated key holding its update and every other key
      what it held before. */
  lemma {:induction false} UpdateSkillYamlReads(fs: Node, cwd: seq<string>, base: string, id: string, updates: seq<Member>, now: string, k: string)
    requires Paths.Canonical(cwd, true)
    requires UpdateSkillYaml(fs, cwd, base, id, updates, now).Some?
    ensures var d := ReadSkill(UpdateSkillYaml(fs, cwd, base, id, updates, now).value, cwd, base, id);
      && d.Some? && d.value.JObj?
      && Field(d.value, k)
         == if k == "updated_at" then Some(JStr(now))
            else if Lookup(updates, k).Some? then Lookup(updates, k)
            else OwnField(ReadSkill(fs, cwd, base, id).value, k)
  {
    var doc := ReadSkill(fs, cwd, base, id).value;
    LoadDump(JObj(Merged(doc, updates, now)));
    MergedField(doc, updates, now, k);
  }

  /** The update writes nothing but `skill.yaml`. */
  lemma {:induction false} UpdateSkillYamlOther(fs: Node, cwd: seq<string>, base: string, id: string, updates: seq<Member>, now: string, q: seq<string>)
    requires Paths.Canonical(cwd, true)
    requires UpdateSkillYaml(fs, cwd, base, id, updates, now).Some?
    requires FileSystem.Apart(q, FileSystem.Loc(cwd, Paths.Join([base, id, "skill.yaml"])))
    ensures FileSystem.Get(UpdateSkillYaml(fs, cwd, base, id, updates, now).value, q) == FileSystem.Get(fs, q)
  {
    var doc := ReadSkill(fs, cwd, base, id).value;
    var loc := FileSystem.Loc(cwd, Paths.Join([base, id, "skill.yaml"]));
    FileSystem.WriteFileOther(fs, loc, Dump(JObj(Merged(doc, updates, now))), q);
  }

  // ---------------------------------------------------------------------------
  // extractFromWorkspace
  // ---------------------------------------------------------------------------

  /** A workspace's `.knowledge` directory. */
  function KnowledgeDir(ws: string): (p: string)
    ensures p != ""
  {
    Paths.Join([ws, ".knowledge"])
  }

  /** The document in a workspace's `.knowledge/skill.yaml`, when it reads
      and loads. */
  function WorkspaceDoc(fs: Node, cwd: seq<string>, ws: string): Option<Json>
    requires Paths.Canonical(cwd, true)
  {
    match FileSystem.ReadFile(fs, FileSystem.Loc(cwd, Paths.Join([KnowledgeDir(ws), "skill.yaml"])))
    case None => None
    case Some(text) => Load(text)
  }

  /** A readable `skill.yaml` sits in a directory. */
  lemma {:induction false} KnowledgeDirIsDir(fs: Node, cwd: seq<string>, ws: string)
    requires Paths.Canonical(cwd, true)
    requires WorkspaceDoc(fs, cwd, ws).Some?
    ensures FileSystem.IsDir(fs, FileSystem.Loc(cwd, KnowledgeDir(ws)))
    ensures FileSystem.Get(fs, FileSystem.Loc(cwd, KnowledgeDir(ws)) + ["skill.yaml"]).Some?
  {
    FixedNamesPlain();
    LocChild(cwd, KnowledgeDir(ws), "skill.yaml");
    var kl := FileSystem.Loc(cwd, KnowledgeDir(ws));
    FileSystem.GetAppend(fs, kl, ["skill.yaml"]);
  }

  /** What `extractFromWorkspace` leaves: the file system and the entry. */
  datatype Extracted = Extracted(fs: Node, entry: Option<Scanned>)

  /** `extractFromWorkspace(ws)`: when `.knowledge/skill.yaml` loads and
      names an id, copies `.knowledge` into the entry directory for that id
      and reports the entry; otherwise, or when the copy fails part way,
      no entry. */
  function ExtractFromWorkspace(fs: Node, cwd: seq<string>, base: string, ws: string, now: string): (r: Extracted)
    requires Paths.Canonical(cwd, true)
    ensures r.entry.Some? ==>
      && WorkspaceDoc(fs, cwd, ws).Some?
      && IdOf(WorkspaceDoc(fs, cwd, ws).value) == Some(r.entry.value.id)
      && r.entry.value == ToScanned(WorkspaceDoc(fs, cwd, ws).value, r.entry.value.id, EntryPath(base, r.entry.value.id), now)
    ensures (WorkspaceDoc(fs, cwd, ws).None? || IdOf(WorkspaceDoc(fs, cwd, ws).value).None?) ==> r == Extracted(fs, None)
  {
    var kl := FileSystem.Loc(cwd, KnowledgeDir(ws));
    if FileSystem.Get(fs, kl).None? then Extracted(fs, None)
    else
      match WorkspaceDoc(fs, cwd, ws)
      case None => Extracted(fs, None)
      case Some(doc) =>
        match IdOf(doc)
        case None => Extracted(fs, None)
        case Some(id) =>
          KnowledgeDirIsDir(fs, cwd, ws);
          var dest := EntryPath(base, id);
          var c := FileSystem.CopyDir(fs, FileSystem.Get(fs, kl).value, FileSystem.Loc(cwd, dest));
          Extracted(c.fs, if c.ok then Some(ToScanned(doc, id, dest, now)) else None)
  }

  /** After a successful extraction every file of `.knowledge` is in the
      entry directory at the same place, with the same text. */
  lemma {:induction false} ExtractCopies(fs: Node, cwd: seq<string>, base: string, ws: string, now: string, rel: seq<string>, t: string)
    requires Paths.Canonical(cwd, true) && FileSystem.WellFormed(fs)
    requires ExtractFromWorkspace(fs, cwd, base, ws, now).entry.Some?
    requires FileSystem.Get(fs, FileSystem.Loc(cwd, KnowledgeDir(ws)) + rel) == Some(FileSystem.File(t))
    ensures var r := ExtractFromWorkspace(fs, cwd, base, ws, now);
      FileSystem.Get(r.fs, EntryLoc(cwd, base, r.entry.value.id) + rel) == Some(FileSystem.File(t))
  {
    var kl := FileSystem.Loc(cwd, KnowledgeDir(ws));
    KnowledgeDirIsDir(fs, cwd, ws);
    var src := FileSystem.Get(fs, kl).value;
    FileSystem.GetWellFormed(fs, kl);
    FileSystem.GetAppend(fs, kl, rel);
    var id := IdOf(WorkspaceDoc(fs, cwd, ws).value).value;
    FileSystem.CopyDirCopies(fs, src, EntryLoc(cwd, base, id), rel, t);
  }

  /** In particular the extracted entry's `skill.yaml` is the workspace's. */
  lemma {:induction false} ExtractSkill(fs: Node, cwd: seq<string>, base: string, ws: string, now: string)
    requires Paths.Canonical(cwd, true) && FileSystem.WellFormed(fs) && base != ""
    requires ExtractFromWorkspace(fs, cwd, base, ws, now).entry.Some?
    ensures var r := ExtractFromWorkspace(fs, cwd, base, ws, now);
      ReadSkill(r.fs, cwd, base, r.entry.value.id) == WorkspaceDoc(fs, cwd, ws)
  {
    var r := ExtractFromWorkspace(fs, cwd, base, ws, now);
    var kl := FileSystem.Loc(cwd, KnowledgeDir(ws));
    FixedNamesPlain();
    LocChild(cwd, KnowledgeDir(ws), "skill.yaml");
    EntryChild(cwd, base, r.entry.value.id, "skill.yaml");
    var t := FileSystem.ReadFile(fs, kl + ["skill.yaml"]).value;
    ExtractCopies(fs, cwd, base, ws, now, ["skill.yaml"], t);
  }

  // ---------------------------------------------------------------------------
  // scanEntries
  // ---------------------------------------------------------------------------

  /** One listed item of the base directory: an entry when it is a
      directory whose `skill.yaml` loads and names an id. The entry takes
      its id from the document and its folder from the item's name. */
  function ScanOne(fs: Node, cwd: seq<string>, base: string, item: FileSystem.Item, now: string): (r: Option<Scanned>)
    requires Paths.Canonical(cwd, true)
    ensures r.Some? <==>
      item.node.Dir? && ReadSkill(fs, cwd, base, item.name).Some? && IdOf(ReadSkill(fs, cwd, base, item.name).value).Some?
    ensures r.Some? ==> r.value.folderPath == EntryPath(base, item.name) && r.value.id != ""
  {
    if !item.node.Dir? then None
    else
      match ReadSkill(fs, cwd, base, item.name)
      case None => None
      case Some(doc) =>
        match IdOf(doc)
        case None => None
        case Some(id) => Some(ToScanned(doc, id, EntryPath(base, item.name), now))
  }

  /** The entries of the listed items, in listing order. */
  function ScanItems(fs: Node, cwd: seq<string>, base: string, es: seq<FileSystem.Item>, now: string): (r: seq<Scanned>)
    requires Paths.Canonical(cwd, true)
    ensures forall e :: e in r <==> exists i :: 0 <= i < |es| && ScanOne(fs, cwd, base, es[i], now) == Some(e)
    ensures forall e :: e in r ==> e.id != ""
    decreases |es|
  {
    if |es| == 0 then []
    else
      var head := match ScanOne(fs, cwd, base, es[0], now)
        case Some(e) => [e]
        case None => [];
      var rest := ScanItems(fs, cwd, base, es[1..], now);
      assert forall i :: 1 <= i < |es| ==> es[i] == es[1..][i - 1];
      head + rest
  }

  /** `scanEntries()`: an entry for every directory under the base
      directory whose `skill.yaml` loads and names an id; none when the
      base directory cannot be listed. */
  function ScanEntries(fs: Node, cwd: seq<string>, base: string, now: string): (r: seq<Scanned>)
    requires Paths.Canonical(cwd, true)
    ensures FileSystem.Readdir(fs, FileSystem.Loc(cwd, base)).None? ==> r == []
    ensures forall e :: e in r ==> e.id != ""
  {
    match FileSystem.Readdir(fs, FileSystem.Loc(cwd, base))
    case None => []
    case Some(es) => ScanItems(fs, cwd, base, es, now)
  }

  /** A directory right below the base is one of its listed items. */
  lemma {:induction false} ListedDir(fs: Node, bl: seq<string>, name: string)
    requires FileSystem.IsDir(fs, bl + [name])
    ensures FileSystem.Readdir(fs, bl).Some?
    ensures var es := FileSystem.Readdir(fs, bl).value;
      exists i :: 0 <= i < |es| && es[i].name == name && es[i].node.Dir?
  {
    FileSystem.GetAppend(fs, bl, [name]);
    var es := FileSystem.Get(fs, bl).value.entries;
    var c := FileSystem.Find(es, name).value;
    assert FileSystem.Get(c, []) == Some(c);
    var i :| 0 <= i < |es| && es[i] == FileSystem.Item(name, c);
  }

  /** A created entry's `skill.yaml` reads back as the document written. */
  lemma {:induction false} CreateReadSkill(fs: Node, cwd: seq<string>, base: string, input: CreateInput, now: string)
    requires Paths.Canonical(cwd, true) && base != ""
    requires input.code.Some? ==> PlainNames(input.code.value) && DistinctFileNames(input.code.value)
    requires CreateEntry(fs, cwd, base, input, now).ok
    ensures ReadSkill(CreateEntry(fs, cwd, base, input, now).fs, cwd, base, input.id) == Some(SkillDoc(input, now))
    ensures FileSystem.IsDir(CreateEntry(fs, cwd, base, input, now).fs, EntryLoc(cwd, base, input.id))
  {
    var r := CreateEntry(fs, cwd, base, input, now).fs;
    var el := EntryLoc(cwd, base, input.id);
    CreateEntryWrites(fs, cwd, base, input, now);
    FixedNamesPlain();
    EntryChild(cwd, base, input.id, "skill.yaml");
    LoadDump(SkillDoc(input, now));
    FileSystem.GetAppend(r, el, ["skill.yaml"]);
  }

  /** A scan after a successful `createEntry` with a plain id finds the
      entry, as created, in its folder. */
  lemma {:induction false} CreateThenScan(fs: Node, cwd: seq<string>, base: string, input: CreateInput, now: string, later: string)
    requires Paths.Canonical(cwd, true) && base != "" && Paths.PlainName(input.id)
    requires input.code.Some? ==> PlainNames(input.code.value) && DistinctFileNames(input.code.value)
    requires CreateEntry(fs, cwd, base, input, now).ok
    ensures Scanned(input.id, Some(input.title), Some(input.description), input.tags, input.category,
              input.source, input.originTaskId, 0, 0, EntryPath(base, input.id), now, now)
         in ScanEntries(CreateEntry(fs, cwd, base, input, now).fs, cwd, base, later)
  {
    var r := CreateEntry(fs, cwd, base, input, now).fs;
    var bl := FileSystem.Loc(cwd, base);
    CreateReadSkill(fs, cwd, base, input, now);
    EntryLocPlain(cwd, base, input.id);
    ListedDir(r, bl, input.id);
    var es := FileSystem.Readdir(r, bl).value;
    var i :| 0 <= i < |es| && es[i].name == input.id && es[i].node.Dir?;
    ScanCreated(input, now, EntryPath(base, input.id), later);
    assert ScanOne(r, cwd, base, es[i], later).Some?;
  }
}

/** The knowledge service (src/services/knowledge.service.ts): keeps the
    knowledge folders on disk and the knowledge table in step. Its state is
    the store and the file system; the working directory, the base
    directory of the folders and the context limit are fixed settings, and
    the current time and fresh ids are parameters. An exception the service
    lets through is an `Err` carrying its message, next to whatever state
    the steps before it left. */
module KnowledgeService {
  import opened Wrappers
  import opened Json
  import Strs
  import Paths
  import FileSystem
  import KnowledgeStore
  import KnowledgeManager

  // ---------------------------------------------------------------------------
  // Slugs
  // ---------------------------------------------------------------------------

  /** A character a slug keeps: `[a-z0-9]`. */
  predicate Alnum(c: char) {
    'a' <= c <= 'z' || '0' <= c <= '9'
  }

  predicate SlugChars(s: string) {
    forall i :: 0 <= i < |s| ==> Alnum(s[i]) || s[i] == '-'
  }

  predicate NoDoubleDash(s: string) {
    forall i :: 0 <= i < |s| - 1 ==> !(s[i] == '-' && s[i + 1] == '-')
  }

  /** The characters of `[a-z0-9]` in `s`, in order. */
  function Kept(s: string): (r: string)
    ensures forall i :: 0 <= i < |r| ==> Alnum(r[i])
    decreases |s|
  {
    if |s| == 0 then ""
    else (if Alnum(s[0]) then [s[0]] else []) + Kept(s[1..])
  }

  lemma {:induction false} KeptConcat(a: string, b: string)
    ensures Kept(a + b) == Kept(a) + Kept(b)
    decreases |a|
  {
    if |a| > 0 {
      assert (a + b)[1..] == a[1..] + b;
      KeptConcat(a[1..], b);
    } else {
      assert a + b == b;
    }
  }

  /** `.replace(/[^a-z0-9]+/g, '-')`: each maximal run of other characters
      becomes one dash. `inRun` says the character before `s` belonged to
      such a run. */
  function DashRuns(s: string, inRun: bool): (r: string)
    ensures SlugChars(r) && NoDoubleDash(r)
    ensures |r| > 0 && r[0] == '-' <==> !inRun && |s| > 0 && !Alnum(s[0])
    ensures Kept(r) == Kept(s)
    decreases |s|
  {
    if |s| == 0 then ""
    else if Alnum(s[0]) then
      var rest := DashRuns(s[1..], false);
      assert ([s[0]] + rest)[1..] == rest;
      [s[0]] + rest
    else if inRun then DashRuns(s[1..], true)
    else
      var rest := DashRuns(s[1..], true);
      assert ("-" + rest)[1..] == rest;
      "-" + rest
  }

  /** `.replace(/-+/g, '-')`: each run of dashes becomes one. */
  function CollapseDashes(s: string, afterDash: bool): (r: string)
    decreases |s|
  {
    if |s| == 0 then ""
    else if s[0] != '-' then [s[0]] + CollapseDashes(s[1..], false)
    else if afterDash then CollapseDashes(s[1..], true)
    else "-" + CollapseDashes(s[1..], true)
  }

  /** Collapsing changes nothing once no two dashes are adjacent. */
  lemma {:induction false} CollapseNoDoubleDash(s: string, afterDash: bool)
    requires NoDoubleDash(s) && (afterDash ==> |s| == 0 || s[0] != '-')
    ensures CollapseDashes(s, afterDash) == s
    decreases |s|
  {
    if |s| > 0 {
      CollapseNoDoubleDash(s[1..], s[0] == '-');
      assert s == [s[0]] + s[1..];
    }
  }

  /** `.replace(/^-|-$/g, '')`: a dash at the start and a dash at the end
      go. */
  function TrimDash(s: string): (r: string)
    ensures |r| <= |s|
  {
    var t := if |s| > 0 && s[0] == '-' then s[1..] else s;
    if |t| > 0 && t[|t| - 1] == '-' then t[..|t| - 1] else t
  }

  lemma {:induction false} TrimDashKeeps(s: string)
    requires SlugChars(s) && NoDoubleDash(s)
    ensures var r := TrimDash(s);
      && SlugChars(r) && NoDoubleDash(r)
      && (|r| > 0 ==> r[0] != '-' && r[|r| - 1] != '-')
      && Kept(r) == Kept(s)
  {
    var t := if |s| > 0 && s[0] == '-' then s[1..] else s;
    if |s| > 0 && s[0] == '-' {
      DropHead(s);
    }
    if |t| > 0 && t[|t| - 1] == '-' {
      DropTail(t);
    }
  }

  lemma {:induction false} DropHead(s: string)
    requires SlugChars(s) && NoDoubleDash(s) && |s| > 0 && s[0] == '-'
    ensures SlugChars(s[1..]) && NoDoubleDash(s[1..])
    ensures |s| > 1 ==> s[1] != '-'
    ensures Kept(s[1..]) == Kept(s)
  {
  }

  lemma {:induction false} DropTail(t: string)
    requires SlugChars(t) && NoDoubleDash(t) && |t| > 0 && t[|t| - 1] == '-'
    ensures var u := t[..|t| - 1];
      && SlugChars(u) && NoDoubleDash(u)
      && (|u| > 0 ==> u[|u| - 1] != '-' && u[0] == t[0])
      && Kept(u) == Kept(t)
  {
    var u := t[..|t| - 1];
    assert t == u + [t[|t| - 1]];
    KeptConcat(u, [t[|t| - 1]]);
    assert Kept([t[|t| - 1]]) == "";
  }

  /** The longest a slug gets. */
  const SlugMax := 60

  /** `generateSlug(title)`: lower case, each run of characters outside
      `[a-z0-9]` a single dash, no dash at either end, then cut to 60
      characters. */
  function GenerateSlug(title: string): (r: string)
    ensures SlugChars(r) && NoDoubleDash(r) && |r| <= SlugMax
    ensures |r| > 0 ==> r[0] != '-'
    ensures |r| > 0 && r[|r| - 1] == '-' ==> |r| == SlugMax
  {
    var runs := DashRuns(Strs.ToLower(title), false);
    CollapseNoDoubleDash(runs, false);
    var t := TrimDash(CollapseDashes(runs, false));
    TrimDashKeeps(runs);
    Strs.Take(t, SlugMax)
  }

  /** The slug keeps the title's letters and digits, lower-cased and in
      order: all of them when the slug was not cut, a prefix of them when it
      was. */
  lemma {:induction false} SlugKeeps(title: string)
    ensures var all := Kept(Strs.ToLower(title));
      && Kept(GenerateSlug(title)) <= all
      && (|GenerateSlug(title)| < SlugMax ==> Kept(GenerateSlug(title)) == all)
  {
    var runs := DashRuns(Strs.ToLower(title), false);
    CollapseNoDoubleDash(runs, false);
    var t := TrimDash(runs);
    TrimDashKeeps(runs);
    var r := Strs.Take(t, SlugMax);
    assert t == r + t[|r|..];
    KeptConcat(r, t[|r|..]);
  }

  /** A title with no letter or digit gives the empty slug. */
  lemma {:induction false} SlugOfNothing()
    ensures GenerateSlug("!?") == ""
  {
    LowerPunct();
    RunsOfPunct();
    CollapseNoDoubleDash("-", false);
    assert TrimDash("-") == "";
  }

  lemma {:induction false} LowerPunct()
    ensures Strs.ToLower("!?") == "!?"
  {
  }

  lemma {:induction false} RunsOfPunct()
    ensures DashRuns("!?", false) == "-"
  {
    assert "!?"[1..] == "?";
    assert DashRuns("?", true) == "";
  }

  /** A non-empty slug can name a folder: it is a plain name. */
  lemma {:induction false} SlugPlain(title: string)
    requires GenerateSlug(title) != ""
    ensures Paths.PlainName(GenerateSlug(title))
  {
    var r := GenerateSlug(title);
    assert r[0] != '.' && r != "..";
  }

  // ---------------------------------------------------------------------------
  // The service's state
  // ---------------------------------------------------------------------------

  /** What the service is built with: where relative paths resolve, the
      base directory of the knowledge folders and `maxContext`. */
  datatype Settings = Settings(cwd: seq<string>, base: string, maxContext: int)

  ghost predicate ValidSettings(c: Settings) {
    Paths.Canonical(c.cwd, true)
  }

  datatype Sys = Sys(store: KnowledgeStore.Store, fs: FileSystem.Node)

  /** The state after an operation and what it returned or threw. */
  datatype Done<T> = Done(sys: Sys, result: Result<T, string>)

  /** The message a failed file-system call throws (its errno text is not
      modelled). */
  const FsError := "file system error"

  // ---------------------------------------------------------------------------
  // create
  // ---------------------------------------------------------------------------

  /** The validated create request. `code` maps file names to contents. */
  datatype CreateRequest = CreateRequest(
    title: string,
    description: string,
    tags: Option<seq<string>>,
    category: Option<string>,
    promptTemplate: string,
    code: Option<seq<(string, string)>>)

  /** What `createEntry` is given for a request. */
  function FolderInput(req: CreateRequest): KnowledgeManager.CreateInput {
    KnowledgeManager.CreateInput(GenerateSlug(req.title), req.title, req.description, req.tags.GetOr([]),
      req.category, "manual", None, req.promptTemplate, req.code)
  }

  /** `create(input)`: writes the folder under the title's slug, then
      upserts the row under the same id with source `manual`, and returns
      the stored entry. A failed folder write throws before the store is
      touched. */
  function Create(sys: Sys, c: Settings, req: CreateRequest, now: string): (r: Done<KnowledgeStore.Entry>)
    requires ValidSettings(c)
    ensures r.sys.fs == KnowledgeManager.CreateEntry(sys.fs, c.cwd, c.base, FolderInput(req), now).fs
    ensures !KnowledgeManager.CreateEntry(sys.fs, c.cwd, c.base, FolderInput(req), now).ok ==>
      r.result == Err(FsError) && r.sys.store == sys.store
    ensures r.result.Ok? ==>
      var slug := GenerateSlug(req.title);
      var e := r.result.value;
      && e.id == slug && e.title == req.title && e.description == req.description
      && e.tags == req.tags.GetOr([]) && e.category == req.category && e.source == "manual"
      && e.folderPath == KnowledgeManager.EntryPath(c.base, slug)
      && KnowledgeStore.GetById(r.sys.store, slug) == Some(e)
  {
    var slug := GenerateSlug(req.title);
    var o := KnowledgeManager.CreateEntry(sys.fs, c.cwd, c.base, FolderInput(req), now);
    if !o.ok then Done(Sys(sys.store, o.fs), Err(FsError))
    else
      var p := KnowledgeStore.Params(req.title, req.description, req.tags.GetOr([]), req.category,
        Some("manual"), None, KnowledgeManager.EntryPath(c.base, slug));
      var added := AddRow(sys.store, slug, p, now);
      Done(Sys(added.0, o.fs), added.1)
  }

  /** The store side of `create`: upsert under the slug, then read the row
      back; the entry returned carries the given fields and is the one
      stored. */
  function AddRow(store: KnowledgeStore.Store, slug: string, p: KnowledgeStore.Params, now: string)
    : (r: (KnowledgeStore.Store, Result<KnowledgeStore.Entry, string>))
    requires p.source.Some?
    ensures r.1.Ok? ==>
      var e := r.1.value;
      && e.id == slug && e.title == p.title && e.description == p.description
      && e.tags == p.tags && e.category == p.category && e.source == p.source.value
      && e.folderPath == p.folderPath
      && KnowledgeStore.GetById(r.0, slug) == Some(e)
  {
    match KnowledgeStore.Upsert(store, Some(slug), slug, p, now)
    case Err(e) => (store, Err(e))
    case Ok(res) =>
      match KnowledgeStore.GetById(res.0, slug)
      case None => (res.0, Err("Failed to create knowledge entry: " + slug))
      case Some(e) =>
        UpsertCarries(store, slug, p, now);
        (res.0, Ok(e))
  }

  /** After an upsert under `slug` the row read back carries the given
      fields, whether it overwrote a stored entry or inserted a new one. */
  lemma {:induction false} UpsertCarries(store: KnowledgeStore.Store, slug: string, p: KnowledgeStore.Params, now: string)
    requires p.source.Some?
    requires KnowledgeStore.Upsert(store, Some(slug), slug, p, now).Ok?
    ensures var res := KnowledgeStore.Upsert(store, Some(slug), slug, p, now).value;
      var e := KnowledgeStore.GetById(res.0, slug);
      && e.Some? && e.value.id == slug && e.value.title == p.title && e.value.description == p.description
      && e.value.tags == p.tags && e.value.category == p.category && e.value.source == p.source.value
      && e.value.folderPath == p.folderPath
  {
    var res := KnowledgeStore.Upsert(store, Some(slug), slug, p, now).value;
    if slug != "" && KnowledgeStore.GetById(store, slug).Some? {
      var ex := KnowledgeStore.GetById(store, slug).value;
      assert ex.id == slug;
      assert KnowledgeStore.GetById(res.0, slug) == Some(KnowledgeStore.Overwritten(ex, p, now));
    } else {
      assert res.1 == slug;
      assert KnowledgeStore.GetById(res.0, slug) == Some(KnowledgeStore.NewEntry(slug, p, now));
    }
  }

  /** After a successful `create` whose slug is not empty, the folder and
      the row describe the same entry: a scan of the folders finds it with
      the row's id, title, description, tags, category, source and folder. */
  lemma {:induction false} CreateAgrees(sys: Sys, c: Settings, req: CreateRequest, now: string, later: string)
    requires ValidSettings(c) && c.base != "" && GenerateSlug(req.title) != ""
    requires req.code.Some? ==>
      KnowledgeManager.PlainNames(req.code.value) && KnowledgeManager.DistinctFileNames(req.code.value)
    requires Create(sys, c, req, now).result.Ok?
    ensures var r := Create(sys, c, req, now);
      var e := r.result.value;
      KnowledgeManager.Scanned(e.id, Some(e.title), Some(e.description), e.tags, e.category, e.source,
          None, 0, 0, e.folderPath, now, now)
        in KnowledgeManager.ScanEntries(r.sys.fs, c.cwd, c.base, later)
  {
    SlugPlain(req.title);
    var input := FolderInput(req);
    var r := Create(sys, c, req, now);
    assert KnowledgeManager.CreateEntry(sys.fs, c.cwd, c.base, input, now).ok;
    KnowledgeManager.CreateThenScan(sys.fs, c.cwd, c.base, input, now, later);
    var e := r.result.value;
    assert e.id == input.id && e.title == input.title && e.description == input.description;
    assert e.tags == input.tags && e.category == input.category && e.source == input.source;
    assert e.folderPath == KnowledgeManager.EntryPath(c.base, input.id);
  }

  // ---------------------------------------------------------------------------
  // buildContext
  // ---------------------------------------------------------------------------

  const ContextHeader := "Available knowledge entries (use if relevant):"

  /** `{status: 'active', sortBy: 'rating'}`. */
  function ActiveByRating(): KnowledgeStore.Filter {
    KnowledgeStore.Filter(Some("active"), None, None, Some(KnowledgeStore.ByRating))
  }

  /** `entries.slice(0, n)`: a negative `n` counts back from the end. */
  function SliceTo<T>(s: seq<T>, n: int): (r: seq<T>)
    ensures r <= s
    ensures |r| == if n >= 0 then (if n < |s| then n else |s|) else (if |s| + n > 0 then |s| + n else 0)
  {
    if n >= 0 then (if n < |s| then s[..n] else s)
    else if |s| + n > 0 then s[..|s| + n]
    else []
  }

  /** A positive rating in tenths as JavaScript prints the number: no
      fraction part when it is whole. */
  function RatingText(t: int): string
    requires t > 0
  {
    var whole := Strs.IntToString(t / 10);
    if t % 10 == 0 then whole else whole + "." + [Strs.DigitChar(t % 10)]
  }

  /** The ` (★x)` after an entry's id, present only for a positive rating. */
  function RatingSuffix(avg: int): (r: string)
    ensures r != "" <==> avg > 0
  {
    if avg > 0 then " (★" + RatingText(avg) + ")" else ""
  }

  /** The numbered line naming an entry. */
  function NumberedLine(e: KnowledgeStore.Entry, n: nat): string {
    Strs.IntToString(n) + ". [" + e.id + "]" + RatingSuffix(e.avgRating) + " - " + e.description
  }

  /** The line giving an entry's folder. */
  function FolderLine(e: KnowledgeStore.Entry): string {
    "   Folder: " + e.folderPath
  }

  /** Two lines for each item, `numbered` with its position counted from
      `k + 1` and then `plain`. */
  function LinePairs<T>(xs: seq<T>, k: nat, numbered: (T, nat) -> string, plain: T -> string): (r: seq<string>)
    ensures |r| == 2 * |xs|
    decreases |xs|
  {
    if |xs| == 0 then []
    else [numbered(xs[0], k + 1), plain(xs[0])] + LinePairs(xs[1..], k + 1, numbered, plain)
  }

  /** Line `2i` is item `i` numbered `k + i + 1`, and line `2i + 1` its
      plain line. */
  lemma {:induction false} LinePairsAt<T>(xs: seq<T>, k: nat, numbered: (T, nat) -> string, plain: T -> string, i: int)
    requires 0 <= i < |xs|
    ensures LinePairs(xs, k, numbered, plain)[2 * i] == numbered(xs[i], k + i + 1)
    ensures LinePairs(xs, k, numbered, plain)[2 * i + 1] == plain(xs[i])
    decreases i
  {
    if i > 0 {
      LinePairsAt(xs[1..], k + 1, numbered, plain, i - 1);
    }
  }

  /** The two lines for each entry, numbered from `k + 1`. */
  function EntryLines(es: seq<KnowledgeStore.Entry>, k: nat): seq<string> {
    LinePairs(es, k, NumberedLine, FolderLine)
  }

  /** The entries the context lists: the active ones by rating, cut to
      `maxContext`. */
  function ContextEntries(store: KnowledgeStore.Store, maxContext: int): seq<KnowledgeStore.Entry> {
    SliceTo(KnowledgeStore.List(store, ActiveByRating()), maxContext)
  }

  /** `buildContext(prompt)`: a header line and two lines per listed entry,
      joined by newlines; empty when nothing is listed. The prompt is not
      read. */
  function BuildContext(store: KnowledgeStore.Store, maxContext: int): (r: string)
    ensures r == "" <==> |ContextEntries(store, maxContext)| == 0
  {
    var limited := ContextEntries(store, maxContext);
    if |limited| == 0 then ""
    else Strs.Join([ContextHeader] + EntryLines(limited, 0), "\n")
  }

  /** Every item's two lines appear in the lines joined under a header. */
  lemma {:induction false} JoinedPairsContain<T>(header: string, xs: seq<T>, numbered: (T, nat) -> string, plain: T -> string, i: int)
    requires 0 <= i < |xs|
    ensures Strs.Contains(Strs.Join([header] + LinePairs(xs, 0, numbered, plain), "\n"), numbered(xs[i], i + 1))
    ensures Strs.Contains(Strs.Join([header] + LinePairs(xs, 0, numbered, plain), "\n"), plain(xs[i]))
  {
    var lines := [header] + LinePairs(xs, 0, numbered, plain);
    LinePairsAt(xs, 0, numbered, plain, i);
    assert lines[2 * i + 1] == numbered(xs[i], i + 1);
    assert lines[2 * i + 2] == plain(xs[i]);
    Strs.JoinContains(lines, "\n", 2 * i + 1);
    Strs.JoinContains(lines, "\n", 2 * i + 2);
  }

  /** Every entry the context lists appears in it with its numbered line
      and its folder line. */
  lemma {:induction false} ContextNamesEach(store: KnowledgeStore.Store, maxContext: int, e: KnowledgeStore.Entry, i: int)
    requires var l := ContextEntries(store, maxContext); 0 <= i < |l| && l[i] == e
    ensures Strs.Contains(BuildContext(store, maxContext), NumberedLine(e, i + 1))
    ensures Strs.Contains(BuildContext(store, maxContext), FolderLine(e))
  {
    JoinedPairsContain(ContextHeader, ContextEntries(store, maxContext), NumberedLine, FolderLine, i);
  }

  /** A printed rating reads back: `parseInt` of the text gives the whole
      stars, there is a `.` exactly when the tenths are not zero, and then
      the last character is the tenths digit. */
  lemma {:induction false} RatingTextReadsBack(t: int)
    requires t > 0
    ensures Strs.ParseInt(RatingText(t)) == Some(t / 10)
    ensures '.' in RatingText(t) <==> t % 10 != 0
    ensures t % 10 != 0 ==> RatingText(t)[|RatingText(t)| - 1] == Strs.DigitChar(t % 10)
  {
    var whole := Strs.NatToString(t / 10);
    assert Strs.IntToString(t / 10) == whole;
    if t % 10 == 0 {
      Strs.ParseIntRoundTrip(t / 10);
      assert '.' !in whole;
    } else {
      var rest := "." + [Strs.DigitChar(t % 10)];
      assert RatingText(t) == whole + rest;
      Strs.ParseIntStopsAtNonDigit(t / 10, rest);
      assert RatingText(t)[|whole|] == '.';
    }
  }

  lemma {:induction false} ActiveConds()
    ensures KnowledgeStore.Conds(ActiveByRating()) == [KnowledgeStore.StatusIs("active")]
    ensures forall row: KnowledgeStore.Row ::
      KnowledgeStore.HoldsAll(KnowledgeStore.Conds(ActiveByRating()), row) <==> row.status == KnowledgeStore.Active
  {
    forall row: KnowledgeStore.Row
      ensures KnowledgeStore.HoldsAll([KnowledgeStore.StatusIs("active")], row) <==> row.status == KnowledgeStore.Active
    {
      var cs := [KnowledgeStore.StatusIs("active")];
      assert cs[0] == KnowledgeStore.StatusIs("active");
      assert KnowledgeStore.HoldsAll(cs, row) <==> KnowledgeStore.Holds(cs[0], row);
      KnowledgeStore.ParseKStatusName(row.status);
    }
  }

  /** The context lists active entries of the store, highest rated first;
      when `maxContext` reaches the number of rows, it lists every active
      entry. */
  lemma {:induction false} ContextListsActive(store: KnowledgeStore.Store, maxContext: int)
    ensures var l := ContextEntries(store, maxContext);
      && (forall e :: e in l ==> e.status == KnowledgeStore.Active)
      && (forall i, j :: 0 <= i < j < |l| ==> l[i].avgRating >= l[j].avgRating)
      && (maxContext >= |store.rows| ==>
            forall k :: 0 <= k < |store.rows| && store.rows[k].status == KnowledgeStore.Active
              ==> KnowledgeStore.ToEntry(store.rows[k]) in l)
  {
    ActiveConds();
    var all := KnowledgeStore.List(store, ActiveByRating());
    var l := ContextEntries(store, maxContext);
    assert |all| <= |store.rows| by {
      var rows := KnowledgeStore.ListRows(store, ActiveByRating());
      var w := KnowledgeStore.Where(store.rows, KnowledgeStore.Conds(ActiveByRating()));
      assert |rows| == |multiset(rows)| == |multiset(w)| == |w|;
    }
    forall e | e in l ensures e.status == KnowledgeStore.Active {
      assert e in all;
    }
  }

  /** No active entry left out of the context is rated above one listed. */
  lemma {:induction false} ContextTopRated(store: KnowledgeStore.Store, maxContext: int, k: int, e: KnowledgeStore.Entry)
    requires 0 <= k < |store.rows| && store.rows[k].status == KnowledgeStore.Active
    requires KnowledgeStore.ToEntry(store.rows[k]) !in ContextEntries(store, maxContext)
    requires e in ContextEntries(store, maxContext)
    ensures e.avgRating >= store.rows[k].avgRating
  {
    ActiveConds();
    var all := KnowledgeStore.List(store, ActiveByRating());
    var l := ContextEntries(store, maxContext);
    var x := KnowledgeStore.ToEntry(store.rows[k]);
    assert x in all;
    var j :| 0 <= j < |all| && all[j] == x;
    var i :| 0 <= i < |l| && l[i] == e;
    assert all[i] == e;
    PrefixIndex(l, all, j);
  }

  lemma {:induction false} PrefixIndex<T>(l: seq<T>, all: seq<T>, j: int)
    requires l <= all && 0 <= j < |all|
    ensures j < |l| ==> all[j] in l
  {
    if j < |l| {
      assert l[j] == all[j];
    }
  }

  // ---------------------------------------------------------------------------
  // rate
  // ---------------------------------------------------------------------------

  /** `Math.round(n / d)` for a positive `d`: the nearest integer, a half
      rounding up. */
  function RoundDiv(n: int, d: int): int
    requires d > 0
  {
    (2 * n + d) / (2 * d)
  }

  /** `RoundDiv` is within a half of the exact quotient. */
  lemma {:induction false} RoundDivNearest(n: int, d: int)
    requires d > 0
    ensures var q := RoundDiv(n, d);
      d * (2 * q - 1) <= 2 * n < d * (2 * q + 1)
  {
  }

  /** A quotient of a value between `lo * d` and `hi * d` rounds to
      between `lo` and `hi`. */
  lemma {:induction false} RoundDivBetween(n: int, d: int, lo: int, hi: int)
    requires d > 0 && lo * d <= n <= hi * d
    ensures lo <= RoundDiv(n, d) <= hi
  {
    var q := RoundDiv(n, d);
    RoundDivNearest(n, d);
    if q < lo {
      MulLe(2 * q + 1, 2 * lo - 1, d);
    }
    if q > hi {
      MulLe(2 * hi + 1, 2 * q - 1, d);
    }
  }

  lemma {:induction false} MulLe(a: int, b: int, c: nat)
    requires a <= b
    ensures a * c <= b * c && c * a <= c * b
  {
  }

  /** The new average in tenths after a vote `score` (a whole number of
      stars) joins `count` votes averaging `avg` tenths. */
  function NewAverage(avg: int, count: nat, score: int): int {
    RoundDiv(avg * count + 10 * score, count + 1)
  }

  /** The new average is the mean of the old votes and the new one, in
      tenths, rounded to the nearest tenth with halves up. */
  lemma {:induction false} NewAverageRounds(avg: int, count: nat, score: int)
    ensures var a := NewAverage(avg, count, score);
      (count + 1) * (2 * a - 1) <= 2 * (avg * count + 10 * score) < (count + 1) * (2 * a + 1)
  {
    RoundDivNearest(avg * count + 10 * score, count + 1);
  }

  /** Votes of one to five stars keep the average between 1.0 and 5.0. */
  lemma {:induction false} AverageInRange(avg: int, count: nat, score: int)
    requires 1 <= score <= 5
    requires count == 0 || 10 <= avg <= 50
    ensures 10 <= NewAverage(avg, count, score) <= 50
  {
    var d := count + 1;
    var n := avg * count + 10 * score;
    if count > 0 {
      MulLe(10, avg, count);
      MulLe(avg, 50, count);
    }
    assert 10 * d <= n <= 50 * d;
    RoundDivBetween(n, d, 10, 50);
  }

  /** The `rating` written into `skill.yaml`. */
  function RatingDoc(avg: int, count: nat): Json {
    JObj([Member("average", JNum(avg)), Member("count", JNum(count)), Member("votes", JArr([]))])
  }

  /** The best-effort `skill.yaml` update of `rate`: a failure leaves the
      file system as it was. */
  function RateFolder(fs: FileSystem.Node, c: Settings, id: string, avg: int, count: nat, now: string): (r: FileSystem.Node)
    requires ValidSettings(c)
    ensures r == fs || (var d := KnowledgeManager.ReadSkill(r, c.cwd, c.base, id);
      d.Some? && Field(d.value, "rating") == Some(RatingDoc(avg, count)))
  {
    var updates := [Member("rating", RatingDoc(avg, count))];
    match KnowledgeManager.UpdateSkillYaml(fs, c.cwd, c.base, id, updates, now)
    case Some(f) =>
      KnowledgeManager.UpdateSkillYamlReads(fs, c.cwd, c.base, id, updates, now, "rating");
      f
    case None => fs
  }

  /** `rate(id, score)`: unknown ids throw. Otherwise the store takes the new
      average and count, `skill.yaml` takes them too when it can, and the
      pair is returned. */
  function Rate(sys: Sys, c: Settings, id: string, score: int, now: string): (r: Done<(int, nat)>)
    requires ValidSettings(c)
    ensures KnowledgeStore.GetById(sys.store, id).None? ==>
      r == Done(sys, Err("Knowledge entry not found: " + id))
    ensures KnowledgeStore.GetById(sys.store, id).Some? ==>
      var e := KnowledgeStore.GetById(sys.store, id).value;
      && r.result.Ok?
      && r.result.value.0 == NewAverage(e.avgRating, e.voteCount, score)
      && r.result.value.1 == e.voteCount + 1
      && KnowledgeStore.GetById(r.sys.store, id)
         == Some(e.(avgRating := r.result.value.0, voteCount := r.result.value.1, updatedAt := now))
      && r.sys.fs == RateFolder(sys.fs, c, id, r.result.value.0, r.result.value.1, now)
    ensures forall x :: x != id ==> KnowledgeStore.GetById(r.sys.store, x) == KnowledgeStore.GetById(sys.store, x)
  {
    var found := KnowledgeStore.GetById(sys.store, id);
    if found.None? then Done(sys, Err("Knowledge entry not found: " + id))
    else
      var e := found.value;
      var count := e.voteCount + 1;
      var avg := NewAverage(e.avgRating, e.voteCount, score);
      Done(Sys(KnowledgeStore.UpdateRating(sys.store, id, avg, count, now), RateFolder(sys.fs, c, id, avg, count, now)),
        Ok((avg, count)))
  }

  /** The example of a fresh entry rated five and then three stars: 5.0
      of one vote, then 4.0 of two. */
  lemma {:induction false} RateFiveThenThree(sys: Sys, c: Settings, id: string, t1: string, t2: string)
    requires ValidSettings(c)
    requires KnowledgeStore.GetById(sys.store, id).Some?
    requires KnowledgeStore.GetById(sys.store, id).value.avgRating == 0
    requires KnowledgeStore.GetById(sys.store, id).value.voteCount == 0
    ensures var r1 := Rate(sys, c, id, 5, t1);
      && r1.result.Ok? && r1.result.value.0 == 50 && r1.result.value.1 == 1
      && var r2 := Rate(r1.sys, c, id, 3, t2);
         r2.result.Ok? && r2.result.value.0 == 40 && r2.result.value.1 == 2
  {
    FiveThenThree();
  }

  lemma {:induction false} FiveThenThree()
    ensures NewAverage(0, 0, 5) == 50 && NewAverage(50, 1, 3) == 40
  {
  }

  // ---------------------------------------------------------------------------
  // Upserting a scanned entry
  // ---------------------------------------------------------------------------

  const TitleMissing := "NOT NULL constraint failed: knowledge_entries.title"
  const DescriptionMissing := "NOT NULL constraint failed: knowledge_entries.description"

  /** Whether `upsert` with this id overwrites a stored row (a truthy id
      naming one) rather than inserting. */
  predicate Overwrites(store: KnowledgeStore.Store, id: string) {
    id != "" && KnowledgeStore.GetById(store, id).Some?
  }

  /** `upsert` of a scanned entry under its own id. A title or description
      the document lacks is `undefined`: an overwrite leaves that column as
      it was, and an insert breaks the column's NOT NULL constraint. */
  function UpsertScanned(store: KnowledgeStore.Store, e: KnowledgeManager.Scanned, source: string,
                         origin: Option<string>, now: string): (r: Result<KnowledgeStore.Store, string>)
    ensures r.Ok? <==> (Overwrites(store, e.id)
      || (e.title.Some? && e.description.Some? && KnowledgeStore.GetById(store, e.id).None?))
    ensures r.Err? ==> r.error == if e.title.None? then TitleMissing
      else if e.description.None? then DescriptionMissing else KnowledgeStore.DuplicateId
    ensures r.Ok? ==>
      && KnowledgeStore.GetById(r.value, e.id).Some?
      && var n := KnowledgeStore.GetById(r.value, e.id).value;
      && n.tags == e.tags && n.category == e.category && n.source == source
      && n.folderPath == e.folderPath && n.updatedAt == now
      && (e.title.Some? ==> n.title == e.title.value)
      && (e.description.Some? ==> n.description == e.description.value)
      && (origin.Some? ==> n.originTaskId == origin)
    ensures r.Ok? && Overwrites(store, e.id) ==>
      var prev := KnowledgeStore.GetById(store, e.id).value;
      var n := KnowledgeStore.GetById(r.value, e.id).value;
      && (e.title.None? ==> n.title == prev.title)
      && (e.description.None? ==> n.description == prev.description)
      && (origin.None? ==> n.originTaskId == prev.originTaskId)
      && n.status == prev.status && n.avgRating == prev.avgRating && n.voteCount == prev.voteCount
      && n.createdAt == prev.createdAt
    ensures r.Ok? && !Overwrites(store, e.id) ==>
      var n := KnowledgeStore.GetById(r.value, e.id).value;
      && n.status == KnowledgeStore.Active && n.avgRating == 0 && n.voteCount == 0
      && n.originTaskId == origin && n.createdAt == now
    ensures r.Ok? ==> forall x :: x != e.id ==> KnowledgeStore.GetById(r.value, x) == KnowledgeStore.GetById(store, x)
  {
    var prev := KnowledgeStore.GetById(store, e.id);
    var over := Overwrites(store, e.id);
    if !over && e.title.None? then Err(TitleMissing)
    else if !over && e.description.None? then Err(DescriptionMissing)
    else
      var title := if e.title.Some? then e.title.value else prev.value.title;
      var description := if e.description.Some? then e.description.value else prev.value.description;
      var p := KnowledgeStore.Params(title, description, e.tags, e.category, Some(source), origin, e.folderPath);
      match KnowledgeStore.Upsert(store, Some(e.id), e.id, p, now)
      case Err(m) => Err(m)
      case Ok(res) => Ok(res.0)
  }

  // ---------------------------------------------------------------------------
  // learnFromWorkspace
  // ---------------------------------------------------------------------------

  /** `learnFromWorkspace(ws, originTaskId)`: extracts the workspace's
      `.knowledge` folder; when that yields an entry, upserts it with source
      `auto` and the task as its origin and returns the stored entry. */
  function LearnFromWorkspace(sys: Sys, c: Settings, ws: string, originTaskId: string, now: string): (r: Done<Option<KnowledgeStore.Entry>>)
    requires ValidSettings(c)
    ensures r.sys.fs == KnowledgeManager.ExtractFromWorkspace(sys.fs, c.cwd, c.base, ws, now).fs
    ensures KnowledgeManager.ExtractFromWorkspace(sys.fs, c.cwd, c.base, ws, now).entry.None? ==>
      r.result == Ok(None) && r.sys.store == sys.store
    ensures KnowledgeManager.ExtractFromWorkspace(sys.fs, c.cwd, c.base, ws, now).entry.Some? ==>
      r.result != Ok(None)
    ensures r.result.Err? ==> r.result.error == TitleMissing || r.result.error == DescriptionMissing
    ensures r.result.Ok? && r.result.value.Some? ==>
      var e := r.result.value.value;
      && KnowledgeManager.WorkspaceDoc(sys.fs, c.cwd, ws).Some?
      && var doc := KnowledgeManager.WorkspaceDoc(sys.fs, c.cwd, ws).value;
      && KnowledgeManager.IdOf(doc) == Some(e.id)
      && e.source == "auto" && e.originTaskId == Some(originTaskId)
      && e.folderPath == KnowledgeManager.EntryPath(c.base, e.id)
      && e.tags == KnowledgeManager.TagsOf(doc) && e.category == KnowledgeManager.StrField(doc, "category")
      && (KnowledgeManager.StrField(doc, "title").Some? ==> e.title == KnowledgeManager.StrField(doc, "title").value)
      && (KnowledgeManager.StrField(doc, "description").Some? ==>
            e.description == KnowledgeManager.StrField(doc, "description").value)
      && KnowledgeStore.GetById(r.sys.store, e.id) == Some(e)
  {
    var x := KnowledgeManager.ExtractFromWorkspace(sys.fs, c.cwd, c.base, ws, now);
    match x.entry
    case None => Done(Sys(sys.store, x.fs), Ok(None))
    case Some(scanned) =>
      match UpsertScanned(sys.store, scanned, "auto", Some(originTaskId), now)
      case Err(m) => Done(Sys(sys.store, x.fs), Err(m))
      case Ok(store) => Done(Sys(store, x.fs), Ok(KnowledgeStore.GetById(store, scanned.id)))
  }

  /** Learning an entry the store already holds keeps its status, its
      votes and its creation time; a new one starts active and unrated. */
  lemma {:induction false} LearnKeepsRating(sys: Sys, c: Settings, ws: string, originTaskId: string, now: string)
    requires ValidSettings(c)
    requires LearnFromWorkspace(sys, c, ws, originTaskId, now).result.Ok?
    requires LearnFromWorkspace(sys, c, ws, originTaskId, now).result.value.Some?
    ensures var e := LearnFromWorkspace(sys, c, ws, originTaskId, now).result.value.value;
      match KnowledgeStore.GetById(sys.store, e.id)
      case Some(prev) =>
        e.status == prev.status && e.avgRating == prev.avgRating && e.voteCount == prev.voteCount
        && e.createdAt == prev.createdAt
      case None =>
        e.status == KnowledgeStore.Active && e.avgRating == 0 && e.voteCount == 0 && e.createdAt == now
  {
    var x := KnowledgeManager.ExtractFromWorkspace(sys.fs, c.cwd, c.base, ws, now);
    var doc := KnowledgeManager.WorkspaceDoc(sys.fs, c.cwd, ws).value;
    assert KnowledgeManager.IdOf(doc) == Some(x.entry.value.id);
  }

  /** The learned entry's folder holds the workspace's `skill.yaml`. */
  lemma {:induction false} LearnCopiesSkill(sys: Sys, c: Settings, ws: string, originTaskId: string, now: string)
    requires ValidSettings(c) && c.base != "" && FileSystem.WellFormed(sys.fs)
    requires LearnFromWorkspace(sys, c, ws, originTaskId, now).result.Ok?
    requires LearnFromWorkspace(sys, c, ws, originTaskId, now).result.value.Some?
    ensures var r := LearnFromWorkspace(sys, c, ws, originTaskId, now);
      KnowledgeManager.ReadSkill(r.sys.fs, c.cwd, c.base, r.result.value.value.id)
        == KnowledgeManager.WorkspaceDoc(sys.fs, c.cwd, ws)
  {
    KnowledgeManager.ExtractSkill(sys.fs, c.cwd, c.base, ws, now);
  }

  // ---------------------------------------------------------------------------
  // syncFromFilesystem
  // ---------------------------------------------------------------------------

  datatype SyncCounts = SyncCounts(synced: nat, added: nat, removed: nat)

  function ScannedIds(disk: seq<KnowledgeManager.Scanned>): set<string> {
    set e | e in disk :: e.id
  }

  function EntryIds(db: seq<KnowledgeStore.Entry>): set<string> {
    set e | e in db :: e.id
  }

  /** No rating and no votes, or no entry at all. */
  predicate Unrated(o: Option<KnowledgeStore.Entry>) {
    o.None? || (o.value.avgRating == 0 && o.value.voteCount == 0)
  }

  /** The disk entries whose id the store's listing does not name, in scan
      order. */
  function NewOnDisk(disk: seq<KnowledgeManager.Scanned>, dbIds: set<string>): (r: seq<KnowledgeManager.Scanned>)
    ensures forall e :: e in r <==> e in disk && e.id !in dbIds
    decreases |disk|
  {
    if |disk| == 0 then []
    else
      assert forall e :: e in disk <==> e == disk[0] || e in disk[1..];
      (if disk[0].id in dbIds then [] else [disk[0]]) + NewOnDisk(disk[1..], dbIds)
  }

  /** The listed entries whose id no disk entry has, in listing order. */
  function Orphans(db: seq<KnowledgeStore.Entry>, diskIds: set<string>): (r: seq<KnowledgeStore.Entry>)
    ensures forall e :: e in r <==> e in db && e.id !in diskIds
    decreases |db|
  {
    if |db| == 0 then []
    else
      assert forall e :: e in db <==> e == db[0] || e in db[1..];
      (if db[0].id in diskIds then [] else [db[0]]) + Orphans(db[1..], diskIds)
  }

  /** The store after the adding loop, how many upserts it ran, and the
      message of the upsert that threw, if one did. */
  datatype Added = Added(store: KnowledgeStore.Store, added: nat, error: Option<string>)

  /** The first loop of `syncFromFilesystem`: every disk entry whose id
      the listing lacks is upserted, with the source and origin task its
      document gives; the first upsert that throws ends the loop. */
  function AddMissing(store: KnowledgeStore.Store, disk: seq<KnowledgeManager.Scanned>, dbIds: set<string>, now: string): (r: Added)
    requires forall e :: e in disk ==> e.id != ""
    ensures r.error.None? ==> r.added == |NewOnDisk(disk, dbIds)|
    ensures r.error.Some? ==> r.error.value == TitleMissing || r.error.value == DescriptionMissing
    ensures r.error.None? ==> forall e :: e in disk && e.id !in dbIds ==> KnowledgeStore.GetById(r.store, e.id).Some?
    ensures forall x :: x in dbIds || x !in ScannedIds(disk) ==>
      KnowledgeStore.GetById(r.store, x) == KnowledgeStore.GetById(store, x)
    ensures forall x :: x !in dbIds && Unrated(KnowledgeStore.GetById(store, x)) ==>
      Unrated(KnowledgeStore.GetById(r.store, x))
    decreases |disk|
  {
    if |disk| == 0 then Added(store, 0, None)
    else
      assert forall e :: e in disk <==> e == disk[0] || e in disk[1..];
      var d := disk[0];
      if d.id in dbIds then AddMissing(store, disk[1..], dbIds, now)
      else
        match UpsertScanned(store, d, d.source, d.originTaskId, now)
        case Err(m) => Added(store, 0, Some(m))
        case Ok(s1) =>
          var rest := AddMissing(s1, disk[1..], dbIds, now);
          Added(rest.store, rest.added + 1, rest.error)
  }

  /** The second loop: every listed entry whose id no disk entry has is
      deleted; the count is of deletions run. */
  function RemoveOrphans(store: KnowledgeStore.Store, db: seq<KnowledgeStore.Entry>, diskIds: set<string>): (r: (KnowledgeStore.Store, nat))
    ensures r.1 == |Orphans(db, diskIds)|
    ensures forall e :: e in db && e.id !in diskIds ==> KnowledgeStore.GetById(r.0, e.id).None?
    ensures forall x :: KnowledgeStore.GetById(store, x).None? ==> KnowledgeStore.GetById(r.0, x).None?
    ensures forall x :: x in diskIds || x !in EntryIds(db) ==>
      KnowledgeStore.GetById(r.0, x) == KnowledgeStore.GetById(store, x)
    decreases |db|
  {
    if |db| == 0 then (store, 0)
    else
      assert forall e :: e in db <==> e == db[0] || e in db[1..];
      var orphan := db[0].id !in diskIds;
      var s1 := if orphan then KnowledgeStore.Delete(store, db[0].id) else store;
      var rest := RemoveOrphans(s1, db[1..], diskIds);
      (rest.0, rest.1 + if orphan then 1 else 0)
  }

  /** The entries a scan of the base directory finds. */
  function DiskEntries(sys: Sys, c: Settings, now: string): (r: seq<KnowledgeManager.Scanned>)
    requires ValidSettings(c)
    ensures forall e :: e in r ==> e.id != ""
  {
    KnowledgeManager.ScanEntries(sys.fs, c.cwd, c.base, now)
  }

  /** The entries an unfiltered listing returns. */
  function DbEntries(sys: Sys): seq<KnowledgeStore.Entry> {
    KnowledgeStore.List(sys.store, KnowledgeStore.NoFilter())
  }

  /** `syncFromFilesystem()`: adds the entries found on disk that the store
      lacks, then deletes the stored entries not found on disk, and counts
      the disk entries, the upserts and the deletions. An upsert that
      throws ends the sync with the additions so far in place. */
  function Sync(sys: Sys, c: Settings, now: string): (r: Done<SyncCounts>)
    requires ValidSettings(c)
    ensures r.sys.fs == sys.fs
    ensures r.result.Ok? ==> r.result.value == SyncCounts(|DiskEntries(sys, c, now)|,
      |NewOnDisk(DiskEntries(sys, c, now), EntryIds(DbEntries(sys)))|,
      |Orphans(DbEntries(sys), ScannedIds(DiskEntries(sys, c, now)))|)
    ensures r.result.Err? ==> r.result.error == TitleMissing || r.result.error == DescriptionMissing
  {
    var disk := DiskEntries(sys, c, now);
    var db := DbEntries(sys);
    var a := AddMissing(sys.store, disk, EntryIds(db), now);
    if a.error.Some? then Done(Sys(a.store, sys.fs), Err(a.error.value))
    else
      var (store, removed) := RemoveOrphans(a.store, db, ScannedIds(disk));
      Done(Sys(store, sys.fs), Ok(SyncCounts(|disk|, a.added, removed)))
  }

  /** The unfiltered listing names exactly the stored ids. */
  lemma {:induction false} DbIdsStored(sys: Sys, x: string)
    ensures x in EntryIds(DbEntries(sys)) <==> KnowledgeStore.GetById(sys.store, x).Some?
  {
    var db := DbEntries(sys);
    assert KnowledgeStore.Conds(KnowledgeStore.NoFilter()) == [];
    if x in EntryIds(db) {
      var e :| e in db && e.id == x;
      var row :| row in sys.store.rows && e == KnowledgeStore.ToEntry(row);
    }
    if KnowledgeStore.GetById(sys.store, x).Some? {
      var k :| 0 <= k < |sys.store.rows| && sys.store.rows[k].id == x;
      assert KnowledgeStore.HoldsAll([], sys.store.rows[k]);
      assert KnowledgeStore.ToEntry(sys.store.rows[k]) in db;
    }
  }

  /** After a sync that completes, the store holds an entry for exactly
      the ids found on disk. Entries already stored under such an id are
      left as they were, rating and all, even when the document on disk
      says otherwise; entries new to the store start unrated. */
  lemma {:induction false} SyncMirrors(sys: Sys, c: Settings, now: string, x: string)
    requires ValidSettings(c)
    requires Sync(sys, c, now).result.Ok?
    ensures var r := Sync(sys, c, now);
      && (KnowledgeStore.GetById(r.sys.store, x).Some? <==> x in ScannedIds(DiskEntries(sys, c, now)))
      && (x in ScannedIds(DiskEntries(sys, c, now)) && KnowledgeStore.GetById(sys.store, x).Some? ==>
            KnowledgeStore.GetById(r.sys.store, x) == KnowledgeStore.GetById(sys.store, x))
      && (KnowledgeStore.GetById(sys.store, x).None? ==> Unrated(KnowledgeStore.GetById(r.sys.store, x)))
  {
    var disk := DiskEntries(sys, c, now);
    var db := DbEntries(sys);
    var a := AddMissing(sys.store, disk, EntryIds(db), now);
    DbIdsStored(sys, x);
    if x in EntryIds(db) {
      var e :| e in db && e.id == x;
    }
    if x in ScannedIds(disk) {
      var d :| d in disk && d.id == x;
    }
  }

  // ---------------------------------------------------------------------------
  // update
  // ---------------------------------------------------------------------------

  /** The validated update request; every field is optional. */
  datatype UpdateRequest = UpdateRequest(
    title: Option<string>,
    description: Option<string>,
    tags: Option<seq<string>>,
    category: Option<string>,
    status: Option<KnowledgeStore.KStatus>)

  /** A string JavaScript reads as true: given and not empty. */
  predicate Truthy(s: Option<string>) {
    s.Some? && s.value != ""
  }

  /** Whether `update` rewrites the row's fields: a truthy title or
      description, or tags or a category given. */
  predicate RewritesFields(u: UpdateRequest) {
    Truthy(u.title) || Truthy(u.description) || u.tags.Some? || u.category.Some?
  }

  /** The keys `update` sends to `skill.yaml`, in the order it adds them. */
  function YamlFields(u: UpdateRequest): (fields: seq<(string, Option<Json>)>)
    ensures DistinctFieldKeys(fields)
  {
    [("title", if Truthy(u.title) then Some(JStr(u.title.value)) else None),
     ("description", if Truthy(u.description) then Some(JStr(u.description.value)) else None),
     ("tags", if u.tags.Some? then Some(StrArray(u.tags.value)) else None),
     ("category", if u.category.Some? then Some(JStr(u.category.value)) else None),
     ("status", if u.status.Some? then Some(JStr(KnowledgeStore.KStatusName(u.status.value))) else None)]
  }

  function YamlUpdates(u: UpdateRequest): (ms: seq<Member>)
    ensures ms == [] <==> !RewritesFields(u) && u.status.None?
  {
    var fields := YamlFields(u);
    assert fields[0].1.None? <==> !Truthy(u.title);
    assert fields[1].1.None? <==> !Truthy(u.description);
    assert fields[2].1.None? <==> u.tags.None?;
    assert fields[3].1.None? <==> u.category.None?;
    assert fields[4].1.None? <==> u.status.None?;
    Record(fields)
  }

  /** The entry an update of `ex` should read back as, field by field: the
      status when one is given; when the fields are rewritten, the title
      and description given (empty ones included) or else the old ones;
      the tags and category given or else the old ones; and the update time
      `now` when anything was written. */
  function Updated(ex: KnowledgeStore.Entry, u: UpdateRequest, now: string): KnowledgeStore.Entry {
    var fields := RewritesFields(u);
    ex.(status := u.status.GetOr(ex.status),
        title := if fields then u.title.GetOr(ex.title) else ex.title,
        description := if fields then u.description.GetOr(ex.description) else ex.description,
        tags := u.tags.GetOr(ex.tags),
        category := if u.category.Some? then u.category else ex.category,
        updatedAt := if fields || u.status.Some? then now else ex.updatedAt)
  }

  /** The rewrite `upsert` receives: the given fields over the stored
      ones, with the stored source, origin task and folder. */
  function UpdateParams(ex: KnowledgeStore.Entry, u: UpdateRequest): KnowledgeStore.Params {
    KnowledgeStore.Params(u.title.GetOr(ex.title), u.description.GetOr(ex.description), u.tags.GetOr(ex.tags),
      if u.category.Some? then u.category else ex.category, Some(ex.source), ex.originTaskId, ex.folderPath)
  }

  /** The store after the status update, when one is given. */
  function StatusSet(store: KnowledgeStore.Store, id: string, u: UpdateRequest, now: string): KnowledgeStore.Store {
    if u.status.Some? then KnowledgeStore.UpdateStatus(store, id, u.status.value, now) else store
  }

  /** `update(id, updates)`: an unknown id gives null. Otherwise the status
      is set when given, the other fields are rewritten through `upsert`
      when any is given, `skill.yaml` takes the given fields when it can,
      and the stored entry is returned. */
  function Update(sys: Sys, c: Settings, id: string, u: UpdateRequest, now: string): (r: Done<Option<KnowledgeStore.Entry>>)
    requires ValidSettings(c)
    ensures KnowledgeStore.GetById(sys.store, id).None? ==> r == Done(sys, Ok(None))
    ensures KnowledgeStore.GetById(sys.store, id).Some? && (id != "" || !RewritesFields(u)) ==>
      && r.result.Ok? && r.result.value.Some?
      && r.result.value.value == Updated(KnowledgeStore.GetById(sys.store, id).value, u, now)
      && KnowledgeStore.GetById(r.sys.store, id) == r.result.value
    ensures KnowledgeStore.GetById(sys.store, id).Some? && id == "" && RewritesFields(u) ==>
      r.result == Err(KnowledgeStore.DuplicateId) && r.sys.store == StatusSet(sys.store, id, u, now)
    ensures forall x :: x != id ==> KnowledgeStore.GetById(r.sys.store, x) == KnowledgeStore.GetById(sys.store, x)
    ensures r.sys.fs == sys.fs
      || KnowledgeManager.UpdateSkillYaml(sys.fs, c.cwd, c.base, id, YamlUpdates(u), now) == Some(r.sys.fs)
    ensures (KnowledgeStore.GetById(sys.store, id).Some? && (id != "" || !RewritesFields(u))
      && YamlUpdates(u) != [] && KnowledgeManager.UpdateSkillYaml(sys.fs, c.cwd, c.base, id, YamlUpdates(u), now).Some?) ==>
      KnowledgeManager.UpdateSkillYaml(sys.fs, c.cwd, c.base, id, YamlUpdates(u), now) == Some(r.sys.fs)
  {
    match KnowledgeStore.GetById(sys.store, id)
    case None => Done(sys, Ok(None))
    case Some(_) =>
      match UpdateStore(sys.store, id, u, now)
      case Err(m) => Done(Sys(StatusSet(sys.store, id, u, now), sys.fs), Err(m))
      case Ok(store) => Done(Sys(store, UpdateFolder(sys.fs, c, id, u, now)), Ok(KnowledgeStore.GetById(store, id)))
  }

  /** The store side of `update` for a stored entry: the status set first,
      then the other fields rewritten through `upsert`, which refuses only
      the empty id. */
  function UpdateStore(store: KnowledgeStore.Store, id: string, u: UpdateRequest, now: string)
    : (r: Result<KnowledgeStore.Store, string>)
    requires KnowledgeStore.GetById(store, id).Some?
    ensures r.Ok? <==> id != "" || !RewritesFields(u)
    ensures r.Ok? ==> KnowledgeStore.GetById(r.value, id) == Some(Updated(KnowledgeStore.GetById(store, id).value, u, now))
    ensures r.Err? ==> r.error == KnowledgeStore.DuplicateId
    ensures r.Ok? ==> forall x :: x != id ==> KnowledgeStore.GetById(r.value, x) == KnowledgeStore.GetById(store, x)
  {
    var ex := KnowledgeStore.GetById(store, id).value;
    var s1 := StatusSet(store, id, u, now);
    if RewritesFields(u) then
      match KnowledgeStore.Upsert(s1, Some(id), id, UpdateParams(ex, u), now)
      case Err(m) => Err(m)
      case Ok(res) => Ok(res.0)
    else Ok(s1)
  }

  /** The folder side of `update`: `skill.yaml` takes the given fields when
      there are any and the file loads; otherwise the folder is unchanged. */
  function UpdateFolder(fs: FileSystem.Node, c: Settings, id: string, u: UpdateRequest, now: string): (r: FileSystem.Node)
    requires ValidSettings(c)
    ensures r == fs || KnowledgeManager.UpdateSkillYaml(fs, c.cwd, c.base, id, YamlUpdates(u), now) == Some(r)
    ensures YamlUpdates(u) != [] && KnowledgeManager.UpdateSkillYaml(fs, c.cwd, c.base, id, YamlUpdates(u), now).Some? ==>
      KnowledgeManager.UpdateSkillYaml(fs, c.cwd, c.base, id, YamlUpdates(u), now) == Some(r)
  {
    var updates := YamlUpdates(u);
    if updates == [] then fs
    else KnowledgeManager.UpdateSkillYaml(fs, c.cwd, c.base, id, updates, now).GetOr(fs)
  }

  /** Each key `update` sends to `skill.yaml` reads as the request gives
      it, and is absent when the request does not set it. */
  lemma {:induction false} YamlUpdatesLookup(u: UpdateRequest)
    ensures Lookup(YamlUpdates(u), "title") == if Truthy(u.title) then Some(JStr(u.title.value)) else None
    ensures Lookup(YamlUpdates(u), "description")
         == if Truthy(u.description) then Some(JStr(u.description.value)) else None
    ensures Lookup(YamlUpdates(u), "tags") == if u.tags.Some? then Some(StrArray(u.tags.value)) else None
    ensures Lookup(YamlUpdates(u), "category") == if u.category.Some? then Some(JStr(u.category.value)) else None
    ensures Lookup(YamlUpdates(u), "status")
         == if u.status.Some? then Some(JStr(KnowledgeStore.KStatusName(u.status.value))) else None
  {
    var fields := YamlFields(u);
    RecordLookup(fields, 0);
    RecordLookup(fields, 1);
    RecordLookup(fields, 2);
    RecordLookup(fields, 3);
    RecordLookup(fields, 4);
  }

  /** No other key is sent. */
  lemma {:induction false} YamlUpdatesOther(u: UpdateRequest, k: string)
    requires k != "title" && k != "description" && k != "tags" && k != "category" && k != "status"
    ensures Lookup(YamlUpdates(u), k) == None
  {
    var fields := YamlFields(u);
    assert forall i :: 0 <= i < |fields| ==> fields[i].0 != k by {
      assert fields[0].0 == "title" && fields[1].0 == "description" && fields[2].0 == "tags";
      assert fields[3].0 == "category" && fields[4].0 == "status";
    }
    RecordAbsent(fields, k);
  }

  /** When the entry's `skill.yaml` loads, an update that sets anything
      writes the set fields and the update time into it and leaves the
      other keys as they were. */
  lemma {:induction false} UpdateWritesYaml(sys: Sys, c: Settings, id: string, u: UpdateRequest, now: string, k: string)
    requires ValidSettings(c) && c.base != ""
    requires KnowledgeStore.GetById(sys.store, id).Some? && (id != "" || !RewritesFields(u))
    requires RewritesFields(u) || u.status.Some?
    requires KnowledgeManager.ReadSkill(sys.fs, c.cwd, c.base, id).Some?
    requires k != "title" && k != "description" && k != "tags" && k != "category" && k != "status" && k != "updated_at"
    ensures var prev := KnowledgeManager.ReadSkill(sys.fs, c.cwd, c.base, id).value;
      var d := KnowledgeManager.ReadSkill(Update(sys, c, id, u, now).sys.fs, c.cwd, c.base, id);
      && d.Some?
      && Field(d.value, "updated_at") == Some(JStr(now))
      && Field(d.value, "title") == (if Truthy(u.title) then Some(JStr(u.title.value)) else KnowledgeManager.OwnField(prev, "title"))
      && Field(d.value, "description")
         == (if Truthy(u.description) then Some(JStr(u.description.value)) else KnowledgeManager.OwnField(prev, "description"))
      && Field(d.value, "tags") == (if u.tags.Some? then Some(StrArray(u.tags.value)) else KnowledgeManager.OwnField(prev, "tags"))
      && Field(d.value, "category")
         == (if u.category.Some? then Some(JStr(u.category.value)) else KnowledgeManager.OwnField(prev, "category"))
      && Field(d.value, "status")
         == (if u.status.Some? then Some(JStr(KnowledgeStore.KStatusName(u.status.value))) else KnowledgeManager.OwnField(prev, "status"))
      && Field(d.value, k) == KnowledgeManager.OwnField(prev, k)
  {
    var updates := YamlUpdates(u);
    KnowledgeManager.UpdateSkillYamlSucceeds(sys.fs, c.cwd, c.base, id, updates, now);
    assert Update(sys, c, id, u, now).sys.fs
        == KnowledgeManager.UpdateSkillYaml(sys.fs, c.cwd, c.base, id, updates, now).value;
    YamlUpdatesLookup(u);
    YamlUpdatesOther(u, k);
    KnowledgeManager.UpdateSkillYamlReads(sys.fs, c.cwd, c.base, id, updates, now, "updated_at");
    KnowledgeManager.UpdateSkillYamlReads(sys.fs, c.cwd, c.base, id, updates, now, "title");
    KnowledgeManager.UpdateSkillYamlReads(sys.fs, c.cwd, c.base, id, updates, now, "description");
    KnowledgeManager.UpdateSkillYamlReads(sys.fs, c.cwd, c.base, id, updates, now, "tags");
    KnowledgeManager.UpdateSkillYamlReads(sys.fs, c.cwd, c.base, id, updates, now, "category");
    KnowledgeManager.UpdateSkillYamlReads(sys.fs, c.cwd, c.base, id, updates, now, "status");
    KnowledgeManager.UpdateSkillYamlReads(sys.fs, c.cwd, c.base, id, updates, now, k);
  }

  // ---------------------------------------------------------------------------
  // deleteEntry
  // ---------------------------------------------------------------------------

  /** `deleteEntry(id)`: deletes the row, then the folder. */
  function DeleteEntry(sys: Sys, c: Settings, id: string): (r: Sys)
    requires ValidSettings(c)
    ensures KnowledgeStore.GetById(r.store, id).None?
    ensures forall x :: x != id ==> KnowledgeStore.GetById(r.store, x) == KnowledgeStore.GetById(sys.store, x)
  {
    Sys(KnowledgeStore.Delete(sys.store, id), KnowledgeManager.DeleteEntry(sys.fs, c.cwd, c.base, id))
  }

  /** A created entry, once deleted, is gone from the store, from a scan
      and from its folder; other entries are untouched. */
  lemma {:induction false} DeleteAfterCreate(sys: Sys, c: Settings, req: CreateRequest, now: string, later: string)
    requires ValidSettings(c) && c.base != "" && GenerateSlug(req.title) != ""
    requires Create(sys, c, req, now).result.Ok?
    ensures var slug := GenerateSlug(req.title);
      var r := DeleteEntry(Create(sys, c, req, now).sys, c, slug);
      && KnowledgeStore.GetById(r.store, slug).None?
      && KnowledgeManager.ReadPrompt(r.fs, c.cwd, c.base, slug).None?
      && KnowledgeManager.ReadSkill(r.fs, c.cwd, c.base, slug).None?
  {
    var slug := GenerateSlug(req.title);
    var s1 := Create(sys, c, req, now).sys;
    SlugPlain(req.title);
    KnowledgeManager.EntryLocPlain(c.cwd, c.base, slug);
    KnowledgeManager.DeleteEntryEffect(s1.fs, c.cwd, c.base, slug, []);
    var fs := KnowledgeManager.DeleteEntry(s1.fs, c.cwd, c.base, slug);
    var el := KnowledgeManager.EntryLoc(c.cwd, c.base, slug);
    KnowledgeManager.FixedNamesPlain();
    KnowledgeManager.EntryChild(c.cwd, c.base, slug, "skill.yaml");
    FileSystem.GetAppend(fs, el, ["skill.yaml"]);
  }
}

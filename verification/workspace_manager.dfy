/** Task workspaces (src/workspace/workspace-manager.ts): where a task's
    directory lives, the MCP configuration written into it, the errors of the
    file-input steps, and the artifact listing. The directory tree is a value;
    archive extraction and cloning are outside the model, only their failure
    messages are kept. */
module WorkspaceManager {
  import opened Wrappers
  import opened Json
  import opened Types
  import Errors
  import Paths
  import Strs
  import FileSystem

  // ---------------------------------------------------------------------------
  // Workspace path and file-input errors
  // ---------------------------------------------------------------------------

  /** `create(taskId)`: the directory `join(baseDir, 'task-' + taskId)`. */
  function WorkspacePath(baseDir: string, taskId: string): (p: string)
    ensures |p| > 0
  {
    Paths.Join([baseDir, "task-" + taskId])
  }

  /** For a normalised base directory and an id without separators, the
      workspace is the entry `task-<id>` directly below the base directory. */
  lemma {:induction false} WorkspacePathShape(baseDir: string, taskId: string)
    requires baseDir == Paths.Canon(baseDir) && baseDir != "/" && baseDir != "."
    requires Paths.NoSlash(taskId)
    ensures WorkspacePath(baseDir, taskId) == baseDir + "/task-" + taskId
    ensures Paths.Basename(WorkspacePath(baseDir, taskId)) == "task-" + taskId
  {
    var name := "task-" + taskId;
    assert name[0] == 't';
    assert Paths.NoSlash(name) by {
      assert forall i :: 5 <= i < |name| ==> name[i] == taskId[i - 5];
    }
    Paths.JoinPlainName(baseDir, name);
    assert baseDir + "/" + name == baseDir + "/task-" + taskId;
    Paths.SplitSlashConcat(baseDir, name);
    Paths.SplitSlashPlain(name);
  }

  /** The error `extractZip` raises when the archive cannot be extracted. */
  function ExtractZipError(cause: string): (e: Errors.SwarmError)
    ensures e.cls == Errors.Workspace && e.code == "WORKSPACE_ERROR" && e.details == []
    ensures e.message == "Failed to extract zip: " + cause
  {
    Errors.WorkspaceError("Failed to extract zip: " + cause, None)
  }

  /** The error `cloneGit` raises when cloning or the checkout fails; the
      details name the URL and, when one was given, the ref. */
  function CloneGitError(gitUrl: string, gitRef: Option<string>, cause: string): (e: Errors.SwarmError)
    ensures e.cls == Errors.Workspace && e.code == "WORKSPACE_ERROR"
    ensures e.message == "Failed to clone git repo: " + cause
    ensures Lookup(e.details, "gitUrl") == Some(JStr(gitUrl))
    ensures Lookup(e.details, "gitRef") == (if gitRef.Some? then Some(JStr(gitRef.value)) else None)
  {
    var u := Member("gitUrl", JStr(gitUrl));
    if gitRef.Some? then
      var r := Member("gitRef", JStr(gitRef.value));
      LookupSmall(u, r, r, "gitUrl");
      LookupSmall(u, r, r, "gitRef");
      Errors.WorkspaceError("Failed to clone git repo: " + cause, Some([u, r]))
    else
      LookupSmall(u, u, u, "gitRef");
      Errors.WorkspaceError("Failed to clone git repo: " + cause, Some([u]))
  }

  // ---------------------------------------------------------------------------
  // MCP configuration
  // ---------------------------------------------------------------------------

  /** The value stored under a server's name: `{command, args, env}`, where
      an absent `args` or `env` is left out of the written JSON. */
  function ServerEntry(s: McpServerConfig): (j: Json)
    ensures Field(j, "command") == Some(JStr(s.command))
    ensures Field(j, "args") == (if s.args.Some? then Some(StrArray(s.args.value)) else None)
    ensures Field(j, "env") == (if s.env.Some? then Some(EnvJson(s.env.value)) else None)
  {
    var c := Member("command", JStr(s.command));
    var a := Member("args", if s.args.Some? then StrArray(s.args.value) else JNull);
    var e := Member("env", if s.env.Some? then EnvJson(s.env.value) else JNull);
    LookupSmall(c, a, e, "command");
    LookupSmall(c, a, e, "args");
    LookupSmall(c, a, e, "env");
    LookupSmall(c, e, e, "command");
    LookupSmall(c, e, e, "args");
    LookupSmall(c, e, e, "env");
    if s.args.Some? && s.env.Some? then JObj([c, a, e])
    else if s.args.Some? then JObj([c, a])
    else if s.env.Some? then JObj([c, e])
    else JObj([c])
  }

  /** The last server in the list with the given name. */
  function LastNamed(servers: seq<McpServerConfig>, name: string): (r: Option<McpServerConfig>)
    ensures r.Some? ==> r.value in servers && r.value.name == name
    ensures r.None? <==> forall i :: 0 <= i < |servers| ==> servers[i].name != name
  {
    if |servers| == 0 then None
    else if servers[|servers| - 1].name == name then Some(servers[|servers| - 1])
    else
      var r := LastNamed(servers[..|servers| - 1], name);
      assert forall i :: 0 <= i < |servers| - 1 ==> servers[i] == servers[..|servers| - 1][i];
      r
  }

  /** The `mcpServers` record the loop of `writeMcpConfig` builds: one key per
      distinct name, holding the entry of the last server with that name. */
  function ServerMap(servers: seq<McpServerConfig>): (ms: seq<Member>)
    ensures DistinctKeys(ms)
    ensures forall name :: Lookup(ms, name) == (match LastNamed(servers, name)
      case None => None
      case Some(s) => Some(ServerEntry(s)))
    decreases |servers|
  {
    if |servers| == 0 then []
    else
      var last := servers[|servers| - 1];
      var init := servers[..|servers| - 1];
      var ms := ServerMap(init);
      Assign(ms, last.name, ServerEntry(last))
  }

  /** The document `writeMcpConfig` writes to `.claude.json`. */
  function McpConfig(servers: seq<McpServerConfig>): (j: Json)
    ensures Field(j, "mcpServers") == Some(JObj(ServerMap(servers)))
  {
    var m := Member("mcpServers", JObj(ServerMap(servers)));
    LookupSmall(m, m, m, "mcpServers");
    JObj([m])
  }

  predicate HasKey(ms: seq<Member>, key: string) {
    exists i :: 0 <= i < |ms| && ms[i].key == key
  }

  predicate HasServer(servers: seq<McpServerConfig>, name: string) {
    exists i :: 0 <= i < |servers| && servers[i].name == name
  }

  /** The record has a key exactly for each server name, once
      (`ServerMap` has distinct keys). */
  lemma {:induction false} ServerMapKeys(servers: seq<McpServerConfig>, name: string)
    ensures HasKey(ServerMap(servers), name) <==> HasServer(servers, name)
  {
    var ms := ServerMap(servers);
    match LastNamed(servers, name)
    case None =>
      assert Lookup(ms, name).None?;
    case Some(srv) =>
      var i :| 0 <= i < |servers| && servers[i] == srv;
      assert servers[i].name == name;
      var v := Lookup(ms, name).value;
      var j :| 0 <= j < |ms| && ms[j] == Member(name, v);
      assert ms[j].key == name;
  }

  // ---------------------------------------------------------------------------
  // Artifact listing
  // ---------------------------------------------------------------------------

  /** A directory entry as `readdir` reports it. The walk reads the same
      tree as the rest of the file system: anything that is not a
      directory counts as a file. */
  type Entry = FileSystem.Item

  /** The names `collectArtifacts` never enters or lists. */
  predicate Ignored(name: string) {
    name == ".claude.json" || name == "node_modules" || name == ".git"
  }

  /** The walk of `collectArtifacts`, in directory-listing order, depth first;
      each artifact is given by its relative path's segments. */
  function Walk(es: seq<Entry>): (r: seq<seq<string>>)
    ensures forall i :: 0 <= i < |r| ==> |r[i]| > 0
    decreases es, 1
  {
    if |es| == 0 then []
    else WalkEntry(es[0]) + Walk(es[1..])
  }

  function WalkEntry(e: Entry): (r: seq<seq<string>>)
    ensures forall i :: 0 <= i < |r| ==> |r[i]| > 0
    decreases e, 0
  {
    if Ignored(e.name) then []
    else
      match e.node
      case File(_) => [[e.name]]
      case Dir(ch) => Under(e.name, Walk(ch))
  }

  /** Prefixes every path with a directory name. */
  function Under(n: string, ps: seq<seq<string>>): (r: seq<seq<string>>)
    ensures |r| == |ps|
    ensures forall i :: 0 <= i < |r| ==> r[i] == [n] + ps[i]
  {
    seq(|ps|, i requires 0 <= i < |ps| => [n] + ps[i])
  }

  /** `collectArtifacts(ws)`: the relative paths, segments joined with `/`
      (which is what `path.join` gives for directory-entry names). */
  function CollectArtifacts(root: seq<Entry>): (r: seq<string>)
    ensures |r| == |Walk(root)|
    ensures forall i :: 0 <= i < |r| ==> r[i] == Strs.Join(Walk(root)[i], "/")
  {
    var w := Walk(root);
    seq(|w|, i requires 0 <= i < |w| => Strs.Join(w[i], "/"))
  }

  /** The tree holds a non-directory at the path `p`. */
  ghost predicate HasFile(es: seq<Entry>, p: seq<string>)
    decreases |p|
  {
    |p| > 0 && exists i :: (0 <= i < |es| && es[i].name == p[0] &&
      (if |p| == 1 then es[i].node.File? else es[i].node.Dir? && HasFile(es[i].node.entries, p[1..])))
  }

  /** The tree holds a directory at the path `p`. */
  ghost predicate HasDir(es: seq<Entry>, p: seq<string>)
    decreases |p|
  {
    |p| > 0 && exists i :: (0 <= i < |es| && es[i].name == p[0] && es[i].node.Dir? &&
      (|p| == 1 || HasDir(es[i].node.entries, p[1..])))
  }

  /** No segment of the path is an ignored name. */
  ghost predicate Visible(p: seq<string>) {
    forall k :: 0 <= k < |p| ==> !Ignored(p[k])
  }

  /** On a tree whose directories have distinct names, the walk's files
      are the file system's: a path holds a file exactly when `Get` finds a
      file there. */
  lemma {:induction false} HasFileGet(es: seq<Entry>, p: seq<string>)
    requires FileSystem.WellFormed(FileSystem.Dir(es))
    ensures HasFile(es, p) <==>
      |p| > 0 && FileSystem.Get(FileSystem.Dir(es), p).Some? && FileSystem.Get(FileSystem.Dir(es), p).value.File?
    decreases |p|
  {
    if |p| > 0 {
      match FileSystem.Find(es, p[0])
      case None =>
      case Some(c) =>
        var i :| 0 <= i < |es| && es[i] == FileSystem.Item(p[0], c);
        forall j | 0 <= j < |es| && es[j].name == p[0] ensures j == i {
        }
        FileSystem.AllWellFormedAt(es, i);
        if |p| > 1 && c.Dir? {
          HasFileGet(c.entries, p[1..]);
        }
    }
  }

  /** Everything listed is a visible file of the tree. */
  lemma {:induction false} WalkSound(es: seq<Entry>, p: seq<string>)
    requires p in Walk(es)
    ensures HasFile(es, p) && Visible(p)
    decreases es, 1
  {
    if |es| > 0 {
      if p in WalkEntry(es[0]) {
        WalkEntrySound(es[0], p);
        var e := es[0];
        if |p| == 1 {
          assert es[0].name == p[0] && es[0].node.File?;
        } else {
          assert es[0].name == p[0] && es[0].node.Dir? && HasFile(es[0].node.entries, p[1..]);
        }
      } else {
        assert p in Walk(es[1..]);
        WalkSound(es[1..], p);
        HasFileTail(es, p);
      }
    }
  }

  lemma {:induction false} WalkEntrySound(e: Entry, p: seq<string>)
    requires p in WalkEntry(e)
    ensures |p| > 0 && p[0] == e.name && !Ignored(e.name) && Visible(p)
    ensures |p| == 1 ==> e.node.File?
    ensures |p| > 1 ==> e.node.Dir? && HasFile(e.node.entries, p[1..])
    decreases e, 0
  {
    match e.node
    case File(_) =>
    case Dir(ch) =>
      var n := e.name;
      var k :| 0 <= k < |Walk(ch)| && p == [n] + Walk(ch)[k];
      assert p[1..] == Walk(ch)[k];
      WalkSound(ch, p[1..]);
      assert forall j :: 1 <= j < |p| ==> p[j] == p[1..][j - 1];
  }

  lemma {:induction false} HasFileTail(es: seq<Entry>, p: seq<string>)
    requires |es| > 0 && HasFile(es[1..], p)
    ensures HasFile(es, p)
  {
    var i :| 0 <= i < |es[1..]| && es[1..][i].name == p[0] &&
      (if |p| == 1 then es[1..][i].node.File? else es[1..][i].node.Dir? && HasFile(es[1..][i].node.entries, p[1..]));
    assert es[i + 1] == es[1..][i];
  }

  /** Every visible file of the tree is listed. */
  lemma {:induction false} WalkComplete(es: seq<Entry>, p: seq<string>)
    requires HasFile(es, p) && Visible(p)
    ensures p in Walk(es)
    decreases es, 1
  {
    var i :| 0 <= i < |es| && es[i].name == p[0] &&
      (if |p| == 1 then es[i].node.File? else es[i].node.Dir? && HasFile(es[i].node.entries, p[1..]));
    WalkAt(es, i);
    WalkEntryComplete(es[i], p);
  }

  lemma {:induction false} WalkEntryComplete(e: Entry, p: seq<string>)
    requires |p| > 0 && p[0] == e.name && Visible(p)
    requires if |p| == 1 then e.node.File? else e.node.Dir? && HasFile(e.node.entries, p[1..])
    ensures p in WalkEntry(e)
    decreases e, 0
  {
    assert !Ignored(p[0]);
    if |p| == 1 {
      assert p == [e.name];
    } else {
      assert Visible(p[1..]) by {
        assert forall k :: 0 <= k < |p[1..]| ==> p[1..][k] == p[k + 1];
      }
      WalkComplete(e.node.entries, p[1..]);
      var k :| 0 <= k < |Walk(e.node.entries)| && Walk(e.node.entries)[k] == p[1..];
      assert Under(e.name, Walk(e.node.entries))[k] == [e.name] + p[1..];
      assert [e.name] + p[1..] == p;
    }
  }

  /** What the walk of entry `i` lists is part of the walk of the list. */
  lemma {:induction false} WalkAt(es: seq<Entry>, i: int)
    requires 0 <= i < |es|
    ensures forall q :: q in WalkEntry(es[i]) ==> q in Walk(es)
    decreases |es|
  {
    if i > 0 {
      WalkAt(es[1..], i - 1);
      assert es[1..][i - 1] == es[i];
    }
  }

  /** With distinct names no path is both a file and a directory, so no
      directory is ever listed. */
  lemma {:induction false} FileIsNotDir(es: seq<Entry>, p: seq<string>)
    requires FileSystem.WellFormed(FileSystem.Dir(es))
    requires HasFile(es, p)
    ensures !HasDir(es, p)
    decreases |p|
  {
    var i :| 0 <= i < |es| && es[i].name == p[0] &&
      (if |p| == 1 then es[i].node.File? else es[i].node.Dir? && HasFile(es[i].node.entries, p[1..]));
    if HasDir(es, p) {
      var j :| 0 <= j < |es| && es[j].name == p[0] && es[j].node.Dir? && (|p| == 1 || HasDir(es[j].node.entries, p[1..]));
      assert i == j;
      if |p| > 1 {
        FileSystem.AllWellFormedAt(es, i);
        FileIsNotDir(es[i].node.entries, p[1..]);
      }
    }
  }

  /** The listing is exactly the visible files, and holds no directory. */
  lemma {:induction false} ArtifactsAreVisibleFiles(root: seq<Entry>, p: seq<string>)
    requires FileSystem.WellFormed(FileSystem.Dir(root))
    ensures p in Walk(root) <==> HasFile(root, p) && Visible(p)
    ensures p in Walk(root) ==> !HasDir(root, p)
  {
    if p in Walk(root) {
      WalkSound(root, p);
      FileIsNotDir(root, p);
    }
    if HasFile(root, p) && Visible(p) {
      WalkComplete(root, p);
    }
  }
}

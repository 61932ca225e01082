/** What the task and knowledge download routes share
    (src/api/routes/tasks.ts, src/api/routes/knowledge.ts): the artifact
    path taken from the request path, the traversal guard on the resolved
    file path, and the attachment header. */
module Artifacts {
  import opened Wrappers
  import Strs
  import Paths

  const Marker := "/artifacts/"

  /** `path.split('/artifacts/').slice(1).join('/artifacts/')`: everything
      after the first `/artifacts/` of the request path, empty when there
      is none. */
  function ArtifactPath(reqPath: string): (p: string)
    ensures Strs.FirstIndex(reqPath, Marker).None? ==> p == ""
    ensures Strs.FirstIndex(reqPath, Marker).Some? ==> p == reqPath[Strs.FirstIndex(reqPath, Marker).value + |Marker|..]
  {
    Strs.SplitTailJoin(reqPath, Marker);
    Strs.Join(Strs.Split(reqPath, Marker)[1..], Marker)
  }

  /** Whatever follows the route's own `/artifacts/` comes back whole, even
      when it contains `/artifacts/` again, provided the part before it
      (`/api/tasks/<id>` or `/api/knowledge/<id>`) does not itself run into a `/artifacts/`. */
  lemma {:induction false} ArtifactPathOfRequest(prefix: string, p: string)
    requires forall j :: 0 <= j < |prefix| ==> !Strs.OccursAt(prefix + Marker, Marker, j)
    ensures ArtifactPath(prefix + Marker + p) == p
  {
    var s := prefix + Marker + p;
    assert s[|prefix|..|prefix| + |Marker|] == Marker;
    assert Strs.OccursAt(s, Marker, |prefix|);
    var f := Strs.FirstIndex(s, Marker);
    if f.value < |prefix| {
      assert s[f.value..f.value + |Marker|] == (prefix + Marker)[f.value..f.value + |Marker|];
      assert Strs.OccursAt(prefix + Marker, Marker, f.value);
    }
    assert f == Some(|prefix|);
    assert s[|prefix| + |Marker|..] == p;
  }

  /** A request whose artifact part starts with a second `/` carries an
      absolute artifact path. */
  lemma {:induction false} AbsoluteArtifactPath()
    ensures ArtifactPath("/api/tasks/1" + Marker + "/w/task-10/secret") == "/w/task-10/secret"
  {
    TaskPrefixClear("/api/tasks/1");
    ArtifactPathOfRequest("/api/tasks/1", "/w/task-10/secret");
  }

  /** `/api/tasks/1` runs into no `/artifacts/`. */
  lemma {:induction false} TaskPrefixClear(prefix: string)
    requires prefix == "/api/tasks/1"
    ensures forall j :: 0 <= j < |prefix| ==> !Strs.OccursAt(prefix + Marker, Marker, j)
  {
    var s := prefix + Marker;
    assert forall i :: 2 <= i < 14 ==> s[i] != 'r';
    forall j | 0 <= j < |prefix| ensures !Strs.OccursAt(s, Marker, j) {
      assert s[j + 2] != Marker[2];
    }
  }

  // ---------------------------------------------------------------------------
  // The traversal guard
  // ---------------------------------------------------------------------------

  /** The guard as written: the resolved file path starts with the resolved
      directory as text. */
  predicate GuardAsWritten(full: string, root: string): (b: bool)
    ensures b <==> |root| <= |full| && forall i :: 0 <= i < |root| ==> full[i] == root[i]
  {
    Paths.StartsWith(full, root)
  }

  /** The guard as intended: the resolved file path is the guarded
      directory itself or lies below it. Whatever it admits, the written
      guard admits too, and a longer path continues with a separator. */
  predicate Inside(full: string, root: string): (b: bool)
    ensures b ==> GuardAsWritten(full, root)
    ensures b && full != root && root != "/" ==> |full| > |root| && full[|root|] == '/'
  {
    InsideIsGuarded(full, root);
    InsideSeparated(full, root);
    full == root || Paths.StartsWith(full, if root == "/" then root else root + "/")
  }

  lemma {:induction false} InsideSeparated(full: string, root: string)
    ensures full != root && root != "/" && Paths.StartsWith(full, root + "/") ==> |full| > |root| && full[|root|] == '/'
  {
    if full != root && root != "/" && Paths.StartsWith(full, root + "/") {
      assert full[|root|] == full[..|root| + 1][|root|];
    }
  }

  /** Which of the two guards a download route applies. */
  datatype Guard = AsWritten | Intended

  predicate Admits(g: Guard, full: string, root: string) {
    match g
    case AsWritten => GuardAsWritten(full, root)
    case Intended => Inside(full, root)
  }

  /** The intended guard is no looser than the written one. */
  lemma {:induction false} InsideIsGuarded(full: string, root: string)
    ensures full == root || Paths.StartsWith(full, if root == "/" then root else root + "/") ==>
      GuardAsWritten(full, root)
  {
    if full != root && root != "/" && Paths.StartsWith(full, root + "/") {
      assert full[..|root|] == full[..|root| + 1][..|root|];
    }
  }

  /** Every relative artifact path without `..` passes the intended guard. */
  lemma {:induction false} PlainPathsPass(cwd: string, ws: string, p: string)
    requires Paths.IsAbs(cwd)
    requires p != "" && !Paths.IsAbs(p)
    requires forall i :: 0 <= i < |Paths.SplitSlash(p)| ==> Paths.SplitSlash(p)[i] != ".."
    ensures Inside(Paths.Resolve(cwd, [ws, p]), Paths.Resolve(cwd, [ws]))
  {
    Paths.ResolveStaysInside(cwd, ws, p);
  }

  /** The written guard lets a request read from a sibling directory whose
      name extends the guarded one's: for the workspace `/w/task-1`, the
      path `../task-10` resolves to `/w/task-10`, which starts with
      `/w/task-1`. The intended guard refuses it. */
  lemma {:induction false} GuardAdmitsSibling(cwd: string, parent: seq<string>, name: string, extra: string)
    requires Paths.IsAbs(cwd)
    requires Paths.Canonical(parent + [name], true)
    requires extra != "" && Paths.PlainName(name + extra)
    ensures var ws := Paths.Render(parent + [name], true);
      var full := Paths.Resolve(cwd, [ws, ".." + "/" + name + extra]);
      var root := Paths.Resolve(cwd, [ws]);
      GuardAsWritten(full, root) && !Inside(full, root)
  {
    var ws := Paths.Render(parent + [name], true);
    Paths.PrefixGuardAdmitsSibling(cwd, parent, name, extra);
    Paths.NormRender(parent + [name], true);
    assert Paths.ResolveJoin(cwd, [ws]) == ws;
    assert Paths.Resolve(cwd, [ws]) == ws;
    var m := name + extra;
    var sibling := Paths.Render(parent + [m], true);
    assert Paths.Canonical(parent + [m], true) by {
      assert forall i :: 0 <= i < |parent| ==> (parent + [m])[i] == (parent + [name])[i];
    }
    Paths.NormRender(parent + [m], true);
    assert parent + [m] != parent + [name] by {
      assert (parent + [m])[|parent|] == m && (parent + [name])[|parent|] == name && |m| > |name|;
    }
    assert sibling != ws;
    assert ws != "/";
  }
  /** The same sibling reached by an absolute artifact path, which no
      normalisation of the request path removes (`artifacts//w/task-10/x`
      for the workspace `/w/task-1`): `path.resolve` takes the absolute
      path as it is, and the written guard admits it. */
  lemma {:induction false} GuardAdmitsAbsoluteSibling(cwd: string, parent: seq<string>, name: string, extra: string, rest: seq<string>)
    requires Paths.IsAbs(cwd)
    requires Paths.Canonical(parent + [name], true) && Paths.Canonical(rest, true)
    requires extra != "" && Paths.PlainName(name + extra)
    ensures var ws := Paths.Render(parent + [name], true);
      var target := Paths.Render(parent + [name + extra] + rest, true);
      var full := Paths.Resolve(cwd, [ws, target]);
      var root := Paths.Resolve(cwd, [ws]);
      full == target && GuardAsWritten(full, root) && !Inside(full, root)
  {
    var ws := Paths.Render(parent + [name], true);
    var m := name + extra;
    var target := Paths.Render(parent + [m] + rest, true);
    ResolvesToItself(cwd, [], parent + [name]);
    assert [] + [ws] == [ws];
    ExtendedCanonical(parent, name, m, rest);
    ResolvesToItself(cwd, [ws], parent + [m] + rest);
    assert [ws] + [target] == [ws, target];
    var sibling := SiblingOf(parent, name, extra);
    TargetBelowSibling(parent, m, rest);
    PastSibling(target, sibling, ws);
  }

  /** The written-out sibling `parent/<name><extra>` of `parent/<name>`:
      it starts with the directory's path, differs from it and does not go
      on with a separator. */
  lemma {:induction false} SiblingOf(parent: seq<string>, name: string, extra: string) returns (sibling: string)
    requires Paths.Canonical(parent + [name], true)
    requires extra != "" && Paths.PlainName(name + extra)
    ensures sibling == Paths.Render(parent + [name + extra], true)
    ensures var ws := Paths.Render(parent + [name], true);
      && Paths.StartsWith(sibling, ws) && !Paths.StartsWith(sibling, ws + "/")
      && sibling != ws && ws != "/"
  {
    var m := name + extra;
    sibling := Paths.Render(parent + [m], true);
    assert Paths.Canonical(parent + [m], true) by {
      ExtendedCanonical(parent, name, m, []);
      assert parent + [m] + [] == parent + [m];
    }
    Paths.NormRender(parent + [m], true);
    Paths.NormRender(parent + [name], true);
    assert parent + [m] != parent + [name] by {
      assert (parent + [m])[|parent|] == m && (parent + [name])[|parent|] == name && |m| > |name|;
    }
    Paths.SiblingRendered(parent, name, extra);
  }

  /** Writing out more segments after a plain name continues its path. */
  lemma {:induction false} TargetBelowSibling(parent: seq<string>, m: string, rest: seq<string>)
    requires Paths.PlainName(m)
    ensures Paths.StartsWith(Paths.Render(parent + [m] + rest, true), Paths.Render(parent + [m], true))
  {
    var c := parent + [m];
    Paths.RenderExtends(c, rest);
    Paths.JoinStartsWithHead(c);
    if |parent| == 0 {
      assert c[0] == m;
    }
    assert |Strs.Join(c, "/")| >= 1;
    assert Paths.Render(c, true) != "/";
  }

  /** An absolute normalised path written out resolves to itself, after
      whatever came before it. */
  lemma {:induction false} ResolvesToItself(cwd: string, before: seq<string>, c: seq<string>)
    requires Paths.IsAbs(cwd) && Paths.Canonical(c, true)
    ensures Paths.Resolve(cwd, before + [Paths.Render(c, true)]) == Paths.Render(c, true)
  {
    var t := Paths.Render(c, true);
    assert (before + [t])[|before + [t]| - 1] == t;
    assert Paths.ResolveJoin(cwd, before + [t]) == t;
    Paths.NormRender(c, true);
  }

  /** Swapping the last segment of a normalised absolute list for another
      plain name and adding normalised segments keeps it normalised. */
  lemma {:induction false} ExtendedCanonical(parent: seq<string>, name: string, m: string, rest: seq<string>)
    requires Paths.Canonical(parent + [name], true) && Paths.Canonical(rest, true) && Paths.PlainName(m)
    ensures Paths.Canonical(parent + [m] + rest, true)
  {
    var l := parent + [m] + rest;
    forall i | 0 <= i < |l|
      ensures l[i] != "" && l[i] != "." && Paths.NoSlash(l[i]) && l[i] != ".."
    {
      if i < |parent| {
        assert l[i] == (parent + [name])[i];
      } else if i == |parent| {
        assert l[i] == m;
      } else {
        assert l[i] == rest[i - |parent| - 1];
      }
    }
  }

  /** A path that continues a sibling of `ws` (a path starting with `ws` and
      not with `ws/`) starts with `ws`, differs from it and does not go on
      with a separator. */
  lemma {:induction false} PastSibling(target: string, sibling: string, ws: string)
    requires Paths.StartsWith(target, sibling) && Paths.StartsWith(sibling, ws)
    requires !Paths.StartsWith(sibling, ws + "/") && sibling != ws && ws != "/"
    ensures GuardAsWritten(target, ws) && !Inside(target, ws)
  {
    assert |sibling| > |ws| && sibling[|ws|] != '/';
    assert target[|ws|] == sibling[|ws|];
    assert target[..|ws|] == sibling[..|ws|];
  }



  function Attachment(name: string): string {
    "attachment; filename=\"" + name + "\""
  }
}

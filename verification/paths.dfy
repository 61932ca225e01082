/** A lexical model of the POSIX half of Node's `path` module: `normalize`,
    `join`, `resolve`, `basename` and `extname`. Paths are strings; nothing
    touches a file system. The working directory `resolve` falls back on is a
    parameter. */
module Paths {
  import Strs

  predicate IsAbs(p: string) {
    |p| > 0 && p[0] == '/'
  }

  predicate NoSlash(s: string) {
    forall i :: 0 <= i < |s| ==> s[i] != '/'
  }

  // ---------------------------------------------------------------------------
  // Segments
  // ---------------------------------------------------------------------------

  /** The pieces between the `/` characters of a path, as `p.split('/')`. */
  function SplitSlash(p: string): (parts: seq<string>)
    ensures |parts| >= 1
    ensures forall i :: 0 <= i < |parts| ==> NoSlash(parts[i])
    ensures Strs.Join(parts, "/") == p
    decreases |p|
  {
    if |p| == 0 then [""]
    else
      var r := SplitSlash(p[1..]);
      if p[0] == '/' then
        assert ([""] + r)[1..] == r;
        [""] + r
      else
        var parts := [[p[0]] + r[0]] + r[1..];
        assert parts[1..] == r[1..];
        assert Strs.Join(parts, "/") == [p[0]] + Strs.Join(r, "/") by {
          if |r| > 1 {
            assert r[1..] == r[1..];
          }
        }
        assert p == [p[0]] + p[1..];
        parts
  }

  lemma {:induction false} SplitSlashPlain(a: string)
    requires NoSlash(a)
    ensures SplitSlash(a) == [a]
    decreases |a|
  {
    if |a| > 0 {
      SplitSlashPlain(a[1..]);
      assert [a[0]] + a[1..] == a;
    }
  }

  /** Splitting `a/b` splits `a` and `b` separately. */
  lemma {:induction false} SplitSlashConcat(a: string, b: string)
    ensures SplitSlash(a + "/" + b) == SplitSlash(a) + SplitSlash(b)
    decreases |a|
  {
    if |a| == 0 {
      assert a + "/" + b == "/" + b;
      assert ("/" + b)[1..] == b;
    } else {
      assert (a + "/" + b)[1..] == a[1..] + "/" + b;
      assert (a + "/" + b)[0] == a[0];
      SplitSlashConcat(a[1..], b);
    }
  }

  /** Splitting a joined list of slash-free pieces gives the pieces back. */
  lemma {:induction false} SplitSlashJoin(parts: seq<string>)
    requires |parts| >= 1
    requires forall i :: 0 <= i < |parts| ==> NoSlash(parts[i])
    ensures SplitSlash(Strs.Join(parts, "/")) == parts
    decreases |parts|
  {
    if |parts| == 1 {
      SplitSlashPlain(parts[0]);
    } else {
      SplitSlashJoin(parts[1..]);
      SplitSlashConcat(parts[0], Strs.Join(parts[1..], "/"));
      SplitSlashPlain(parts[0]);
      assert [parts[0]] + parts[1..] == parts;
    }
  }

  // ---------------------------------------------------------------------------
  // Lexical normalisation
  // ---------------------------------------------------------------------------

  /** One segment of `normalizeString`: empty and `.` segments vanish, `..`
      removes the previous segment; with nothing to remove it is dropped at the
      root of an absolute path and kept in a relative one. */
  function Step(acc: seq<string>, seg: string, abs: bool): seq<string> {
    if seg == "" || seg == "." then acc
    else if seg == ".." then
      if |acc| > 0 && acc[|acc| - 1] != ".." then acc[..|acc| - 1]
      else if abs then acc
      else acc + [".."]
    else acc + [seg]
  }

  function NormFrom(acc: seq<string>, segs: seq<string>, abs: bool): seq<string>
    decreases |segs|
  {
    if |segs| == 0 then acc else NormFrom(Step(acc, segs[0], abs), segs[1..], abs)
  }

  /** A normalised segment list: no empty, `.` or slash-bearing segments, and
      `..` only as a leading run of a relative path. */
  ghost predicate Canonical(segs: seq<string>, abs: bool) {
    forall i :: 0 <= i < |segs| ==>
      && segs[i] != "" && segs[i] != "." && NoSlash(segs[i])
      && (segs[i] == ".." ==> !abs && forall j :: 0 <= j < i ==> segs[j] == "..")
  }

  lemma {:induction false} NormFromCanonical(acc: seq<string>, segs: seq<string>, abs: bool)
    requires Canonical(acc, abs)
    requires forall i :: 0 <= i < |segs| ==> NoSlash(segs[i])
    ensures Canonical(NormFrom(acc, segs, abs), abs)
    decreases |segs|
  {
    if |segs| > 0 {
      var next := Step(acc, segs[0], abs);
      assert Canonical(next, abs) by {
        var seg := segs[0];
        if seg == ".." && !(|acc| > 0 && acc[|acc| - 1] != "..") && !abs {
          assert forall j :: 0 <= j < |acc| ==> acc[j] == "..";
        }
      }
      NormFromCanonical(next, segs[1..], abs);
    }
  }

  /** Normalisation leaves an already normalised tail alone. */
  lemma {:induction false} NormFromCanonicalId(acc: seq<string>, c: seq<string>, abs: bool)
    requires Canonical(acc + c, abs)
    ensures NormFrom(acc, c, abs) == acc + c
    decreases |c|
  {
    if |c| > 0 {
      assert (acc + c)[|acc|] == c[0];
      if c[0] == ".." {
        assert forall j :: 0 <= j < |acc| ==> (acc + c)[j] == acc[j];
        if |acc| > 0 {
          assert acc[|acc| - 1] == "..";
        }
      }
      assert Step(acc, c[0], abs) == acc + [c[0]];
      assert (acc + [c[0]]) + c[1..] == acc + c;
      NormFromCanonicalId(acc + [c[0]], c[1..], abs);
    }
  }

  lemma {:induction false} NormFromAppend(acc: seq<string>, a: seq<string>, b: seq<string>, abs: bool)
    ensures NormFrom(acc, a + b, abs) == NormFrom(NormFrom(acc, a, abs), b, abs)
    decreases |a|
  {
    if |a| == 0 {
      assert a + b == b;
    } else {
      assert (a + b)[1..] == a[1..] + b;
      NormFromAppend(Step(acc, a[0], abs), a[1..], b, abs);
    }
  }

  /** Without `..` segments normalisation only ever adds segments. */
  lemma {:induction false} NormFromExtends(acc: seq<string>, segs: seq<string>, abs: bool)
    requires forall i :: 0 <= i < |segs| ==> segs[i] != ".."
    ensures |NormFrom(acc, segs, abs)| >= |acc|
    ensures NormFrom(acc, segs, abs)[..|acc|] == acc
    decreases |segs|
  {
    if |segs| > 0 {
      var next := Step(acc, segs[0], abs);
      NormFromExtends(next, segs[1..], abs);
      assert next[..|acc|] == acc;
    }
  }

  /** One `..`-free step on a relative list, resolved against `st`, is the
      same step taken on the resolved list. */
  lemma {:induction false} StepVia(st: seq<string>, acc: seq<string>, seg: string)
    requires Canonical(acc, false)
    ensures NormFrom(st, Step(acc, seg, false), true) == Step(NormFrom(st, acc, true), seg, true)
  {
    var x := NormFrom(st, acc, true);
    if seg == "" || seg == "." {
    } else if seg == ".." {
      if |acc| > 0 && acc[|acc| - 1] != ".." {
        var a0 := acc[..|acc| - 1];
        var last := acc[|acc| - 1];
        assert acc == a0 + [last];
        NormFromAppend(st, a0, [last], true);
        assert x == NormFrom(st, a0, true) + [last];
      } else {
        NormFromAppend(st, acc, [".."], true);
      }
    } else {
      NormFromAppend(st, acc, [seg], true);
    }
  }

  /** Resolving a path against an absolute list gives the same result
      whether or not the path was normalised on its own first. */
  lemma {:induction false} NormFromViaRelative(st: seq<string>, acc: seq<string>, segs: seq<string>)
    requires Canonical(acc, false)
    requires forall i :: 0 <= i < |segs| ==> NoSlash(segs[i])
    ensures NormFrom(NormFrom(st, acc, true), segs, true) == NormFrom(st, NormFrom(acc, segs, false), true)
    decreases |segs|
  {
    if |segs| > 0 {
      var next := Step(acc, segs[0], false);
      NormFromCanonical(acc, [segs[0]], false);
      assert NormFrom(acc, [segs[0]], false) == next;
      StepVia(st, acc, segs[0]);
      NormFromViaRelative(st, next, segs[1..]);
    }
  }

  /** A segment list written out. */
  function Render(segs: seq<string>, abs: bool): (p: string)
    ensures abs ==> IsAbs(p)
  {
    if |segs| == 0 then (if abs then "/" else ".")
    else (if abs then "/" else "") + Strs.Join(segs, "/")
  }

  lemma {:induction false} JoinStartsWithHead(parts: seq<string>)
    requires |parts| >= 1
    ensures |Strs.Join(parts, "/")| >= |parts[0]|
    ensures Strs.Join(parts, "/")[..|parts[0]|] == parts[0]
  {
  }

  /** The normalised form of `p` without a trailing separator: what
      `resolve` produces from an absolute path. */
  function Canon(p: string): (q: string)
    ensures |q| > 0
    ensures IsAbs(q) <==> IsAbs(p)
  {
    var abs := IsAbs(p);
    var c := NormFrom([], SplitSlash(p), abs);
    NormFromCanonical([], SplitSlash(p), abs);
    RenderIsAbs(c, abs);
    Render(c, abs)
  }

  lemma {:induction false} RenderIsAbs(c: seq<string>, abs: bool)
    requires Canonical(c, abs)
    ensures IsAbs(Render(c, abs)) <==> abs
    ensures |Render(c, abs)| > 0
  {
    if |c| > 0 {
      JoinStartsWithHead(c);
    }
  }

  /** The segments of a written-out normalised list are the list again, after
      a leading empty piece for an absolute path. */
  lemma {:induction false} SplitRender(c: seq<string>, abs: bool)
    requires Canonical(c, abs) && |c| > 0
    ensures SplitSlash(Render(c, abs)) == (if abs then [""] + c else c)
  {
    SplitSlashJoin(c);
    if abs {
      SplitSlashConcat("", Strs.Join(c, "/"));
      assert "" + "/" + Strs.Join(c, "/") == Render(c, abs);
    } else {
      assert Render(c, abs) == Strs.Join(c, "/");
    }
  }

  /** Normalising a written-out normalised list gives the list back. */
  lemma {:induction false} NormRender(c: seq<string>, abs: bool)
    requires Canonical(c, abs)
    ensures NormFrom([], SplitSlash(Render(c, abs)), abs) == c
  {
    if |c| == 0 {
      if abs {
        assert SplitSlash("/") == ["", ""];
      } else {
        assert SplitSlash(".") == ["."];
      }
    } else {
      SplitRender(c, abs);
      NormFromCanonicalId([], c, abs);
      assert [] + c == c;
      if abs {
        assert NormFrom([], [""] + c, abs) == NormFrom([], c, abs);
      }
    }
  }

  /** Normalising twice is normalising once. */
  lemma {:induction false} CanonIdempotent(p: string)
    ensures Canon(Canon(p)) == Canon(p)
  {
    var abs := IsAbs(p);
    var c := NormFrom([], SplitSlash(p), abs);
    NormFromCanonical([], SplitSlash(p), abs);
    RenderIsAbs(c, abs);
    NormRender(c, abs);
  }

  /** `path.normalize(p)`: like `Canon`, but an empty path is `.` and a
      trailing separator is kept. */
  function Normalize(p: string): (q: string)
    ensures |q| > 0
    ensures IsAbs(q) <==> IsAbs(p)
  {
    if p == "" then "."
    else
      var abs := IsAbs(p);
      var trailing := p[|p| - 1] == '/';
      var c := NormFrom([], SplitSlash(p), abs);
      if |c| == 0 then (if abs then "/" else if trailing then "./" else ".")
      else
        NormFromCanonical([], SplitSlash(p), abs);
        JoinStartsWithHead(c);
        (if abs then "/" else "") + Strs.Join(c, "/") + (if trailing then "/" else "")
  }

  /** Without a trailing separator, `normalize` is `Canon`. */
  lemma {:induction false} NormalizeCanon(p: string)
    requires p != "" && p[|p| - 1] != '/'
    ensures Normalize(p) == Canon(p)
  {
  }

  function NonEmpty(ps: seq<string>): (r: seq<string>)
    ensures forall i :: 0 <= i < |r| ==> r[i] != ""
    ensures forall x :: x in r <==> x in ps && x != ""
  {
    if |ps| == 0 then []
    else if ps[0] == "" then NonEmpty(ps[1..])
    else [ps[0]] + NonEmpty(ps[1..])
  }

  /** `path.join(...ps)`: the non-empty arguments joined with `/`, then
      normalised; `.` when none is left. */
  function Join(ps: seq<string>): (q: string)
    ensures |q| > 0
  {
    var parts := NonEmpty(ps);
    if |parts| == 0 then "." else Normalize(Strs.Join(parts, "/"))
  }

  /** A plain file name: no separator and not one of the special segments. */
  predicate PlainName(name: string) {
    name != "" && name != "." && name != ".." && NoSlash(name)
  }

  /** Joining a plain name onto a normalised directory other than the root
      appends `/name`. */
  lemma {:induction false} JoinPlainName(dir: string, name: string)
    requires dir == Canon(dir) && dir != "/" && dir != "."
    requires PlainName(name)
    ensures Join([dir, name]) == dir + "/" + name
  {
    var abs := IsAbs(dir);
    var c := NormFrom([], SplitSlash(dir), abs);
    NormFromCanonical([], SplitSlash(dir), abs);
    assert dir == Render(c, abs);
    assert NonEmpty([dir, name]) == [dir, name] by {
      assert NonEmpty([name]) == [name];
      assert [dir, name][1..] == [name];
    }
    var joined := dir + "/" + name;
    assert Strs.Join([dir, name], "/") == joined by {
      assert [dir, name][1..] == [name];
    }
    RenderSnoc(c, abs, name);
    assert Canonical(c + [name], abs);
    NormRender(c + [name], abs);
    RenderIsAbs(c + [name], abs);
  }

  /** Appending a plain segment to a non-empty normalised list appends
      `/name` to its written form. */
  lemma {:induction false} RenderSnoc(c: seq<string>, abs: bool, name: string)
    requires |c| > 0
    ensures Render(c + [name], abs) == Render(c, abs) + "/" + name
  {
    JoinSnoc(c, name);
    var pre := if abs then "/" else "";
    assert Render(c + [name], abs) == pre + Strs.Join(c + [name], "/");
  }

  lemma {:induction false} JoinSnoc(c: seq<string>, x: string)
    requires |c| >= 1
    ensures Strs.Join(c + [x], "/") == Strs.Join(c, "/") + "/" + x
    decreases |c|
  {
    if |c| == 1 {
      assert (c + [x])[1..] == [x];
    } else {
      assert (c + [x])[1..] == c[1..] + [x];
      JoinSnoc(c[1..], x);
    }
  }

  lemma {:induction false} JoinAppend(c: seq<string>, x: seq<string>)
    requires |c| >= 1
    ensures |x| == 0 ==> Strs.Join(c + x, "/") == Strs.Join(c, "/")
    ensures |x| > 0 ==> Strs.Join(c + x, "/") == Strs.Join(c, "/") + "/" + Strs.Join(x, "/")
    decreases |c|
  {
    if |x| == 0 {
      assert c + x == c;
    } else if |c| == 1 {
      assert (c + x)[1..] == x;
    } else {
      assert (c + x)[1..] == c[1..] + x;
      JoinAppend(c[1..], x);
    }
  }

  // ---------------------------------------------------------------------------
  // resolve
  // ---------------------------------------------------------------------------

  /** The arguments of `resolve` glued together from the right until one of
      them is absolute; the working directory when none is. */
  function ResolveJoin(cwd: string, ps: seq<string>): (p: string)
    requires IsAbs(cwd)
    ensures IsAbs(p)
    decreases |ps|
  {
    if |ps| == 0 then cwd
    else
      var last := ps[|ps| - 1];
      if last == "" then ResolveJoin(cwd, ps[..|ps| - 1])
      else if IsAbs(last) then last
      else ResolveJoin(cwd, ps[..|ps| - 1]) + "/" + last
  }

  /** `path.resolve(...ps)` with working directory `cwd`: an absolute,
      normalised path without a trailing separator. */
  function Resolve(cwd: string, ps: seq<string>): (q: string)
    requires IsAbs(cwd)
    ensures IsAbs(q)
    ensures Canon(q) == q
  {
    CanonIdempotent(ResolveJoin(cwd, ps));
    Canon(ResolveJoin(cwd, ps))
  }

  /** `target.startsWith(root)`. */
  predicate StartsWith(target: string, root: string) {
    |root| <= |target| && target[..|root|] == root
  }

  /** A relative path without `..` segments resolves inside the directory it
      is resolved against: the result is that directory itself or lies below
      it. */
  lemma {:induction false} ResolveStaysInside(cwd: string, dir: string, p: string)
    requires IsAbs(cwd)
    requires p != "" && !IsAbs(p)
    requires forall i :: 0 <= i < |SplitSlash(p)| ==> SplitSlash(p)[i] != ".."
    ensures var root := Resolve(cwd, [dir]);
      var r := Resolve(cwd, [dir, p]);
      r == root || StartsWith(r, if root == "/" then root else root + "/")
  {
    var c, x := ResolveAppends(cwd, dir, p);
    RenderExtends(c, x);
  }

  /** Resolving `p` after `dir` appends segments to `dir`'s resolution. */
  lemma {:induction false} ResolveAppends(cwd: string, dir: string, p: string) returns (c: seq<string>, x: seq<string>)
    requires IsAbs(cwd)
    requires p != "" && !IsAbs(p)
    requires forall i :: 0 <= i < |SplitSlash(p)| ==> SplitSlash(p)[i] != ".."
    ensures Resolve(cwd, [dir]) == Render(c, true)
    ensures Resolve(cwd, [dir, p]) == Render(c + x, true)
  {
    var base := ResolveJoin(cwd, [dir]);
    var a := SplitSlash(base);
    var b := SplitSlash(p);
    c := NormFrom([], a, true);
    var c2 := NormFrom(c, b, true);
    assert Resolve(cwd, [dir, p]) == Render(c2, true) by {
      assert [dir, p][..1] == [dir];
      assert ResolveJoin(cwd, [dir, p]) == base + "/" + p;
      assert IsAbs(base + "/" + p);
      SplitSlashConcat(base, p);
      NormFromAppend([], a, b, true);
    }
    NormFromExtends(c, b, true);
    x := c2[|c|..];
    assert c2 == c + x;
  }

  /** Rendering more segments after `c` gives `c`'s rendering or a path
      below it. */
  lemma {:induction false} RenderExtends(c: seq<string>, x: seq<string>)
    ensures var root := Render(c, true);
      var r := Render(c + x, true);
      r == root || StartsWith(r, if root == "/" then root else root + "/")
  {
    if |x| == 0 {
      assert c + x == c;
    } else if |c| == 0 {
      assert c + x == x;
      AbsBelowRoot(Render(x, true));
    } else {
      JoinAppend(c, x);
      assert Render(c + x, true) == Render(c, true) + "/" + Strs.Join(x, "/");
      AppendBelow(Render(c, true), Strs.Join(x, "/"));
    }
  }

  lemma {:induction false} AbsBelowRoot(r: string)
    requires IsAbs(r)
    ensures StartsWith(r, "/")
  {
  }

  lemma {:induction false} AppendBelow(root: string, t: string)
    ensures StartsWith(root + "/" + t, if root == "/" then root else root + "/")
  {
    var r := root + "/" + t;
    if root == "/" {
      assert r[..1] == root;
    } else {
      assert r[..|root| + 1] == root + "/";
    }
  }

  /** The string-prefix guard also admits a sibling whose name extends the
      directory's name: against `/w/task-1`, the path `../task-10/...`
      resolves under `/w/task-10`, which starts with `/w/task-1` but is
      neither that directory nor below it. */
  lemma {:induction false} PrefixGuardAdmitsSibling(cwd: string, parent: seq<string>, name: string, extra: string)
    requires IsAbs(cwd)
    requires Canonical(parent + [name], true)
    requires extra != "" && PlainName(name + extra)
    ensures var dir := Render(parent + [name], true);
      var sibling := Render(parent + [name + extra], true);
      && Resolve(cwd, [dir, ".." + "/" + name + extra]) == sibling
      && StartsWith(sibling, dir)
      && !StartsWith(sibling, dir + "/")
  {
    var m := name + extra;
    assert ".." + "/" + m == ".." + "/" + name + extra;
    ResolveSibling(cwd, parent, name, m);
    SiblingRendered(parent, name, extra);
  }

  /** Going up from a directory and into `m` resolves to `m` beside it. */
  lemma {:induction false} ResolveSibling(cwd: string, parent: seq<string>, name: string, m: string)
    requires IsAbs(cwd)
    requires Canonical(parent + [name], true)
    requires PlainName(m)
    ensures Resolve(cwd, [Render(parent + [name], true), ".." + "/" + m]) == Render(parent + [m], true)
  {
    var dir := Render(parent + [name], true);
    var p := ".." + "/" + m;
    assert [dir, p][..1] == [dir];
    assert ResolveJoin(cwd, [dir, p]) == dir + "/" + p;
    SplitRender(parent + [name], true);
    NormRender(parent + [name], true);
    SplitSlashPlain("..");
    SplitSlashPlain(m);
    SplitSlashConcat("..", m);
    SplitSlashConcat(dir, p);
    assert SplitSlash(dir + "/" + p) == ([""] + (parent + [name])) + ["..", m];
    NormFromAppend([], [""] + (parent + [name]), ["..", m], true);
    BackUpThenEnter(parent, name, m);
  }

  lemma {:induction false} BackUpThenEnter(parent: seq<string>, name: string, m: string)
    requires name != ".." && PlainName(m)
    ensures NormFrom(parent + [name], ["..", m], true) == parent + [m]
  {
    assert (parent + [name])[|parent|] == name;
    assert (parent + [name])[..|parent|] == parent;
    assert Step(parent + [name], "..", true) == parent;
    assert ["..", m][1..] == [m];
    assert NormFrom(parent + [name], ["..", m], true) == NormFrom(parent, [m], true);
    assert Step(parent, m, true) == parent + [m];
    assert [m][1..] == [];
    assert NormFrom(parent, [m], true) == NormFrom(parent + [m], [], true);
  }

  lemma {:induction false} SiblingRendered(parent: seq<string>, name: string, extra: string)
    requires extra != "" && PlainName(name + extra)
    ensures var dir := Render(parent + [name], true);
      var sibling := Render(parent + [name + extra], true);
      StartsWith(sibling, dir) && !StartsWith(sibling, dir + "/")
  {
    var m := name + extra;
    var prefix := RenderLast(parent, name);
    var prefix' := RenderLast(parent, m);
    assert (name + extra)[|name|] == extra[0];
    ExtendedName(prefix, name, extra);
  }

  /** The text an absolute rendering puts before its last segment. */
  lemma {:induction false} RenderLast(parent: seq<string>, x: string) returns (prefix: string)
    ensures prefix == (if |parent| == 0 then "/" else Render(parent, true) + "/")
    ensures Render(parent + [x], true) == prefix + x
  {
    prefix := if |parent| == 0 then "/" else Render(parent, true) + "/";
    if |parent| == 0 {
      assert parent + [x] == [x];
    } else {
      RenderSnoc(parent, true, x);
    }
  }

  lemma {:induction false} ExtendedName(prefix: string, name: string, extra: string)
    requires extra != "" && extra[0] != '/'
    ensures StartsWith(prefix + (name + extra), prefix + name)
    ensures !StartsWith(prefix + (name + extra), prefix + name + "/")
  {
    assert prefix + (name + extra) == (prefix + name) + extra;
    assert ((prefix + name) + extra)[..|prefix + name|] == prefix + name;
    assert ((prefix + name) + extra)[|prefix + name|] == extra[0];
    assert (prefix + name + "/")[|prefix + name|] == '/';
  }

  // ---------------------------------------------------------------------------
  // basename and extname
  // ---------------------------------------------------------------------------

  function LastNonEmpty(segs: seq<string>): (r: string)
    ensures r == "" || r in segs
    decreases |segs|
  {
    if |segs| == 0 then ""
    else if segs[|segs| - 1] != "" then segs[|segs| - 1]
    else LastNonEmpty(segs[..|segs| - 1])
  }

  /** `path.basename(p)`: the last segment, trailing separators ignored. */
  function Basename(p: string): (b: string)
    ensures NoSlash(b)
  {
    LastNonEmpty(SplitSlash(p))
  }

  /** The position of the last `.` in `s`. */
  function LastDot(s: string): (k: int)
    ensures -1 <= k < |s|
    ensures k >= 0 ==> s[k] == '.'
    ensures forall i :: k < i < |s| ==> s[i] != '.'
    decreases |s|
  {
    if |s| == 0 then -1
    else if s[|s| - 1] == '.' then |s| - 1
    else LastDot(s[..|s| - 1])
  }

  /** `path.extname(p)`: from the last `.` of the base name to its end, or
      empty when the name has no `.`, only a leading one, or is `..`. */
  function Extname(p: string): (e: string)
    ensures e != "" ==> e[0] == '.' && forall i :: 1 <= i < |e| ==> e[i] != '.'
    ensures e != "" ==> var b := Basename(p); |e| < |b| && b[|b| - |e|..] == e
  {
    var b := Basename(p);
    var k := LastDot(b);
    if b == ".." || k <= 0 then "" else b[k..]
  }

  /** A name `stem.ext` with a dot-free, non-empty stem and extension has
      extension `.ext`, in whatever directory it lies. */
  lemma {:induction false} ExtnameOfName(dir: string, stem: string, ext: string)
    requires stem != "" && ext != ""
    requires forall i :: 0 <= i < |stem| ==> stem[i] != '.' && stem[i] != '/'
    requires forall i :: 0 <= i < |ext| ==> ext[i] != '.' && ext[i] != '/'
    ensures Extname(dir + "/" + stem + "." + ext) == "." + ext
  {
    var name := stem + "." + ext;
    assert dir + "/" + stem + "." + ext == dir + "/" + name;
    assert NoSlash(name);
    SplitSlashConcat(dir, name);
    SplitSlashPlain(name);
    var segs := SplitSlash(dir) + [name];
    assert segs[|segs| - 1] == name;
    assert Basename(dir + "/" + name) == name;
    LastDotAfter(stem + ".", ext);
    assert name[|stem|..] == "." + ext;
  }

  lemma {:induction false} LastDotAfter(a: string, ext: string)
    requires |a| > 0 && a[|a| - 1] == '.'
    requires forall i :: 0 <= i < |ext| ==> ext[i] != '.'
    ensures LastDot(a + ext) == |a| - 1
    decreases |ext|
  {
    if |ext| > 0 {
      assert (a + ext)[..|a + ext| - 1] == a + ext[..|ext| - 1];
      LastDotAfter(a, ext[..|ext| - 1]);
    } else {
      assert a + ext == a;
    }
  }
}

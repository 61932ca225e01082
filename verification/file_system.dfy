/** A file system as a tree of named entries, addressed by segment lists from
    the root: the `fs/promises` calls of the knowledge manager (`mkdir` with
    `recursive`, `readFile`, `writeFile`, `readdir`, `rm` with `recursive` and
    `force`, `copyFile`) reduced to their effect on the tree. A call that
    fails (a missing parent, a file where a directory is needed) gives `None`
    or a false flag. Paths become locations by lexical resolution against the
    working directory (see `Loc`). */
module FileSystem {
  import opened Wrappers
  import Paths
  import Strs

  datatype Node = File(text: string) | Dir(entries: seq<Item>)

  /** One directory entry; a listing keeps the order entries were made in. */
  datatype Item = Item(name: string, node: Node)

  // ---------------------------------------------------------------------------
  // Directory listings
  // ---------------------------------------------------------------------------

  /** The node named `name` in a listing (the first, should names repeat). */
  function Find(es: seq<Item>, name: string): (r: Option<Node>)
    ensures r.None? <==> forall i :: 0 <= i < |es| ==> es[i].name != name
    ensures r.Some? ==> exists i :: 0 <= i < |es| && es[i] == Item(name, r.value)
    decreases |es|
  {
    if |es| == 0 then None
    else if es[0].name == name then Some(es[0].node)
    else
      var r := Find(es[1..], name);
      assert forall i :: 1 <= i < |es| ==> es[i] == es[1..][i - 1];
      r
  }

  /** The listing with `name` bound to `v`: the entry replaced in place, or a
      new entry added at the end. */
  function Put(es: seq<Item>, name: string, v: Node): (r: seq<Item>)
    ensures Find(r, name) == Some(v)
    ensures forall x :: x != name ==> Find(r, x) == Find(es, x)
    decreases |es|
  {
    if |es| == 0 then [Item(name, v)]
    else if es[0].name == name then
      var r := [Item(name, v)] + es[1..];
      assert r[1..] == es[1..];
      r
    else
      var rest := Put(es[1..], name, v);
      var r := [es[0]] + rest;
      assert r[1..] == rest;
      r
  }

  /** The listing without entries named `name`. */
  function Drop(es: seq<Item>, name: string): (r: seq<Item>)
    ensures Find(r, name).None?
    ensures forall x :: x != name ==> Find(r, x) == Find(es, x)
    decreases |es|
  {
    if |es| == 0 then []
    else if es[0].name == name then Drop(es[1..], name)
    else
      var rest := Drop(es[1..], name);
      assert ([es[0]] + rest)[1..] == rest;
      [es[0]] + rest
  }

  /** The names of a listing are distinct. */
  predicate DistinctNames(es: seq<Item>) {
    forall i, j :: 0 <= i < j < |es| ==> es[i].name != es[j].name
  }

  /** Every directory of the tree has distinct names, as in a real file
      system. */
  predicate WellFormed(n: Node)
    decreases n, 1
  {
    match n
    case File(_) => true
    case Dir(es) => DistinctNames(es) && AllWellFormed(es)
  }

  predicate AllWellFormed(es: seq<Item>)
    decreases es, 0
  {
    |es| == 0 || (WellFormed(es[0].node) && AllWellFormed(es[1..]))
  }

  /** Each entry of a well-formed listing is well-formed. */
  lemma {:induction false} AllWellFormedAt(es: seq<Item>, i: int)
    requires AllWellFormed(es) && 0 <= i < |es|
    ensures WellFormed(es[i].node)
    decreases |es|
  {
    if i > 0 {
      assert es[1..][i - 1] == es[i];
      AllWellFormedAt(es[1..], i - 1);
    }
  }

  // ---------------------------------------------------------------------------
  // Reading
  // ---------------------------------------------------------------------------

  /** The node at a location, if any. */
  function Get(n: Node, loc: seq<string>): Option<Node>
    decreases |loc|
  {
    if |loc| == 0 then Some(n)
    else
      match n
      case File(_) => None
      case Dir(es) =>
        match Find(es, loc[0])
        case None => None
        case Some(c) => Get(c, loc[1..])
  }

  /** Every node inside a well-formed tree is well-formed. */
  lemma {:induction false} GetWellFormed(n: Node, loc: seq<string>)
    requires WellFormed(n) && Get(n, loc).Some?
    ensures WellFormed(Get(n, loc).value)
    decreases |loc|
  {
    if |loc| > 0 {
      var es := n.entries;
      var c := Find(es, loc[0]).value;
      var i :| 0 <= i < |es| && es[i] == Item(loc[0], c);
      AllWellFormedAt(es, i);
      GetWellFormed(c, loc[1..]);
    }
  }

  // ---------------------------------------------------------------------------
  // From paths to locations
  // ---------------------------------------------------------------------------

  /** The location a path names: lexically resolved against the working
      directory `cwd` (itself a location), as the operating system walks it
      when no symbolic links are involved. */
  function Loc(cwd: seq<string>, p: string): (r: seq<string>)
    requires Paths.Canonical(cwd, true)
    ensures Paths.Canonical(r, true)
  {
    Paths.NormFromCanonical(if Paths.IsAbs(p) then [] else cwd, Paths.SplitSlash(p), true);
    Paths.NormFrom(if Paths.IsAbs(p) then [] else cwd, Paths.SplitSlash(p), true)
  }

  /** Where a path leads depends only on its normalised segments. */
  lemma {:induction false} LocViaSegments(cwd: seq<string>, p: string)
    requires Paths.Canonical(cwd, true)
    ensures var abs := Paths.IsAbs(p);
            var c := Paths.NormFrom([], Paths.SplitSlash(p), abs);
            Paths.Canonical(c, abs) && Loc(cwd, p) == Paths.NormFrom(if abs then [] else cwd, c, true)
  {
    var abs := Paths.IsAbs(p);
    var segs := Paths.SplitSlash(p);
    Paths.NormFromCanonical([], segs, abs);
    var c := Paths.NormFrom([], segs, abs);
    if !abs {
      Paths.NormFromViaRelative(cwd, [], segs);
      assert Paths.NormFrom(cwd, [], true) == cwd;
      assert Loc(cwd, p) == Paths.NormFrom(cwd, segs, true);
    } else {
      assert Loc(cwd, p) == Paths.NormFrom([], segs, true);
      Paths.NormFromCanonicalId([], c, true);
      assert [] + c == c;
    }
  }

  /** `path.normalize` does not change where a path leads. */
  lemma {:induction false} LocNormalize(cwd: seq<string>, p: string)
    requires Paths.Canonical(cwd, true)
    ensures Loc(cwd, Paths.Normalize(p)) == Loc(cwd, p)
  {
    if p != "" {
      var abs := Paths.IsAbs(p);
      var c := Paths.NormFrom([], Paths.SplitSlash(p), abs);
      LocViaSegments(cwd, p);
      if |c| == 0 {
        LocNormalizeNothing(cwd, p);
      } else {
        LocNormalizeSome(cwd, p, c);
      }
    }
  }

  lemma {:induction false} LocNormalizeNothing(cwd: seq<string>, p: string)
    requires Paths.Canonical(cwd, true)
    requires p != "" && |Paths.NormFrom([], Paths.SplitSlash(p), Paths.IsAbs(p))| == 0
    ensures Loc(cwd, Paths.Normalize(p)) == (if Paths.IsAbs(p) then [] else cwd)
  {
    var q := Paths.Normalize(p);
    if Paths.IsAbs(p) {
      assert q == "/";
      assert Paths.SplitSlash(q) == ["", ""];
      assert Paths.IsAbs(q);
      assert Paths.NormFrom([], ["", ""], true) == Paths.NormFrom([], [""], true);
      assert Paths.NormFrom([], [""], true) == [];
    } else if p[|p| - 1] == '/' {
      assert q == "./";
      var r := Paths.SplitSlash(q[1..]);
      assert q[1..] == "/" && r == ["", ""];
      assert Paths.SplitSlash(q) == [[q[0]] + r[0]] + r[1..];
      assert Paths.NormFrom(cwd, [".", ""], true) == Paths.NormFrom(cwd, [""], true);
      assert Paths.NormFrom(cwd, [""], true) == Paths.NormFrom(cwd, [], true);
    } else {
      assert q == ".";
      assert Paths.SplitSlash(q) == ["."];
      assert Paths.NormFrom(cwd, ["."], true) == Paths.NormFrom(cwd, [], true);
    }
  }

  lemma {:induction false} LocNormalizeSome(cwd: seq<string>, p: string, c: seq<string>)
    requires Paths.Canonical(cwd, true)
    requires p != "" && c == Paths.NormFrom([], Paths.SplitSlash(p), Paths.IsAbs(p))
    requires Paths.Canonical(c, Paths.IsAbs(p)) && |c| > 0
    ensures Loc(cwd, Paths.Normalize(p)) == Paths.NormFrom(if Paths.IsAbs(p) then [] else cwd, c, true)
  {
    var abs := Paths.IsAbs(p);
    var start := if abs then [] else cwd;
    var q := Paths.Normalize(p);
    var body := Paths.Render(c, abs);
    Paths.SplitRender(c, abs);
    Paths.RenderIsAbs(c, abs);
    var pieces := if abs then [""] + c else c;
    assert Paths.NormFrom(start, pieces, true) == Paths.NormFrom(start, c, true) by {
      if abs {
        assert Paths.NormFrom(start, [""] + c, true) == Paths.NormFrom(start, c, true);
      }
    }
    if p[|p| - 1] == '/' {
      assert q == body + "/" + "";
      Paths.SplitSlashConcat(body, "");
      Paths.NormFromAppend(start, pieces, [""], true);
    } else {
      assert q == body;
    }
  }

  /** A path `a/b` leads to `b` resolved below where `a` leads. */
  lemma {:induction false} LocConcat(cwd: seq<string>, a: string, b: string)
    requires Paths.Canonical(cwd, true)
    requires a != ""
    ensures Loc(cwd, a + "/" + b) == Paths.NormFrom(Loc(cwd, a), Paths.SplitSlash(b), true)
  {
    Paths.SplitSlashConcat(a, b);
    assert (a + "/" + b)[0] == a[0];
    var start := if Paths.IsAbs(a) then [] else cwd;
    Paths.NormFromAppend(start, Paths.SplitSlash(a), Paths.SplitSlash(b), true);
  }

  /** `path.join(a, b)` leads to `b` resolved below where `a` leads. */
  lemma {:induction false} LocJoin(cwd: seq<string>, a: string, b: string)
    requires Paths.Canonical(cwd, true)
    requires a != ""
    ensures Loc(cwd, Paths.Join([a, b])) == Paths.NormFrom(Loc(cwd, a), Paths.SplitSlash(b), true)
  {
    assert [a, b][1..] == [b];
    assert [b][1..] == [];
    assert Paths.NonEmpty([b]) == (if b == "" then [] else [b]);
    if b == "" {
      assert Paths.NonEmpty([a, b]) == [a];
      LocNormalize(cwd, a);
      assert Paths.SplitSlash(b) == [""];
    } else {
      assert Paths.NonEmpty([a, b]) == [a, b];
      assert Strs.Join([a, b], "/") == a + "/" + b;
      LocNormalize(cwd, a + "/" + b);
      LocConcat(cwd, a, b);
    }
  }

  /** `path.join(a, b, c)` leads to `b`, then `c`, resolved below where `a`
      leads. */
  lemma {:induction false} LocJoin3(cwd: seq<string>, a: string, b: string, c: string)
    requires Paths.Canonical(cwd, true)
    requires a != ""
    ensures Loc(cwd, Paths.Join([a, b, c]))
         == Paths.NormFrom(Paths.NormFrom(Loc(cwd, a), Paths.SplitSlash(b), true), Paths.SplitSlash(c), true)
  {
    assert [a, b, c][1..] == [b, c];
    assert [b, c][1..] == [c];
    assert [c][1..] == [];
    assert Paths.NonEmpty([c]) == (if c == "" then [] else [c]);
    assert Paths.NonEmpty([b, c]) == (if b == "" then [] else [b]) + Paths.NonEmpty([c]);
    var la := Loc(cwd, a);
    if b == "" && c == "" {
      assert Paths.NonEmpty([a, b, c]) == [a];
      LocNormalize(cwd, a);
    } else if b == "" {
      assert Paths.NonEmpty([a, b, c]) == [a, c];
      assert Strs.Join([a, c], "/") == a + "/" + c;
      LocNormalize(cwd, a + "/" + c);
      LocConcat(cwd, a, c);
    } else if c == "" {
      assert Paths.NonEmpty([a, b, c]) == [a, b];
      assert Strs.Join([a, b], "/") == a + "/" + b;
      LocNormalize(cwd, a + "/" + b);
      LocConcat(cwd, a, b);
    } else {
      assert Paths.NonEmpty([a, b, c]) == [a, b, c];
      assert Strs.Join([c], "/") == c;
      assert Strs.Join([b, c], "/") == b + "/" + c;
      assert Strs.Join([a, b, c], "/") == a + "/" + (b + "/" + c);
      assert a + "/" + (b + "/" + c) == a + "/" + b + "/" + c;
      LocNormalize(cwd, a + "/" + b + "/" + c);
      LocConcat(cwd, a + "/" + b, c);
      LocConcat(cwd, a, b);
    }
  }

  /** A plain name resolves to one more segment. */
  lemma {:induction false} NormFromPlain(l: seq<string>, name: string)
    requires Paths.PlainName(name)
    ensures Paths.NormFrom(l, Paths.SplitSlash(name), true) == l + [name]
  {
    Paths.SplitSlashPlain(name);
  }

  predicate IsDir(n: Node, loc: seq<string>) {
    Get(n, loc).Some? && Get(n, loc).value.Dir?
  }

  predicate IsFile(n: Node, loc: seq<string>) {
    Get(n, loc).Some? && Get(n, loc).value.File?
  }

  /** Looking below a location is looking inside its node. */
  lemma {:induction false} GetAppend(n: Node, a: seq<string>, b: seq<string>)
    ensures Get(n, a + b) == if Get(n, a).Some? then Get(Get(n, a).value, b) else None
    decreases |a|
  {
    if |a| == 0 {
      assert a + b == b;
    } else {
      assert (a + b)[0] == a[0];
      assert (a + b)[1..] == a[1..] + b;
      match n
      case File(_) =>
      case Dir(es) =>
        if Find(es, a[0]).Some? {
          GetAppend(Find(es, a[0]).value, a[1..], b);
        }
    }
  }

  /** `readFile(p)`: the text of a file; `None` for a directory or nothing. */
  function ReadFile(n: Node, loc: seq<string>): (r: Option<string>)
    ensures r.Some? <==> IsFile(n, loc)
    ensures r.Some? ==> Get(n, loc) == Some(File(r.value))
  {
    match Get(n, loc)
    case Some(File(t)) => Some(t)
    case _ => None
  }

  /** `readdir(p)`: a directory's entries; `None` when there is no directory. */
  function Readdir(n: Node, loc: seq<string>): (r: Option<seq<Item>>)
    ensures r.Some? <==> IsDir(n, loc)
    ensures r.Some? ==> Get(n, loc) == Some(Dir(r.value))
  {
    match Get(n, loc)
    case Some(Dir(es)) => Some(es)
    case _ => None
  }

  // ---------------------------------------------------------------------------
  // Writing
  // ---------------------------------------------------------------------------

  /** Binds a location to a node; the parent must be a directory. */
  function Set(n: Node, loc: seq<string>, v: Node): (r: Option<Node>)
    ensures |loc| == 0 ==> r == Some(v)
    decreases |loc|
  {
    if |loc| == 0 then Some(v)
    else
      match n
      case File(_) => None
      case Dir(es) =>
        if |loc| == 1 then Some(Dir(Put(es, loc[0], v)))
        else
          match Find(es, loc[0])
          case None => None
          case Some(c) =>
            match Set(c, loc[1..], v)
            case None => None
            case Some(c') => Some(Dir(Put(es, loc[0], c')))
  }

  /** `Set` succeeds exactly when the parent is a directory. */
  lemma {:induction false} SetSucceeds(n: Node, loc: seq<string>, v: Node)
    requires |loc| > 0
    ensures Set(n, loc, v).Some? <==> IsDir(n, loc[..|loc| - 1])
    decreases |loc|
  {
    if |loc| > 1 && n.Dir? {
      assert loc[..|loc| - 1][0] == loc[0] && loc[..|loc| - 1][1..] == loc[1..][..|loc[1..]| - 1];
      if Find(n.entries, loc[0]).Some? {
        SetSucceeds(Find(n.entries, loc[0]).value, loc[1..], v);
      }
    }
  }

  /** After `Set`, the location holds the node written. */
  lemma {:induction false} SetGet(n: Node, loc: seq<string>, v: Node, r: seq<string>)
    requires Set(n, loc, v).Some?
    ensures Get(Set(n, loc, v).value, loc + r) == Get(v, r)
    decreases |loc|
  {
    if |loc| == 0 {
      assert loc + r == r;
    } else {
      assert (loc + r)[0] == loc[0] && (loc + r)[1..] == loc[1..] + r;
      if |loc| > 1 {
        SetGet(Find(n.entries, loc[0]).value, loc[1..], v, r);
      } else {
        assert loc[1..] + r == r;
      }
    }
  }

  /** `Set` changes nothing beside and away from the location. */
  lemma {:induction false} SetOther(n: Node, loc: seq<string>, v: Node, q: seq<string>)
    requires Set(n, loc, v).Some?
    requires !(q <= loc) && !(loc <= q)
    ensures Get(Set(n, loc, v).value, q) == Get(n, q)
    decreases |loc|
  {
    assert |q| > 0 && |loc| > 0;
    if q[0] == loc[0] && |loc| > 1 {
      assert !(q[1..] <= loc[1..]) && !(loc[1..] <= q[1..]);
      SetOther(Find(n.entries, loc[0]).value, loc[1..], v, q[1..]);
    }
  }

  /** `Set` keeps every directory on the way to the location a directory. */
  lemma {:induction false} SetKeepsDirs(n: Node, loc: seq<string>, v: Node, k: nat)
    requires Set(n, loc, v).Some? && k < |loc|
    ensures IsDir(Set(n, loc, v).value, loc[..k])
    decreases |loc|
  {
    if k > 0 {
      var c, c' := SetStep(n, loc, v);
      SetKeepsDirs(c, loc[1..], v, k - 1);
      assert loc[..k][0] == loc[0] && loc[..k][1..] == loc[1..][..k - 1];
      DirUnderPut(n.entries, loc[0], c', loc[..k]);
    }
  }

  /** A `Set` below the first level goes through the existing child. */
  lemma {:induction false} SetStep(n: Node, loc: seq<string>, v: Node) returns (c: Node, c': Node)
    requires Set(n, loc, v).Some? && |loc| > 1
    ensures n.Dir? && Find(n.entries, loc[0]) == Some(c)
    ensures Set(c, loc[1..], v) == Some(c')
    ensures Set(n, loc, v) == Some(Dir(Put(n.entries, loc[0], c')))
  {
    c := Find(n.entries, loc[0]).value;
    c' := Set(c, loc[1..], v).value;
  }

  /** `writeFile(p, text)`: fails on a directory, at the root, and when the
      parent is not a directory. */
  function WriteFile(n: Node, loc: seq<string>, text: string): (r: Option<Node>)
    ensures r.Some? <==> |loc| > 0 && !IsDir(n, loc) && IsDir(n, loc[..|loc| - 1])
    ensures r.Some? ==> ReadFile(r.value, loc) == Some(text)
  {
    if |loc| == 0 || IsDir(n, loc) then None
    else
      SetSucceeds(n, loc, File(text));
      SetHere(n, loc, File(text));
      Set(n, loc, File(text))
  }

  lemma {:induction false} SetHere(n: Node, loc: seq<string>, v: Node)
    ensures Set(n, loc, v).Some? ==> Get(Set(n, loc, v).value, loc) == Some(v)
  {
    if Set(n, loc, v).Some? {
      SetGet(n, loc, v, []);
      assert loc + [] == loc;
    }
  }

  /** `writeFile` changes nothing apart from the file it writes. */
  lemma {:induction false} WriteFileOther(n: Node, loc: seq<string>, text: string, q: seq<string>)
    requires WriteFile(n, loc, text).Some? && Apart(q, loc)
    ensures Get(WriteFile(n, loc, text).value, q) == Get(n, q)
  {
    SetOther(n, loc, File(text), q);
  }

  /** Two locations that part ways at some step are apart. */
  lemma {:induction false} ApartSiblings(l: seq<string>, a: string, b: string, r1: seq<string>, r2: seq<string>)
    requires a != b
    ensures Apart(l + [a] + r1, l + [b] + r2)
  {
    assert (l + [a] + r1)[|l|] == a;
    assert (l + [b] + r2)[|l|] == b;
  }

  /** `mkdir(p, {recursive: true})`: makes every missing directory on the
      way; fails when a file is in the way, including at `p` itself. */
  function MkdirP(n: Node, loc: seq<string>): (r: Option<Node>)
    decreases |loc|
  {
    match n
    case File(_) => None
    case Dir(es) =>
      if |loc| == 0 then Some(n)
      else
        var c := Find(es, loc[0]).GetOr(Dir([]));
        match MkdirP(c, loc[1..])
        case None => None
        case Some(c') => Some(Dir(Put(es, loc[0], c')))
  }

  /** `mkdir -p` fails exactly when some prefix of the location is a file. */
  lemma {:induction false} MkdirPFails(n: Node, loc: seq<string>)
    ensures MkdirP(n, loc).None? <==> exists k :: 0 <= k <= |loc| && IsFile(n, loc[..k])
    decreases |loc|
  {
    assert loc[..0] == [];
    if n.Dir? && |loc| > 0 {
      var es := n.entries;
      var c := Find(es, loc[0]).GetOr(Dir([]));
      MkdirPFails(c, loc[1..]);
      forall k | 1 <= k <= |loc| ensures IsFile(n, loc[..k]) <==> IsFile(c, loc[1..][..k - 1]) {
        assert loc[..k][0] == loc[0] && loc[..k][1..] == loc[1..][..k - 1];
        if Find(es, loc[0]).None? {
          EmptyHasOnlyRoot(loc[1..][..k - 1]);
        }
      }
      if exists k :: 0 <= k <= |loc[1..]| && IsFile(c, loc[1..][..k]) {
        var k :| 0 <= k <= |loc[1..]| && IsFile(c, loc[1..][..k]);
        assert IsFile(n, loc[..k + 1]);
      }
    }
  }

  lemma {:induction false} EmptyHasOnlyRoot(q: seq<string>)
    ensures !IsFile(Dir([]), q)
  {
  }

  /** After `mkdir -p`, the location and every prefix of it is a directory. */
  lemma {:induction false} MkdirPMakes(n: Node, loc: seq<string>, k: nat)
    requires MkdirP(n, loc).Some? && k <= |loc|
    ensures IsDir(MkdirP(n, loc).value, loc[..k])
    decreases |loc|
  {
    if k > 0 {
      var c := Find(n.entries, loc[0]).GetOr(Dir([]));
      MkdirPMakes(c, loc[1..], k - 1);
      var m := MkdirP(c, loc[1..]).value;
      assert MkdirP(n, loc) == Some(Dir(Put(n.entries, loc[0], m)));
      assert loc[..k][0] == loc[0] && loc[..k][1..] == loc[1..][..k - 1];
      DirUnderPut(n.entries, loc[0], m, loc[..k]);
    }
  }

  /** Below an entry just put into a directory is what is below that entry. */
  lemma {:induction false} DirUnderPut(es: seq<Item>, name: string, c: Node, path: seq<string>)
    requires |path| > 0 && path[0] == name
    ensures IsDir(Dir(Put(es, name, c)), path) == IsDir(c, path[1..])
  {
  }

  /** `mkdir -p` changes nothing that is not on the way to the location. */
  lemma {:induction false} MkdirPOther(n: Node, loc: seq<string>, q: seq<string>)
    requires MkdirP(n, loc).Some?
    requires !(q <= loc)
    ensures Get(MkdirP(n, loc).value, q) == Get(n, q)
    decreases |loc|
  {
    assert |q| > 0;
    if |loc| > 0 && q[0] == loc[0] {
      var c := Find(n.entries, loc[0]).GetOr(Dir([]));
      assert !(q[1..] <= loc[1..]);
      MkdirPOther(c, loc[1..], q[1..]);
      if Find(n.entries, loc[0]).None? {
        assert Get(c, q[1..]).None? by {
          assert |q[1..]| > 0;
        }
      }
    }
  }

  /** `rm(p, {recursive: true, force: true})`: removes the node and
      everything below it; a missing path is not an error. The root itself
      is left alone. */
  function Remove(n: Node, loc: seq<string>): (r: Node)
    ensures |loc| > 0 ==> Get(r, loc).None?
    ensures Get(n, loc).None? ==> r == n
  {
    if |loc| == 0 then n
    else
      var parent := loc[..|loc| - 1];
      var name := loc[|loc| - 1];
      assert loc == parent + [name];
      GetAppend(n, parent, [name]);
      match Get(n, parent)
      case Some(Dir(es)) =>
        if Find(es, name).None? then n
        else
          var p' := Dir(Drop(es, name));
          if parent == [] then
            GetAppend(p', [], [name]);
            p'
          else
            SetParentIsDir(n, parent);
            SetSucceeds(n, parent, p');
            var r := Set(n, parent, p').value;
            SetGet(n, parent, p', [name]);
            r
      case _ => n
  }

  /** Above an existing node sits a directory. */
  lemma {:induction false} SetParentIsDir(n: Node, loc: seq<string>)
    requires |loc| > 0 && Get(n, loc).Some?
    ensures IsDir(n, loc[..|loc| - 1])
  {
    var parent := loc[..|loc| - 1];
    assert loc == parent + [loc[|loc| - 1]];
    GetAppend(n, parent, [loc[|loc| - 1]]);
  }

  /** `rm -rf` changes nothing outside the removed subtree and its parent
      directory's listing. */
  lemma {:induction false} RemoveOther(n: Node, loc: seq<string>, q: seq<string>)
    requires |loc| > 0 && !(loc <= q) && !(q < loc)
    ensures Get(Remove(n, loc), q) == Get(n, q)
  {
    var parent := loc[..|loc| - 1];
    var name := loc[|loc| - 1];
    assert loc == parent + [name];
    match Get(n, parent)
    case Some(Dir(es)) =>
      if Find(es, name).Some? {
        var p' := Dir(Drop(es, name));
        RemoveAt(n, parent, name, es);
        if parent <= q {
          var rest := q[|parent|..];
          assert q == parent + rest;
          assert |rest| > 0 && rest[0] != name;
          DropKeepsOthers(es, name, rest);
          GetAppend(n, parent, rest);
          if parent != [] {
            SetGet(n, parent, p', rest);
          }
        } else if parent != [] {
          assert !(q <= parent);
          SetOther(n, parent, p', q);
        }
      }
    case _ =>
  }

  /** What `rm` leaves when the named entry exists: the parent directory
      without it. */
  lemma {:induction false} RemoveAt(n: Node, parent: seq<string>, name: string, es: seq<Item>)
    requires Get(n, parent) == Some(Dir(es)) && Find(es, name).Some?
    ensures parent == [] ==> Remove(n, parent + [name]) == Dir(Drop(es, name))
    ensures parent != [] ==> Set(n, parent, Dir(Drop(es, name))).Some?
    ensures parent != [] ==> Remove(n, parent + [name]) == Set(n, parent, Dir(Drop(es, name))).value
  {
    var loc := parent + [name];
    assert loc[..|loc| - 1] == parent && loc[|loc| - 1] == name;
    if parent != [] {
      SetParentIsDir(n, parent);
      SetSucceeds(n, parent, Dir(Drop(es, name)));
    }
  }

  /** Dropping one entry leaves the paths through the other entries alone. */
  lemma {:induction false} DropKeepsOthers(es: seq<Item>, name: string, rest: seq<string>)
    requires |rest| > 0 && rest[0] != name
    ensures Get(Dir(Drop(es, name)), rest) == Get(Dir(es), rest)
  {
    assert rest == [rest[0]] + rest[1..];
    GetAppend(Dir(es), [rest[0]], rest[1..]);
    GetAppend(Dir(Drop(es, name)), [rest[0]], rest[1..]);
  }

  // ---------------------------------------------------------------------------
  // Copying a directory tree
  // ---------------------------------------------------------------------------

  /** The file system after a step and whether the step succeeded. */
  datatype Outcome = Outcome(fs: Node, ok: bool)

  /** `copyDir(src, dest)`: `mkdir -p dest`, then each entry of the source in
      listing order, directories recursively and files with `copyFile`
      (which fails onto a directory). The first failure stops the copy;
      whatever was copied before it stays. The source is the tree as it was
      when the copy started. */
  function CopyDir(n: Node, src: Node, dest: seq<string>): Outcome
    requires src.Dir?
    decreases src, 1
  {
    match MkdirP(n, dest)
    case None => Outcome(n, false)
    case Some(m) => CopyItems(m, src.entries, dest)
  }

  function CopyItems(n: Node, es: seq<Item>, dest: seq<string>): Outcome
    decreases es, 0
  {
    if |es| == 0 then Outcome(n, true)
    else
      var e := es[0];
      var step := match e.node
        case Dir(_) => CopyDir(n, e.node, dest + [e.name])
        case File(t) =>
          match WriteFile(n, dest + [e.name], t)
          case None => Outcome(n, false)
          case Some(n') => Outcome(n', true);
      if !step.ok then step else CopyItems(step.fs, es[1..], dest)
  }

  /** `q` is neither at nor above nor below `d`. */
  predicate Apart(q: seq<string>, d: seq<string>) {
    !(q <= d) && !(d <= q)
  }

  /** A copy into `d` changes nothing apart from `d`. */
  lemma {:induction false} CopyDirFrame(n: Node, src: Node, d: seq<string>, q: seq<string>)
    requires src.Dir? && Apart(q, d)
    ensures Get(CopyDir(n, src, d).fs, q) == Get(n, q)
    decreases src, 1
  {
    if MkdirP(n, d).Some? {
      MkdirPOther(n, d, q);
      CopyItemsFrame(MkdirP(n, d).value, src.entries, d, q);
    }
  }

  /** Copying entries into `d` changes nothing outside `d` or below a name
      none of them has. */
  lemma {:induction false} CopyItemsFrame(n: Node, es: seq<Item>, d: seq<string>, q: seq<string>)
    requires !(q <= d)
    requires forall i :: 0 <= i < |es| ==> !(d + [es[i].name] <= q)
    ensures Get(CopyItems(n, es, d).fs, q) == Get(n, q)
    decreases es, 0
  {
    if |es| > 0 {
      var e := es[0];
      var loc := d + [e.name];
      assert Apart(q, loc);
      match e.node
      case Dir(_) =>
        CopyDirFrame(n, e.node, loc, q);
        CopyItemsFrame(CopyDir(n, e.node, loc).fs, es[1..], d, q);
      case File(t) =>
        if WriteFile(n, loc, t).Some? {
          SetOther(n, loc, File(t), q);
          CopyItemsFrame(WriteFile(n, loc, t).value, es[1..], d, q);
        }
    }
  }

  /** A successful copy of a well-formed tree puts every file of the source
      at the same place below the destination, with the same text. */
  lemma {:induction false} CopyDirCopies(n: Node, src: Node, d: seq<string>, r: seq<string>, t: string)
    requires src.Dir? && WellFormed(src)
    requires CopyDir(n, src, d).ok
    requires Get(src, r) == Some(File(t))
    ensures Get(CopyDir(n, src, d).fs, d + r) == Some(File(t))
    decreases src, 1
  {
    var i := EntryOnPath(src, r, t);
    var m := CopyDirMakes(n, src, d);
    CopyItemsCopies(m, src.entries, d, i, r[1..], t);
    HeadThenRest(d, r);
  }

  lemma {:induction false} HeadThenRest(d: seq<string>, r: seq<string>)
    requires |r| > 0
    ensures d + [r[0]] + r[1..] == d + r
  {
    assert [r[0]] + r[1..] == r;
  }

  /** A successful copy first makes the destination, then copies the entries. */
  lemma {:induction false} CopyDirMakes(n: Node, src: Node, d: seq<string>) returns (m: Node)
    requires src.Dir? && CopyDir(n, src, d).ok
    ensures MkdirP(n, d) == Some(m) && CopyDir(n, src, d) == CopyItems(m, src.entries, d)
  {
    m := MkdirP(n, d).value;
  }

  /** The entry of a directory that a path to one of its files goes through. */
  lemma {:induction false} EntryOnPath(src: Node, r: seq<string>, t: string) returns (i: int)
    requires src.Dir? && WellFormed(src)
    requires Get(src, r) == Some(File(t))
    ensures |r| > 0 && 0 <= i < |src.entries|
    ensures src.entries[i].name == r[0] && Get(src.entries[i].node, r[1..]) == Some(File(t))
    ensures DistinctNames(src.entries) && AllWellFormed(src.entries)
  {
    var c := Find(src.entries, r[0]).value;
    i :| 0 <= i < |src.entries| && src.entries[i] == Item(r[0], c);
  }

  lemma {:induction false} CopyItemsCopies(n: Node, es: seq<Item>, d: seq<string>, i: int, r: seq<string>, t: string)
    requires DistinctNames(es) && AllWellFormed(es)
    requires CopyItems(n, es, d).ok
    requires 0 <= i < |es| && Get(es[i].node, r) == Some(File(t))
    ensures Get(CopyItems(n, es, d).fs, d + [es[i].name] + r) == Some(File(t))
    decreases es, 0
  {
    var e := es[0];
    var loc := d + [e.name];
    var step := match e.node
      case Dir(_) => CopyDir(n, e.node, loc)
      case File(t0) =>
        match WriteFile(n, loc, t0)
        case None => Outcome(n, false)
        case Some(n') => Outcome(n', true);
    assert step.ok && CopyItems(n, es, d) == CopyItems(step.fs, es[1..], d);
    assert DistinctNames(es[1..]) && AllWellFormed(es[1..]);
    if i == 0 {
      var q := loc + r;
      match e.node {
        case Dir(_) =>
          CopyDirCopies(n, e.node, loc, r, t);
        case File(t0) =>
          assert r == [] && t0 == t;
          assert loc + r == loc;
      }
      assert forall j :: 0 <= j < |es[1..]| ==> !(d + [es[1..][j].name] <= q) by {
        forall j | 0 <= j < |es[1..]| ensures !(d + [es[1..][j].name] <= q) {
          assert es[1..][j].name == es[j + 1].name != e.name;
          assert q[|d|] == e.name;
        }
      }
      CopyItemsFrame(step.fs, es[1..], d, q);
    } else {
      assert es[1..][i - 1] == es[i];
      CopyItemsCopies(step.fs, es[1..], d, i - 1, r, t);
    }
  }
}

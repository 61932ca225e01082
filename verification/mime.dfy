/** Content types for downloads: a table from lower-case file extensions to
    MIME types, with `application/octet-stream` for anything not listed. The
    task and knowledge routes each carry their own table. */
module Mime {
  import opened Wrappers
  import Strs
  import Paths

  type Table = seq<(string, string)>

  const OctetStream := "application/octet-stream"

  /** `table[key]`: the first entry with that key. */
  function Lookup(table: Table, key: string): (r: Option<string>)
    ensures r.None? <==> forall i :: 0 <= i < |table| ==> table[i].0 != key
    ensures r.Some? ==> exists i :: 0 <= i < |table| && table[i] == (key, r.value)
    decreases |table|
  {
    if |table| == 0 then None
    else if table[0].0 == key then Some(table[0].1)
    else
      var r := Lookup(table[1..], key);
      assert forall i :: 1 <= i < |table| ==> table[i] == table[1..][i - 1];
      r
  }

  predicate DistinctKeys(table: Table) {
    forall i, j :: 0 <= i < j < |table| ==> table[i].0 != table[j].0
  }

  /** With distinct keys every entry is found under its own key. */
  lemma {:induction false} LookupEntry(table: Table, i: int)
    requires DistinctKeys(table) && 0 <= i < |table|
    ensures Lookup(table, table[i].0) == Some(table[i].1)
    decreases |table|
  {
    if i > 0 {
      assert table[1..][i - 1] == table[i];
      LookupEntry(table[1..], i - 1);
    }
  }

  /** `table[extname(p).toLowerCase()] || 'application/octet-stream'`. */
  function ContentType(table: Table, p: string): (t: string)
    ensures t == OctetStream || exists i :: 0 <= i < |table| && table[i].1 == t
  {
    match Lookup(table, Strs.ToLower(Paths.Extname(p)))
    case Some(t) => t
    case None => OctetStream
  }

  predicate Lowercase(s: string) {
    forall i :: 0 <= i < |s| ==> !('A' <= s[i] <= 'Z')
  }

  /** A file `stem.ext` in any directory gets the type listed for its
      extension, whatever the case the extension is written in. */
  lemma {:induction false} ContentTypeOfName(table: Table, i: int, dir: string, stem: string, ext: string)
    requires DistinctKeys(table) && 0 <= i < |table|
    requires stem != "" && ext != ""
    requires forall k :: 0 <= k < |stem| ==> stem[k] != '.' && stem[k] != '/'
    requires forall k :: 0 <= k < |ext| ==> ext[k] != '.' && ext[k] != '/'
    requires table[i].0 == "." + Strs.ToLower(ext)
    ensures ContentType(table, dir + "/" + stem + "." + ext) == table[i].1
  {
    LoweredExtension(dir, stem, ext);
    LookupEntry(table, i);
  }

  /** An extension no entry lists, in any case, gives the generic type. */
  lemma {:induction false} UnlistedExtension(table: Table, dir: string, stem: string, ext: string)
    requires stem != "" && ext != ""
    requires forall k :: 0 <= k < |stem| ==> stem[k] != '.' && stem[k] != '/'
    requires forall k :: 0 <= k < |ext| ==> ext[k] != '.' && ext[k] != '/'
    requires forall i :: 0 <= i < |table| ==> table[i].0 != "." + Strs.ToLower(ext)
    ensures ContentType(table, dir + "/" + stem + "." + ext) == OctetStream
  {
    LoweredExtension(dir, stem, ext);
  }

  lemma {:induction false} LoweredExtension(dir: string, stem: string, ext: string)
    requires stem != "" && ext != ""
    requires forall k :: 0 <= k < |stem| ==> stem[k] != '.' && stem[k] != '/'
    requires forall k :: 0 <= k < |ext| ==> ext[k] != '.' && ext[k] != '/'
    ensures Strs.ToLower(Paths.Extname(dir + "/" + stem + "." + ext)) == "." + Strs.ToLower(ext)
  {
    Paths.ExtnameOfName(dir, stem, ext);
    LowerDot(ext);
  }

  lemma {:induction false} LowerDot(ext: string)
    ensures Strs.ToLower("." + ext) == "." + Strs.ToLower(ext)
  {
    var a := Strs.ToLower("." + ext);
    var b := "." + Strs.ToLower(ext);
    assert forall k :: 1 <= k < |a| ==> a[k] == Strs.LowerChar(ext[k - 1]) == b[k];
  }

  /** A name without an extension gets the generic type. */
  lemma {:induction false} NoExtension(table: Table, p: string)
    requires Paths.Extname(p) == ""
    requires forall i :: 0 <= i < |table| ==> table[i].0 != ""
    ensures ContentType(table, p) == OctetStream
  {
    assert Strs.ToLower("") == "";
  }
}

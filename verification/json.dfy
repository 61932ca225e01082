/** JSON values and their serialisation as `JSON.stringify` writes them
    (no white space). Numbers are integers. */
module Json {
  import opened Wrappers
  import Strs

  datatype Json =
    | JNull
    | JBool(b: bool)
    | JNum(n: int)
    | JStr(s: string)
    | JArr(items: seq<Json>)
    | JObj(members: seq<Member>)

  datatype Member = Member(key: string, value: Json)

  /** The value of member `key` as a JavaScript object holds it: when a parsed
      text repeats a key, the last occurrence wins. */
  function Field(j: Json, key: string): (r: Option<Json>)
    ensures r.Some? ==> j.JObj? && exists i :: 0 <= i < |j.members| && j.members[i] == Member(key, r.value)
    ensures r.None? && j.JObj? ==> forall i :: 0 <= i < |j.members| ==> j.members[i].key != key
  {
    if j.JObj? then Lookup(j.members, key) else None
  }

  function Lookup(ms: seq<Member>, key: string): (r: Option<Json>)
    ensures r.Some? ==>
      exists i :: 0 <= i < |ms| && ms[i] == Member(key, r.value) && forall k :: i < k < |ms| ==> ms[k].key != key
    ensures r.None? ==> forall i :: 0 <= i < |ms| ==> ms[i].key != key
    decreases |ms|
  {
    if |ms| == 0 then None
    else if ms[|ms| - 1].key == key then Some(ms[|ms| - 1].value)
    else
      var r := Lookup(ms[..|ms| - 1], key);
      assert forall i :: 0 <= i < |ms| - 1 ==> ms[i] == ms[..|ms| - 1][i];
      r
  }

  lemma {:induction false} LookupSnoc(ms: seq<Member>, m: Member, key: string)
    ensures Lookup(ms + [m], key) == if m.key == key then Some(m.value) else Lookup(ms, key)
  {
    assert (ms + [m])[..|ms|] == ms;
  }

  predicate DistinctKeys(ms: seq<Member>) {
    forall i, j :: 0 <= i < j < |ms| ==> ms[i].key != ms[j].key
  }

  /** In an object without repeated keys, each member is what its key reads. */
  lemma {:induction false} LookupDistinct(ms: seq<Member>, i: int)
    requires DistinctKeys(ms) && 0 <= i < |ms|
    ensures Lookup(ms, ms[i].key) == Some(ms[i].value)
  {
  }

  /** The position of `key` among the members, `|ms|` when absent. */
  function KeyIndex(ms: seq<Member>, key: string): (k: nat)
    ensures k <= |ms|
    ensures k < |ms| ==> ms[k].key == key
    ensures forall i :: 0 <= i < k ==> ms[i].key != key
  {
    if |ms| == 0 then 0
    else if ms[0].key == key then 0
    else 1 + KeyIndex(ms[1..], key)
  }

  /** `obj[key] = value` on a JavaScript object: an existing key keeps its
      place and takes the new value; a new key goes last. */
  function Assign(ms: seq<Member>, key: string, v: Json): (r: seq<Member>)
    requires DistinctKeys(ms)
    ensures DistinctKeys(r)
    ensures Lookup(r, key) == Some(v)
    ensures forall k :: k != key ==> Lookup(r, k) == Lookup(ms, k)
    ensures |r| == |ms| || (|r| == |ms| + 1 && r[|ms|].key == key)
    ensures forall i :: 0 <= i < |ms| ==> r[i].key == ms[i].key
  {
    var k := KeyIndex(ms, key);
    var r := if k < |ms| then ms[k := Member(key, v)] else ms + [Member(key, v)];
    assert r[k] == Member(key, v);
    LookupDistinct(r, k);
    assert forall x :: x != key ==> Lookup(r, x) == Lookup(ms, x) by {
      forall x | x != key
        ensures Lookup(r, x) == Lookup(ms, x)
      {
        var j := KeyIndex(ms, x);
        if j < |ms| {
          assert r[j] == ms[j];
          LookupDistinct(r, j);
          LookupDistinct(ms, j);
        }
      }
    }
    r
  }

  /** An object literal whose values may be `undefined`: the defined
      fields, in the order written (`JSON.stringify` and `yaml.dump` leave
      the undefined ones out). */
  function Record(fields: seq<(string, Option<Json>)>): (ms: seq<Member>)
    ensures forall m :: m in ms ==> exists i :: 0 <= i < |fields| && fields[i] == (m.key, Some(m.value))
    ensures ms == [] <==> forall i :: 0 <= i < |fields| ==> fields[i].1.None?
    decreases |fields|
  {
    if |fields| == 0 then []
    else
      var rest := Record(fields[1..]);
      assert forall i :: 1 <= i < |fields| ==> fields[i] == fields[1..][i - 1];
      var r := (if fields[0].1.Some? then [Member(fields[0].0, fields[0].1.value)] else []) + rest;
      assert forall m :: m in rest ==> exists i :: 1 <= i < |fields| && fields[i] == (m.key, Some(m.value)) by {
        forall m | m in rest ensures exists i :: 1 <= i < |fields| && fields[i] == (m.key, Some(m.value)) {
          var i :| 0 <= i < |fields[1..]| && fields[1..][i] == (m.key, Some(m.value));
          assert fields[i + 1] == fields[1..][i];
        }
      }
      r
  }

  predicate DistinctFieldKeys(fields: seq<(string, Option<Json>)>) {
    forall i, j :: 0 <= i < j < |fields| ==> fields[i].0 != fields[j].0
  }

  /** A member before the others does not change a lookup of another key. */
  lemma {:induction false} LookupPrependOther(m: Member, ms: seq<Member>, key: string)
    requires m.key != key
    ensures Lookup([m] + ms, key) == Lookup(ms, key)
    decreases |ms|
  {
    if |ms| > 0 {
      var ms' := ms[..|ms| - 1];
      assert ([m] + ms)[..|ms|] == [m] + ms';
      LookupPrependOther(m, ms', key);
    }
  }

  /** A field of a record with distinct keys reads as written: its value
      when defined, nothing otherwise. */
  lemma {:induction false} RecordLookup(fields: seq<(string, Option<Json>)>, i: int)
    requires DistinctFieldKeys(fields) && 0 <= i < |fields|
    ensures Lookup(Record(fields), fields[i].0) == fields[i].1
    decreases |fields|, 1
  {
    if i == 0 {
      RecordLookupHead(fields);
    } else {
      RecordLookupTail(fields, i);
    }
  }

  lemma {:induction false} RecordLookupHead(fields: seq<(string, Option<Json>)>)
    requires DistinctFieldKeys(fields) && |fields| > 0
    ensures Lookup(Record(fields), fields[0].0) == fields[0].1
  {
    var rest := Record(fields[1..]);
    RestLacksHead(fields);
    if fields[0].1.Some? {
      LookupOnlyHead(Member(fields[0].0, fields[0].1.value), rest);
    } else {
      assert Record(fields) == rest;
    }
  }

  lemma {:induction false} RecordLookupTail(fields: seq<(string, Option<Json>)>, i: int)
    requires DistinctFieldKeys(fields) && 0 < i < |fields|
    ensures Lookup(Record(fields), fields[i].0) == fields[i].1
    decreases |fields|, 0
  {
    var key := fields[i].0;
    var rest := Record(fields[1..]);
    TailDistinct(fields);
    assert fields[1..][i - 1] == fields[i];
    RecordLookup(fields[1..], i - 1);
    if fields[0].1.Some? {
      LookupPrependOther(Member(fields[0].0, fields[0].1.value), rest, key);
    } else {
      assert Record(fields) == rest;
    }
  }

  lemma {:induction false} TailDistinct(fields: seq<(string, Option<Json>)>)
    requires DistinctFieldKeys(fields) && |fields| > 0
    ensures DistinctFieldKeys(fields[1..])
  {
    forall a, b | 0 <= a < b < |fields[1..]| ensures fields[1..][a].0 != fields[1..][b].0 {
      assert fields[1..][a] == fields[a + 1] && fields[1..][b] == fields[b + 1];
    }
  }

  /** With distinct keys the first field's key is nowhere in the rest. */
  lemma {:induction false} RestLacksHead(fields: seq<(string, Option<Json>)>)
    requires DistinctFieldKeys(fields) && |fields| > 0
    ensures Lookup(Record(fields[1..]), fields[0].0) == None
  {
    var rest := Record(fields[1..]);
    forall m | m in rest ensures m.key != fields[0].0 {
      var j' :| 0 <= j' < |fields[1..]| && fields[1..][j'] == (m.key, Some(m.value));
      assert fields[j' + 1] == fields[1..][j'];
    }
  }

  lemma {:induction false} LookupOnlyHead(m: Member, rest: seq<Member>)
    requires Lookup(rest, m.key) == None
    ensures Lookup([m] + rest, m.key) == Some(m.value)
  {
    var ms := [m] + rest;
    assert forall k :: 1 <= k < |ms| ==> ms[k] == rest[k - 1];
    assert ms[0] == m;
  }

  /** The fields of a three-member record literal with distinct keys. */
  lemma {:induction false} RecordOfThree(k1: string, v1: Option<Json>, k2: string, v2: Option<Json>, k3: string, v3: Option<Json>)
    requires k1 != k2 && k1 != k3 && k2 != k3
    ensures var j := JObj(Record([(k1, v1), (k2, v2), (k3, v3)]));
      Field(j, k1) == v1 && Field(j, k2) == v2 && Field(j, k3) == v3
  {
    var fields := [(k1, v1), (k2, v2), (k3, v3)];
    RecordLookup(fields, 0);
    RecordLookup(fields, 1);
    RecordLookup(fields, 2);
  }

  /** A key no field has is not in the record. */
  lemma {:induction false} RecordAbsent(fields: seq<(string, Option<Json>)>, key: string)
    requires forall i :: 0 <= i < |fields| ==> fields[i].0 != key
    ensures Lookup(Record(fields), key) == None
  {
  }

  /** A record of distinct keys has distinct keys. */
  lemma {:induction false} RecordDistinct(fields: seq<(string, Option<Json>)>)
    requires DistinctFieldKeys(fields)
    ensures DistinctKeys(Record(fields))
    decreases |fields|
  {
    if |fields| > 0 {
      var rest := Record(fields[1..]);
      assert DistinctFieldKeys(fields[1..]) by {
        forall a, b | 0 <= a < b < |fields[1..]| ensures fields[1..][a].0 != fields[1..][b].0 {
          assert fields[1..][a] == fields[a + 1] && fields[1..][b] == fields[b + 1];
        }
      }
      RecordDistinct(fields[1..]);
      forall m | m in rest ensures m.key != fields[0].0 {
        var j' :| 0 <= j' < |fields[1..]| && fields[1..][j'] == (m.key, Some(m.value));
        assert fields[j' + 1] == fields[1..][j'];
      }
      if fields[0].1.Some? {
        var ms := Record(fields);
        assert ms == [Member(fields[0].0, fields[0].1.value)] + rest;
        forall a, b | 0 <= a < b < |ms| ensures ms[a].key != ms[b].key {
          assert ms[b] == rest[b - 1];
          if a > 0 {
            assert ms[a] == rest[a - 1];
          } else {
            assert rest[b - 1] in rest;
          }
        }
      }
    }
  }

  /** Lookups in a literal object of up to three members. */
  lemma {:induction false} LookupSmall(a: Member, b: Member, c: Member, key: string)
    ensures Lookup([a], key) == if a.key == key then Some(a.value) else None
    ensures Lookup([a, b], key) ==
      if b.key == key then Some(b.value) else if a.key == key then Some(a.value) else None
    ensures Lookup([a, b, c], key) ==
      if c.key == key then Some(c.value) else if b.key == key then Some(b.value)
      else if a.key == key then Some(a.value) else None
  {
    LookupSnoc([], a, key);
    LookupSnoc([a], b, key);
    LookupSnoc([a, b], c, key);
    assert [] + [a] == [a];
    assert [a] + [b] == [a, b];
    assert [a, b] + [c] == [a, b, c];
  }

  // ---------------------------------------------------------------------------
  // JSON.stringify
  // ---------------------------------------------------------------------------

  function HexDigit(d: nat): char
    requires d < 16
  {
    "0123456789abcdef"[d]
  }

  /** The escaped form of one character inside a JSON string literal. */
  function EscapeChar(c: char): (e: string)
    ensures |e| >= 1
    ensures e[0] == '\\' <==> (c == '"' || c == '\\' || (c as int) < 0x20)
  {
    if c == '"' then "\\\""
    else if c == '\\' then "\\\\"
    else if c == '\n' then "\\n"
    else if c == '\r' then "\\r"
    else if c == '\t' then "\\t"
    else if (c as int) == 0x08 then "\\b"
    else if (c as int) == 0x0C then "\\f"
    else if (c as int) < 0x20 then "\\u00" + [HexDigit((c as int) / 16), HexDigit((c as int) % 16)]
    else [c]
  }

  function EscapeString(s: string): string
    decreases |s|
  {
    if |s| == 0 then "" else EscapeChar(s[0]) + EscapeString(s[1..])
  }

  /** Text that `JSON.stringify` copies into a string literal unchanged: no
      quote, backslash or control character. */
  predicate Plain(s: string) {
    forall i :: 0 <= i < |s| ==> s[i] != '"' && s[i] != '\\' && (s[i] as int) >= 0x20
  }

  lemma {:induction false} EscapePlain(s: string)
    requires Plain(s)
    ensures EscapeString(s) == s
    decreases |s|
  {
    if |s| > 0 {
      assert Plain(s[1..]) by {
        forall i | 0 <= i < |s[1..]| ensures s[1..][i] == s[i + 1] { }
      }
      EscapePlain(s[1..]);
      assert [s[0]] + s[1..] == s;
    }
  }

  /** `JSON.stringify` of a string: the escaped text between double quotes. */
  function Quote(s: string): (q: string)
    ensures |q| >= 2 && q[0] == '"' && q[|q| - 1] == '"'
  {
    "\"" + EscapeString(s) + "\""
  }

  /** `JSON.stringify(j)`. */
  function Stringify(j: Json): string
    decreases j
  {
    match j
    case JNull => "null"
    case JBool(b) => if b then "true" else "false"
    case JNum(n) => Strs.IntToString(n)
    case JStr(s) => Quote(s)
    case JArr(items) =>
      "[" + Strs.Join(seq(|items|, i requires 0 <= i < |items| => Stringify(items[i])), ",") + "]"
    case JObj(ms) =>
      "{" + Strs.Join(seq(|ms|, i requires 0 <= i < |ms| =>
        Quote(ms[i].key) + ":" + Stringify(ms[i].value)), ",") + "}"
  }

  function Str(s: string): Json {
    JStr(s)
  }

  function StrArray(xs: seq<string>): (j: Json)
    ensures j.JArr? && |j.items| == |xs|
  {
    JArr(seq(|xs|, i requires 0 <= i < |xs| => JStr(xs[i])))
  }

  /** The strings of a JSON array of strings. */
  function DecodeStrings(items: seq<Json>): (r: Option<seq<string>>)
    ensures r.Some? ==> |r.value| == |items| && forall i :: 0 <= i < |items| ==> items[i] == JStr(r.value[i])
    ensures r.None? ==> exists i :: 0 <= i < |items| && !items[i].JStr?
  {
    if |items| == 0 then Some([])
    else if !items[0].JStr? then None
    else
      match DecodeStrings(items[1..])
      case None => None
      case Some(rest) => Some([items[0].s] + rest)
  }

  /** Decoding reads back an array of strings. */
  lemma {:induction false} DecodeStringsOf(xs: seq<string>)
    ensures DecodeStrings(StrArray(xs).items) == Some(xs)
    decreases |xs|
  {
    if |xs| > 0 {
      assert StrArray(xs).items[1..] == StrArray(xs[1..]).items;
      DecodeStringsOf(xs[1..]);
      assert [xs[0]] + xs[1..] == xs;
    }
  }
}

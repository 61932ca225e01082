/** Named, reusable lists of MCP servers (src/storage/mcp-profile.store.ts).
    Rows are kept in insertion order; the server list is stored as the JSON
    text `JSON.stringify` writes and parsed back on every read. Identifiers
    and timestamps are parameters. */
module McpProfileStore {
  import opened Wrappers
  import opened Json
  import opened Types
  import JsonParse

  // ---------------------------------------------------------------------------
  // Servers as JSON
  // ---------------------------------------------------------------------------

  /** A validated server object: `{name, command, args?, env?}`. */
  function ServerJson(s: McpServerConfig): (j: Json)
    ensures j.JObj? && DistinctKeys(j.members)
  {
    var n := Member("name", JStr(s.name));
    var c := Member("command", JStr(s.command));
    var a := if s.args.Some? then [Member("args", StrArray(s.args.value))] else [];
    var e := if s.env.Some? then [Member("env", EnvJson(s.env.value))] else [];
    JObj([n, c] + a + e)
  }

  function ServersJson(xs: seq<McpServerConfig>): (j: Json)
    ensures j.JArr? && |j.items| == |xs|
    ensures forall i :: 0 <= i < |xs| ==> j.items[i] == ServerJson(xs[i])
  {
    JArr(seq(|xs|, i requires 0 <= i < |xs| => ServerJson(xs[i])))
  }

  /** The entries of a JSON object of strings. */
  function DecodeEnv(ms: seq<Member>): (r: Option<seq<EnvVar>>)
    ensures r.Some? ==> |r.value| == |ms|
    ensures r.Some? ==> forall i :: 0 <= i < |ms| ==> ms[i] == Member(r.value[i].name, JStr(r.value[i].value))
    ensures r.None? ==> exists i :: 0 <= i < |ms| && !ms[i].value.JStr?
  {
    if |ms| == 0 then Some([])
    else if !ms[0].value.JStr? then None
    else
      match DecodeEnv(ms[1..])
      case None => None
      case Some(rest) => Some([EnvVar(ms[0].key, ms[0].value.s)] + rest)
  }

  /** The optional `args` member: absent, or an array of strings. */
  function DecodeArgs(f: Option<Json>): Option<Option<seq<string>>> {
    match f
    case None => Some(None)
    case Some(JArr(items)) =>
      (match DecodeStrings(items) case None => None case Some(xs) => Some(Some(xs)))
    case Some(_) => None
  }

  /** The optional `env` member: absent, or an object of strings. */
  function DecodeEnvField(f: Option<Json>): Option<Option<seq<EnvVar>>> {
    match f
    case None => Some(None)
    case Some(JObj(ms)) =>
      (match DecodeEnv(ms) case None => None case Some(xs) => Some(Some(xs)))
    case Some(_) => None
  }

  /** A server read back from its JSON object; `None` when the object is not
      of the validated shape. */
  function DecodeServer(j: Json): Option<McpServerConfig> {
    match (Field(j, "name"), Field(j, "command"), DecodeArgs(Field(j, "args")), DecodeEnvField(Field(j, "env")))
    case (Some(JStr(n)), Some(JStr(c)), Some(args), Some(env)) => Some(McpServerConfig(n, c, args, env))
    case _ => None
  }

  function DecodeServers(j: Json): (r: Option<seq<McpServerConfig>>)
    ensures r.Some? ==> j.JArr? && |r.value| == |j.items|
  {
    if !j.JArr? then None else DecodeItems(j.items)
  }

  function DecodeItems(items: seq<Json>): (r: Option<seq<McpServerConfig>>)
    ensures r.Some? ==> |r.value| == |items|
  {
    if |items| == 0 then Some([])
    else
      match (DecodeServer(items[0]), DecodeItems(items[1..]))
      case (Some(x), Some(rest)) => Some([x] + rest)
      case _ => None
  }

  lemma {:induction false} DecodeEnvOf(env: seq<EnvVar>)
    ensures DecodeEnv(EnvJson(env).members) == Some(env)
    decreases |env|
  {
    if |env| > 0 {
      assert EnvJson(env).members[1..] == EnvJson(env[1..]).members;
      DecodeEnvOf(env[1..]);
      assert [EnvVar(env[0].name, env[0].value)] + env[1..] == env;
    }
  }

  /** The fields of a server object read back as written. */
  lemma {:induction false} ServerJsonFields(s: McpServerConfig)
    ensures Field(ServerJson(s), "name") == Some(JStr(s.name))
    ensures Field(ServerJson(s), "command") == Some(JStr(s.command))
    ensures Field(ServerJson(s), "args") == (if s.args.Some? then Some(StrArray(s.args.value)) else None)
    ensures Field(ServerJson(s), "env") == (if s.env.Some? then Some(EnvJson(s.env.value)) else None)
  {
    var ms := ServerJson(s).members;
    assert ms[0].key == "name" && ms[1].key == "command";
    LookupDistinct(ms, 0);
    LookupDistinct(ms, 1);
    if s.args.Some? {
      assert ms[2] == Member("args", StrArray(s.args.value));
      LookupDistinct(ms, 2);
    } else {
      assert forall i :: 0 <= i < |ms| ==> ms[i].key != "args";
    }
    if s.env.Some? {
      assert ms[|ms| - 1] == Member("env", EnvJson(s.env.value));
      LookupDistinct(ms, |ms| - 1);
    } else {
      assert forall i :: 0 <= i < |ms| ==> ms[i].key != "env";
    }
  }

  lemma {:induction false} DecodeServerJson(s: McpServerConfig)
    ensures DecodeServer(ServerJson(s)) == Some(s)
  {
    ServerJsonFields(s);
    if s.args.Some? {
      DecodeStringsOf(s.args.value);
    }
    if s.env.Some? {
      DecodeEnvOf(s.env.value);
    }
  }

  /** Servers read back as they were stored. */
  lemma {:induction false} DecodeServersJson(xs: seq<McpServerConfig>)
    ensures DecodeServers(ServersJson(xs)) == Some(xs)
    decreases |xs|
  {
    if |xs| > 0 {
      DecodeServerJson(xs[0]);
      assert ServersJson(xs).items[1..] == ServersJson(xs[1..]).items;
      DecodeServersJson(xs[1..]);
      assert [xs[0]] + xs[1..] == xs;
    }
  }

  // ---------------------------------------------------------------------------
  // The table
  // ---------------------------------------------------------------------------

  datatype Row = Row(id: string, name: string, serversJson: string, createdAt: string)

  datatype McpProfile = McpProfile(id: string, name: string, servers: seq<McpServerConfig>, createdAt: string)

  datatype Store = Store(rows: seq<Row>)

  /** The servers of a stored text; a text that does not parse to a server
      list reads as none (no row the store writes is like that). */
  function ReadServers(text: string): seq<McpServerConfig> {
    match JsonParse.Parse(text)
    case None => []
    case Some(j) => DecodeServers(j).GetOr([])
  }

  lemma {:induction false} ReadServersWritten(xs: seq<McpServerConfig>)
    ensures ReadServers(Stringify(ServersJson(xs))) == xs
  {
    JsonParse.ParseStringify(ServersJson(xs));
    DecodeServersJson(xs);
  }

  /** `toProfile(row)`. */
  function ToProfile(r: Row): (p: McpProfile)
    ensures p.id == r.id && p.name == r.name && p.createdAt == r.createdAt
  {
    McpProfile(r.id, r.name, ReadServers(r.serversJson), r.createdAt)
  }

  /** The first row with the given id. */
  function Find(rows: seq<Row>, id: string): (r: Option<Row>)
    ensures r.Some? ==> r.value in rows && r.value.id == id
    ensures r.None? <==> forall i :: 0 <= i < |rows| ==> rows[i].id != id
  {
    if |rows| == 0 then None
    else if rows[0].id == id then Some(rows[0])
    else
      var r := Find(rows[1..], id);
      assert forall i :: 1 <= i < |rows| ==> rows[i] == rows[1..][i - 1];
      r
  }

  predicate NameTaken(s: Store, name: string) {
    exists i :: 0 <= i < |s.rows| && s.rows[i].name == name
  }

  /** `getById(id)`: the profile, or `None` (null) for an unknown id. */
  function GetById(s: Store, id: string): (r: Option<McpProfile>)
    ensures r.None? <==> forall i :: 0 <= i < |s.rows| ==> s.rows[i].id != id
    ensures r.Some? ==> r.value.id == id
  {
    match Find(s.rows, id)
    case None => None
    case Some(row) => Some(ToProfile(row))
  }

  /** `list()`: every profile, in table order. */
  function List(s: Store): (r: seq<McpProfile>)
    ensures |r| == |s.rows|
    ensures forall i :: 0 <= i < |r| ==> r[i] == ToProfile(s.rows[i])
  {
    seq(|s.rows|, i requires 0 <= i < |s.rows| => ToProfile(s.rows[i]))
  }

  /** `create({name, servers})` with the generated id and the current time.
      The id is the primary key and the name is `UNIQUE`; a clash fails the
      insert. */
  function Create(s: Store, id: string, name: string, servers: seq<McpServerConfig>, now: string): (r: Result<Store, string>)
    ensures r.Ok? <==> GetById(s, id).None? && !NameTaken(s, name)
    ensures GetById(s, id).Some? ==> r == Err("UNIQUE constraint failed: mcp_profiles.id")
    ensures GetById(s, id).None? && NameTaken(s, name) ==> r == Err("UNIQUE constraint failed: mcp_profiles.name")
    ensures r.Ok? ==> GetById(r.value, id) == Some(McpProfile(id, name, servers, now))
    ensures r.Ok? ==> forall x :: x != id ==> GetById(r.value, x) == GetById(s, x)
    ensures r.Ok? ==> List(r.value) == List(s) + [McpProfile(id, name, servers, now)]
  {
    if Find(s.rows, id).Some? then Err("UNIQUE constraint failed: mcp_profiles.id")
    else if NameTaken(s, name) then Err("UNIQUE constraint failed: mcp_profiles.name")
    else
      var row := Row(id, name, Stringify(ServersJson(servers)), now);
      Inserted(s, row, servers);
      Ok(Store(s.rows + [row]))
  }

  /** Appending a row whose id is new: the row reads back as the profile it
      stores, every other id reads as before, and the listing grows by it. */
  lemma {:induction false} Inserted(s: Store, row: Row, servers: seq<McpServerConfig>)
    requires Find(s.rows, row.id).None?
    requires row.serversJson == Stringify(ServersJson(servers))
    ensures GetById(Store(s.rows + [row]), row.id) == Some(McpProfile(row.id, row.name, servers, row.createdAt))
    ensures forall x :: x != row.id ==> GetById(Store(s.rows + [row]), x) == GetById(s, x)
    ensures List(Store(s.rows + [row])) == List(s) + [McpProfile(row.id, row.name, servers, row.createdAt)]
  {
    ReadServersWritten(servers);
    FindAppend(s.rows, row);
    ListAppend(s, row);
  }

  lemma {:induction false} ListAppend(s: Store, row: Row)
    ensures List(Store(s.rows + [row])) == List(s) + [ToProfile(row)]
  {
    var l := List(Store(s.rows + [row]));
    assert forall i :: 0 <= i < |s.rows| ==> l[i] == List(s)[i];
  }


  lemma {:induction false} FindAppend(rows: seq<Row>, row: Row)
    requires Find(rows, row.id).None?
    ensures Find(rows + [row], row.id) == Some(row)
    ensures forall x :: x != row.id ==> Find(rows + [row], x) == Find(rows, x)
  {
    forall x
      ensures Find(rows + [row], x) == if x == row.id then Some(row) else Find(rows, x)
    {
      FindAppendAny(rows, row, x);
    }
  }

  lemma {:induction false} FindAppendAny(rows: seq<Row>, row: Row, x: string)
    requires x == row.id ==> Find(rows, row.id).None?
    ensures Find(rows + [row], x) == if x == row.id then Some(row) else Find(rows, x)
    decreases |rows|
  {
    if |rows| == 0 {
      assert rows + [row] == [row];
    } else {
      assert (rows + [row])[1..] == rows[1..] + [row];
      if rows[0].id != x {
        FindAppendAny(rows[1..], row, x);
      }
    }
  }

  /** The rows whose id differs from `id`, in order. */
  function Without(rows: seq<Row>, id: string): (r: seq<Row>)
    ensures forall i :: 0 <= i < |r| ==> r[i].id != id && r[i] in rows
    ensures forall x :: x in rows && x.id != id ==> x in r
  {
    if |rows| == 0 then []
    else if rows[0].id == id then Without(rows[1..], id)
    else [rows[0]] + Without(rows[1..], id)
  }

  /** `delete(id)`: the profile is gone; an unknown id changes nothing. */
  function Delete(s: Store, id: string): (r: Store)
    ensures GetById(r, id).None?
    ensures GetById(s, id).None? ==> r == s
  {
    if Find(s.rows, id).None? then s else Store(Without(s.rows, id))
  }

  /** Deleting one profile leaves the others readable as before. */
  lemma {:induction false} DeleteKeepsOthers(rows: seq<Row>, id: string, x: string)
    requires x != id
    ensures Find(Without(rows, id), x) == Find(rows, x)
    decreases |rows|
  {
    if |rows| > 0 {
      DeleteKeepsOthers(rows[1..], id, x);
      if rows[0].id != id {
        assert ([rows[0]] + Without(rows[1..], id))[1..] == Without(rows[1..], id);
      }
    }
  }

  lemma {:induction false} DeleteOthers(s: Store, id: string, x: string)
    requires x != id
    ensures GetById(Delete(s, id), x) == GetById(s, x)
  {
    if Find(s.rows, id).Some? {
      DeleteKeepsOthers(s.rows, id, x);
    }
  }
}

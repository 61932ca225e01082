/** The server configuration (src/config.ts): every setting is read from the
    environment, with a default for a variable that is unset or empty, and the
    storage locations derive from the data directory. The environment and the
    working directory are parameters. Numbers are read with `parseInt(…, 10)`;
    `None` stands for the `NaN` it returns on text without digits. */
module Config {
  import opened Wrappers
  import Strs
  import Paths

  type Env = map<string, string>

  /** The default mode is cast from the environment without a check, so it is
      kept as the text it is. */
  datatype Settings = Settings(
    port: Option<int>,
    host: string,
    maxConcurrency: Option<int>,
    defaultTimeout: Option<int>,
    defaultMode: string,
    dataDir: string,
    dbPath: string,
    workspacesDir: string,
    knowledgeDir: string,
    knowledgeMaxContext: Option<int>,
    knowledgeAutoLearn: bool,
    logLevel: string)

  /** `process.env[key] || fallback`: an unset and an empty variable both
      give the fallback. */
  function EnvOr(env: Env, key: string, fallback: string): (v: string)
    ensures key in env && env[key] != "" ==> v == env[key]
    ensures key !in env || env[key] == "" ==> v == fallback
  {
    if key in env && env[key] != "" then env[key] else fallback
  }

  /** `path.join(dir, name)`. */
  function Under(dir: string, name: string): string {
    Paths.Join([dir, name])
  }

  /** `getConfig()`. */
  function GetConfig(env: Env, cwd: string): (c: Settings)
    ensures c.dataDir == EnvOr(env, "DATA_DIR", Paths.Join([cwd, "data"]))
    ensures c.dbPath == EnvOr(env, "DB_PATH", Under(c.dataDir, "swarm.db"))
    ensures c.workspacesDir == EnvOr(env, "WORKSPACES_DIR", Under(c.dataDir, "workspaces"))
    ensures c.knowledgeDir == EnvOr(env, "KNOWLEDGE_DIR", Under(c.dataDir, "knowledge"))
    ensures !c.knowledgeAutoLearn <==> "KNOWLEDGE_AUTO_LEARN" in env && env["KNOWLEDGE_AUTO_LEARN"] == "false"
    ensures c.port == Strs.ParseInt(EnvOr(env, "PORT", "3030"))
    ensures c.maxConcurrency == Strs.ParseInt(EnvOr(env, "MAX_CONCURRENCY", "3"))
    ensures c.defaultTimeout == Strs.ParseInt(EnvOr(env, "DEFAULT_TIMEOUT", "1800000"))
    ensures c.knowledgeMaxContext == Strs.ParseInt(EnvOr(env, "KNOWLEDGE_MAX_CONTEXT", "20"))
    ensures c.host == EnvOr(env, "HOST", "0.0.0.0")
    ensures c.defaultMode == EnvOr(env, "DEFAULT_MODE", "sdk")
    ensures c.logLevel == EnvOr(env, "LOG_LEVEL", "info")
  {
    var dataDir := EnvOr(env, "DATA_DIR", Paths.Join([cwd, "data"]));
    Settings(
      Strs.ParseInt(EnvOr(env, "PORT", "3030")),
      EnvOr(env, "HOST", "0.0.0.0"),
      Strs.ParseInt(EnvOr(env, "MAX_CONCURRENCY", "3")),
      Strs.ParseInt(EnvOr(env, "DEFAULT_TIMEOUT", "1800000")),
      EnvOr(env, "DEFAULT_MODE", "sdk"),
      dataDir,
      EnvOr(env, "DB_PATH", Under(dataDir, "swarm.db")),
      EnvOr(env, "WORKSPACES_DIR", Under(dataDir, "workspaces")),
      EnvOr(env, "KNOWLEDGE_DIR", Under(dataDir, "knowledge")),
      Strs.ParseInt(EnvOr(env, "KNOWLEDGE_MAX_CONTEXT", "20")),
      !("KNOWLEDGE_AUTO_LEARN" in env && env["KNOWLEDGE_AUTO_LEARN"] == "false"),
      EnvOr(env, "LOG_LEVEL", "info"))
  }

  /** With nothing set, every setting takes its default, and the three
      storage locations lie in `<cwd>/data`. */
  lemma {:induction false} Defaults(cwd: string)
    ensures var c := GetConfig(map[], cwd);
      && c.port == Some(3030) && c.host == "0.0.0.0" && c.maxConcurrency == Some(3)
      && c.defaultTimeout == Some(1800000) && c.defaultMode == "sdk"
      && c.dataDir == Paths.Join([cwd, "data"])
      && c.dbPath == Under(c.dataDir, "swarm.db")
      && c.workspacesDir == Under(c.dataDir, "workspaces")
      && c.knowledgeDir == Under(c.dataDir, "knowledge")
      && c.knowledgeMaxContext == Some(20) && c.knowledgeAutoLearn && c.logLevel == "info"
  {
    var e: Env := map[];
    var c := GetConfig(e, cwd);
    assert EnvOr(e, "PORT", "3030") == "3030";
    assert EnvOr(e, "MAX_CONCURRENCY", "3") == "3";
    assert EnvOr(e, "DEFAULT_TIMEOUT", "1800000") == "1800000";
    assert EnvOr(e, "KNOWLEDGE_MAX_CONTEXT", "20") == "20";
    DefaultNumbers();
  }

  lemma {:induction false} DefaultNumbers()
    ensures Strs.ParseInt("3030") == Some(3030) && Strs.ParseInt("3") == Some(3)
    ensures Strs.ParseInt("1800000") == Some(1800000) && Strs.ParseInt("20") == Some(20)
  {
    DefaultPort();
    DefaultTimeout();
    DefaultConcurrency();
    DefaultContext();
  }

  lemma {:induction false} DefaultConcurrency()
    ensures Strs.ParseInt("3") == Some(3)
  {
    assert Strs.NatToString(3) == "3";
    Strs.ParseIntRoundTrip(3);
  }

  lemma {:induction false} DefaultContext()
    ensures Strs.ParseInt("20") == Some(20)
  {
    assert Strs.NatToString(2) == "2";
    assert Strs.NatToString(20) == "20";
    Strs.ParseIntRoundTrip(20);
  }

  lemma {:induction false} DefaultPort()
    ensures Strs.ParseInt("3030") == Some(3030)
  {
    assert Strs.NatToString(3) == "3";
    assert Strs.NatToString(30) == "30";
    assert Strs.NatToString(303) == "303";
    assert Strs.NatToString(3030) == "3030";
    Strs.ParseIntRoundTrip(3030);
  }

  lemma {:induction false} DefaultTimeout()
    ensures Strs.ParseInt("1800000") == Some(1800000)
  {
    assert Strs.NatToString(1) == "1";
    assert Strs.NatToString(18) == "18";
    assert Strs.NatToString(180) == "180";
    assert Strs.NatToString(1800) == "1800";
    assert Strs.NatToString(18000) == "18000";
    assert Strs.NatToString(180000) == "180000";
    assert Strs.NatToString(1800000) == "1800000";
    Strs.ParseIntRoundTrip(1800000);
  }

  /** Setting a variable to the empty text is the same as leaving it unset,
      for every variable the configuration reads (`KNOWLEDGE_AUTO_LEARN`
      included: only the exact text `false` turns learning off). */
  lemma {:induction false} EmptyIsUnset(env: Env, key: string, cwd: string)
    ensures GetConfig(env[key := ""], cwd) == GetConfig(env - {key}, cwd)
  {
    var a := env[key := ""];
    var b := env - {key};
    var dataDir := Paths.Join([cwd, "data"]);
    EnvOrEmpty(env, key, "DATA_DIR", dataDir);
    var dir := EnvOr(b, "DATA_DIR", dataDir);
    EnvOrEmpty(env, key, "DB_PATH", Under(dir, "swarm.db"));
    EnvOrEmpty(env, key, "WORKSPACES_DIR", Under(dir, "workspaces"));
    EnvOrEmpty(env, key, "KNOWLEDGE_DIR", Under(dir, "knowledge"));
    NumberEmpty(env, key, "PORT", "3030");
    NumberEmpty(env, key, "MAX_CONCURRENCY", "3");
    NumberEmpty(env, key, "DEFAULT_TIMEOUT", "1800000");
    NumberEmpty(env, key, "KNOWLEDGE_MAX_CONTEXT", "20");
    EnvOrEmpty(env, key, "HOST", "0.0.0.0");
    EnvOrEmpty(env, key, "DEFAULT_MODE", "sdk");
    EnvOrEmpty(env, key, "LOG_LEVEL", "info");
  }

  lemma {:induction false} NumberEmpty(env: Env, key: string, k: string, d: string)
    ensures Strs.ParseInt(EnvOr(env[key := ""], k, d)) == Strs.ParseInt(EnvOr(env - {key}, k, d))
  {
    EnvOrEmpty(env, key, k, d);
  }

  lemma {:induction false} EnvOrEmpty(env: Env, key: string, k: string, d: string)
    ensures EnvOr(env[key := ""], k, d) == EnvOr(env - {key}, k, d)
  {
  }

  /** A number printed into a numeric variable is read back as that number,
      whatever the default. */
  lemma {:induction false} NumbersReadBack(env: Env, cwd: string, port: int, max: int, timeout: int, context: int)
    ensures var e := env["PORT" := Strs.IntToString(port)]["MAX_CONCURRENCY" := Strs.IntToString(max)]
      ["DEFAULT_TIMEOUT" := Strs.IntToString(timeout)]["KNOWLEDGE_MAX_CONTEXT" := Strs.IntToString(context)];
      var c := GetConfig(e, cwd);
      c.port == Some(port) && c.maxConcurrency == Some(max) && c.defaultTimeout == Some(timeout)
      && c.knowledgeMaxContext == Some(context)
  {
    var e1 := env["PORT" := Strs.IntToString(port)];
    var e2 := e1["MAX_CONCURRENCY" := Strs.IntToString(max)];
    var e3 := e2["DEFAULT_TIMEOUT" := Strs.IntToString(timeout)];
    var e4 := e3["KNOWLEDGE_MAX_CONTEXT" := Strs.IntToString(context)];
    NumericKeysDiffer();
    assert e4["PORT"] == e3["PORT"] == e2["PORT"] == e1["PORT"];
    assert e4["MAX_CONCURRENCY"] == e3["MAX_CONCURRENCY"] == e2["MAX_CONCURRENCY"];
    assert e4["DEFAULT_TIMEOUT"] == e3["DEFAULT_TIMEOUT"];
    ReadNumber(e4, "PORT", "3030", port);
    ReadNumber(e4, "MAX_CONCURRENCY", "3", max);
    ReadNumber(e4, "DEFAULT_TIMEOUT", "1800000", timeout);
    ReadNumber(e4, "KNOWLEDGE_MAX_CONTEXT", "20", context);
    var c := GetConfig(e4, cwd);
    assert c.port == Strs.ParseInt(EnvOr(e4, "PORT", "3030"));
  }

  lemma {:induction false} NumericKeysDiffer()
    ensures "PORT" != "MAX_CONCURRENCY" && "PORT" != "DEFAULT_TIMEOUT" && "PORT" != "KNOWLEDGE_MAX_CONTEXT"
    ensures "MAX_CONCURRENCY" != "DEFAULT_TIMEOUT" && "MAX_CONCURRENCY" != "KNOWLEDGE_MAX_CONTEXT"
    ensures "DEFAULT_TIMEOUT" != "KNOWLEDGE_MAX_CONTEXT"
  {
    assert |"PORT"| == 4 && |"MAX_CONCURRENCY"| == 15 && |"DEFAULT_TIMEOUT"| == 15;
    assert |"KNOWLEDGE_MAX_CONTEXT"| == 21;
    assert "MAX_CONCURRENCY"[0] == 'M' && "DEFAULT_TIMEOUT"[0] == 'D';
  }

  lemma {:induction false} ReadNumber(env: Env, key: string, fallback: string, n: int)
    requires key in env && env[key] == Strs.IntToString(n)
    ensures Strs.ParseInt(EnvOr(env, key, fallback)) == Some(n)
  {
    Strs.ParseIntRoundTrip(n);
  }

  /** A data directory set in the environment moves all three storage
      locations that are not set themselves. */
  lemma {:induction false} DataDirMovesStorage(env: Env, cwd: string, dir: string)
    requires dir != ""
    requires "DB_PATH" !in env && "WORKSPACES_DIR" !in env && "KNOWLEDGE_DIR" !in env
    ensures var c := GetConfig(env["DATA_DIR" := dir], cwd);
      && c.dataDir == dir
      && c.dbPath == Under(dir, "swarm.db")
      && c.workspacesDir == Under(dir, "workspaces")
      && c.knowledgeDir == Under(dir, "knowledge")
  {
  }
}

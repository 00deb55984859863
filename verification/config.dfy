/** Configuration from the environment (internal/config/config.go): the
    summoner to follow is required, the database path and the API port have
    defaults. The process environment is a map from variable names to
    values; a variable absent from the map is unset. */
module Config {
  import opened Wrappers

  datatype ApiConfig = ApiConfig(port: string)

  datatype Config = Config(summonerId: string, databasePath: string, apiServer: ApiConfig)

  datatype ConfigError = SummonerIdNotSet

  type Env = map<string, string>

  const SummonerIdVar := "SUMMONER_ID"
  const DatabasePathVar := "DATABASE_PATH"
  const ApiPortVar := "API_PORT"

  const DefaultDatabasePath := "data.db"
  const DefaultApiPort := "8080"

  /** os.Getenv: the value, or "" when the variable is unset, so that an
      unset variable and one set to "" cannot be told apart. */
  function Getenv(env: Env, key: string): string
  {
    if key in env then env[key] else ""
  }

  /** getEnv: the value when the variable is set, even to "", and the
      fallback only when it is unset. */
  function GetEnv(env: Env, key: string, fallback: string): string
  {
    if key in env then env[key] else fallback
  }

  /** loadConfig. */
  function LoadConfig(env: Env): (r: Result<Config, ConfigError>)
    ensures r.Err? <==> SummonerIdVar !in env || env[SummonerIdVar] == ""
    ensures r.Err? ==> r.error == SummonerIdNotSet
    ensures r.Ok? ==> r.value.summonerId == env[SummonerIdVar]
    ensures r.Ok? ==> r.value.databasePath != ""
    ensures r.Ok? && DatabasePathVar in env && env[DatabasePathVar] != "" ==> r.value.databasePath == env[DatabasePathVar]
    ensures r.Ok? && (DatabasePathVar !in env || env[DatabasePathVar] == "") ==> r.value.databasePath == DefaultDatabasePath
    ensures r.Ok? && ApiPortVar in env ==> r.value.apiServer.port == env[ApiPortVar]
    ensures r.Ok? && ApiPortVar !in env ==> r.value.apiServer.port == DefaultApiPort
  {
    var summonerId := Getenv(env, SummonerIdVar);
    if summonerId == "" then Err(SummonerIdNotSet)
    else
      var databasePath := Getenv(env, DatabasePathVar);
      var databasePath := if databasePath == "" then DefaultDatabasePath else databasePath;
      Ok(Config(summonerId, databasePath, ApiConfig(GetEnv(env, ApiPortVar, DefaultApiPort))))
  }

  /** The three variables as one environment holding them. */
  function EnvOf(c: Config): (env: Env)
    ensures env.Keys == {SummonerIdVar, DatabasePathVar, ApiPortVar}
  {
    map[SummonerIdVar := c.summonerId, DatabasePathVar := c.databasePath, ApiPortVar := c.apiServer.port]
  }

  /** Only the three variables matter: environments that agree on them,
      including on which of them are set, load the same result. */
  lemma LoadConfigReadsOnlyItsVariables(env1: Env, env2: Env)
    requires forall k :: k in {SummonerIdVar, DatabasePathVar, ApiPortVar} ==>
      (k in env1 <==> k in env2) && (k in env1 ==> env1[k] == env2[k])
    ensures LoadConfig(env1) == LoadConfig(env2)
  {
    assert SummonerIdVar in {SummonerIdVar, DatabasePathVar, ApiPortVar};
    assert DatabasePathVar in {SummonerIdVar, DatabasePathVar, ApiPortVar};
    assert ApiPortVar in {SummonerIdVar, DatabasePathVar, ApiPortVar};
  }

  /** Every configuration with a summoner and a database path is loaded
      back from the environment that sets exactly its values. */
  lemma LoadConfigOfEnvOf(c: Config)
    requires c.summonerId != "" && c.databasePath != ""
    ensures LoadConfig(EnvOf(c)) == Ok(c)
  {
  }

  /** Conversely every loaded configuration is one of those, and its own
      environment loads it again. */
  lemma LoadedConfigIsCanonical(env: Env)
    requires LoadConfig(env).Ok?
    ensures var c := LoadConfig(env).value;
      c.summonerId != "" && c.databasePath != "" && LoadConfig(EnvOf(c)) == Ok(c)
  {
    LoadConfigOfEnvOf(LoadConfig(env).value);
  }

  /** Set-but-empty differs between the variables: an empty DATABASE_PATH
      falls back to the default like an unset one, while an empty API_PORT
      is kept as an empty port, unlike an unset one. */
  lemma EmptyVersusUnset(env: Env)
    requires SummonerIdVar in env && env[SummonerIdVar] != ""
    ensures LoadConfig(env[DatabasePathVar := ""]).value.databasePath
         == LoadConfig(env - {DatabasePathVar}).value.databasePath
         == DefaultDatabasePath
    ensures LoadConfig(env[ApiPortVar := ""]).value.apiServer.port == ""
    ensures LoadConfig(env - {ApiPortVar}).value.apiServer.port == DefaultApiPort
  {
    assert SummonerIdVar in env - {DatabasePathVar} && SummonerIdVar in env - {ApiPortVar};
    assert SummonerIdVar in env[DatabasePathVar := ""] && SummonerIdVar in env[ApiPortVar := ""];
  }
}

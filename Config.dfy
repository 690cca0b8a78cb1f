/** Application settings read from the process environment, with defaults. */
module Config {

  /** The process environment: the variables that are set and their values. */
  type Env = map<string, string>

  /** getEnv: the variable's value when it is set, even to "", otherwise the default. */
  function GetEnv(env: Env, key: string, defaultValue: string): string
  {
    if key in env then env[key] else defaultValue
  }

  datatype DbConfig = DbConfig(host: string, port: string, user: string, password: string, dbName: string)

  datatype ServerConfig = ServerConfig(port: string)

  datatype Config = Config(db: DbConfig, server: ServerConfig)

  /** config.New. */
  function New(env: Env): Config
  {
    Config(
      DbConfig(
        GetEnv(env, "DB_HOST", "localhost"),
        GetEnv(env, "DB_PORT", "3306"),
        GetEnv(env, "DB_USER", "user"),
        GetEnv(env, "DB_PASSWORD", "password"),
        GetEnv(env, "DB_NAME", "go_gin_db")),
      ServerConfig(GetEnv(env, "SERVER_PORT", "8080")))
  }

  /** A set variable wins over the default, even when its value is empty. */
  lemma GetEnvPrefersSetValue(env: Env, key: string, value: string, defaultValue: string)
    ensures GetEnv(env[key := value], key, defaultValue) == value
    ensures GetEnv(env[key := ""], key, defaultValue) == ""
  {
  }

  /** An unset variable gives the default. */
  lemma GetEnvFallsBack(env: Env, key: string, defaultValue: string)
    requires key !in env
    ensures GetEnv(env, key, defaultValue) == defaultValue
  {
  }

  /** With nothing set, every setting takes its default. */
  lemma NewDefaults()
    ensures New(map[]) == Config(DbConfig("localhost", "3306", "user", "password", "go_gin_db"), ServerConfig("8080"))
  {
  }

  /** Two environments agree on one variable: both unset, or both set to the same value. */
  predicate AgreeOn(e1: Env, e2: Env, key: string)
  {
    (key in e1 <==> key in e2) && (key in e1 ==> e1[key] == e2[key])
  }

  /** Each setting is decided by its own variable and no other. */
  lemma NewFieldsAreIndependent(e1: Env, e2: Env)
    ensures AgreeOn(e1, e2, "DB_HOST") ==> New(e1).db.host == New(e2).db.host
    ensures AgreeOn(e1, e2, "DB_PORT") ==> New(e1).db.port == New(e2).db.port
    ensures AgreeOn(e1, e2, "DB_USER") ==> New(e1).db.user == New(e2).db.user
    ensures AgreeOn(e1, e2, "DB_PASSWORD") ==> New(e1).db.password == New(e2).db.password
    ensures AgreeOn(e1, e2, "DB_NAME") ==> New(e1).db.dbName == New(e2).db.dbName
    ensures AgreeOn(e1, e2, "SERVER_PORT") ==> New(e1).server.port == New(e2).server.port
  {
  }
}

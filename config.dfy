/** The configuration check (main.js lines 9-16): `TOKEN` and `CLIENT_ID` must be set, and
    `GUILD_ID` is optional. An environment variable counts as set only when it is a
    non-empty string, since the check and `process.env.GUILD_ID || null` test truthiness. */
module Config {
  import opened Wrappers

  /** The three recognised variables as the process environment holds them. */
  datatype ProcessEnv = ProcessEnv(token: Option<string>, clientId: Option<string>, guildId: Option<string>)

  /** The configuration the rest of the startup uses; `guildId` is `None` for global
      registration. */
  datatype Settings = Settings(token: string, clientId: string, guildId: Option<string>)

  const MissingConfig := "❌ Defina TOKEN e CLIENT_ID no arquivo .env"

  predicate IsSet(v: Option<string>)
  {
    v.Some? && v.value != ""
  }

  /** Either the settings or the message the process exits with. */
  function ReadSettings(env: ProcessEnv): (r: Result<Settings, string>)
    ensures r.Ok? <==> IsSet(env.token) && IsSet(env.clientId)
    ensures r.Err? ==> r.error == MissingConfig
    ensures r.Ok? ==> Some(r.value.token) == env.token && Some(r.value.clientId) == env.clientId
    ensures r.Ok? ==> (r.value.guildId.Some? <==> IsSet(env.guildId))
    ensures r.Ok? && r.value.guildId.Some? ==> r.value.guildId == env.guildId
  {
    if !IsSet(env.token) || !IsSet(env.clientId) then Err(MissingConfig)
    else Ok(Settings(env.token.value, env.clientId.value, if IsSet(env.guildId) then env.guildId else None))
  }
}

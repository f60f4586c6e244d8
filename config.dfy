/** The provider tables of `src/config.ts`: which message command talks to the window
    manager and which environment variable names its IPC socket, keyed by the value of
    `IPC_PROVIDER`. */
module Config {
  import opened Wrappers

  /** The process environment, `Bun.env`. */
  type Env = map<string, string>

  /** `Bun.env[name]`: `undefined` when the variable is unset. */
  function EnvVar(env: Env, name: string): (r: Option<string>)
    ensures r.Some? <==> name in env
    ensures r.Some? ==> r.value == env[name]
  {
    if name in env then Some(env[name]) else None
  }

  /** The current provider, `Bun.env.IPC_PROVIDER`. */
  function Provider(env: Env): Option<string>
  {
    EnvVar(env, "IPC_PROVIDER")
  }

  /** What spreading a message command into an argument list fails with when the provider
      has none: `[...undefined]` throws a `TypeError`. */
  datatype SpawnError = MessageCommandNotIterable

  /** `COMMAND_CONFIG[provider]`. */
  function MessageCommandFor(provider: Option<string>): (r: Option<seq<string>>)
  {
    if provider == Some("i3") then Some(["i3-msg"])
    else if provider == Some("sway") then Some(["swaymsg", "--raw"])
    else None
  }

  /** `getMessageCommand()`: the table looked up with the provider current at the call. */
  function GetMessageCommand(env: Env): (r: Option<seq<string>>)
    ensures r.Some? <==> Provider(env) == Some("i3") || Provider(env) == Some("sway")
    ensures r.Some? ==> |r.value| >= 1 && r.value[0] == (if Provider(env) == Some("i3") then "i3-msg" else "swaymsg")
  {
    MessageCommandFor(Provider(env))
  }

  /** i3 is driven through `i3-msg`, sway through `swaymsg --raw`, and every other provider,
      unset included, has no message command. */
  lemma MessageCommandTable(env: Env)
    ensures Provider(env) == Some("i3") ==> GetMessageCommand(env) == Some(["i3-msg"])
    ensures Provider(env) == Some("sway") ==> GetMessageCommand(env) == Some(["swaymsg", "--raw"])
    ensures GetMessageCommand(env).Some? <==> Provider(env) == Some("i3") || Provider(env) == Some("sway")
    ensures GetMessageCommand(env).Some? ==> |GetMessageCommand(env).value| >= 1
  {
  }

  /** `SOCKET_ENV_VAR_CONFIG`: the values of `SWAYSOCK` and `I3SOCK`, read once when the
      module is loaded. */
  datatype SocketConfig = SocketConfig(sway: Option<string>, i3: Option<string>)

  /** The table built from the environment at load time. */
  function LoadSocketConfig(loadEnv: Env): (r: SocketConfig)
    ensures r.sway == EnvVar(loadEnv, "SWAYSOCK") && r.i3 == EnvVar(loadEnv, "I3SOCK")
  {
    SocketConfig(EnvVar(loadEnv, "SWAYSOCK"), EnvVar(loadEnv, "I3SOCK"))
  }

  /** `getSocketPath()`: the captured table looked up with the provider current at the call. */
  function GetSocketPath(config: SocketConfig, env: Env): (r: Option<string>)
    ensures r.Some? ==> (Provider(env) == Some("sway") && r == config.sway) || (Provider(env) == Some("i3") && r == config.i3)
    ensures Provider(env) != Some("sway") && Provider(env) != Some("i3") ==> r.None?
  {
    var provider := Provider(env);
    if provider == Some("sway") then config.sway
    else if provider == Some("i3") then config.i3
    else None
  }

  /** The socket path of sway is what `SWAYSOCK` held at load time, that of i3 what `I3SOCK`
      held; an unrecognised provider has none. The environment of the call matters only
      through `IPC_PROVIDER`: setting `SWAYSOCK` or `I3SOCK` after load changes nothing. */
  lemma SocketPathCapturedAtLoad(loadEnv: Env, env: Env, later: Env)
    requires Provider(env) == Provider(later)
    ensures Provider(env) == Some("sway") ==> GetSocketPath(LoadSocketConfig(loadEnv), env) == EnvVar(loadEnv, "SWAYSOCK")
    ensures Provider(env) == Some("i3") ==> GetSocketPath(LoadSocketConfig(loadEnv), env) == EnvVar(loadEnv, "I3SOCK")
    ensures Provider(env) != Some("sway") && Provider(env) != Some("i3") ==> GetSocketPath(LoadSocketConfig(loadEnv), env).None?
    ensures GetSocketPath(LoadSocketConfig(loadEnv), env) == GetSocketPath(LoadSocketConfig(loadEnv), later)
  {
  }

  /** Both tables know the same two providers: a provider without a message command has no
      socket path either. */
  lemma TablesAgreeOnProviders(config: SocketConfig, env: Env)
    ensures GetMessageCommand(env).None? ==> GetSocketPath(config, env).None?
  {
  }
}

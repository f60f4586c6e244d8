/** `src/messageCommands.ts`: sending one IPC command through the provider's command-line
    tool (`i3-msg` or `swaymsg`) instead of the socket. `command` spawns the tool and
    checks its exit code; `commandSync` spawns it synchronously and does not. */
module MessageCommands {
  import opened Wrappers
  import opened Text
  import opened Json
  import opened Commands
  import opened Config

  /** What a finished child process reports: its exit code and its two output streams. */
  datatype ProcessResult = ProcessResult(exitCode: int, stdout: string, stderr: string)

  /** `Bun.spawn` / `Bun.spawnSync` with the child run to completion: the process is not
      modelled, only what it reports for an argument vector. */
  type Spawner = seq<string> -> ProcessResult

  /** Why a command was not answered. */
  datatype CommandFailure =
    | NotACommand          // `getCommandName` throws `Could not find command`
    | NotIterable          // `[...msgCommand]` on an unknown provider
    | Exited(stderr: string)  // the tool exited non-zero; the error carries its stderr

  /** The argv `command` spawns: the message command, `-t` and the command's name, the
      payload array (an array is truthy, so it is appended even when empty), and `-m` for
      `subscribe` only. */
  function CommandArgs(msgCommand: seq<string>, name: string, code: int, payload: seq<string>): (r: seq<string>)
    ensures |r| == |msgCommand| + 3 + (if code == Subscribe then 1 else 0)
    ensures r[..|msgCommand|] == msgCommand && r[|msgCommand|] == "-t" && r[|msgCommand| + 1] == name
    ensures r[|r| - 1] == (if code == Subscribe then "-m" else StringArray(payload))
  {
    msgCommand + ["-t", name] + [StringArray(payload)] + (if code == Subscribe then ["-m"] else [])
  }

  /** The argv `commandSync` spawns: `-m` and the payload array follow the name only when
      the payload is not empty. */
  function CommandSyncArgs(msgCommand: seq<string>, name: string, payload: seq<string>): (r: seq<string>)
    ensures |r| == |msgCommand| + 2 + (if |payload| > 0 then 2 else 0)
    ensures r[..|msgCommand|] == msgCommand && r[|msgCommand|] == "-t" && r[|msgCommand| + 1] == name
    ensures |payload| > 0 ==> r[|r| - 2] == "-m" && r[|r| - 1] == StringArray(payload)
  {
    msgCommand + ["-t", name] + (if |payload| > 0 then ["-m", StringArray(payload)] else [])
  }

  /** `command(code, ...payload)`. `argv` is what was spawned, `None` when it threw before
      spawning. The reply text is returned as the tool printed it; parsing it as JSON is
      not modelled. */
  method Command(code: int, payload: seq<string>, env: Env, spawn: Spawner)
    returns (r: Result<string, CommandFailure>, argv: Option<seq<string>>)
    ensures GetCommandName(code).Failure? ==> r == Failure(NotACommand) && argv.None?
    ensures GetCommandName(code).Success? && GetMessageCommand(env).None? ==> r == Failure(NotIterable) && argv.None?
    ensures GetCommandName(code).Success? && GetMessageCommand(env).Some? ==>
              argv == Some(CommandArgs(GetMessageCommand(env).value, GetCommandName(code).value, code, payload)) &&
              (spawn(argv.value).exitCode != 0 ==> r == Failure(Exited(spawn(argv.value).stderr))) &&
              (spawn(argv.value).exitCode == 0 ==> r == Success(spawn(argv.value).stdout))
  {
    var msgCommand := GetMessageCommand(env);
    var commandName := GetCommandName(code);
    if commandName.Failure? {
      return Failure(NotACommand), None;
    }
    if msgCommand.None? {
      return Failure(NotIterable), None;
    }
    var msgArgs := msgCommand.value + ["-t", commandName.value];
    msgArgs := msgArgs + [StringArray(payload)];
    if code == Subscribe {
      msgArgs := msgArgs + ["-m"];
    } else {
      assert msgArgs + [] == msgArgs;
    }
    assert msgArgs == CommandArgs(msgCommand.value, commandName.value, code, payload);
    argv := Some(msgArgs);
    var proc := spawn(msgArgs);
    if proc.exitCode != 0 {
      return Failure(Exited(proc.stderr)), argv;
    }
    return Success(proc.stdout), argv;
  }

  /** `commandSync(code, ...payload)`: the same argv rules except for the payload, and the
      tool's output is returned whatever its exit code. */
  method CommandSync(code: int, payload: seq<string>, env: Env, spawn: Spawner)
    returns (r: Result<string, CommandFailure>, argv: Option<seq<string>>)
    ensures GetCommandName(code).Failure? ==> r == Failure(NotACommand) && argv.None?
    ensures GetCommandName(code).Success? && GetMessageCommand(env).None? ==> r == Failure(NotIterable) && argv.None?
    ensures GetCommandName(code).Success? && GetMessageCommand(env).Some? ==>
              argv == Some(CommandSyncArgs(GetMessageCommand(env).value, GetCommandName(code).value, payload)) &&
              r == Success(spawn(argv.value).stdout)
  {
    var msgCommand := GetMessageCommand(env);
    var commandName := GetCommandName(code);
    if commandName.Failure? {
      return Failure(NotACommand), None;
    }
    if msgCommand.None? {
      return Failure(NotIterable), None;
    }
    var msgArgs := msgCommand.value + ["-t", commandName.value];
    if |payload| > 0 {
      msgArgs := msgArgs + ["-m", StringArray(payload)];
    } else {
      assert msgArgs + [] == msgArgs;
    }
    assert msgArgs == CommandSyncArgs(msgCommand.value, commandName.value, payload);
    argv := Some(msgArgs);
    var proc := spawn(msgArgs);
    return Success(proc.stdout), argv;
  }

  /** Where each part of `command`'s argv sits: the message command first, then `-t`, then
      a name that `Command[...]` maps back to the code, then the payload text, then `-m`
      as the last argument exactly for `subscribe`. */
  lemma CommandArgsLayout(msgCommand: seq<string>, code: int, payload: seq<string>)
    requires 0 <= code < |CommandEntries|
    ensures var argv := CommandArgs(msgCommand, CommandEntries[code].0, code, payload);
            var n := |msgCommand|;
            argv[..n] == msgCommand && argv[n] == "-t" && CommandValue(argv[n + 1]) == Some(code) &&
            argv[n + 2] == StringArray(payload) &&
            (|argv| == n + 4 <==> code == Subscribe) && (|argv| == n + 3 <==> code != Subscribe) &&
            (code == Subscribe ==> argv[n + 3] == "-m")
  {
    CodesArePositions();
    NameOfCodeRoundTrip(code);
  }

  /** Where each part of `commandSync`'s argv sits: the same prefix, then `-m` and the payload
      text when there is a payload and nothing otherwise, whatever the command. */
  lemma CommandSyncArgsLayout(msgCommand: seq<string>, code: int, payload: seq<string>)
    requires 0 <= code < |CommandEntries|
    ensures var argv := CommandSyncArgs(msgCommand, CommandEntries[code].0, payload);
            var n := |msgCommand|;
            argv[..n] == msgCommand && argv[n] == "-t" && CommandValue(argv[n + 1]) == Some(code) &&
            (|payload| == 0 ==> |argv| == n + 2) &&
            (|payload| > 0 ==> |argv| == n + 4 && argv[n + 2] == "-m" && argv[n + 3] == StringArray(payload))
  {
    CodesArePositions();
    NameOfCodeRoundTrip(code);
  }

  /** The two variants disagree on the same request: with a payload, `command` puts `-m`
      after it (and only for `subscribe`), `commandSync` puts it before (for every command);
      without one, `command` still passes `[]`. */
  lemma VariantsDiffer(msgCommand: seq<string>, name: string, code: int, payload: seq<string>)
    ensures |payload| > 0 ==> CommandArgs(msgCommand, name, code, payload) != CommandSyncArgs(msgCommand, name, payload)
    ensures |payload| == 0 ==> CommandArgs(msgCommand, name, code, payload)[|msgCommand| + 2] == "[]"
  {
    var n := |msgCommand|;
    if |payload| > 0 {
      assert CommandSyncArgs(msgCommand, name, payload)[n + 2] == "-m";
      assert CommandArgs(msgCommand, name, code, payload)[n + 2] == StringArray(payload);
      assert StringArray(payload)[0] == '[';
    } else {
      assert QuoteAll(payload) == [];
      assert StringArray(payload) == "[" + "" + "]";
    }
  }
}

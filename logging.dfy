/** `src/logging.ts`: every log call writes a tab-separated line to the log file and, unless
    the severity is below the configured minimum, the space-joined arguments to the console
    method of that severity. */
module Logging {
  import opened Wrappers
  import opened Text
  import opened Sequences
  import opened Config

  /** The `Severity` values. */
  const SeverityDebug: string := "debug"
  const SeverityInformation: string := "info"
  const SeverityWarning: string := "warn"
  const SeverityError: string := "error"

  /** `severityIndices`: the severities from the least to the most severe. */
  const SeverityIndices: seq<string> := [SeverityDebug, SeverityInformation, SeverityWarning, SeverityError]

  /** `severityIndices.findIndex(x => x === s)`: the rank of a severity, -1 for any other text. */
  function SeverityIndex(s: string): (r: int)
    ensures -1 <= r < 4
  {
    FindIndex(SeverityIndices, (x: string) => x == s)
  }

  /** A severity ranks at its position in `severityIndices`; every other text ranks -1. */
  lemma SeverityRank(s: string)
    ensures SeverityIndex(s) == -1 <==> s !in SeverityIndices
    ensures SeverityIndex(s) >= 0 ==> SeverityIndices[SeverityIndex(s)] == s
  {
    FindIndexIsFirst(SeverityIndices, (x: string) => x == s);
  }

  /** The order: debug 0 < info 1 < warn 2 < error 3. */
  lemma SeverityRanks()
    ensures SeverityIndex(SeverityDebug) == 0 && SeverityIndex(SeverityInformation) == 1
    ensures SeverityIndex(SeverityWarning) == 2 && SeverityIndex(SeverityError) == 3
  {
    SeverityRank(SeverityDebug);
    SeverityRank(SeverityInformation);
    SeverityRank(SeverityWarning);
    SeverityRank(SeverityError);
  }

  /** `Bun.env.MINIMUM_SEVERITY ?? Severity.Warning`: the default applies only when the
      variable is unset, not when it is set to some other text. */
  function MinimumSeverity(env: Env): (r: string)
  {
    match EnvVar(env, "MINIMUM_SEVERITY")
    case None => SeverityWarning
    case Some(s) => s
  }

  /** The console methods. */
  datatype ConsoleMethod = ConsoleError | ConsoleWarn | ConsoleInfo | ConsoleDebug | ConsoleLog

  /** The `switch` of `consoleLog`. */
  function Route(severity: string): (m: ConsoleMethod)
    ensures m == ConsoleLog <==> severity !in SeverityIndices
  {
    if severity == SeverityError then ConsoleError
    else if severity == SeverityWarning then ConsoleWarn
    else if severity == SeverityInformation then ConsoleInfo
    else if severity == SeverityDebug then ConsoleDebug
    else ConsoleLog
  }

  /** `consoleLog(severity, payload)`: the console call it makes, if any. */
  function ConsoleOutput(severity: string, payload: string, env: Env): (r: Option<(ConsoleMethod, string)>)
    ensures r.Some? ==> r.value == (Route(severity), payload)
    ensures severity == SeverityError ==> r.Some?
  {
    SeverityRanks();
    if SeverityIndex(MinimumSeverity(env)) > SeverityIndex(severity) then None
    else Some((Route(severity), payload))
  }

  /** Console output is suppressed exactly when the minimum severity ranks above the message's:
      with `MINIMUM_SEVERITY` unset, debug and info are dropped and warn and error shown; an
      unrecognised minimum drops nothing; a recognised one shows a recognised severity iff it
      is at least as severe, so errors are always shown. What is shown is the payload through
      the console method named like the severity. */
  lemma ConsoleFilter(severity: string, payload: string, env: Env)
    ensures ConsoleOutput(severity, payload, env).None? <==>
              SeverityIndex(MinimumSeverity(env)) > SeverityIndex(severity)
    ensures "MINIMUM_SEVERITY" !in env ==>
              (ConsoleOutput(severity, payload, env).None? <==> severity !in [SeverityWarning, SeverityError])
    ensures MinimumSeverity(env) !in SeverityIndices ==> ConsoleOutput(severity, payload, env).Some?
    ensures severity == SeverityError ==> ConsoleOutput(severity, payload, env).Some?
    ensures ConsoleOutput(severity, payload, env).Some? ==> ConsoleOutput(severity, payload, env).value.1 == payload
  {
    SeverityRanks();
    SeverityRank(severity);
    SeverityRank(MinimumSeverity(env));
  }

  /** Each severity goes to the console method of its name; any other text to `console.log`. */
  lemma RouteBySeverity(severity: string)
    ensures Route(SeverityError) == ConsoleError && Route(SeverityWarning) == ConsoleWarn
    ensures Route(SeverityInformation) == ConsoleInfo && Route(SeverityDebug) == ConsoleDebug
    ensures Route(severity) == ConsoleLog <==> severity !in SeverityIndices
  {
  }

  /** `args.join(" ")`. */
  function Payload(args: seq<string>): string
  {
    Join(args, " ")
  }

  /** `[severity, PID, date, time, payload].join("\t")`; the process id prints in decimal,
      and the date and time are the locale strings of the moment of the call. */
  function Message(severity: string, pid: nat, date: string, time: string, args: seq<string>): (r: string)
    ensures |r| > |severity| && r[..|severity|] == severity && r[|severity|] == '\t'
  {
    Join([severity, NatToDecimal(pid), date, time, Payload(args)], "\t")
  }

  /** A file line splits back at its tabs into severity, pid, date, time and payload, and the
      payload back into the arguments at its spaces, when no field holds a tab and no
      argument a space. */
  lemma MessageReadsBack(severity: string, pid: nat, date: string, time: string, args: seq<string>)
    requires '\t' !in severity && '\t' !in date && '\t' !in time
    requires forall i :: 0 <= i < |args| ==> '\t' !in args[i] && ' ' !in args[i]
    requires |args| >= 1
    ensures Split(Message(severity, pid, date, time, args), '\t') ==
              [severity, NatToDecimal(pid), date, time, Payload(args)]
    ensures Split(Payload(args), ' ') == args
  {
    SplitJoin(args, ' ');
    PayloadHasNoTab(args);
    assert '\t' !in NatToDecimal(pid);
    var parts := [severity, NatToDecimal(pid), date, time, Payload(args)];
    SplitJoin(parts, '\t');
  }

  /** Joining tab-free texts with spaces adds no tab. */
  lemma {:induction false} PayloadHasNoTab(args: seq<string>)
    requires forall i :: 0 <= i < |args| ==> '\t' !in args[i]
    ensures '\t' !in Payload(args)
  {
    if |args| > 1 {
      PayloadHasNoTab(args[1..]);
    }
  }

  /** Why a log call rejects: `mkdir` of a folder that exists (it is not recursive), reached
      when the log file is missing but its folder is not. */
  datatype LogError = FolderExists

  /** The console and the log file as the logger sees them. */
  class Logger {
    /** The console calls made so far, in order. */
    var console: seq<(ConsoleMethod, string)>
    var folderExists: bool
    var fileExists: bool
    var file: string

    /** A log file only exists inside its folder. */
    predicate Valid()
      reads this
    {
      fileExists ==> folderExists
    }

    constructor(folderExists: bool, fileExists: bool, file: string)
      requires fileExists ==> folderExists
      ensures Valid()
      ensures console == [] && this.folderExists == folderExists && this.fileExists == fileExists && this.file == file
    {
      console := [];
      this.folderExists := folderExists;
      this.fileExists := fileExists;
      this.file := file;
    }

    /** `log(severity, ...args)`: the console call first, then the line appended to the file
        when it exists; otherwise the folder is created and the file written with the line,
        which rejects when the folder is already there. */
    method Log(severity: string, args: seq<string>, pid: nat, date: string, time: string, env: Env)
      returns (r: Result<(), LogError>)
      requires Valid()
      modifies this
      ensures Valid()
      ensures var out := ConsoleOutput(severity, Payload(args), env);
              console == old(console) + (if out.Some? then [out.value] else [])
      ensures var line := Message(severity, pid, date, time, args) + "\n";
              if old(fileExists) then
                r == Success(()) && file == old(file) + line && fileExists && folderExists == old(folderExists)
              else if old(folderExists) then
                r == Failure(FolderExists) && file == old(file) && !fileExists && folderExists
              else
                r == Success(()) && file == line && fileExists && folderExists
    {
      var payload := Payload(args);
      var message := Message(severity, pid, date, time, args);
      var out := ConsoleOutput(severity, payload, env);
      if out.Some? {
        console := console + [out.value];
      }
      if fileExists {
        file := file + message + "\n";
        return Success(());
      }
      if folderExists {
        return Failure(FolderExists);
      }
      folderExists := true;
      file := message + "\n";
      fileExists := true;
      return Success(());
    }

    /** `info(...args)`. */
    method Info(args: seq<string>, pid: nat, date: string, time: string, env: Env) returns (r: Result<(), LogError>)
      requires Valid()
      modifies this
      ensures Valid()
      ensures var out := ConsoleOutput(SeverityInformation, Payload(args), env);
              console == old(console) + (if out.Some? then [out.value] else [])
      ensures var line := Message(SeverityInformation, pid, date, time, args) + "\n";
              if old(fileExists) then r == Success(()) && file == old(file) + line && fileExists && folderExists == old(folderExists)
              else if old(folderExists) then r == Failure(FolderExists) && file == old(file) && !fileExists && folderExists
              else r == Success(()) && file == line && fileExists && folderExists
    {
      r := Log(SeverityInformation, args, pid, date, time, env);
    }

    /** `warn(...args)`. */
    method Warn(args: seq<string>, pid: nat, date: string, time: string, env: Env) returns (r: Result<(), LogError>)
      requires Valid()
      modifies this
      ensures Valid()
      ensures var out := ConsoleOutput(SeverityWarning, Payload(args), env);
              console == old(console) + (if out.Some? then [out.value] else [])
      ensures var line := Message(SeverityWarning, pid, date, time, args) + "\n";
              if old(fileExists) then r == Success(()) && file == old(file) + line && fileExists && folderExists == old(folderExists)
              else if old(folderExists) then r == Failure(FolderExists) && file == old(file) && !fileExists && folderExists
              else r == Success(()) && file == line && fileExists && folderExists
    {
      r := Log(SeverityWarning, args, pid, date, time, env);
    }

    /** `error(...args)`. */
    method Error(args: seq<string>, pid: nat, date: string, time: string, env: Env) returns (r: Result<(), LogError>)
      requires Valid()
      modifies this
      ensures Valid()
      ensures var out := ConsoleOutput(SeverityError, Payload(args), env);
              console == old(console) + (if out.Some? then [out.value] else [])
      ensures var line := Message(SeverityError, pid, date, time, args) + "\n";
              if old(fileExists) then r == Success(()) && file == old(file) + line && fileExists && folderExists == old(folderExists)
              else if old(folderExists) then r == Failure(FolderExists) && file == old(file) && !fileExists && folderExists
              else r == Success(()) && file == line && fileExists && folderExists
    {
      r := Log(SeverityError, args, pid, date, time, env);
    }

    /** `debug(...args)`. */
    method Debug(args: seq<string>, pid: nat, date: string, time: string, env: Env) returns (r: Result<(), LogError>)
      requires Valid()
      modifies this
      ensures Valid()
      ensures var out := ConsoleOutput(SeverityDebug, Payload(args), env);
              console == old(console) + (if out.Some? then [out.value] else [])
      ensures var line := Message(SeverityDebug, pid, date, time, args) + "\n";
              if old(fileExists) then r == Success(()) && file == old(file) + line && fileExists && folderExists == old(folderExists)
              else if old(folderExists) then r == Failure(FolderExists) && file == old(file) && !fileExists && folderExists
              else r == Success(()) && file == line && fileExists && folderExists
    {
      r := Log(SeverityDebug, args, pid, date, time, env);
    }
  }
}

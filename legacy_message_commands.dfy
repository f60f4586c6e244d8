/** The first message-command helper, `messageCommands.ts`: `opacity(pid, value)` sets the
    opacity of the windows of one process through the provider's command-line tool. The
    `./config` it imports sits beside it and is not part of this model; the model looks the
    message command up in the table of `src/config.ts`. */
module LegacyMessageCommands {
  import opened Wrappers
  import opened Text
  import opened Config

  /** `value.toFixed(1)`: the decimal rendering is not modelled, only what it is applied to. */
  type Fixed = real -> string

  datatype OpacityError =
    | ValueOutOfRange   // `Value is not between 0 and 1`
    | NotIterable       // `[...getMessageCommand()]` on an unknown provider

  /** The window criterion `[pid=<pid>]`. */
  function PidCriterion(pid: int): (r: string)
  {
    "[pid=" + IntToDecimal(pid) + "]"
  }

  /** `opacity(pid, value)`: `Success(None)` when it returns without spawning, otherwise the
      argv it spawns. */
  function Opacity(pid: int, value: real, env: Env, fixed: Fixed): (r: Result<Option<seq<string>>, OpacityError>)
    ensures r.Success? && r.value.Some? ==>
              pid != 0 && 0.0 <= value <= 1.0 && |r.value.value| >= 3 &&
              r.value.value[|r.value.value| - 3] == PidCriterion(pid) &&
              r.value.value[|r.value.value| - 2] == "opacity" &&
              r.value.value[|r.value.value| - 1] == fixed(value)
    ensures r == Failure(ValueOutOfRange) ==> pid != 0
  {
    if pid == 0 then Success(None)
    else if value < 0.0 || value > 1.0 then Failure(ValueOutOfRange)
    else match GetMessageCommand(env)
      case None => Failure(NotIterable)
      case Some(msgCommand) => Success(Some(msgCommand + [PidCriterion(pid), "opacity", fixed(value)]))
  }

  /** A zero pid does nothing, whatever the value; any other pid with a value outside [0, 1]
      fails, bounds included as valid; an accepted request without a message command fails
      on the spread; otherwise exactly one command is spawned. */
  lemma OpacityOutcomes(pid: int, value: real, env: Env, fixed: Fixed)
    ensures pid == 0 ==> Opacity(pid, value, env, fixed) == Success(None)
    ensures pid != 0 ==> (Opacity(pid, value, env, fixed) == Failure(ValueOutOfRange) <==> value < 0.0 || value > 1.0)
    ensures pid != 0 && 0.0 <= value <= 1.0 ==>
              (Opacity(pid, value, env, fixed) == Failure(NotIterable) <==> GetMessageCommand(env).None?)
    ensures Opacity(pid, value, env, fixed).Success? && Opacity(pid, value, env, fixed).value.Some? ==>
              pid != 0 && 0.0 <= value <= 1.0 && GetMessageCommand(env).Some?
  {
  }

  /** The spawned argv is the message command, the pid criterion, `opacity` and the rendered
      value; the criterion's digits read back as the pid. */
  lemma OpacityArgs(pid: int, value: real, env: Env, fixed: Fixed)
    requires pid != 0 && 0.0 <= value <= 1.0 && GetMessageCommand(env).Some?
    ensures var r := Opacity(pid, value, env, fixed);
            var m := GetMessageCommand(env).value;
            r.Success? && r.value.Some? && |r.value.value| == |m| + 3 &&
            r.value.value[..|m|] == m && r.value.value[|m|] == PidCriterion(pid) &&
            r.value.value[|m| + 1] == "opacity" && r.value.value[|m| + 2] == fixed(value)
    ensures var c := PidCriterion(pid);
            c[..5] == "[pid=" && c[|c| - 1] == ']' && |c| >= 7 &&
            var digits := c[5..|c| - 1];
            (digits[0] == '-' || IsDigit(digits[0])) && (forall i :: 1 <= i < |digits| ==> IsDigit(digits[i])) &&
            IntegerValue(digits) == pid
  {
    IntToDecimalRoundTrip(pid);
    var c := PidCriterion(pid);
    assert c[5..|c| - 1] == IntToDecimal(pid);
  }
}

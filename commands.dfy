/** The i3 IPC command codes (`Command`) and their reverse lookup `getCommandName`. */
module Commands {
  import opened Wrappers

  /** `Object.entries(Command)`: the keys in declaration order with their codes. */
  const CommandEntries: seq<(string, int)> := [
    ("run_command", 0), ("get_workspaces", 1), ("subscribe", 2), ("get_outputs", 3),
    ("get_tree", 4), ("get_marks", 5), ("get_bar_config", 6), ("get_version", 7),
    ("get_binding_modes", 8), ("get_config", 9), ("send_tick", 10), ("sync", 11),
    ("get_binding_state", 12)
  ]

  const RunCommand: int := 0
  const GetWorkspaces: int := 1
  const Subscribe: int := 2
  const GetOutputs: int := 3
  const GetTree: int := 4

  datatype CommandError = CommandNotFound

  /** `Command[name]`. */
  function CommandValue(name: string): (r: Option<int>)
    ensures r.Some? <==> exists i :: 0 <= i < |CommandEntries| && CommandEntries[i].0 == name
  {
    LookupKey(CommandEntries, name)
  }

  function LookupKey(entries: seq<(string, int)>, key: string): (r: Option<int>)
    ensures r.Some? <==> exists i :: 0 <= i < |entries| && entries[i].0 == key
    ensures r.Some? ==> exists i :: 0 <= i < |entries| && entries[i] == (key, r.value)
  {
    if entries == [] then None
    else if entries[0].0 == key then Some(entries[0].1)
    else
      var r := LookupKey(entries[1..], key);
      assert forall i :: 0 < i < |entries| ==> entries[i] == entries[1..][i - 1];
      r
  }

  /** The position `entries.find(([_, v]) => v === value)` stops at, or -1 when it finds nothing. */
  function FindByValue(entries: seq<(string, int)>, value: int): (r: int)
    ensures -1 <= r < |entries|
  {
    if entries == [] then -1
    else if entries[0].1 == value then 0
    else
      var r := FindByValue(entries[1..], value);
      if r == -1 then -1 else r + 1
  }

  /** `find` stops at the first entry with the value, and finds nothing only when no entry has it. */
  lemma {:induction false} FindByValueFirstMatch(entries: seq<(string, int)>, value: int)
    ensures FindByValue(entries, value) == -1 <==> forall i :: 0 <= i < |entries| ==> entries[i].1 != value
    ensures FindByValue(entries, value) >= 0 ==>
              entries[FindByValue(entries, value)].1 == value &&
              forall j :: 0 <= j < FindByValue(entries, value) ==> entries[j].1 != value
  {
    if entries != [] && entries[0].1 != value {
      FindByValueFirstMatch(entries[1..], value);
      assert forall i :: 0 < i < |entries| ==> entries[i] == entries[1..][i - 1];
    }
  }

  lemma FindPositionalCode(entries: seq<(string, int)>, value: int)
    requires forall i :: 0 <= i < |entries| ==> entries[i].1 == i
    ensures FindByValue(entries, value) == if 0 <= value < |entries| then value else -1
  {
    FindByValueFirstMatch(entries, value);
    var r := FindByValue(entries, value);
    if 0 <= value < |entries| {
      assert entries[value].1 == value;
    }
  }

  /** Each code is the position of its key in the table. */
  lemma CodesArePositions()
    ensures |CommandEntries| == 13
    ensures forall i :: 0 <= i < |CommandEntries| ==> CommandEntries[i].1 == i
  {
  }

  /** `getCommandName(command)`: the key whose code is `command`, or the error it throws. */
  function GetCommandName(command: int): (r: Result<string, CommandError>)
    ensures r.Success? <==> 0 <= command < |CommandEntries|
    ensures r.Success? ==> r.value == CommandEntries[command].0
    ensures r.Failure? ==> r.error == CommandNotFound
  {
    CodesArePositions();
    FindPositionalCode(CommandEntries, command);
    var i := FindByValue(CommandEntries, command);
    if i == -1 then Failure(CommandNotFound) else Success(CommandEntries[i].0)
  }

  /** The keys are pairwise distinct, and so are the codes. */
  lemma {:induction false} EntriesDistinct()
    ensures forall i, j :: 0 <= i < j < |CommandEntries| ==> CommandEntries[i].0 != CommandEntries[j].0
    ensures forall i, j :: 0 <= i < j < |CommandEntries| ==> CommandEntries[i].1 != CommandEntries[j].1
  {
    CodesArePositions();
    var names := seq(|CommandEntries|, i requires 0 <= i < |CommandEntries| => CommandEntries[i].0);
    assert names == ["run_command", "get_workspaces", "subscribe", "get_outputs", "get_tree", "get_marks",
                     "get_bar_config", "get_version", "get_binding_modes", "get_config", "send_tick", "sync",
                     "get_binding_state"];
    forall i, j | 0 <= i < j < |CommandEntries| ensures CommandEntries[i].0 != CommandEntries[j].0 {
      assert names[i] == CommandEntries[i].0 && names[j] == CommandEntries[j].0;
      assert |names[i]| != |names[j]| || names[i][0] != names[j][0] || names[i][4] != names[j][4]
        || names[i][|names[i]| - 1] != names[j][|names[j]| - 1];
    }
  }

  /** `Command[getCommandName(c)] == c` for every code in the table, and the name found is that code's key. */
  lemma NameOfCodeRoundTrip(i: nat)
    requires i < |CommandEntries|
    ensures GetCommandName(CommandEntries[i].1) == Success(CommandEntries[i].0)
    ensures CommandValue(CommandEntries[i].0) == Some(CommandEntries[i].1)
  {
    EntriesDistinct();
    CodesArePositions();
    var v := CommandValue(CommandEntries[i].0);
    var k :| 0 <= k < |CommandEntries| && CommandEntries[k] == (CommandEntries[i].0, v.value);
    assert i == k;
  }

  lemma SubscribeName()
    ensures GetCommandName(Subscribe) == Success("subscribe")
  {
    NameOfCodeRoundTrip(2);
  }
}

/** The monitor-setup feature of `src/features/monitorSetup.ts`: known output arrangements are
    registered under a hash of the connected outputs' make, model and serial, and the one for
    the current outputs is replayed as `output` commands. */
module MonitorSetup {
  import opened Wrappers
  import opened Text
  import opened Containers
  import opened Config

  /** `OutputKey`. */
  datatype OutputKey = OutputKey(make: string, model: string, serial: string)

  /** The fields of a `get_outputs` reply entry the feature reads. */
  datatype Output = Output(make: string, model: string, serial: string, active: bool, rect: Rect)

  /** One entry of the setup file: the outputs it is for and the `output` operations to run. */
  datatype SetupEntry = SetupEntry(outputs: seq<OutputKey>, commands: seq<seq<string>>)

  /** `Bun.hash(s).toString()`: the hash itself is not modelled, only what it is applied to. */
  type Hash = string -> string

  /** `createOutputKeyString(key)`. */
  function KeyString(key: OutputKey): (r: string)
    ensures |r| == |key.make| + |key.model| + |key.serial| + 2
  {
    key.make + "." + key.model + "." + key.serial
  }

  /** When no field holds a dot, the key string splits back into make, model and serial. */
  lemma KeyStringSplits(key: OutputKey)
    requires '.' !in key.make && '.' !in key.model && '.' !in key.serial
    ensures Split(KeyString(key), '.') == [key.make, key.model, key.serial]
  {
    var parts := [key.make, key.model, key.serial];
    assert Join(parts, ".") == KeyString(key) by {
      assert Join(parts[2..], ".") == key.serial;
      assert parts[1..][1..] == parts[2..];
    }
    SplitJoin(parts, '.');
  }

  /** `keys.map((x) => createOutputKeyString(x))`. */
  function KeyStrings(keys: seq<OutputKey>): (r: seq<string>)
    ensures |r| == |keys|
  {
    if keys == [] then [] else [KeyString(keys[0])] + KeyStrings(keys[1..])
  }

  lemma {:induction false} KeyStringsAppend(a: seq<OutputKey>, b: seq<OutputKey>)
    ensures KeyStrings(a + b) == KeyStrings(a) + KeyStrings(b)
  {
    if a != [] {
      assert (a + b)[1..] == a[1..] + b;
      KeyStringsAppend(a[1..], b);
    } else {
      assert a + b == b;
    }
  }

  /** The key strings of a list split around one key. */
  lemma KeyStringsSplice(pre: seq<OutputKey>, x: OutputKey, post: seq<OutputKey>)
    ensures KeyStrings(pre + ([x] + post)) == KeyStrings(pre) + ([KeyString(x)] + KeyStrings(post))
  {
    KeyStringsAppend(pre, [x] + post);
    assert ([x] + post)[1..] == post;
  }

  /** A sequence is its prefix, one element and its suffix; without that element its
      multiset loses exactly one occurrence. */
  lemma SpliceAt<T>(b: seq<T>, j: nat)
    requires j < |b|
    ensures b == b[..j] + ([b[j]] + b[j + 1..])
    ensures multiset(b[..j] + b[j + 1..]) == multiset(b) - multiset{b[j]}
  {
    assert b == b[..j] + ([b[j]] + b[j + 1..]);
  }

  /** Splicing one element out of a sequence takes it out of the multiset. */
  lemma MultisetSplice<T>(a: seq<T>, x: T, c: seq<T>)
    ensures multiset(a + ([x] + c)) == multiset(a + c) + multiset{x}
  {
  }

  /** Taking one key out of a list takes its key string out of the key strings. */
  lemma KeyStringsRemove(b: seq<OutputKey>, j: nat)
    requires j < |b|
    ensures multiset(KeyStrings(b)) == multiset(KeyStrings(b[..j] + b[j + 1..])) + multiset{KeyString(b[j])}
  {
    var pre, post := b[..j], b[j + 1..];
    SpliceAt(b, j);
    KeyStringsSplice(pre, b[j], post);
    KeyStringsAppend(pre, post);
    MultisetSplice(KeyStrings(pre), KeyString(b[j]), KeyStrings(post));
  }

  /** The head of a sequence occurs in any permutation of it, and the rests are again
      permutations of each other. */
  lemma PermutationRemoveHead<T>(a: seq<T>, b: seq<T>) returns (j: nat)
    requires a != [] && multiset(a) == multiset(b)
    ensures j < |b| && b[j] == a[0]
    ensures multiset(a[1..]) == multiset(b[..j] + b[j + 1..])
  {
    assert a[0] in multiset(b);
    j :| 0 <= j < |b| && b[j] == a[0];
    SpliceAt(b, j);
    SpliceAt(a, 0);
    assert a[..0] + a[1..] == a[1..];
  }

  /** The same keys in any order give the same key strings, in some order. */
  lemma {:induction false} KeyStringsPermutation(a: seq<OutputKey>, b: seq<OutputKey>)
    requires multiset(a) == multiset(b)
    ensures multiset(KeyStrings(a)) == multiset(KeyStrings(b))
  {
    if a == [] {
      assert |multiset(b)| == 0;
    } else {
      var j := PermutationRemoveHead(a, b);
      KeyStringsPermutation(a[1..], b[..j] + b[j + 1..]);
      KeyStringsRemove(b, j);
    }
  }

  /** The string `hashOutputKeys` hashes: the sorted key strings joined with "-". */
  function HashInput(keys: seq<OutputKey>): (r: string)
    ensures keys == [] ==> r == ""
    ensures |keys| == 1 ==> r == KeyString(keys[0])
  {
    var sorted := Sort(KeyStrings(keys));
    assert |keys| == 1 ==> KeyStrings(keys) == [KeyString(keys[0])];
    assert |sorted| == |multiset(sorted)| == |KeyStrings(keys)|;
    assert |keys| == 1 ==> sorted[0] in multiset(KeyStrings(keys));

    Join(Sort(KeyStrings(keys)), "-")
  }

  /** `hashOutputKeys(keys)`. */
  function HashOutputKeys(keys: seq<OutputKey>, hash: Hash): string
  {
    hash(HashInput(keys))
  }

  /** The hash input, and so the hash, does not depend on the order of the outputs. */
  lemma HashOutputKeysIgnoresOrder(a: seq<OutputKey>, b: seq<OutputKey>, hash: Hash)
    requires multiset(a) == multiset(b)
    ensures HashInput(a) == HashInput(b)
    ensures HashOutputKeys(a, hash) == HashOutputKeys(b, hash)
  {
    KeyStringsPermutation(a, b);
    SortedUnique(Sort(KeyStrings(a)), Sort(KeyStrings(b)));
  }

  /** When no key string holds a "-", the hash input determines the key strings up to order:
      inputs differ for outputs whose key strings differ as multisets. */
  lemma HashInputDeterminesKeyStrings(a: seq<OutputKey>, b: seq<OutputKey>)
    requires forall i :: 0 <= i < |a| ==> '-' !in KeyString(a[i])
    requires forall i :: 0 <= i < |b| ==> '-' !in KeyString(b[i])
    requires HashInput(a) == HashInput(b)
    ensures multiset(KeyStrings(a)) == multiset(KeyStrings(b))
  {
    var sa, sb := Sort(KeyStrings(a)), Sort(KeyStrings(b));
    NoDashInKeyStrings(a);
    NoDashInKeyStrings(b);
    NoDashSurvivesSort(KeyStrings(a));
    NoDashSurvivesSort(KeyStrings(b));
    if |sa| >= 1 && |sb| >= 1 {
      SplitJoin(sa, '-');
      SplitJoin(sb, '-');
    }
  }

  lemma {:induction false} NoDashInKeyStrings(keys: seq<OutputKey>)
    requires forall i :: 0 <= i < |keys| ==> '-' !in KeyString(keys[i])
    ensures forall i :: 0 <= i < |KeyStrings(keys)| ==> '-' !in KeyStrings(keys)[i]
  {
    if keys != [] {
      NoDashInKeyStrings(keys[1..]);
      assert forall i :: 1 <= i < |keys| ==> KeyStrings(keys)[i] == KeyStrings(keys[1..])[i - 1];
    }
  }

  lemma NoDashSurvivesSort(s: seq<string>)
    requires forall i :: 0 <= i < |s| ==> '-' !in s[i]
    ensures forall i :: 0 <= i < |Sort(s)| ==> '-' !in Sort(s)[i]
  {
    forall i | 0 <= i < |Sort(s)| ensures '-' !in Sort(s)[i] {
      assert Sort(s)[i] in multiset(Sort(s));
      assert Sort(s)[i] in multiset(s);
    }
  }

  /** The key an entry is registered under, as a function of the entry. */
  type EntryKey = SetupEntry -> string

  /** The key the constructor computes for an entry: `hashOutputKeys(setup.outputs)`. */
  function SetupKey(hash: Hash): EntryKey
  {
    (e: SetupEntry) => HashOutputKeys(e.outputs, hash)
  }

  /** The setups registered entry by entry under `keyOf`: a later entry with the same key
      replaces an earlier one. */
  function Registry(loaded: seq<SetupEntry>, keyOf: EntryKey): (r: map<string, seq<seq<string>>>)
    ensures r.Keys == set i | 0 <= i < |loaded| :: keyOf(loaded[i])
  {
    if loaded == [] then map[]
    else
      var last := loaded[|loaded| - 1];
      Registry(loaded[..|loaded| - 1], keyOf)[keyOf(last) := last.commands]
  }

  /** The last entry registered under `key`, or -1. */
  function LastWithKey(loaded: seq<SetupEntry>, key: string, keyOf: EntryKey): (r: int)
    ensures -1 <= r < |loaded|
  {
    if loaded == [] then -1
    else if keyOf(loaded[|loaded| - 1]) == key then |loaded| - 1
    else LastWithKey(loaded[..|loaded| - 1], key, keyOf)
  }

  /** The index `LastWithKey` gives is the last entry with that key, and -1 means that no
      entry has it. */
  lemma {:induction false} LastWithKeyIsLast(loaded: seq<SetupEntry>, key: string, keyOf: EntryKey)
    ensures LastWithKey(loaded, key, keyOf) >= 0 ==>
              keyOf(loaded[LastWithKey(loaded, key, keyOf)]) == key &&
              forall j :: LastWithKey(loaded, key, keyOf) < j < |loaded| ==> keyOf(loaded[j]) != key
    ensures LastWithKey(loaded, key, keyOf) == -1 ==> forall j :: 0 <= j < |loaded| ==> keyOf(loaded[j]) != key
  {
    if loaded != [] {
      var n := |loaded| - 1;
      var init := loaded[..n];
      if keyOf(loaded[n]) != key {
        LastWithKeyIsLast(init, key, keyOf);
        forall j | 0 <= j < n ensures loaded[j] == init[j] {
        }
      }
    }
  }

  /** The registry holds a key exactly when some entry has it, and then the commands of the
      last such entry. */
  lemma {:induction false} RegistryLookup(loaded: seq<SetupEntry>, key: string, keyOf: EntryKey)
    ensures key in Registry(loaded, keyOf) <==> LastWithKey(loaded, key, keyOf) >= 0
    ensures key in Registry(loaded, keyOf) ==> Registry(loaded, keyOf)[key] == loaded[LastWithKey(loaded, key, keyOf)].commands
  {
    if loaded != [] {
      var init := loaded[..|loaded| - 1];
      RegistryLookup(init, key, keyOf);
      var i := LastWithKey(init, key, keyOf);
      if i >= 0 {
        assert init[i] == loaded[i];
      }
    }
  }

  /** The file content `initialize` ends up with: the parsed file, or no setups when it
      could not be read or parsed. */
  function LoadedSetups(file: Option<seq<SetupEntry>>): seq<SetupEntry>
  {
    if file.Some? then file.value else []
  }

  /** `outputs.map(({ make, model, serial }) => ({ make, model, serial }))`. */
  function OutputKeys(outputs: seq<Output>): (r: seq<OutputKey>)
    ensures |r| == |outputs|
    ensures forall i :: 0 <= i < |outputs| ==>
              r[i].make == outputs[i].make && r[i].model == outputs[i].model && r[i].serial == outputs[i].serial
  {
    if outputs == [] then []
    else [OutputKey(outputs[0].make, outputs[0].model, outputs[0].serial)] + OutputKeys(outputs[1..])
  }

  /** The argv of each `output` operation: the message command, "output", the operation. */
  function OperationArgvs(msgCommand: seq<string>, operations: seq<seq<string>>): (r: seq<seq<string>>)
    ensures |r| == |operations|
  {
    if operations == [] then []
    else
      OperationArgvs(msgCommand, operations[..|operations| - 1]) +
      [msgCommand + ["output"] + operations[|operations| - 1]]
  }

  /** What the lookup and loop of `checkAndLoadSetup` spawn for the setup found, if any, taken
      on their own: the spread in the loop fails only when there is an operation to spawn.
      `checkAndLoadSetup` itself fails earlier, while fetching the outputs, when there is no
      message command. */
  function LoadPlan(setup: Option<seq<seq<string>>>, msgCommand: Option<seq<string>>): (r: Result<seq<seq<string>>, SpawnError>)
    ensures r.Failure? ==> msgCommand.None? && setup.Some? && setup.value != []
    ensures r.Success? ==> |r.value| == (if setup.None? then 0 else |setup.value|)
  {
    if setup.None? || setup.value == [] then Success([])
    else if msgCommand.None? then Failure(MessageCommandNotIterable)
    else Success(OperationArgvs(msgCommand.value, setup.value))
  }

  /** With no setup for the current outputs nothing is spawned; otherwise each operation is
      spawned, in order, as `msgCommand ++ ["output"] ++ operation`. */
  lemma {:induction false} LoadPlanSpawnsOperations(setup: Option<seq<seq<string>>>, msgCommand: Option<seq<string>>)
    ensures setup.None? ==> LoadPlan(setup, msgCommand) == Success([])
    ensures setup.Some? && msgCommand.Some? ==>
              LoadPlan(setup, msgCommand).Success? &&
              |LoadPlan(setup, msgCommand).value| == |setup.value| &&
              forall i :: 0 <= i < |setup.value| ==>
                LoadPlan(setup, msgCommand).value[i] == msgCommand.value + ["output"] + setup.value[i]
    ensures setup.Some? && setup.value != [] && msgCommand.None? ==> LoadPlan(setup, msgCommand) == Failure(MessageCommandNotIterable)
  {
    if setup.Some? && msgCommand.Some? {
      OperationArgvsPositions(msgCommand.value, setup.value);
    }
  }

  lemma {:induction false} OperationArgvsPositions(msgCommand: seq<string>, operations: seq<seq<string>>)
    ensures forall i :: 0 <= i < |operations| ==>
              OperationArgvs(msgCommand, operations)[i] == msgCommand + ["output"] + operations[i]
  {
    if operations != [] {
      var init := operations[..|operations| - 1];
      OperationArgvsPositions(msgCommand, init);
      assert forall i :: 0 <= i < |init| ==> init[i] == operations[i];
    }
  }

  /** `"${make} ${model} ${serial}"`, quotes included. */
  function QuotedName(o: Output): string
  {
    "\"" + o.make + " " + o.model + " " + o.serial + "\""
  }

  /** The operation `saveCurrentSetup` describes for one output. */
  function DescribeOutput(o: Output): (r: seq<string>)
  {
    if !o.active then [QuotedName(o), "disable"]
    else [QuotedName(o), "pos", IntToDecimal(o.rect.x), IntToDecimal(o.rect.y)]
  }

  /** An inactive output is described as disabled; an active one by its position, written
      in decimal so that it reads back as the rectangle's x and y. */
  lemma DescribeOutputReadsBack(o: Output)
    ensures DescribeOutput(o)[0] == QuotedName(o)
    ensures |DescribeOutput(o)| == 2 <==> !o.active
    ensures !o.active ==> DescribeOutput(o)[1] == "disable"
    ensures o.active ==>
              |DescribeOutput(o)| == 4 && DescribeOutput(o)[1] == "pos" &&
              IntegerValue(DescribeOutput(o)[2]) == o.rect.x && IntegerValue(DescribeOutput(o)[3]) == o.rect.y
  {
    IntToDecimalRoundTrip(o.rect.x);
    IntToDecimalRoundTrip(o.rect.y);
  }

  /** `outputs.map(...)` in `saveCurrentSetup`: one operation per output, in order. */
  function Describe(outputs: seq<Output>): (r: seq<seq<string>>)
    ensures |r| == |outputs|
  {
    if outputs == [] then [] else [DescribeOutput(outputs[0])] + Describe(outputs[1..])
  }

  lemma {:induction false} DescribePositions(outputs: seq<Output>)
    ensures forall i :: 0 <= i < |outputs| ==> Describe(outputs)[i] == DescribeOutput(outputs[i])
  {
    if outputs != [] {
      DescribePositions(outputs[1..]);
    }
  }

  /** `MonitorSetup`: the registered setups, by hash of their outputs. */
  class MonitorSetup {
    var setups: map<string, seq<seq<string>>>
    const hash: Hash

    /** The private constructor: register each loaded setup in file order. */
    constructor(loaded: seq<SetupEntry>, hash: Hash)
      ensures setups == Registry(loaded, SetupKey(hash))
      ensures this.hash == hash
    {
      this.hash := hash;
      setups := map[];
      new;
      for i := 0 to |loaded|
        invariant setups == Registry(loaded[..i], SetupKey(hash))
      {
        assert loaded[..i + 1][..i] == loaded[..i];
        setups := setups[HashOutputKeys(loaded[i].outputs, hash) := loaded[i].commands];
      }
      assert loaded[..|loaded|] == loaded;
    }

    /** `MonitorSetup.initialize({ setupFile })`, given what reading and parsing the file
        gave: None when it failed, which is logged and leaves no setups. */
    static method Initialize(file: Option<seq<SetupEntry>>, hash: Hash) returns (m: MonitorSetup)
      ensures fresh(m)
      ensures m.setups == Registry(LoadedSetups(file), SetupKey(hash)) && m.hash == hash
    {
      var loaded: seq<SetupEntry> := [];
      if file.Some? {
        loaded := file.value;
      }
      m := new MonitorSetup(loaded, hash);
    }

    /** The setup registered for `outputs`, if any. */
    function Lookup(outputs: seq<Output>): (r: Option<seq<seq<string>>>)
      reads this
      ensures r.Some? <==> HashOutputKeys(OutputKeys(outputs), hash) in setups
      ensures r.Some? ==> r.value == setups[HashOutputKeys(OutputKeys(outputs), hash)]
    {
      var key := HashOutputKeys(OutputKeys(outputs), hash);
      if key in setups then Some(setups[key]) else None
    }

    /** `checkAndLoadSetup()`, given the `get_outputs` reply and `getMessageCommand()`:
        the argv of every process it spawns, in order. Fetching the outputs spreads the
        message command first, so without one it fails before the lookup. */
    method CheckAndLoadSetup(outputs: seq<Output>, msgCommand: Option<seq<string>>)
      returns (r: Result<seq<seq<string>>, SpawnError>)
      ensures r.Failure? <==> msgCommand.None?
      ensures msgCommand.None? ==> r == Failure(MessageCommandNotIterable)
      ensures msgCommand.Some? ==> r == LoadPlan(Lookup(outputs), msgCommand)
    {
      if msgCommand.None? {
        return Failure(MessageCommandNotIterable);
      }
      var outputKeys := OutputKeys(outputs);
      var setupKey := HashOutputKeys(outputKeys, hash);
      if setupKey !in setups {
        return Success([]);
      }
      var setup := setups[setupKey];
      var spawned: seq<seq<string>> := [];
      for i := 0 to |setup|
        invariant spawned == OperationArgvs(msgCommand.value, setup[..i])
      {
        assert setup[..i + 1][..i] == setup[..i];
        spawned := spawned + [msgCommand.value + ["output"] + setup[i]];
      }
      assert setup[..|setup|] == setup;
      return Success(spawned);
    }

    /** `saveCurrentSetup()`, given the `get_outputs` reply and `getMessageCommand()`: the
        setup it ends up with, the registered one or else a description of the current
        outputs. It is neither stored nor written. Fetching the outputs spreads the message
        command first, so without one it fails. */
    method SaveCurrentSetup(outputs: seq<Output>, msgCommand: Option<seq<string>>)
      returns (r: Result<seq<seq<string>>, SpawnError>)
      ensures r.Failure? <==> msgCommand.None?
      ensures r.Failure? ==> r.error == MessageCommandNotIterable
      ensures r.Success? && Lookup(outputs).Some? ==> r.value == Lookup(outputs).value
      ensures r.Success? && Lookup(outputs).None? ==> r.value == Describe(outputs)
    {
      if msgCommand.None? {
        return Failure(MessageCommandNotIterable);
      }
      var outputKeys := OutputKeys(outputs);
      var setupKey := HashOutputKeys(outputKeys, hash);
      if setupKey in setups {
        r := Success(setups[setupKey]);
      } else {
        r := Success(Describe(outputs));
      }
    }
  }
}

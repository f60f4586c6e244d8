# i3/Sway IPC client: a verified model

This project models, in Dafny, the core of `i3-sway-ipc-bun`, a TypeScript client for Bun that
talks to the i3 and Sway window managers. The modelled parts are:

- The binary IPC frame. A frame is the magic `i3-ipc`, a little-endian u32 payload length at
  offset 6, a u32 type word at offset 10, and the payload from offset 14 on.
  - `ipcMessage.ts` has the encoder `create` and the decoder `decodeHeader`.
  - `IpcMessage.ts` is an older encoder, plus an `IpcMessage` class that reads one frame from a
    socket's read queue.
- The socket wrapper `IpcSocket`:
  - the subscription frame it writes on connect;
  - the loop that cuts one read buffer into frames and emits window events;
  - the routing of window events by their `change`;
  - the events `close` emits.
- The protocol tables (command codes, event codes, container types) and the container tree.
- The explicit-stack traversals `flattenTree`, `flatten` and the older depth-first
  `findFocused`.
- The features:
  - window dimming, as the opacity requests it makes;
  - monitor setups, keyed by a hash of the outputs;
  - the dropdown-terminal toggle;
  - the task switcher.
- The command-line message helpers (`command`, `commandSync`, `opacity`), the provider tables of
  `src/config.ts`, and the logger's severity filter and line format.

Each source file is one Dafny module, named after it. The modules are `IpcFrame`,
`IpcMessageClass`, `IpcSocket`, `Commands`, `Events`, `Containers`, `Utilities`,
`WindowDimmingFeature`, `LegacyWindowDimming`, `MonitorSetup`, `DropdownTerminal`,
`TaskSwitcher`, `MessageCommands`, `LegacyMessageCommands`, `Config` and `Logging`. The behaviour
of the JavaScript runtime they rely on is in shared modules:

- `Bytes`: Buffer integer fields;
- `Utf8`: the UTF-8 decoding of `buf.toString()` and the encoding of `Buffer.from`;
- `Text`: `join`, `split`, `String(n)`, `trim` and the default `sort`;
- `Json`: `JSON.stringify` of a string array;
- `Sequences`: `find`, `findIndex` and `filter`;
- `StackTraversal`: the work-list order shared by both flatten functions;
- `Wrappers`: `Option` and `Result`.

Where the code does something by mutation, the model does too:

- `create` writes into an `array<uint8>`.
- The frame loop is a `while` loop over a cursor, on a class that records what was written and
  emitted.
- The traversals are `while` loops over a stack.
- `WindowDimming`, `MonitorSetup`, `Logger` and `IpcMessage` are classes with the source's
  fields.

Each such method is proved against a specification function. The properties are lemmas about
those functions.

A thrown exception is modelled as the `Failure` case of a `Result`. Spawned processes, the
JSON parser, `Bun.hash`, `toFixed` and the menu program are function-typed parameters. Environment
variables are a `map<string, string>`.

The model keeps the code's behaviour as written, including where it departs from the i3 IPC
protocol, from the i3-msg and swaymsg command-line tools, or from the rest of the repository:

- **The event flag.** The i3 IPC protocol marks an event by setting the highest bit of the
  type word. `decodeHeader` tests `u32@10 & (1 << 32)` instead. JavaScript takes shift counts
  modulo 32, so this tests bit 0. The other decoder, in `IpcMessage.ts`, does test bit 31.
  `IpcMessageClass.EventFlagsDisagree` shows the two decoders disagreeing on concrete frames.
- **Partial frames.** The socket is a byte stream, so one frame can arrive split across two
  reads. The frame loop does not reassemble such frames: bytes left at the end of a buffer are
  dropped (`IpcSocket.CutHeaderEmitsNothing`).
- **The `-m` flag.** In i3-msg and swaymsg, `-m` is `--monitor`, which only applies to
  `subscribe`.
  - `command` passes the payload array as a positional argument and adds `-m` only for
    `subscribe`, after the payload.
  - `commandSync` passes `-m` followed by the payload array whenever there is a payload.
- **The end event.** `close` emits `SocketEvent.End`, which `types/events.ts` does not declare,
  so it emits under the name `undefined`. The `"end"` listener that `WindowDimming` registers
  therefore never fires.
- **The log folder.** `log` creates the log folder with a non-recursive `mkdir`. It therefore
  rejects when the log file is missing but its folder exists.
- **The dropdown-terminal lookups.** The "output" lookup matches the workspace's own id, so it
  finds the workspace itself. On a tree as the window manager sends it, the workspace lookup
  always succeeds.

## Model

| member | source | states |
|---|---|---|
| IpcFrame.MagicIsText | ipcMessage.ts:6-8 | `MAGIC` is the ASCII bytes of "i3-ipc", six bytes long, and the header is 14 bytes |
| IpcFrame.Create | ipcMessage.ts:10-23 | the buffer built in place is exactly the frame: magic, LE32 text length, LE32 type word, then the text's bytes |
| IpcFrame.FrameLayout | ipcMessage.ts:14-21 | a frame has 14 + \|text\| bytes, with the magic at 0..5; reading u32 at 6 gives the text length, reading u32 at 10 gives the type word, and bytes 14.. are the text |
| IpcFrame.EventFlagIsBitZero | ipcMessage.ts:34 | `(word & (1 << 32)) > 0` holds exactly for odd type words |
| IpcFrame.DecodeHeader | ipcMessage.ts:25-47 | a decoded header comes from at least 14 bytes; its length fits in u32 and its type fits in u16 |
| IpcFrame.DecodeHeaderOutcomes | ipcMessage.ts:25-47 | InvalidHeader iff the first 6 bytes are not the magic (shorter buffers included); a range error iff the magic is right but there are fewer than 14 bytes; a getCommandName failure iff the flag is clear and the u16 type exceeds 12; otherwise type = u16@10, length = u32@6, and isEvent iff byte 10 is odd |
| IpcFrame.DecodeHeaderDeterminedBy | ipcMessage.ts:26-34 | two buffers that agree on the magic, u32@6, u16@10 and the parity of byte 10 decode alike |
| IpcFrame.DecodeHeaderReadsFirst14BytesOnly | ipcMessage.ts:32-34 | the result depends on the first 14 bytes only, and bytes 12 and 13 are ignored |
| IpcFrame.DecodeCreated | ipcMessage.ts:10-47 | decoding a frame made by `create` gives back the type word mod 2^16, the text length, and the event flag exactly for odd words |
| IpcFrame.DecodeCreatedCommand | ipcMessage.ts:10-47 | every command code 0..12 round-trips with its own type and the text length; the odd codes come back flagged as events |
| IpcFrame.SubscribeFrameRoundTrip | src/__tests__/ipcMessage.test.ts:7-15 | `create(subscribe, ["window"])` decodes to type 2, length 10, no event, and its bytes after the header are `["window"]` |
| IpcMessageClass.Create | IpcMessage.ts:9-19 | the older encoder writes the same frame in place |
| IpcMessageClass.ReadQueue.Read | IpcMessage.ts:27 | `socket.read(n)` returns and removes the queued bytes as `ReadOutcome` says; the ended flag is unchanged |
| IpcMessageClass.ReadOutcome | IpcMessage.ts:27 | a chunk returned plus what stays queued is the old queue, and the chunk has 1..n bytes; a short chunk only comes once the stream has ended, and takes everything; `null` takes nothing |
| IpcMessageClass.HighBitFlagIsBit7 | IpcMessage.ts:34 | `(b & 0x80) === 0x80` iff b >= 128 |
| IpcMessageClass.ParseHeader | IpcMessage.ts:28-34 | a parsed header comes from at least 14 bytes, with a u16 type and a u32 length; the text in a "Magic mismatch" error comes from at most 6 bytes |
| IpcMessageClass.ParseHeaderOutcomes | IpcMessage.ts:28-34 | a "Magic mismatch" iff the first 6 bytes are not the magic; a range error iff the magic is right but the header is short; otherwise type = u16@10, length = u32@6, and isEvent iff the type word is at least 2^31 |
| IpcMessageClass.IpcMessage.FromSocket | IpcMessage.ts:26-39 | the constructor's fields, its error and the bytes it leaves queued are those of `ReadMessage` on the old queue |
| IpcMessageClass.ReadMessage | IpcMessage.ts:26-39 | the constructor consumes bytes from the front of the queue only; a message takes at least 14 of them, and the payload is the bytes right after the header |
| IpcMessageClass.ReadMessageConsumes | IpcMessage.ts:27-38 | the constructor takes exactly 14 header bytes, and then `payloadLength` more only when that is positive |
| IpcMessageClass.IpcMessage.GetPayload | IpcMessage.ts:41-46 | "" without a payload; otherwise the UTF-8 decoding of the payload bytes, with no more characters than bytes |
| IpcMessageClass.IpcMessage.GetType | IpcMessage.ts:48-53 | the stored type, whichever branch is taken |
| IpcMessageClass.ReadCreated | IpcMessage.ts:9-38 | a frame from `create` read off the queue gives the type word mod 2^16, an event flag iff the word is at least 2^31, the text's bytes as payload (none when empty), and leaves the following bytes queued |
| IpcMessageClass.GetPayloadOfCreated | IpcMessage.ts:41-46 | a payload that is the UTF-8 encoding of a text reads back as that text; for ASCII text, as in a frame from `create`, that encoding is its ASCII bytes |
| IpcMessageClass.ReadCreatedCommand | IpcMessage.ts:9-38 | every command code 0..12 reads back as a command reply of that type |
| IpcMessageClass.EventFlagsDisagree | IpcMessage.ts:34 | type word 1 is an event to `decodeHeader` but a reply to `IpcMessage`; word 2^31 is the reverse |
| IpcSocket.EmissionsMatchDeclaredEvents | types/events.ts:34-45 | focus and close emissions use the declared names and arities; "window-moved" and the end emission match no declared event |
| IpcSocket.Route | IpcSocket.ts:151-169 | a window event causes at most one emission, which is about the event's own container |
| IpcSocket.RouteByChange | IpcSocket.ts:151-169 | "focus" emits window-focus-changed with the container, "move" emits window-moved with it, and any other change emits nothing |
| IpcSocket.SubArray | IpcSocket.ts:93-96 | `subarray` clamps both ends to the buffer and is empty when they cross |
| IpcSocket.StepOn | IpcSocket.ts:92-132 | one iteration moves the cursor by at least 14 bytes, emits nothing for a header that does not decode, and emits only window events |
| IpcSocket.Dispatch | IpcSocket.ts:91-148 | the loop emits nothing past the end of the buffer, and only window events, never the end or close emissions |
| IpcSocket.StepAdvances | IpcSocket.ts:93-109 | every iteration moves the cursor by at least 14, and by 14 + payloadLength when the header decodes |
| IpcSocket.LoopTerminatesWithinCeiling | IpcSocket.ts:91-97 | the loop makes at most ceil(len / 14) iterations |
| IpcSocket.BadHeaderIsSkipped | IpcSocket.ts:97-103 | a header that does not decode emits nothing, and scanning resumes 14 bytes later |
| IpcSocket.ReplyEmitsNothing | IpcSocket.ts:105-116 | a command reply emits nothing, and scanning resumes after its declared payload |
| IpcSocket.EventEmitsCases | IpcSocket.ts:118-132 | an event frame emits the routing of its parsed payload only for type 3 with a payload that parses, and nothing otherwise |
| IpcSocket.EventEmitsInOrder | IpcSocket.ts:91-132 | an event frame's emissions (of its clamped payload) come before everything after it: output follows byte order, and a failed parse does not stop later frames |
| IpcSocket.CutHeaderEmitsNothing | IpcSocket.ts:88-97 | a buffer shorter than a header emits nothing; its bytes are not kept |
| IpcSocket.DispatchShift | IpcSocket.ts:91-109 | once the scan reaches the end of a prefix, it continues on the rest exactly as the rest would scan alone |
| IpcSocket.DispatchSameRest | IpcSocket.ts:91-109 | the scan from a cursor depends only on the bytes from the cursor on |
| IpcSocket.DispatchFrame | IpcSocket.ts:87-149 | a whole created frame followed by more bytes emits what the frame emits, then what the rest emits |
| IpcSocket.SingleFrame | IpcSocket.ts:87-149 | a buffer holding exactly one created frame emits what that frame emits |
| IpcSocket.WindowEventFrame | IpcSocket.ts:113-125 | an odd type word with low 16 bits 3 emits the routing of the parsed window event |
| IpcSocket.FocusFrameEmitsFocusChanged | IpcSocket.ts:119-125 | the focus event frame i3 sends (type word 0x80000003) emits exactly window-focus-changed with its container |
| IpcSocket.IpcSocket.OnConnect | IpcSocket.ts:57-60 | on connect it writes the frame `create(subscribe, ["window"])` and emits nothing |
| IpcSocket.IpcSocket.HandleWindowEvent | IpcSocket.ts:151-169 | it emits `Route(event)` and writes nothing |
| IpcSocket.IpcSocket.ProcessMessage | IpcSocket.ts:87-149 | the emissions appended are `Dispatch` of the buffer from cursor 0 with `decodeHeader` |
| IpcSocket.IpcSocket.ScanFrames | IpcSocket.ts:91-148 | the while loop appends exactly `Dispatch` from cursor 0, for any header decoder |
| IpcSocket.IpcSocket.ProcessFrameAt | IpcSocket.ts:92-132 | one loop body returns the cursor after the frame and appends that frame's emissions |
| IpcSocket.IpcSocket.Close | IpcSocket.ts:62-81 | `close` emits the end emission and then "close", in that order |
| Commands.CommandValue | types/commands.ts:5-19 | `Command[name]` is defined iff some key of the table is `name` |
| Commands.FindByValueFirstMatch | types/commands.ts:24 | `entries.find` stops at the first entry with the value, and finds nothing only when no entry has it |
| Commands.CodesArePositions | types/commands.ts:5-19 | the table has 13 keys, run_command..get_binding_state, with codes 0..12 in order |
| Commands.GetCommandName | types/commands.ts:23-28 | succeeds iff the code is 0..12, giving the key of that code; otherwise fails with "Could not find command" |
| Commands.EntriesDistinct | types/commands.ts:5-19 | the keys are pairwise distinct, and so are the codes |
| Commands.NameOfCodeRoundTrip | types/commands.ts:5-28 | `getCommandName(Command[k]) == k` and `Command[getCommandName(c)] == c` for every table entry |
| Commands.SubscribeName | types/commands.ts:8 | `getCommandName(Command.subscribe)` is "subscribe" |
| Events.IpcEventNames | types/events.ts:16 | `Object.keys(IpcEvent)` lists the eight keys in declaration order |
| Events.EventNamesByCode | types/events.ts:3-16 | codes are 0..7 in declaration order, `IpcEventNames[c]` names code c, codes outside 0..7 have no name, and window is 3 |
| Containers.WireNameRoundTrip | types/containers.ts:22-29 | each container type has its own wire string, and parsing a wire string gives back the type |
| Containers.IsContentByWireName | types/containers.ts:116-118 | a container is content iff its type is "con" or "floating_con"; root, workspace, output and dockarea never are |
| Containers.AllNodesOfChildren | types/containers.ts:40-43 | a tree's nodes are its root followed by the nodes of its `nodes` and then its `floating_nodes` |
| StackTraversal.ExpandMultiset | src/features/windowDimming.ts:26-37 | working off a stack lists every node below its entries exactly as often as it occurs |
| StackTraversal.FlattenListsEveryNodeOnce | src/features/windowDimming.ts:22-40 | `flatten` starts with the root and lists each node of the tree exactly once (as multisets), so it has one entry per node |
| StackTraversal.FlattenExpandsRootFirst | src/features/windowDimming.ts:26-37 | the root's `nodes`, then its `floating_nodes`, follow it in their own order, and expansion continues from the last child pushed |
| Utilities.AnnotateAll | src/utilities.ts:13-20 | every listed child is a copy of that child with `parent` set to the id of the node expanded; none is lost or reordered |
| Utilities.FlattenTree | src/utilities.ts:3-27 | the stack loop returns `FlattenTreeOrder(root)` |
| Utilities.FlattenTreeMatchesFlatten | src/utilities.ts:3-27 | `flattenTree` lists the same containers in the same order as `flatten`, except for `parent`; it starts with the root and has one entry per node |
| Utilities.FlattenTreeParents | src/utilities.ts:13-20 | every entry after the root has as `parent` the id of a tree node, and is a copy of one of that node's children |
| WindowDimmingFeature.Transparency | src/features/windowDimming.ts:14-15 | both transparencies lie in (0, 1], and only the active one is 1 |
| WindowDimmingFeature.Flatten | src/features/windowDimming.ts:22-40 | the stack loop returns the stack-traversal order `StackTraversal.Flatten` |
| WindowDimmingFeature.FindFocused | src/features/windowDimming.ts:17-20 | `findFocused` is the first focused entry of `flatten` |
| WindowDimmingFeature.FindFocusedSpec | src/features/windowDimming.ts:17-20 | the result is a focused tree node with no focused entry before it in flatten order; it is undefined iff no node is focused |
| WindowDimmingFeature.GetContent | src/features/windowDimming.ts:78-83 | `getContent` is the content entries of `flatten`, in order |
| WindowDimmingFeature.GetContentListsContentNodes | src/features/windowDimming.ts:78-83 | every content node of the tree is listed as often as it occurs there, and nothing else |
| WindowDimmingFeature.InitialPlanLevels | src/features/windowDimming.ts:103-109 | `initialize` sets each content container in turn: active iff focused, dimmed otherwise |
| WindowDimmingFeature.ResetPlanLevels | src/features/windowDimming.ts:85-90 | `shutdown` sets each content container in turn to active, and dims nothing |
| WindowDimmingFeature.FocusRequests | src/features/windowDimming.ts:112-130 | at most two requests; any request means the container is content, and the last one activates it; only the tracked container is ever dimmed |
| WindowDimmingFeature.NextFocused | src/features/windowDimming.ts:115-129 | the tracked container either stays, or becomes the event's container; after content it has that content's id; it only changes when requests are made |
| WindowDimmingFeature.NonContentIsIgnored | src/features/windowDimming.ts:115-121 | a focus change to a non-content container changes neither the tracked container nor any opacity |
| WindowDimmingFeature.SameIdRequestsNothing | src/features/windowDimming.ts:123-130 | a focus change to the tracked id requests nothing and keeps the tracked container |
| WindowDimmingFeature.NewContentTakesFocus | src/features/windowDimming.ts:123-129 | a focus change to other content dims the tracked container (if any), then activates the new one, and tracks it |
| WindowDimmingFeature.TrackedIsContent | src/features/windowDimming.ts:112-129 | the tracked container is always content |
| WindowDimmingFeature.ProviderCheck | src/features/windowDimming.ts:48-50 | `start` passes iff `IPC_PROVIDER` is "sway", and otherwise fails with the source's message |
| WindowDimmingFeature.WindowDimming.constructor | src/features/windowDimming.ts:68-76 | a new instance tracks nothing and has made no request yet: the `initialize` it starts without awaiting is still waiting on the lock-file write |
| WindowDimmingFeature.WindowDimming.Initialize | src/features/windowDimming.ts:102-110 | once the lock-file write completes, the loop appends `InitialPlan` of the content read then, leaves the tracked container alone, and `initialize` is no longer pending; focus requests made before it stay first |
| WindowDimmingFeature.WindowDimming.Shutdown | src/features/windowDimming.ts:85-96 | the loop appends `ResetPlan` of the content and leaves the tracked container alone |
| WindowDimmingFeature.WindowDimming.OnWindowEvent | src/features/windowDimming.ts:112-131 | appends `FocusRequests` and moves the tracked container to `NextFocused` |
| WindowDimmingFeature.Start | src/features/windowDimming.ts:47-64 | fails outside Sway; keeps an existing instance; otherwise creates one that has made no request and whose `initialize` is still pending when `start` goes on to `process()` |
| LegacyWindowDimming.FindFocused | features/windowDimming.ts:6-20 | the depth-first loop returns `SearchStack([root])` |
| LegacyWindowDimming.SearchStackFindsFocused | features/windowDimming.ts:9-19 | what the search returns is focused and is a node of the stack's trees; it returns nothing iff no such node is focused |
| LegacyWindowDimming.FindFocusedSound | features/windowDimming.ts:6-20 | `findFocused` returns a focused node of the tree, and undefined only when no node is focused |
| LegacyWindowDimming.FocusedRootIsReturned | features/windowDimming.ts:7-16 | a focused root is returned |
| LegacyWindowDimming.TopOfStackFirst | features/windowDimming.ts:10-16 | the search is LIFO: a focused container on top of the stack is returned, whatever lies below |
| LegacyWindowDimming.FloatingNodesSearchedFirst | features/windowDimming.ts:17-18 | below an unfocused root, a focused last floating node wins even when some node in `nodes` is focused too |
| LegacyWindowDimming.WindowDimming.OnWindowEvent | features/windowDimming.ts:43-46 | the instance remembers the event's container |
| LegacyWindowDimming.Start | features/windowDimming.ts:25-34 | an existing instance is returned; otherwise a new one that tracks nothing, after the unused search of the tree |
| MonitorSetup.KeyString | src/features/monitorSetup.ts:12-13 | the key string is make, model and serial with two separators between them |
| MonitorSetup.KeyStringSplits | src/features/monitorSetup.ts:12-13 | when no field holds a dot, the key string splits back into make, model and serial |
| MonitorSetup.KeyStringsPermutation | src/features/monitorSetup.ts:16 | the same keys in any order map to the same multiset of key strings |
| MonitorSetup.HashInput | src/features/monitorSetup.ts:15-17 | no outputs hash the empty string, and a single output hashes its own key string |
| MonitorSetup.HashOutputKeysIgnoresOrder | src/features/monitorSetup.ts:15-20 | the hash input, and so the hash, is invariant under any permutation of the outputs |
| MonitorSetup.HashInputDeterminesKeyStrings | src/features/monitorSetup.ts:16-17 | when no key string holds "-", equal hash inputs mean equal multisets of key strings |
| MonitorSetup.LastWithKeyIsLast | src/features/monitorSetup.ts:54-56 | the index found is the last entry with the key, and -1 means no entry has it |
| MonitorSetup.Registry | src/features/monitorSetup.ts:53-57 | the map's keys are exactly the keys of the loaded entries |
| MonitorSetup.RegistryLookup | src/features/monitorSetup.ts:54-56 | the map holds a key iff some entry has it, and then holds the commands of the last such entry |
| MonitorSetup.OutputKeys | src/features/monitorSetup.ts:61-67 | one key per output, in order, with its make, model and serial |
| MonitorSetup.LoadPlan | src/features/monitorSetup.ts:71-83 | fails only without a message command and for a non-empty setup; otherwise spawns one argv per operation of the setup, none without a setup |
| MonitorSetup.LoadPlanSpawnsOperations | src/features/monitorSetup.ts:71-83 | with no setup, nothing is spawned; otherwise each operation is spawned in order as message command ++ ["output"] ++ operation; without a message command a non-empty setup fails |
| MonitorSetup.DescribeOutputReadsBack | src/features/monitorSetup.ts:99-111 | an inactive output gives [name, "disable"]; an active one gives [name, "pos", x, y], with x and y reading back as the rectangle's position |
| MonitorSetup.DescribePositions | src/features/monitorSetup.ts:99-111 | one description per output, in order |
| MonitorSetup.MonitorSetup.constructor | src/features/monitorSetup.ts:53-57 | the loop leaves the map equal to `Registry` of the loaded entries under their output hashes |
| MonitorSetup.MonitorSetup.Initialize | src/features/monitorSetup.ts:36-49 | a file that could not be read gives an instance with no setups; otherwise its entries are registered |
| MonitorSetup.MonitorSetup.Lookup | src/features/monitorSetup.ts:69-71 | `_setups.get(hashOutputKeys(outputs))`: found iff that hash is a key |
| MonitorSetup.MonitorSetup.CheckAndLoadSetup | src/features/monitorSetup.ts:59-84 | fails exactly when there is no message command, because fetching the outputs spreads it, so nothing is looked up; otherwise the argvs spawned are `LoadPlan` of the setup looked up |
| MonitorSetup.MonitorSetup.SaveCurrentSetup | src/features/monitorSetup.ts:86-113 | fails exactly when there is no message command, because fetching the outputs spreads it; otherwise the registered setup when there is one, else the description of the current outputs |
| DropdownTerminal.ScaledSize | src/features/dropdownTerminal.ts:59-60 | the largest integer not above four fifths of the size |
| DropdownTerminal.Toggle | src/features/dropdownTerminal.ts:8-80 | fails exactly when there is no message command, already while fetching the tree, with the spread error; otherwise spawns at most two commands, the last always `scratchpad show`. `DefaultTerminalAppId` is the default app id "alacritty-dropdown" |
| DropdownTerminal.EarlyReturns | src/features/dropdownTerminal.ts:12-45 | no terminal: nothing spawned; a visible terminal: exactly one `scratchpad show`; no focused content, or a falsy parent: nothing spawned |
| DropdownTerminal.NodeIdListed | src/utilities.ts:3-27 | the id of every tree node is the id of some `flattenTree` entry |
| DropdownTerminal.ParentIsListed | src/features/dropdownTerminal.ts:47 | on a tree as sent, every entry's parent is the id of some entry |
| DropdownTerminal.FindOwnId | src/features/dropdownTerminal.ts:53 | looking up the id of what an id lookup found finds the same entry again |
| DropdownTerminal.WorkspaceLookups | src/features/dropdownTerminal.ts:47-57 | on a tree as sent, the workspace lookup always succeeds, and the output lookup finds the workspace itself |
| DropdownTerminal.ResizeThenShow | src/features/dropdownTerminal.ts:59-79 | the plan ends with exactly one `scratchpad show`, preceded by a resize to four fifths of the target exactly when the terminal is not that size; each spawn is message command ++ args |
| DropdownTerminal.HiddenTerminalIsShown | src/features/dropdownTerminal.ts:36-79 | a hidden terminal with focused content under a truthy parent is resized (if needed) to four fifths of the parent workspace, then shown |
| DropdownTerminal.NoMessageCommand | src/features/dropdownTerminal.ts:8-9 | with an unknown provider the toggle fails with the spread error whatever the tree, since fetching the tree already fails |
| TaskSwitcher.WindowsAreOnScreenContent | src/features/taskSwitcher.ts:10-13 | the candidates are exactly the content entries with x > 0 and y > 0, each as often as in `flattenTree` |
| TaskSwitcher.Names | src/features/taskSwitcher.ts:19 | one name per candidate, position by position |
| TaskSwitcher.MenuTextReadsBack | src/features/taskSwitcher.ts:19 | the menu text splits at its line breaks back into the names, when no name holds one |
| TaskSwitcher.SelectionIsFirstMatch | src/features/taskSwitcher.ts:26-33 | the selection is the first candidate named like the trimmed menu output; with a message command, nothing is focused iff no candidate has that name |
| TaskSwitcher.ChosenNameIsFocused | src/features/taskSwitcher.ts:26-39 | choosing a candidate's untrimmable name focuses the first candidate of that name |
| TaskSwitcher.FocusCriterionReadsBack | src/features/taskSwitcher.ts:35-39 | the criterion `[<type>_id=<id>]` reads back as the container's type and id |
| TaskSwitcher.SwitchTask | src/features/taskSwitcher.ts:8-40 | fails exactly when there is no message command, while fetching the tree and before the menu is spawned; otherwise spawns the menu with the names, and a focus command names a candidate whose name is the trimmed menu output |
| MessageCommands.Command | src/messageCommands.ts:10-39 | an unknown code fails before the spread, and an unknown provider fails at the spread; otherwise `CommandArgs` is spawned, a non-zero exit fails with its stderr, and exit 0 gives stdout |
| MessageCommands.CommandSync | src/messageCommands.ts:41-60 | the same failures; otherwise `CommandSyncArgs` is spawned and stdout is returned whatever the exit code |
| MessageCommands.CommandArgs | src/messageCommands.ts:14-25 | argv is the message command, "-t", the name and one more; either the payload array last, or "-m" last exactly for subscribe |
| MessageCommands.CommandSyncArgs | src/messageCommands.ts:45-52 | argv is the message command, "-t" and the name, then "-m" and the payload array exactly when there is a payload |
| MessageCommands.CommandArgsLayout | src/messageCommands.ts:14-25 | argv is message command, "-t", a name mapping back to the code, the payload array (always, even when empty), then "-m" last exactly for subscribe |
| MessageCommands.CommandSyncArgsLayout | src/messageCommands.ts:45-52 | argv is message command, "-t", the name, then "-m" and the payload array only when there is a payload |
| MessageCommands.VariantsDiffer | src/messageCommands.ts:19-52 | with a payload the two argvs differ; without one, `command` still passes "[]" |
| LegacyMessageCommands.OpacityOutcomes | messageCommands.ts:3-10 | pid 0 does nothing; any other pid fails iff the value is outside [0, 1], the bounds being accepted; an accepted request fails on an unknown provider; a spawn happens only when all checks pass |
| LegacyMessageCommands.OpacityArgs | messageCommands.ts:10 | argv is message command, `[pid=<pid>]`, "opacity" and the rendered value, slot by slot, and the criterion's digits read back as the pid |
| LegacyMessageCommands.Opacity | messageCommands.ts:3-13 | a spawn happens only for a non-zero pid and a value in [0, 1], and ends with `[pid=<pid>]`, "opacity" and the rendered value; a range failure needs a non-zero pid |
| Config.EnvVar | src/config.ts:13 | a variable is defined iff it is set, and then has its value |
| Config.GetMessageCommand | src/config.ts:12-15 | a message command exists iff the provider is i3 or sway, and starts with `i3-msg` or `swaymsg` accordingly |
| Config.MessageCommandTable | src/config.ts:7-15 | i3 maps to ["i3-msg"] and sway to ["swaymsg", "--raw"]; every other provider, unset included, has no message command (inherited `Object.prototype` keys aside) |
| Config.LoadSocketConfig | src/config.ts:17-20 | the table holds what SWAYSOCK and I3SOCK were at load time |
| Config.GetSocketPath | src/config.ts:22-25 | a socket path only comes from the entry of the current provider, sway or i3, and other providers have none |
| Config.SocketPathCapturedAtLoad | src/config.ts:17-25 | sway's path is SWAYSOCK at load and i3's is I3SOCK at load; other providers have none (inherited `Object.prototype` keys aside); the call's environment matters only through IPC_PROVIDER |
| Config.TablesAgreeOnProviders | src/config.ts:7-25 | a provider without a message command has no socket path either |
| Logging.SeverityIndex | src/logging.ts:19-23 | the rank lies in -1..3 |
| Logging.SeverityRank | src/logging.ts:19-23 | a text ranks -1 iff it is no severity; otherwise it ranks at its own position |
| Logging.SeverityRanks | src/logging.ts:19 | debug 0 < info 1 < warn 2 < error 3 |
| Logging.Route | src/logging.ts:28-44 | `console.log` is used exactly for text that is no severity |
| Logging.ConsoleOutput | src/logging.ts:21-45 | what is shown is the payload through `Route` of the severity, and errors are always shown |
| Logging.ConsoleFilter | src/logging.ts:21-45 | output is suppressed iff the minimum ranks above the severity; unset, the minimum is warn; an unrecognised minimum suppresses nothing; errors always show; the payload is shown as given |
| Logging.RouteBySeverity | src/logging.ts:28-44 | each severity goes to its own console method, and any other text to `console.log` |
| Logging.Message | src/logging.ts:57-59 | the file line starts with the severity and a tab |
| Logging.MessageReadsBack | src/logging.ts:57-59 | the file line splits at tabs into severity, pid, date, time and payload, and the payload splits at spaces back into the arguments |
| Logging.Logger.Log | src/logging.ts:54-70 | keeps `Valid()`, a log file only existing inside its folder; the console call by `ConsoleOutput` first; then the line plus "\n" is appended when the file exists; else it rejects when the folder exists, and otherwise creates both with the line |
| Logging.Logger.Info | src/logging.ts:72-74 | `log` at severity info |
| Logging.Logger.Warn | src/logging.ts:76-78 | `log` at severity warn |
| Logging.Logger.Error | src/logging.ts:80-82 | `log` at severity error |
| Logging.Logger.Debug | src/logging.ts:84-86 | `log` at severity debug |
| Text.SplitJoin | src/features/monitorSetup.ts:17 | joining at a separator that no part contains and splitting again gives the parts back |
| Text.IntToDecimalRoundTrip | src/features/monitorSetup.ts:108-109 | `String(n)` is an optional minus then digits, and reads back as n |
| Text.Sort | src/features/monitorSetup.ts:17 | `sort()` returns a sorted permutation |
| Text.SortedUnique | src/features/monitorSetup.ts:17 | a multiset has exactly one sorted arrangement, so the joined sort does not depend on input order |
| Text.Trim | src/features/taskSwitcher.ts:26 | `trim()` gives the middle of the text, left after removing only white space at both ends; it has no white space at either end, and is empty iff the text is all white space |
| Json.EscapeRoundTrip | src/messageCommands.ts:20 | `JSON.stringify` of a string body reads back as the string |
| Json.StringArrayAscii | ipcMessage.ts:14-15 | the JSON text of ASCII strings is ASCII, so its length is its byte count |
| Json.WindowSubscriptionText | IpcSocket.ts:58 | `JSON.stringify(["window"])` is the 10-character `["window"]` |
| Bytes.LE32RoundTrip | ipcMessage.ts:17-18 | reading back what `writeUInt32LE` wrote gives the number, and its low half as u16 |
| Utf8.Decode | IpcMessage.ts:41-46 | `buf.toString()` as the WHATWG UTF-8 decoder reads it, each ill-formed sequence becoming one U+FFFD; never more characters than bytes |
| Utf8.DecodeEncode | IpcMessage.ts:43 | decoding the UTF-8 encoding of any text gives the text back |
| Utf8.DecodeAscii | IpcMessage.ts:43 | bytes below 0x80 decode one character per byte, the character being the byte |
| Utf8.DecodeExamples | IpcMessage.ts:43 | C3 A9 decodes to the one character U+00E9; a stray continuation byte, an invalid byte and a cut-off sequence each decode to one U+FFFD |
| Sequences.FindIsFirst | src/features/dropdownTerminal.ts:12 | `find` returns an element satisfying the predicate with none before it, and undefined iff no element does |
| Sequences.FilterKeeps | src/features/taskSwitcher.ts:11-13 | `filter` keeps each satisfying element as often as it occurs, in order, and drops the rest |

## Left out

- Sockets, processes, files and clocks are not modelled.
  - `connect`, socket path discovery by spawning `<provider> --get-socketpath`, the signal
    handlers and the awaiting of the "close" event are not modelled; neither is the registration
    of emitter listeners.
  - `Bun.spawn` and `spawnSync` are a function from argv to exit code, stdout and stderr.
  - The menu program of the task switcher is a function from its input to its output.
  - Date and time strings are parameters.
- `JSON.parse` of replies and payloads is an abstract partial function.
  - `command` and `commandSync` return the reply text without parsing it.
  - `JSON.stringify` is modelled only for arrays of strings, the one shape the core serialises
    itself.
- `Bun.hash` is an abstract function; the model proves properties of the string it is applied to.
- `IpcMessageClass.Create`, `IpcFrame.Create`: the JSON text must be ASCII, so that its length
  is its byte count, and shorter than 2^32. Multi-byte UTF-8 text, for which the source writes a
  wrong length, is not modelled.
- `LegacyMessageCommands.Opacity`: `value.toFixed(1)` is an abstract function. `value` is a
  real, so NaN is not modelled.
- `DropdownTerminal.ScaledSize`: `Math.floor(x * 0.8)` is computed in exact arithmetic, not in
  binary floating point.
- `WindowDimmingFeature.Transparency`: the transparencies 1.0 and 0.8 are the labels
  Active and Dimmed.
- The two window-dimming features depend on an opacity helper that is not modelled.
  - The `opacity` that `src/features/windowDimming.ts` imports from `src/messageCommands.ts` is
    not exported there. Its calls are modelled as a log of requests.
- Lock files are not modelled: the PID lock file and `kill -TERM` in `WindowDimming.start`, and
  the lock-file deletion in `shutdown`.
- `WindowDimmingFeature.WindowDimming.Initialize`: when the lock-file write completes relative
  to the focus events is not scheduled by the model. The order in which a caller invokes
  `OnWindowEvent` and `Initialize` stands for the order in which the event loop runs them.
- Window-dimming listener registration is not modelled.
  - Registering the listeners in the `WindowDimming` constructors is left to the caller.
  - The static `_instance` field is passed in and returned.
- `Logging.Logger.Log`: the log folder is one flag. A missing parent folder, which also makes
  `mkdir` reject, is not modelled.
- These engine behaviours are not modelled:
  - the awaited ordering of spawns beyond their sequence;
  - `console.*` output formatting beyond the method and the text;
  - the `logger` calls inside every other function.
- Text.Sort: JavaScript compares strings by UTF-16 code units. The model compares code points,
  which differ only between astral characters and U+E000..U+FFFF.
- `Commands.CommandValue`: `Command[name]` is modelled on the table's own keys. Inherited
  properties of `Object.prototype` are not modelled.
- Config.MessageCommandFor: `COMMAND_CONFIG[provider]` is modelled on the table's own keys.
  For an `IPC_PROVIDER` such as "constructor", "toString" or "__proto__" the source returns
  an inherited `Object.prototype` member, not undefined. Spreading it still throws, so
  `command`, `opacity`, `checkAndLoadSetup`, `saveCurrentSetup`, `toggle` and the task
  switcher fail in the same way.
- Config.GetMessageCommand: the same; "no message command" means no entry of the table's
  own.
- Config.MessageCommandTable: the same; "every other provider" excludes the inherited keys.
- Config.GetSocketPath: `SOCKET_ENV_VAR_CONFIG[provider]` also returns an inherited member
  for those providers, where the model has no path.
- Config.SocketPathCapturedAtLoad: the same; "other providers have none" excludes the
  inherited keys.
- Strings are sequences of Unicode scalar values, while JavaScript strings are UTF-16 code
  units. Lengths and order therefore differ for characters above U+FFFF.
- `decodeHeader` builds the log message from `IpcEventNames`. Only the "Could not find command"
  throw inside the log message is modelled, not the text of the message.
- `SwaySocket.ts` is not part of this model: it is an unused prototype that never writes its
  buffer.
- `src/features/screenLocking.ts` and `src/features/spotify.ts` are not part of this model
  either. They are random choice, directory listing and shell commands.
- The CLI entry points `index.ts` and `src/index.ts` are not part of this model. Neither are
  `features/monitorSetup.ts`, `features/window-dimming.ts` or the type-only files.
- The `./config` that `messageCommands.ts` imports is not part of this model. Its message
  command is looked up in the table of `src/config.ts`.
- The tree properties hold for any tree of this datatype. The fixture counts of the tests (20
  containers, the expected focused node) need the test data, which is not part of this model.

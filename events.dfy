/** The i3 IPC event codes (`IpcEvent`), their names (`IpcEventNames`), the window event
    payload and the events the socket wrapper emits to its listeners (`SocketEvent`). */
module Events {
  import opened Wrappers
  import opened Containers

  /** The keys of `IpcEvent` in declaration order with their codes. */
  const IpcEventEntries: seq<(string, int)> := [
    ("workspace", 0), ("output", 1), ("mode", 2), ("window", 3),
    ("bar_config_update", 4), ("binding", 5), ("shutdown", 6), ("tick", 7)
  ]

  const Window: int := 3

  /** `Object.keys(IpcEvent)`. */
  function IpcEventNames(): (r: seq<string>)
    ensures |r| == |IpcEventEntries|
    ensures forall i :: 0 <= i < |r| ==> r[i] == IpcEventEntries[i].0
  {
    seq(|IpcEventEntries|, i requires 0 <= i < |IpcEventEntries| => IpcEventEntries[i].0)
  }

  /** `IpcEventNames[code]`, which is `undefined` outside the array. */
  function EventName(code: int): (r: Option<string>)
  {
    if 0 <= code < |IpcEventNames()| then Some(IpcEventNames()[code]) else None
  }

  /** The codes run from 0 to 7 in declaration order, so `IpcEventNames[c]` names the event
      whose code is `c`, and codes outside 0..7 have no name; `window` is 3. */
  lemma EventNamesByCode(code: int)
    ensures |IpcEventEntries| == 8
    ensures forall i :: 0 <= i < |IpcEventEntries| ==> IpcEventEntries[i].1 == i
    ensures 0 <= code < 8 ==> EventName(code) == Some(IpcEventEntries[code].0)
    ensures EventName(code).Some? <==> 0 <= code < 8
    ensures EventName(Window) == Some("window")
  {
  }

  /** `WindowEvent`: the parsed payload of a window event. */
  datatype WindowEvent = WindowEvent(change: string, container: Container)

  /** `SocketEvent`, the names the socket wrapper declares for its listeners. */
  datatype SocketEvent = WindowFocusChanged | Close

  function SocketEventName(e: SocketEvent): string
  {
    match e
    case WindowFocusChanged => "window-focus-changed"
    case Close => "close"
  }

  /** `SocketEvents`: how many arguments each declared event carries. */
  function PayloadArity(e: SocketEvent): nat
  {
    match e
    case WindowFocusChanged => 1
    case Close => 0
  }
}

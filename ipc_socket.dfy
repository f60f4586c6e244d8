/** The socket wrapper `IpcSocket`: the subscription it writes when the connection opens,
    the loop that splits one read buffer into frames and emits the window events among
    them, the routing of window events by their `change`, and the events `close` emits. */
module IpcSocket {
  import opened Wrappers
  import opened Bytes
  import opened Text
  import opened Json
  import opened Commands
  import opened Containers
  import opened Events
  import opened IpcFrame

  /** What the wrapper emits to its listeners, in order. `End` is `emit(SocketEvent.End)`:
      `SocketEvent` has no `End` member, so this emits under the name `undefined`. */
  datatype Emitted = FocusChanged(container: Container) | Moved(container: Container) | End | Closed

  /** The event name each emission goes out under. */
  function EmittedName(e: Emitted): (r: Option<string>)
  {
    match e
    case FocusChanged(_) => Some("window-focus-changed")
    case Moved(_) => Some("window-moved")
    case End => None
    case Closed => Some("close")
  }

  /** The arguments each emission carries. */
  function EmittedArgs(e: Emitted): (r: seq<Container>)
  {
    match e
    case FocusChanged(c) => [c]
    case Moved(c) => [c]
    case End => []
    case Closed => []
  }

  /** The focus and close emissions go out under the names `SocketEvent` declares, with as
      many arguments as `SocketEvents` says; "window-moved" is not declared there, and the
      end emission has no name, so no listener registered by name ever receives it. */
  lemma EmissionsMatchDeclaredEvents(c: Container)
    ensures EmittedName(FocusChanged(c)) == Some(SocketEventName(WindowFocusChanged))
    ensures |EmittedArgs(FocusChanged(c))| == PayloadArity(WindowFocusChanged)
    ensures EmittedName(Closed) == Some(SocketEventName(Close))
    ensures |EmittedArgs(Closed)| == PayloadArity(Close)
    ensures forall s :: EmittedName(Moved(c)) != Some(SocketEventName(s))
    ensures forall s :: EmittedName(End) != Some(SocketEventName(s))
  {
  }

  /** `_handleWindowEvent(event)`: what it emits, at most one emission and only about the
      event's container. */
  function Route(event: WindowEvent): (r: seq<Emitted>)
    ensures |r| <= 1
    ensures forall e :: e in r ==> e == FocusChanged(event.container) || e == Moved(event.container)
  {
    if event.change == "focus" then [FocusChanged(event.container)]
    else if event.change == "move" then [Moved(event.container)]
    else []
  }

  /** A "focus" change emits `window-focus-changed` with the event's container, a "move"
      change `window-moved` with it, and any other change nothing. */
  lemma RouteByChange(event: WindowEvent)
    ensures |Route(event)| <= 1
    ensures (Route(event) == [FocusChanged(event.container)]) <==> event.change == "focus"
    ensures (Route(event) == [Moved(event.container)]) <==> event.change == "move"
    ensures (Route(event) == []) <==> event.change != "focus" && event.change != "move"
  {
  }

  function Min(a: int, b: int): int
  {
    if a < b then a else b
  }

  /** `message.subarray(start, end)`: both ends clamped to the buffer, empty when they cross. */
  function SubArray(m: seq<uint8>, start: nat, end: nat): (r: seq<uint8>)
    ensures end <= |m| && start <= end ==> r == m[start..end]
    ensures end > |m| && start <= |m| ==> r == m[start..]
    ensures start >= |m| || end <= start ==> r == []
  {
    var s := Min(start, |m|);
    var e := Min(end, |m|);
    if s <= e then m[s..e] else []
  }

  /** `JSON.parse` of a payload, given as a function of the payload's bytes: the window
      event it describes, or None where it throws. */
  type Parser = seq<uint8> -> Option<WindowEvent>

  /** The header decoder the loop calls, `decodeHeader`, taken as a parameter of the loop's
      specification: how the loop walks the buffer does not depend on how headers decode. */
  type Decoder = seq<uint8> -> Result<Header, HeaderError>

  /** What a decoded frame emits: only window events (type 3) are parsed, and a payload that
      does not parse emits nothing. */
  function EventEmits(msgType: int, payload: seq<uint8>, parse: Parser): (r: seq<Emitted>)
    ensures msgType != Window ==> r == []
    ensures forall e :: e in r ==> e.FocusChanged? || e.Moved?
  {
    if msgType == Window then
      match parse(payload)
      case None => []
      case Some(event) => Route(event)
    else []
  }

  /** One iteration of the loop: what it emits and how far it moves the cursor. */
  datatype Step = Step(emitted: seq<Emitted>, consumed: nat)

  /** The iteration at a cursor, on the bytes `rest` from the cursor on: the header window is
      the next 14 bytes (fewer at the end of the buffer), the payload the `payloadLength`
      bytes after it, clamped likewise. */
  function StepOn(rest: seq<uint8>, decode: Decoder, parse: Parser): (r: Step)
    ensures r.consumed >= HeaderLength
    ensures decode(SubArray(rest, 0, HeaderLength)).Failure? ==> r.emitted == []
    ensures forall e :: e in r.emitted ==> e.FocusChanged? || e.Moved?
  {
    var header := SubArray(rest, 0, HeaderLength);
    match decode(header)
    case Failure(_) => Step([], HeaderLength)
    case Success(h) =>
      var payload := SubArray(rest, HeaderLength, HeaderLength + h.payloadLength);
      Step(if h.isEvent then EventEmits(h.msgType, payload, parse) else [], HeaderLength + h.payloadLength)
  }

  /** Every iteration moves the cursor past a whole 14-byte header window, and past the
      declared payload when the header decodes. */
  lemma StepAdvances(rest: seq<uint8>, decode: Decoder, parse: Parser)
    ensures StepOn(rest, decode, parse).consumed >= HeaderLength
    ensures decode(SubArray(rest, 0, HeaderLength)).Success? ==>
              StepOn(rest, decode, parse).consumed == HeaderLength + decode(SubArray(rest, 0, HeaderLength)).value.payloadLength
  {
  }

  /** What the loop emits from cursor `pos` on: window events only, never the end or close
      emissions, and nothing once the cursor is past the buffer. */
  function Dispatch(m: seq<uint8>, pos: nat, decode: Decoder, parse: Parser): (r: seq<Emitted>)
    ensures pos >= |m| ==> r == []
    ensures forall e :: e in r ==> e.FocusChanged? || e.Moved?
    decreases |m| - pos
  {
    if pos >= |m| then []
    else
      var s := StepOn(m[pos..], decode, parse);
      StepAdvances(m[pos..], decode, parse);
      s.emitted + Dispatch(m, pos + s.consumed, decode, parse)
  }

  lemma DispatchUnfold(m: seq<uint8>, pos: nat, decode: Decoder, parse: Parser)
    requires pos < |m|
    ensures Dispatch(m, pos, decode, parse) == StepOn(m[pos..], decode, parse).emitted + Dispatch(m, pos + StepOn(m[pos..], decode, parse).consumed, decode, parse)
  {
  }

  /** The loop at a cursor whose iteration is `Step(e, c)` emits `e` and goes on `c` bytes later. */
  lemma DispatchTakes(m: seq<uint8>, pos: nat, e: seq<Emitted>, c: nat, decode: Decoder, parse: Parser)
    requires pos < |m|
    requires StepOn(m[pos..], decode, parse) == Step(e, c)
    ensures Dispatch(m, pos, decode, parse) == e + Dispatch(m, pos + c, decode, parse)
  {
    DispatchUnfold(m, pos, decode, parse);
  }

  lemma AppendAssociates<T>(a: seq<T>, b: seq<T>, c: seq<T>)
    ensures a + (b + c) == (a + b) + c
  {
  }

  /** How many iterations the loop makes from cursor `pos` on. */
  function Iterations(m: seq<uint8>, pos: nat, decode: Decoder, parse: Parser): (r: nat)
    decreases |m| - pos
  {
    if pos >= |m| then 0
    else
      StepAdvances(m[pos..], decode, parse);
      1 + Iterations(m, pos + StepOn(m[pos..], decode, parse).consumed, decode, parse)
  }

  lemma {:induction false} IterationsBound(m: seq<uint8>, pos: nat, decode: Decoder, parse: Parser)
    requires pos < |m|
    ensures 14 * Iterations(m, pos, decode, parse) <= |m| - pos + 13
    decreases |m| - pos
  {
    var next := pos + StepOn(m[pos..], decode, parse).consumed;
    StepAdvances(m[pos..], decode, parse);
    if next < |m| {
      IterationsBound(m, next, decode, parse);
    }
  }

  /** The loop ends after at most ceil(|m| / 14) iterations. */
  lemma LoopTerminatesWithinCeiling(m: seq<uint8>, decode: Decoder, parse: Parser)
    ensures Iterations(m, 0, decode, parse) <= (|m| + 13) / 14
  {
    if |m| > 0 {
      IterationsBound(m, 0, decode, parse);
    }
  }

  /** `message.subarray(bytesRead + start, bytesRead + end)` is the same window of the bytes
      from the cursor on. */
  lemma SubArrayOfSuffix(m: seq<uint8>, pos: nat, start: nat, end: nat)
    requires pos <= |m|
    ensures SubArray(m, pos + start, pos + end) == SubArray(m[pos..], start, end)
  {
    var s, e := Min(start, |m| - pos), Min(end, |m| - pos);
    if s <= e {
      assert m[pos..][s..e] == m[pos + s..pos + e];
    }
  }

  /** A header that does not decode emits nothing, and scanning goes on 14 bytes later. */
  lemma BadHeaderIsSkipped(m: seq<uint8>, pos: nat, decode: Decoder, parse: Parser)
    requires pos < |m|
    requires decode(SubArray(m, pos, pos + HeaderLength)).Failure?
    ensures Dispatch(m, pos, decode, parse) == Dispatch(m, pos + HeaderLength, decode, parse)
  {
    SubArrayOfSuffix(m, pos, 0, HeaderLength);
    assert StepOn(m[pos..], decode, parse) == Step([], HeaderLength);
    DispatchTakes(m, pos, [], HeaderLength, decode, parse);
  }

  /** A command reply emits nothing; scanning goes on after its declared payload. */
  lemma ReplyEmitsNothing(m: seq<uint8>, pos: nat, decode: Decoder, parse: Parser)
    requires pos < |m|
    requires decode(SubArray(m, pos, pos + HeaderLength)).Success?
    requires !decode(SubArray(m, pos, pos + HeaderLength)).value.isEvent
    ensures Dispatch(m, pos, decode, parse) ==
            Dispatch(m, pos + HeaderLength + decode(SubArray(m, pos, pos + HeaderLength)).value.payloadLength, decode, parse)
  {
    var h := decode(SubArray(m, pos, pos + HeaderLength)).value;
    StepAtReply(m, pos, h, decode, parse);
    DispatchTakes(m, pos, [], HeaderLength + h.payloadLength, decode, parse);
  }

  /** The iteration at cursor `pos` on a reply header emits nothing and takes its payload. */
  lemma StepAtReply(m: seq<uint8>, pos: nat, h: Header, decode: Decoder, parse: Parser)
    requires pos < |m|
    requires decode(SubArray(m, pos, pos + HeaderLength)) == Success(h) && !h.isEvent
    ensures StepOn(m[pos..], decode, parse) == Step([], HeaderLength + h.payloadLength)
  {
    SubArrayOfSuffix(m, pos, 0, HeaderLength);
  }

  /** The iteration on an event header: what the payload gives, past header and payload. */
  lemma StepOnEvent(rest: seq<uint8>, h: Header, decode: Decoder, parse: Parser)
    requires decode(SubArray(rest, 0, HeaderLength)) == Success(h) && h.isEvent
    ensures StepOn(rest, decode, parse) ==
              Step(EventEmits(h.msgType, SubArray(rest, HeaderLength, HeaderLength + h.payloadLength), parse),
                   HeaderLength + h.payloadLength)
  {
  }

  /** What an event frame emits: the routing of what its payload parses to, for a window
      event whose payload parses, and nothing otherwise. */
  lemma EventEmitsCases(msgType: int, payload: seq<uint8>, parse: Parser)
    ensures EventEmits(msgType, payload, parse) ==
              if msgType == Window && parse(payload).Some? then Route(parse(payload).value) else []
  {
  }

  /** An event frame emits what its clamped payload gives, and scanning goes on after the
      payload: emissions follow the order of the bytes. */
  lemma EventEmitsInOrder(m: seq<uint8>, pos: nat, decode: Decoder, parse: Parser)
    requires pos < |m|
    requires decode(SubArray(m, pos, pos + HeaderLength)).Success?
    requires decode(SubArray(m, pos, pos + HeaderLength)).value.isEvent
    ensures var h := decode(SubArray(m, pos, pos + HeaderLength)).value;
            var start := pos + HeaderLength;
            Dispatch(m, pos, decode, parse) ==
              EventEmits(h.msgType, SubArray(m, start, start + h.payloadLength), parse) +
              Dispatch(m, start + h.payloadLength, decode, parse)
  {
    var h := decode(SubArray(m, pos, pos + HeaderLength)).value;
    var start := pos + HeaderLength;
    StepAtEvent(m, pos, h, decode, parse);
    var e := EventEmits(h.msgType, SubArray(m, start, start + h.payloadLength), parse);
    DispatchTakes(m, pos, e, HeaderLength + h.payloadLength, decode, parse);
    assert pos + (HeaderLength + h.payloadLength) == start + h.payloadLength;
  }

  /** The iteration at cursor `pos` on an event header, in terms of the whole buffer. */
  lemma StepAtEvent(m: seq<uint8>, pos: nat, h: Header, decode: Decoder, parse: Parser)
    requires pos < |m|
    requires decode(SubArray(m, pos, pos + HeaderLength)) == Success(h) && h.isEvent
    ensures var start := pos + HeaderLength;
            StepOn(m[pos..], decode, parse) ==
              Step(EventEmits(h.msgType, SubArray(m, start, start + h.payloadLength), parse),
                   HeaderLength + h.payloadLength)
  {
    SubArrayOfSuffix(m, pos, 0, HeaderLength);
    SubArrayOfSuffix(m, pos, HeaderLength, HeaderLength + h.payloadLength);
    StepOnEvent(m[pos..], h, decode, parse);
  }

  /** A buffer shorter than a header emits nothing: its bytes are dropped, not kept for the
      next read. */
  lemma CutHeaderEmitsNothing(m: seq<uint8>, parse: Parser)
    requires |m| < HeaderLength
    ensures Dispatch(m, 0, DecodeHeader, parse) == []
  {
    if |m| > 0 {
      assert m[0..] == m;
      assert SubArray(m, 0, HeaderLength) == m;
      DispatchUnfold(m, 0, DecodeHeader, parse);
    }
  }

  /** A scan that reaches the end of a prefix goes on in what follows as it would on its own. */
  lemma DispatchShift(p: seq<uint8>, m: seq<uint8>, k: nat, decode: Decoder, parse: Parser)
    ensures Dispatch(p + m, |p| + k, decode, parse) == Dispatch(m, k, decode, parse)
  {
    if k <= |m| {
      SuffixOfAppend(p, m, k);
      DispatchSameRest(p + m, |p| + k, m, k, decode, parse);
    }
  }

  /** The scan from a cursor depends only on the bytes from the cursor on. */
  lemma {:induction false} DispatchSameRest(m1: seq<uint8>, k1: nat, m2: seq<uint8>, k2: nat, decode: Decoder, parse: Parser)
    requires k1 <= |m1| && k2 <= |m2| && m1[k1..] == m2[k2..]
    ensures Dispatch(m1, k1, decode, parse) == Dispatch(m2, k2, decode, parse)
    decreases |m1| - k1
  {
    if k1 < |m1| {
      var c := StepOn(m1[k1..], decode, parse).consumed;
      StepAdvances(m1[k1..], decode, parse);
      if k1 + c <= |m1| {
        SuffixesAgree(m1, k1, m2, k2, c);
        DispatchSameRest(m1, k1 + c, m2, k2 + c, decode, parse);
      } else {
        assert k2 + c > |m2|;
      }
      DispatchSameStep(m1, k1, m2, k2, c, decode, parse);
    }
  }

  /** Sequences that agree from `k1` and from `k2` on also agree `c` elements further on. */
  lemma SuffixesAgree<T>(m1: seq<T>, k1: nat, m2: seq<T>, k2: nat, c: nat)
    requires k1 + c <= |m1| && k2 <= |m2| && m1[k1..] == m2[k2..]
    ensures k2 + c <= |m2| && m1[k1 + c..] == m2[k2 + c..]
  {
    assert m1[k1 + c..] == m1[k1..][c..];
    assert m2[k2 + c..] == m2[k2..][c..];
  }

  /** One step of `DispatchSameRest`: equal rests take the same step, so the scans agree when
      they agree after it. */
  lemma DispatchSameStep(m1: seq<uint8>, k1: nat, m2: seq<uint8>, k2: nat, c: nat, decode: Decoder, parse: Parser)
    requires k1 < |m1| && k2 <= |m2| && m1[k1..] == m2[k2..]
    requires c == StepOn(m1[k1..], decode, parse).consumed
    requires Dispatch(m1, k1 + c, decode, parse) == Dispatch(m2, k2 + c, decode, parse)
    ensures Dispatch(m1, k1, decode, parse) == Dispatch(m2, k2, decode, parse)
  {
    var s := StepOn(m1[k1..], decode, parse);
    assert StepOn(m2[k2..], decode, parse) == s;
    DispatchTakes(m1, k1, s.emitted, c, decode, parse);
    DispatchTakes(m2, k2, s.emitted, c, decode, parse);
  }

  lemma SuffixOfAppend(p: seq<uint8>, m: seq<uint8>, k: nat)
    requires k <= |m|
    ensures (p + m)[|p| + k..] == m[k..]
  {
  }

  /** What a frame made by `create` emits: an odd type word is an event, and it is a window
      event when its low 16 bits are 3; then its text is parsed and routed. */
  function FrameEmits(typeCode: uint32, text: string, parse: Parser): seq<Emitted>
    requires Encodable(text)
  {
    if typeCode % 2 == 1 then EventEmits(typeCode % 0x1_0000, AsciiBytes(text), parse) else []
  }

  /** A buffer holding a whole frame and then more bytes emits what the frame emits, and then
      what the rest emits on its own. */
  lemma DispatchFrame(typeCode: uint32, text: string, rest: seq<uint8>, parse: Parser)
    requires Encodable(text)
    requires typeCode % 2 == 1 || typeCode % 0x1_0000 <= 12
    ensures Dispatch(Frame(typeCode, text) + rest, 0, DecodeHeader, parse) == FrameEmits(typeCode, text, parse) + Dispatch(rest, 0, DecodeHeader, parse)
  {
    StepOnFrame(typeCode, text, rest, parse);
    DispatchAfterStep(Frame(typeCode, text), rest, FrameEmits(typeCode, text, parse), DecodeHeader, parse);
  }

  /** A buffer whose first iteration emits `e` and consumes exactly its prefix `f` emits `e` and
      then what the rest emits on its own. */
  lemma DispatchAfterStep(f: seq<uint8>, rest: seq<uint8>, e: seq<Emitted>, decode: Decoder, parse: Parser)
    requires f != []
    requires StepOn(f + rest, decode, parse) == Step(e, |f|)
    ensures Dispatch(f + rest, 0, decode, parse) == e + Dispatch(rest, 0, decode, parse)
  {
    var m := f + rest;
    DispatchFromStart(m, decode, parse);
    assert StepOn(m, decode, parse).consumed == |f| + 0;
    DispatchShift(f, rest, 0, decode, parse);
  }

  lemma DispatchFromStart(m: seq<uint8>, decode: Decoder, parse: Parser)
    requires m != []
    ensures Dispatch(m, 0, decode, parse) == StepOn(m, decode, parse).emitted + Dispatch(m, StepOn(m, decode, parse).consumed, decode, parse)
  {
    assert m[0..] == m;
  }

  /** The first iteration on a buffer that starts with a whole frame takes that frame. */
  lemma StepOnFrame(typeCode: uint32, text: string, rest: seq<uint8>, parse: Parser)
    requires Encodable(text)
    requires typeCode % 2 == 1 || typeCode % 0x1_0000 <= 12
    ensures StepOn(Frame(typeCode, text) + rest, DecodeHeader, parse) ==
              Step(FrameEmits(typeCode, text, parse), |Frame(typeCode, text)|)
  {
    var f := Frame(typeCode, text);
    var m := f + rest;
    FrameLayout(typeCode, text);
    DecodeCreated(typeCode, text);
    var header := SubArray(m, 0, HeaderLength);
    assert header == f[..HeaderLength];
    DecodeHeaderReadsFirst14BytesOnly(f, 0, 0);
    assert DecodeHeader(header) == DecodeHeader(f);
    assert SubArray(m, HeaderLength, HeaderLength + |text|) == AsciiBytes(text);
  }

  /** A buffer holding exactly one frame emits what the frame emits. */
  lemma SingleFrame(typeCode: uint32, text: string, parse: Parser)
    requires Encodable(text)
    requires typeCode % 2 == 1 || typeCode % 0x1_0000 <= 12
    ensures Dispatch(Frame(typeCode, text), 0, DecodeHeader, parse) == FrameEmits(typeCode, text, parse)
  {
    DispatchFrame(typeCode, text, [], parse);
    assert Frame(typeCode, text) + [] == Frame(typeCode, text);
  }

  /** A frame whose type word carries the event flag and the window event type, alone in the
      buffer, emits what its text routes to. */
  lemma WindowEventFrame(typeCode: uint32, text: string, event: WindowEvent, parse: Parser)
    requires Encodable(text)
    requires typeCode % 2 == 1 && typeCode % 0x1_0000 == Window
    requires parse(AsciiBytes(text)) == Some(event)
    ensures Dispatch(Frame(typeCode, text), 0, DecodeHeader, parse) == Route(event)
  {
    SingleFrame(typeCode, text, parse);
  }

  /** The frame i3 sends when focus moves to `c` (type word 0x80000003), decoded on its own,
      emits exactly `window-focus-changed(c)`. */
  lemma FocusFrameEmitsFocusChanged(text: string, c: Container, parse: Parser)
    requires Encodable(text)
    requires parse(AsciiBytes(text)) == Some(WindowEvent("focus", c))
    ensures Dispatch(Frame(0x8000_0003, text), 0, DecodeHeader, parse) == [FocusChanged(c)]
  {
    WindowEventFrame(0x8000_0003, text, WindowEvent("focus", c), parse);
  }

  /** The emitter side of `IpcSocket`: the frames written to the socket and the events
      emitted to listeners, in order. */
  class IpcSocket {
    var written: seq<seq<uint8>>
    var emitted: seq<Emitted>

    constructor()
      ensures written == [] && emitted == []
    {
      written := [];
      emitted := [];
    }

    /** The "connect" handler, `_subscribeToEvents`: write `create(Command.subscribe, ["window"])`. */
    method OnConnect()
      modifies this
      ensures written == old(written) + [Frame(Subscribe, "[\"window\"]")]
      ensures emitted == old(emitted)
    {
      WindowSubscriptionText();
      StringArrayAscii(["window"]);
      var command := Create(Subscribe, StringArray(["window"]));
      written := written + [command[..]];
    }

    /** `_handleWindowEvent(event)`. */
    method HandleWindowEvent(event: WindowEvent)
      modifies this
      ensures emitted == old(emitted) + Route(event)
      ensures written == old(written)
    {
      if event.change == "focus" {
        emitted := emitted + [FocusChanged(event.container)];
      } else if event.change == "move" {
        emitted := emitted + [Moved(event.container)];
      }
    }

    /** `_processMessage()`, given the bytes `read()` returns: everything buffered, so that
        `readableLength` is its length. Its loop is `ScanFrames` with `decodeHeader`. */
    method ProcessMessage(message: seq<uint8>, parse: Parser)
      modifies this
      ensures emitted == old(emitted) + Dispatch(message, 0, DecodeHeader, parse)
      ensures written == old(written)
    {
      ScanFrames(message, DecodeHeader, parse);
    }

    /** The `while (bytesRead < readableLength)` loop of `_processMessage`, for the header
        decoder `decode`. */
    method ScanFrames(message: seq<uint8>, decode: Decoder, parse: Parser)
      modifies this
      ensures emitted == old(emitted) + Dispatch(message, 0, decode, parse)
      ensures written == old(written)
    {
      var readableLength := |message|;
      var bytesRead: nat := 0;
      while bytesRead < readableLength
        invariant old(emitted) + Dispatch(message, 0, decode, parse) == emitted + Dispatch(message, bytesRead, decode, parse)
        invariant written == old(written)
        decreases readableLength - bytesRead
      {
        ghost var before, start := emitted, bytesRead;
        ghost var step := StepOn(message[start..], decode, parse);
        bytesRead := ProcessFrameAt(message, bytesRead, decode, parse);
        DispatchTakes(message, start, step.emitted, step.consumed, decode, parse);
        AppendAssociates(before, step.emitted, Dispatch(message, bytesRead, decode, parse));
      }
    }

    /** One pass of the loop body (the `try` block) at the cursor `bytesRead`: it returns the
        cursor after the frame and emits what the frame calls for. */
    method ProcessFrameAt(message: seq<uint8>, bytesRead: nat, decode: Decoder, parse: Parser) returns (next: nat)
      requires bytesRead < |message|
      modifies this
      ensures next == bytesRead + StepOn(message[bytesRead..], decode, parse).consumed
      ensures emitted == old(emitted) + StepOn(message[bytesRead..], decode, parse).emitted
      ensures written == old(written)
    {
      var header := SubArray(message, bytesRead, bytesRead + HeaderLength);
      SubArrayOfSuffix(message, bytesRead, 0, HeaderLength);
      next := bytesRead + HeaderLength;
      var decoded := decode(header);
      if decoded.Failure? {
        return;
      }
      var h := decoded.value;
      var payload := SubArray(message, next, next + h.payloadLength);
      SubArrayOfSuffix(message, bytesRead, HeaderLength, HeaderLength + h.payloadLength);
      next := next + h.payloadLength;
      if !h.isEvent {
        return;
      }
      if h.msgType == Window {
        var event := parse(payload);
        if event.Some? {
          HandleWindowEvent(event.value);
        }
      }
    }

    /** `close()`: the end emission, then "close". */
    method Close()
      modifies this
      ensures emitted == old(emitted) + [End, Closed]
      ensures written == old(written)
    {
      emitted := emitted + [End];
      emitted := emitted + [Closed];
    }
  }
}

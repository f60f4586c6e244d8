/** The older frame codec of `IpcMessage.ts`: the encoder `create` and the class `IpcMessage`,
    whose constructor reads one frame from the socket's read queue. */
module IpcMessageClass {
  import opened Wrappers
  import opened Bytes
  import opened Text
  import opened Commands
  import opened IpcFrame
  import Utf8

  /** `create(type, payload)`, given the JSON text of the payload: the same layout as the
      newer encoder, the magic being written as a string. */
  method Create(typeCode: uint32, text: string) returns (message: array<uint8>)
    requires Encodable(text)
    ensures message[..] == Frame(typeCode, text)
  {
    MagicIsText();
    message := new uint8[HeaderLength + |text|];
    WriteAscii(message, "i3-ipc", 0);
    assert message[..MagicLength] == Magic;
    WriteUInt32LE(message, |text|, 6);
    assert message[..10] == Magic + LE32(|text|);
    WriteUInt32LE(message, typeCode, 10);
    ghost var header := Magic + LE32(|text|) + LE32(typeCode);
    assert message[..HeaderLength] == header;
    if |text| > 0 {
      WriteAscii(message, text, HeaderLength);
    }
    assert message[..] == Frame(typeCode, text) by {
      assert message[..] == message[..HeaderLength] + message[HeaderLength..];
      if |text| == 0 {
        assert message[..][HeaderLength..] == [] == AsciiBytes(text);
      }
    }
  }

  /** The read side of a socket in paused mode: the bytes received and not yet read, and
      whether the other end has finished. */
  class ReadQueue {
    var buffered: seq<uint8>
    var ended: bool

    constructor(received: seq<uint8>, ended: bool)
      ensures buffered == received && this.ended == ended
    {
      buffered := received;
      this.ended := ended;
    }

    /** `socket.read(n)`. */
    method Read(n: nat) returns (chunk: Option<seq<uint8>>)
      requires n > 0
      modifies this
      ensures (chunk, buffered) == ReadOutcome(old(buffered), ended, n)
      ensures ended == old(ended)
    {
      if |buffered| >= n {
        chunk := Some(buffered[..n]);
        buffered := buffered[n..];
      } else if ended && |buffered| > 0 {
        chunk := Some(buffered);
        buffered := [];
      } else {
        chunk := None;
      }
    }
  }

  /** What `read(n)` returns and what stays queued: `n` bytes when that many are queued;
      once the stream has ended, whatever is left; otherwise `null` and nothing is taken. */
  function ReadOutcome(buffered: seq<uint8>, ended: bool, n: nat): (r: (Option<seq<uint8>>, seq<uint8>))
    requires n > 0
    ensures r.0.Some? ==> r.0.value + r.1 == buffered && 0 < |r.0.value| <= n
    ensures r.0.None? ==> r.1 == buffered
    ensures r.0.Some? && |r.0.value| < n ==> ended && r.1 == []
  {
    if |buffered| >= n then (Some(buffered[..n]), buffered[n..])
    else if ended && |buffered| > 0 then (Some(buffered), [])
    else (None, buffered)
  }

  /** Why the constructor throws: `read` gave `null` (a `TypeError` on `header.subarray`),
      the magic is wrong, or the header is too short for one of the `readUInt*` calls. */
  datatype MessageError = NoHeader | MagicMismatch(found: string) | ShortHeader

  /** `(header.readUInt8(13) & 0x80) === 0x80`. */
  function HighBitFlag(b: uint8): bool
  {
    (b as bv8) & 0x80 == 0x80
  }

  lemma HighBitFlagIsBit7(b: uint8)
    ensures HighBitFlag(b) <==> b >= 0x80
  {
    var v := b as bv8;
    assert (v & 0x80 == 0x80) <==> v >= 0x80;
  }

  /** The header part of the constructor, on the bytes `read(14)` returned. */
  function ParseHeader(header: seq<uint8>): (r: Result<Header, MessageError>)
    ensures r.Success? ==> |header| >= HeaderLength && 0 <= r.value.msgType < 0x1_0000 && r.value.payloadLength < U32_LIMIT
    ensures r.Failure? && r.error.MagicMismatch? ==> |r.error.found| <= MagicLength
  {
    var magic := if |header| < MagicLength then header else header[..MagicLength];
    if magic != Magic then Failure(MagicMismatch(Utf8.Decode(magic)))
    else if |header| < HeaderLength then Failure(ShortHeader)
    else Success(Header(ReadU16LE(header, 6 + 4), HighBitFlag(header[13]), ReadU32LE(header, 6)))
  }

  /** The outcomes of the header part: a wrong magic is a "Magic mismatch" error, a short
      header a range error; otherwise the type is the u16 at 10, the length the u32 at 6, and
      the frame is an event exactly when bit 7 of byte 13, bit 31 of the type word, is set. */
  lemma ParseHeaderOutcomes(header: seq<uint8>)
    ensures ParseHeader(header).Failure? && ParseHeader(header).error.MagicMismatch?
            <==> |header| < 6 || header[..6] != Magic
    ensures ParseHeader(header) == Failure(ShortHeader) <==> 6 <= |header| < 14 && header[..6] == Magic
    ensures ParseHeader(header).Success? ==>
              |header| >= 14 &&
              ParseHeader(header).value.msgType == ReadU16LE(header, 10) &&
              ParseHeader(header).value.payloadLength == ReadU32LE(header, 6) &&
              (ParseHeader(header).value.isEvent <==> ReadU32LE(header, 10) >= 0x8000_0000)
  {
    if |header| >= 14 {
      ReadU32LEBounds(header, 10);
      HighBitFlagIsBit7(header[13]);
    }
  }

  /** The fields the constructor assigns. */
  datatype Parsed = Parsed(payload: Option<seq<uint8>>, msgType: int, isEvent: bool)

  /** What the constructor does to a read queue: the parsed message or the error, and the
      bytes left queued. */
  function ReadMessage(buffered: seq<uint8>, ended: bool): (r: (Result<Parsed, MessageError>, seq<uint8>))
    ensures |r.1| <= |buffered| && r.1 == buffered[|buffered| - |r.1|..]
    ensures r.0.Success? ==> |buffered| - |r.1| >= HeaderLength
    ensures r.0.Success? && r.0.value.payload.Some? ==>
              buffered[HeaderLength..|buffered| - |r.1|] == r.0.value.payload.value
  {
    var (header, afterHeader) := ReadOutcome(buffered, ended, HeaderLength);
    if header.None? then (Failure(NoHeader), afterHeader)
    else
      match ParseHeader(header.value)
      case Failure(e) => (Failure(e), afterHeader)
      case Success(h) =>
        if h.payloadLength > 0 then
          var (payload, rest) := ReadOutcome(afterHeader, ended, h.payloadLength);
          (Success(Parsed(payload, h.msgType, h.isEvent)), rest)
        else (Success(Parsed(None, h.msgType, h.isEvent)), afterHeader)
  }

  /** `IpcMessage`. */
  class IpcMessage {
    var payload: Option<seq<uint8>>
    var msgType: int
    var isEvent: bool

    constructor Make(fields: Parsed)
      ensures payload == fields.payload && msgType == fields.msgType && isEvent == fields.isEvent
    {
      payload := fields.payload;
      msgType := fields.msgType;
      isEvent := fields.isEvent;
    }

    /** `new IpcMessage(socket)`, whose throw is the `Failure` case. */
    static method FromSocket(socket: ReadQueue) returns (r: Result<IpcMessage, MessageError>)
      modifies socket
      ensures socket.ended == old(socket.ended)
      ensures socket.buffered == ReadMessage(old(socket.buffered), old(socket.ended)).1
      ensures r.Failure? <==> ReadMessage(old(socket.buffered), old(socket.ended)).0.Failure?
      ensures r.Failure? ==> r.error == ReadMessage(old(socket.buffered), old(socket.ended)).0.error
      ensures r.Success? ==> fresh(r.value)
      ensures r.Success? ==>
                Parsed(r.value.payload, r.value.msgType, r.value.isEvent) == ReadMessage(old(socket.buffered), old(socket.ended)).0.value
    {
      var header := socket.Read(HeaderLength);
      if header.None? {
        return Failure(NoHeader);
      }
      var parsed := ParseHeader(header.value);
      if parsed.Failure? {
        return Failure(parsed.error);
      }
      var h := parsed.value;
      var payload: Option<seq<uint8>> := None;
      if h.payloadLength > 0 {
        payload := socket.Read(h.payloadLength);
      }
      var m := new IpcMessage.Make(Parsed(payload, h.msgType, h.isEvent));
      return Success(m);
    }

    /** `getPayload()`: "" when no payload was read, otherwise the payload's bytes decoded as
        UTF-8. */
    function GetPayload(): (r: string)
      reads this
      ensures payload.None? ==> r == ""
      ensures payload.Some? ==> r == Utf8.Decode(payload.value) && |r| <= |payload.value|
    {
      if payload.Some? then Utf8.Decode(payload.value) else ""
    }

    /** `getType()`: the stored type on both branches. */
    function GetType(): (r: int)
      reads this
      ensures r == msgType
    {
      if isEvent then msgType else msgType
    }
  }

  /** The constructor takes exactly 14 bytes for the header and then, only when the payload
      length is positive, at most that many more. */
  lemma ReadMessageConsumes(buffered: seq<uint8>, ended: bool)
    requires |buffered| >= HeaderLength
    ensures ParseHeader(buffered[..HeaderLength]).Failure? ==>
              ReadMessage(buffered, ended) == (Failure(ParseHeader(buffered[..HeaderLength]).error), buffered[HeaderLength..])
    ensures ParseHeader(buffered[..HeaderLength]).Success? ==>
              var h := ParseHeader(buffered[..HeaderLength]).value;
              var rest := buffered[HeaderLength..];
              ReadMessage(buffered, ended).0.Success? &&
              (h.payloadLength == 0 ==> ReadMessage(buffered, ended) == (Success(Parsed(None, h.msgType, h.isEvent)), rest)) &&
              (h.payloadLength <= |rest| && h.payloadLength > 0 ==>
                ReadMessage(buffered, ended) == (Success(Parsed(Some(rest[..h.payloadLength]), h.msgType, h.isEvent)), rest[h.payloadLength..]))
  {
  }

  /** A frame made by `create` and read whole from the queue: the type comes back, a type
      word below 2^31 (every command code) is no event, the payload text is the text framed,
      and the bytes after the frame stay queued. */
  lemma ReadCreated(typeCode: uint32, text: string, rest: seq<uint8>, ended: bool)
    requires Encodable(text)
    ensures ReadMessage(Frame(typeCode, text) + rest, ended).1 == rest
    ensures ReadMessage(Frame(typeCode, text) + rest, ended).0.Success?
    ensures var m := ReadMessage(Frame(typeCode, text) + rest, ended).0.value;
            m.msgType == typeCode % 0x1_0000 &&
            (m.isEvent <==> typeCode >= 0x8000_0000) &&
            m.payload == (if |text| > 0 then Some(AsciiBytes(text)) else None)
  {
    var f := Frame(typeCode, text);
    var b := f + rest;
    FrameLayout(typeCode, text);
    assert b[..HeaderLength] == f[..HeaderLength];
    assert b[..HeaderLength][..6] == Magic;
    ParseHeaderOutcomes(b[..HeaderLength]);
    assert ReadU32LE(b[..HeaderLength], 6) == ReadU32LE(f, 6);
    assert ReadU32LE(b[..HeaderLength], 10) == ReadU32LE(f, 10);
    ReadU32LEBounds(f, 10);
    assert ReadU16LE(b[..HeaderLength], 10) == ReadU16LE(f, 10);
    var after := b[HeaderLength..];
    assert after == AsciiBytes(text) + rest;
    assert after[..|text|] == AsciiBytes(text);
    assert after[|text|..] == rest;
  }

  /** A payload that is the UTF-8 encoding of a text reads back as that text; the ASCII
      bytes of a frame `create` made are such an encoding. */
  lemma GetPayloadOfCreated(m: IpcMessage, text: string)
    requires m.payload == (if |text| > 0 then Some(Utf8.Encode(text)) else None)
    ensures m.GetPayload() == text
    ensures IsAscii(text) ==> Utf8.Encode(text) == AsciiBytes(text)
  {
    Utf8.DecodeEncode(text);
    if IsAscii(text) {
      Utf8.EncodeAscii(text);
    }
  }

  /** Every command code 0..12 comes back as a command reply of the same type. */
  lemma ReadCreatedCommand(command: int, text: string)
    requires 0 <= command < |CommandEntries| && Encodable(text)
    ensures ReadMessage(Frame(command, text), true).0.Success?
    ensures ReadMessage(Frame(command, text), true).0.value.msgType == command
    ensures !ReadMessage(Frame(command, text), true).0.value.isEvent
  {
    CodesArePositions();
    assert Frame(command, text) + [] == Frame(command, text);
    ReadCreated(command, text, [], true);
  }

  /** The two decoders disagree on the event flag: the type word 1 is an event to
      `decodeHeader` and a command reply here; the word 2^31 (an i3 workspace event) is a
      command reply to `decodeHeader` and an event here. */
  lemma EventFlagsDisagree()
    ensures DecodeHeader(Frame(1, "")).Success? && DecodeHeader(Frame(1, "")).value.isEvent
    ensures ParseHeader(Frame(1, "")).Success? && !ParseHeader(Frame(1, "")).value.isEvent
    ensures DecodeHeader(Frame(0x8000_0000, "")).Success? && !DecodeHeader(Frame(0x8000_0000, "")).value.isEvent
    ensures ParseHeader(Frame(0x8000_0000, "")).Success? && ParseHeader(Frame(0x8000_0000, "")).value.isEvent
  {
    DecodeCreated(1, "");
    DecodeCreated(0x8000_0000, "");
    FrameLayout(1, "");
    FrameLayout(0x8000_0000, "");
    ParseHeaderOutcomes(Frame(1, ""));
    ParseHeaderOutcomes(Frame(0x8000_0000, ""));
  }
}

/** The frame codec of `ipcMessage.ts`: the encoder `create` and the header decoder
    `decodeHeader`. A frame is the magic "i3-ipc", the payload length as a little-endian
    u32 at offset 6, the type as a little-endian u32 at offset 10, and the payload from
    offset 14 on. */
module IpcFrame {
  import opened Wrappers
  import opened Bytes
  import opened Text
  import opened Commands

  /** `MAGIC`: the bytes of "i3-ipc". */
  const Magic: seq<uint8> := [0x69, 0x33, 0x2D, 0x69, 0x70, 0x63]
  const MagicLength: nat := 6
  const HeaderLength: nat := MagicLength + 8

  lemma MagicIsText()
    ensures IsAscii("i3-ipc") && AsciiBytes("i3-ipc") == Magic
    ensures |Magic| == MagicLength && HeaderLength == 14
  {
  }

  /** The JSON texts `create` can frame: ASCII, so that `stringified.length` is the byte count,
      and short enough for `writeUInt32LE`. */
  predicate Encodable(text: string)
  {
    IsAscii(text) && |text| < U32_LIMIT
  }

  /** The bytes of the frame with type word `typeCode` and payload `text`. */
  function Frame(typeCode: uint32, text: string): seq<uint8>
    requires Encodable(text)
  {
    Magic + LE32(|text|) + LE32(typeCode) + AsciiBytes(text)
  }

  /** `create(typeCode, payload)`, given the JSON text of the payload. */
  method Create(typeCode: uint32, text: string) returns (message: array<uint8>)
    requires Encodable(text)
    ensures message[..] == Frame(typeCode, text)
  {
    message := new uint8[HeaderLength + |text|];
    CopyBytes(Magic, message);
    WriteUInt32LE(message, |text|, MagicLength);
    WriteUInt32LE(message, typeCode, 10);
    if |text| > 0 {
      WriteAscii(message, text, HeaderLength);
    }
    assert message[..] == Frame(typeCode, text) by {
      if |text| == 0 {
        assert message[..][HeaderLength..] == [] == AsciiBytes(text);
      }
    }
  }

  /** A frame is 14 + |text| bytes: the magic at 0..5, the text's length at 6..9, the type
      word at 10..13 and the text itself from 14. */
  lemma FrameLayout(typeCode: uint32, text: string)
    requires Encodable(text)
    ensures |Frame(typeCode, text)| == HeaderLength + |text|
    ensures Frame(typeCode, text)[..MagicLength] == Magic
    ensures ReadU32LE(Frame(typeCode, text), MagicLength) == |text|
    ensures ReadU32LE(Frame(typeCode, text), 10) == typeCode
    ensures Frame(typeCode, text)[HeaderLength..] == AsciiBytes(text)
  {
    var f := Frame(typeCode, text);
    LE32RoundTrip(|text|);
    LE32RoundTrip(typeCode);
    assert f[6..10] == LE32(|text|);
    assert f[10..14] == LE32(typeCode);
  }

  /** The header fields `decodeHeader` returns. */
  datatype Header = Header(msgType: int, isEvent: bool, payloadLength: nat)

  /** The errors `decodeHeader` throws: `InvalidHeaderError` for a wrong magic, the
      `RangeError` of `readUInt32LE`/`readUInt16LE` for a header cut short, and the
      "Could not find command" error `getCommandName` throws while the reply is logged. */
  datatype HeaderError = InvalidHeader(found: seq<uint8>) | OutOfRange | UnknownCommand

  /** The bit `& (1 << 32)` tests: JavaScript takes shift counts modulo 32, so the mask is 1. */
  const EventFlagBit: nat := 32 % 32

  /** `(word & (1 << 32)) > 0`. */
  function EventFlagAsWritten(word: uint32): bool
  {
    Bit(word, EventFlagBit)
  }

  lemma EventFlagIsBitZero(word: uint32)
    ensures EventFlagAsWritten(word) <==> word % 2 == 1
  {
  }

  /** `decodeHeader(buffer)`. */
  function DecodeHeader(buffer: seq<uint8>): (r: Result<Header, HeaderError>)
    ensures r.Success? ==> |buffer| >= HeaderLength
    ensures r.Success? ==> 0 <= r.value.payloadLength < U32_LIMIT && 0 <= r.value.msgType < 0x1_0000
  {
    var magic := if |buffer| < MagicLength then buffer else buffer[..MagicLength];
    if magic != Magic then Failure(InvalidHeader(magic))
    else if |buffer| < HeaderLength then Failure(OutOfRange)
    else
      var payloadLength := ReadU32LE(buffer, MagicLength);
      var msgType := ReadU16LE(buffer, MagicLength + 4);
      ReadU32LEBounds(buffer, MagicLength + 4);
      var isEvent := EventFlagAsWritten(ReadU32LE(buffer, MagicLength + 4));
      if !isEvent && GetCommandName(msgType).Failure? then Failure(UnknownCommand)
      else Success(Header(msgType, isEvent, payloadLength))
  }

  /** Which outcome `decodeHeader` has, stated on the bytes: a wrong magic (also when fewer
      than 6 bytes are given) is an `InvalidHeaderError`; a correct magic with fewer than 14
      bytes is a range error; otherwise the type is the u16 at 10, the payload length the u32
      at 6, and the frame counts as an event exactly when byte 10 is odd; a non-event whose
      type is not a command code 0..12 fails in `getCommandName`. */
  lemma DecodeHeaderOutcomes(buffer: seq<uint8>)
    ensures DecodeHeader(buffer).Failure? && DecodeHeader(buffer).error.InvalidHeader?
            <==> |buffer| < 6 || buffer[..6] != Magic
    ensures DecodeHeader(buffer) == Failure(OutOfRange) <==> 6 <= |buffer| < 14 && buffer[..6] == Magic
    ensures DecodeHeader(buffer) == Failure(UnknownCommand)
            <==> |buffer| >= 14 && buffer[..6] == Magic && buffer[10] % 2 == 0 && ReadU16LE(buffer, 10) > 12
    ensures DecodeHeader(buffer).Success? ==>
              DecodeHeader(buffer).value.msgType == ReadU16LE(buffer, 10) &&
              DecodeHeader(buffer).value.payloadLength == ReadU32LE(buffer, 6) &&
              (DecodeHeader(buffer).value.isEvent <==> buffer[10] % 2 == 1)
  {
    if |buffer| >= 14 {
      ReadU32LEBounds(buffer, 10);
      EventFlagIsBitZero(ReadU32LE(buffer, 10));
    }
  }

  /** What `decodeHeader` looks at in a buffer of at least 14 bytes: the magic, the u32 at 6,
      the u16 at 10 and the parity of byte 10. */
  lemma DecodeHeaderDeterminedBy(a: seq<uint8>, b: seq<uint8>)
    requires |a| >= HeaderLength && |b| >= HeaderLength
    requires a[..MagicLength] == b[..MagicLength]
    requires ReadU32LE(a, 6) == ReadU32LE(b, 6) && ReadU16LE(a, 10) == ReadU16LE(b, 10)
    requires a[10] % 2 == b[10] % 2
    ensures DecodeHeader(a) == DecodeHeader(b)
  {
    ReadU32LEBounds(a, 10);
    ReadU32LEBounds(b, 10);
    EventFlagIsBitZero(ReadU32LE(a, 10));
    EventFlagIsBitZero(ReadU32LE(b, 10));
  }

  /** `type` is the u16 at offset 10: bytes 12 and 13 are ignored altogether, and so is
      everything after the first 14 bytes. */
  lemma DecodeHeaderReadsFirst14BytesOnly(buffer: seq<uint8>, x: uint8, y: uint8)
    requires |buffer| >= HeaderLength
    ensures DecodeHeader(buffer) == DecodeHeader(buffer[..HeaderLength])
    ensures DecodeHeader(buffer[12 := x][13 := y]) == DecodeHeader(buffer)
  {
    var b := buffer[12 := x][13 := y];
    var h := buffer[..HeaderLength];
    assert b[..6] == buffer[..6];
    assert h[..6] == buffer[..6];
    DecodeHeaderDeterminedBy(buffer, h);
    DecodeHeaderDeterminedBy(buffer, b);
  }

  /** Decoding a frame made by `create`: the same type code, the text's length, and the
      event flag set exactly for odd type words. */
  lemma DecodeCreated(typeCode: uint32, text: string)
    requires Encodable(text)
    requires typeCode % 2 == 1 || 0 <= typeCode % 0x1_0000 <= 12
    ensures DecodeHeader(Frame(typeCode, text)) == Success(Header(typeCode % 0x1_0000, typeCode % 2 == 1, |text|))
  {
    var f := Frame(typeCode, text);
    FrameLayout(typeCode, text);
    ReadU32LEBounds(f, 10);
    EventFlagIsBitZero(ReadU32LE(f, 10));
    assert ReadU16LE(f, 10) == typeCode % 0x1_0000;
  }

  /** Every command code 0..12 survives the round trip; the even ones come back as command
      replies and the odd ones as events. */
  lemma DecodeCreatedCommand(command: int, text: string)
    requires 0 <= command <= 12 && Encodable(text)
    ensures DecodeHeader(Frame(command, text)) == Success(Header(command, command % 2 == 1, |text|))
  {
    assert command % 0x1_0000 == command;
    DecodeCreated(command, text);
  }

  /** `create(Command.subscribe, ["window"])` decodes to type 2, payload length 10, no event,
      and its bytes after the header are the text `["window"]`. */
  lemma SubscribeFrameRoundTrip()
    ensures Encodable("[\"window\"]")
    ensures DecodeHeader(Frame(Subscribe, "[\"window\"]")) == Success(Header(Subscribe, false, 10))
    ensures Frame(Subscribe, "[\"window\"]")[HeaderLength..] == AsciiBytes("[\"window\"]")
  {
    DecodeCreatedCommand(Subscribe, "[\"window\"]");
    FrameLayout(Subscribe, "[\"window\"]");
  }
}

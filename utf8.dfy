/** UTF-8 as a Node.js or Bun Buffer reads and writes it (`buf.toString()`, `Buffer.from(s)`).
    Decoding follows the WHATWG UTF-8 decoder: each maximal ill-formed subsequence becomes
    one U+FFFD. Characters are Unicode scalar values. */
module Utf8 {
  import opened Text
  import opened Bytes

  const Replacement: char := '\U{FFFD}'

  /** How many bytes a lead byte announces; 0 for a byte that cannot start a character. */
  function SequenceLength(b0: uint8): (n: nat)
    ensures n <= 4
  {
    if b0 < 0x80 then 1
    else if 0xC2 <= b0 <= 0xDF then 2
    else if 0xE0 <= b0 <= 0xEF then 3
    else if 0xF0 <= b0 <= 0xF4 then 4
    else 0
  }

  /** The bounds of the second byte, narrowed after E0, ED, F0 and F4 so that overlong forms,
      surrogates and code points above U+10FFFF are rejected. */
  function SecondLow(b0: uint8): int
  {
    if b0 == 0xE0 then 0xA0 else if b0 == 0xF0 then 0x90 else 0x80
  }

  function SecondHigh(b0: uint8): int
  {
    if b0 == 0xED then 0x9F else if b0 == 0xF4 then 0x8F else 0xBF
  }

  predicate IsContinuation(b: uint8)
  {
    0x80 <= b <= 0xBF
  }

  /** The character at the front of `b` and the number of bytes it takes; an error takes the
      lead byte and the valid continuation bytes after it, never the byte that broke it. */
  function DecodeOne(b: seq<uint8>): (r: (char, nat))
    requires |b| >= 1
    ensures 1 <= r.1 <= |b|
  {
    var len := SequenceLength(b[0]);
    if len == 1 then (b[0] as char, 1)
    else if len == 0 then (Replacement, 1)
    else if |b| < 2 || !(SecondLow(b[0]) <= b[1] <= SecondHigh(b[0])) then (Replacement, 1)
    else if len == 2 then (((b[0] as int - 0xC0) * 64 + (b[1] as int - 0x80)) as char, 2)
    else if |b| < 3 || !IsContinuation(b[2]) then (Replacement, 2)
    else if len == 3 then (((b[0] as int - 0xE0) * 4096 + (b[1] as int - 0x80) * 64 + (b[2] as int - 0x80)) as char, 3)
    else if |b| < 4 || !IsContinuation(b[3]) then (Replacement, 3)
    else (((b[0] as int - 0xF0) * 262144 + (b[1] as int - 0x80) * 4096 + (b[2] as int - 0x80) * 64 + (b[3] as int - 0x80)) as char, 4)
  }

  /** `buf.toString()`: never more characters than bytes. */
  function Decode(b: seq<uint8>): (r: string)
    ensures |r| <= |b|
    decreases |b|
  {
    if b == [] then ""
    else
      var (c, n) := DecodeOne(b);
      [c] + Decode(b[n..])
  }

  /** The bytes of one character: one for U+0000..U+007F, up to four above U+FFFF. */
  function EncodeChar(c: char): (r: seq<uint8>)
    ensures 1 <= |r| <= 4
    ensures |r| == 1 <==> (c as int) < 0x80
  {
    var cp := c as int;
    var q1 := cp / 64;
    var q2 := q1 / 64;
    var q3 := q2 / 64;
    if cp < 0x80 then [cp]
    else if cp < 0x800 then [0xC0 + q1, 0x80 + cp % 64]
    else if cp < 0x1_0000 then [0xE0 + q2, 0x80 + q1 % 64, 0x80 + cp % 64]
    else [0xF0 + q3, 0x80 + q2 % 64, 0x80 + q1 % 64, 0x80 + cp % 64]
  }

  /** `Buffer.from(s)`. */
  function Encode(s: string): (r: seq<uint8>)
    ensures |r| >= |s|
  {
    if s == [] then [] else EncodeChar(s[0]) + Encode(s[1..])
  }

  /** Decoding reads back the character at the front of an encoding, whatever follows it. */
  lemma DecodeOneEncoded(c: char, rest: seq<uint8>)
    ensures DecodeOne(EncodeChar(c) + rest) == (c, |EncodeChar(c)|)
  {
    var cp := c as int;
    if cp < 0x80 {
    } else if cp < 0x800 {
      DecodeTwoEncoded(c, rest);
    } else if cp < 0x1_0000 {
      DecodeThreeEncoded(c, rest);
    } else {
      DecodeFourEncoded(c, rest);
    }
  }

  lemma DecodeTwoEncoded(c: char, rest: seq<uint8>)
    requires 0x80 <= c as int < 0x800
    ensures DecodeOne(EncodeChar(c) + rest) == (c, 2)
  {
    var cp := c as int;
    var q1 := cp / 64;
    assert cp == 64 * q1 + cp % 64;
    var b := EncodeChar(c) + rest;
    assert b[0] == 0xC0 + q1 && b[1] == 0x80 + cp % 64;
  }

  lemma DecodeThreeEncoded(c: char, rest: seq<uint8>)
    requires 0x800 <= c as int < 0x1_0000
    ensures DecodeOne(EncodeChar(c) + rest) == (c, 3)
  {
    var cp := c as int;
    var q1 := cp / 64;
    var q2 := q1 / 64;
    assert cp == 64 * q1 + cp % 64;
    assert q1 == 64 * q2 + q1 % 64;
    var b := EncodeChar(c) + rest;
    assert b[0] == 0xE0 + q2 && b[1] == 0x80 + q1 % 64 && b[2] == 0x80 + cp % 64;
  }

  lemma DecodeFourEncoded(c: char, rest: seq<uint8>)
    requires 0x1_0000 <= c as int
    ensures DecodeOne(EncodeChar(c) + rest) == (c, 4)
  {
    var cp := c as int;
    var q1 := cp / 64;
    var q2 := q1 / 64;
    var q3 := q2 / 64;
    assert cp == 64 * q1 + cp % 64;
    assert q1 == 64 * q2 + q1 % 64;
    assert q2 == 64 * q3 + q2 % 64;
    var b := EncodeChar(c) + rest;
    assert b[0] == 0xF0 + q3 && b[1] == 0x80 + q2 % 64 && b[2] == 0x80 + q1 % 64 && b[3] == 0x80 + cp % 64;
  }

  /** `Buffer.from(s).toString() == s`: decoding inverts encoding. */
  lemma {:induction false} DecodeEncode(s: string)
    ensures Decode(Encode(s)) == s
  {
    if s != [] {
      var e := EncodeChar(s[0]);
      DecodeOneEncoded(s[0], Encode(s[1..]));
      assert (e + Encode(s[1..]))[|e|..] == Encode(s[1..]);
      DecodeEncode(s[1..]);
    }
  }

  /** On bytes below 0x80 decoding takes one character per byte, the character's code being
      the byte. */
  lemma {:induction false} DecodeAscii(b: seq<uint8>)
    requires forall i :: 0 <= i < |b| ==> b[i] < 0x80
    ensures |Decode(b)| == |b|
    ensures forall i :: 0 <= i < |b| ==> Decode(b)[i] as int == b[i]
  {
    if b != [] {
      DecodeAscii(b[1..]);
      assert Decode(b) == [b[0] as char] + Decode(b[1..]);
    }
  }

  /** The encoding of an ASCII text is its ASCII bytes. */
  lemma {:induction false} EncodeAscii(s: string)
    requires IsAscii(s)
    ensures Encode(s) == AsciiBytes(s)
  {
    if s != [] {
      EncodeAscii(s[1..]);
    }
  }

  /** What the source's decoding gives where one byte per character would not: C3 A9 is the
      single character U+00E9; a stray continuation byte or a byte that never starts a
      character is one U+FFFD; a truncated sequence at the end is one U+FFFD too. */
  lemma DecodeExamples()
    ensures Decode([0xC3, 0xA9]) == "\U{E9}"
    ensures Decode([0x80, 0x41]) == [Replacement, 'A']
    ensures Decode([0xFF]) == [Replacement]
    ensures Decode([0xE2, 0x82]) == [Replacement]
  {
    assert DecodeOne([0xC3, 0xA9]) == ('\U{E9}', 2);
    assert [0xC3, 0xA9][2..] == [];
    assert DecodeOne([0x80, 0x41]) == (Replacement, 1);
    assert [0x80, 0x41][1..] == [0x41];
    assert DecodeOne([0x41]) == ('A', 1);
    assert DecodeOne([0xFF]) == (Replacement, 1);
    assert DecodeOne([0xE2, 0x82]) == (Replacement, 2);
    assert [0xE2, 0x82][2..] == [];
  }
}

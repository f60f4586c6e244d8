/** Bytes and the little-endian integer fields of a Node.js Buffer. */
module Bytes {
  import opened Text

  type uint8 = x: int | 0 <= x < 0x100

  const U32_LIMIT: int := 0x1_0000_0000

  type uint32 = x: int | 0 <= x < U32_LIMIT

  /** The four bytes `Buffer.writeUInt32LE(n)` writes, least significant first. */
  function LE32(n: uint32): (r: seq<uint8>)
    ensures |r| == 4
  {
    var q1 := n / 0x100;
    var q2 := q1 / 0x100;
    [n % 0x100, q1 % 0x100, q2 % 0x100, q2 / 0x100]
  }

  /** `Buffer.readUInt32LE(off)`. */
  function ReadU32LE(s: seq<uint8>, off: nat): (r: int)
    requires off + 4 <= |s|
    ensures 0 <= r < U32_LIMIT
  {
    (s[off] as int) + 0x100 * (s[off + 1] as int) + 0x1_0000 * (s[off + 2] as int) + 0x100_0000 * (s[off + 3] as int)
  }

  /** `Buffer.readUInt16LE(off)`. */
  function ReadU16LE(s: seq<uint8>, off: nat): (r: int)
    requires off + 2 <= |s|
    ensures 0 <= r < 0x1_0000
  {
    (s[off] as int) + 0x100 * (s[off + 1] as int)
  }

  lemma ReadU32LEBounds(s: seq<uint8>, off: nat)
    requires off + 4 <= |s|
    ensures 0 <= ReadU32LE(s, off) < U32_LIMIT
    ensures ReadU32LE(s, off) % 2 == s[off] % 2
    ensures ReadU32LE(s, off) % 0x1_0000 == ReadU16LE(s, off)
    ensures ReadU32LE(s, off) >= 0x8000_0000 <==> s[off + 3] >= 0x80
  {
    var r, low16 := ReadU32LE(s, off), ReadU16LE(s, off);
    var low24 := low16 + 0x1_0000 * (s[off + 2] as int);
    assert r == low16 + 0x1_0000 * (s[off + 2] as int + 0x100 * (s[off + 3] as int));
    assert r == low24 + 0x100_0000 * (s[off + 3] as int) && low24 < 0x100_0000;
    assert low16 == s[off] as int + 2 * (0x80 * (s[off + 1] as int));
  }

  /** Reading back what `writeUInt32LE` wrote gives the same number. */
  lemma LE32RoundTrip(n: uint32)
    ensures ReadU32LE(LE32(n), 0) == n
    ensures ReadU16LE(LE32(n), 0) == n % 0x1_0000
  {
    var q1 := n / 0x100;
    var q2 := q1 / 0x100;
    assert n == n % 0x100 + 0x100 * q1;
    assert q1 == q1 % 0x100 + 0x100 * q2;
    assert q2 == q2 % 0x100 + 0x100 * (q2 / 0x100);
  }

  /** Whether bit `k` of `n` is set, as `(n & (1 << k)) != 0` reads it for `0 <= k < 32`. */
  function Bit(n: nat, k: nat): bool
  {
    if k == 0 then n % 2 == 1 else Bit(n / 2, k - 1)
  }

  /** The UTF-8 bytes of an ASCII string: one byte per character, the character's code. */
  function AsciiBytes(s: string): (r: seq<uint8>)
    requires IsAscii(s)
    ensures |r| == |s|
    ensures forall i :: 0 <= i < |s| ==> r[i] == s[i] as int
  {
    seq(|s|, i requires 0 <= i < |s| => s[i] as int)
  }

  /** `buf.writeUInt32LE(value, off)`. */
  method WriteUInt32LE(buf: array<uint8>, value: uint32, off: nat)
    requires off + 4 <= buf.Length
    modifies buf
    ensures buf[..] == old(buf[..])[..off] + LE32(value) + old(buf[..])[off + 4..]
  {
    var bytes := LE32(value);
    buf[off] := bytes[0];
    buf[off + 1] := bytes[1];
    buf[off + 2] := bytes[2];
    buf[off + 3] := bytes[3];
  }

  /** `buf.write(text, off)` for ASCII text that fits: one byte per character. */
  method WriteAscii(buf: array<uint8>, text: string, off: nat)
    requires IsAscii(text)
    requires off + |text| <= buf.Length
    modifies buf
    ensures buf[..] == old(buf[..])[..off] + AsciiBytes(text) + old(buf[..])[off + |text|..]
  {
    var i := 0;
    while i < |text|
      invariant 0 <= i <= |text|
      invariant forall k :: 0 <= k < buf.Length && !(off <= k < off + i) ==> buf[k] == old(buf[k])
      invariant forall k :: off <= k < off + i ==> buf[k] == text[k - off] as int
    {
      buf[off + i] := text[i] as int;
      i := i + 1;
    }
    SpliceEquals(old(buf[..]), buf[..], AsciiBytes(text), off);
  }

  /** A sequence that agrees with `a` outside `off .. off + |t|` and with `t` inside it is
      `a` with that window replaced by `t`. */
  lemma SpliceEquals(a: seq<uint8>, b: seq<uint8>, t: seq<uint8>, off: nat)
    requires off + |t| <= |a| == |b|
    requires forall k :: 0 <= k < |b| && !(off <= k < off + |t|) ==> b[k] == a[k]
    requires forall k :: off <= k < off + |t| ==> b[k] == t[k - off]
    ensures b == a[..off] + t + a[off + |t|..]
  {
    var c := a[..off] + t + a[off + |t|..];
    assert |c| == |b|;
    forall k | 0 <= k < |b|
      ensures b[k] == c[k]
    {
      if k < off {
      } else if k < off + |t| {
        assert c[k] == t[k - off];
      } else {
        assert c[k] == a[k];
      }
    }
  }

  /** `source.copy(buf)`: copies as many bytes of `source` as fit to the front of `buf`. */
  method CopyBytes(source: seq<uint8>, buf: array<uint8>)
    requires |source| <= buf.Length
    modifies buf
    ensures buf[..] == source + old(buf[..])[|source|..]
  {
    var i := 0;
    while i < |source|
      invariant 0 <= i <= |source|
      invariant forall k :: i <= k < buf.Length ==> buf[k] == old(buf[k])
      invariant forall k :: 0 <= k < i ==> buf[k] == source[k]
    {
      buf[i] := source[i];
      i := i + 1;
    }
    SpliceEquals(old(buf[..]), buf[..], source, 0);
    assert old(buf[..])[..0] == [];
  }
}

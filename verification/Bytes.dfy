// Bytes and fixed-width words, shared by every module that reads an on-disk or on-wire format.
module Bytes {

  type byte = b: int | 0 <= b < 0x100
  type uint16 = x: int | 0 <= x < 0x1_0000
  type uint32 = x: int | 0 <= x < 0x1_0000_0000

  // Conversion to an unsigned 16, 32 or 64-bit word, with C's wrap-around.
  function U16(x: int): uint16 { x % 0x1_0000 }

  function U32(x: int): uint32 { x % 0x1_0000_0000 }

  function U64(x: int): nat { x % 0x1_0000_0000_0000_0000 }

  // Little-endian words, as a packed struct has them on the machines the labs run on.
  function Le16(lo: byte, hi: byte): uint16 { lo + 0x100 * hi }

  function Le32(b0: byte, b1: byte, b2: byte, b3: byte): uint32 {
    b0 + 0x100 * b1 + 0x1_0000 * b2 + 0x100_0000 * b3
  }

  function PutLe16(x: uint16): (r: seq<byte>)
    ensures |r| == 2 && Le16(r[0], r[1]) == x
  {
    [x % 0x100, x / 0x100]
  }

  function PutLe32(x: uint32): (r: seq<byte>)
    ensures |r| == 4 && Le32(r[0], r[1], r[2], r[3]) == x
  {
    ByteByByte(x);
    [x % 0x100, x / 0x100 % 0x100, x / 0x1_0000 % 0x100, x / 0x100_0000]
  }

  // Network byte order, both directions.
  function Be16(hi: byte, lo: byte): uint16 { 0x100 * hi + lo }

  function Be32(b3: byte, b2: byte, b1: byte, b0: byte): uint32 {
    0x100_0000 * b3 + 0x1_0000 * b2 + 0x100 * b1 + b0
  }

  function PutBe16(x: uint16): (r: seq<byte>)
    ensures |r| == 2 && Be16(r[0], r[1]) == x
  {
    [x / 0x100, x % 0x100]
  }

  function PutBe32(x: uint32): (r: seq<byte>)
    ensures |r| == 4 && Be32(r[0], r[1], r[2], r[3]) == x
  {
    ByteByByte(x);
    [x / 0x100_0000, x / 0x1_0000 % 0x100, x / 0x100 % 0x100, x % 0x100]
  }

  lemma ByteByByte(x: uint32)
    ensures x / 0x1_0000 == x / 0x100 / 0x100 && x / 0x100_0000 == x / 0x100 / 0x100 / 0x100
  {
  }

  function Min(a: int, b: int): int { if a <= b then a else b }

  // s with `data` written over it from `at` on.
  function Splice<T>(s: seq<T>, at: nat, data: seq<T>): (r: seq<T>)
    requires at + |data| <= |s|
    ensures |r| == |s|
  {
    s[..at] + data + s[at + |data|..]
  }

  lemma SpliceTwice<T>(s: seq<T>, at: nat, a: seq<T>, b: seq<T>)
    requires at + |a| + |b| <= |s|
    ensures Splice(Splice(s, at, a), at + |a|, b) == Splice(s, at, a + b)
  {
  }

  lemma SpliceParts<T>(s: seq<T>, at: nat, data: seq<T>)
    requires at + |data| <= |s|
    ensures Splice(s, at, data)[at..at + |data|] == data
    ensures Splice(s, at, data)[..at + |data|] == s[..at] + data
    ensures Splice(s, at, data)[..at] == s[..at]
    ensures forall k :: at + |data| <= k <= |s| ==> Splice(s, at, data)[k..] == s[k..]
  {
  }

  // memcpy into a buffer.
  method CopyInto<T>(buf: array<T>, at: nat, data: seq<T>)
    requires at + |data| <= buf.Length
    modifies buf
    ensures buf[..] == Splice(old(buf[..]), at, data)
  {
    forall k | 0 <= k < |data| {
      buf[at + k] := data[k];
    }
  }

  // The C string at the start of a buffer.
  function CString(s: seq<byte>): seq<byte> {
    if s == [] || s[0] == 0 then [] else [s[0]] + CString(s[1..])
  }

  // It ends at its terminator, whatever the rest of the buffer holds.
  lemma {:induction false} CStringStops(buf: seq<byte>, pos: nat)
    requires pos < |buf| && buf[pos] == 0
    ensures CString(buf) == CString(buf[..pos])
  {
    if pos > 0 {
      assert buf[..pos][1..] == buf[1..][..pos - 1];
      CStringStops(buf[1..], pos - 1);
    }
  }

  lemma {:induction false} CStringOfText(s: seq<byte>)
    requires 0 !in s
    ensures CString(s) == s
  {
    if |s| > 0 {
      CStringOfText(s[1..]);
    }
  }
}

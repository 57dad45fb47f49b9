// compute_checksum of ping_demo.c and its use on the echo request, against the one's complement sum of
// RFC 1071. Words are loaded as the little-endian machine loads them.
module Checksum {
  import opened Bytes

  // The plain sum of the 16-bit words of data; an odd last byte counts as it is.
  function WordSum(data: seq<byte>): nat {
    if |data| == 0 then 0
    else if |data| == 1 then data[0]
    else Le16(data[0], data[1]) + WordSum(data[2..])
  }

  // Addition with the carry brought round.
  function OnesAdd(a: uint16, b: uint16): uint16 {
    if a + b < 0x1_0000 then a + b else a + b - 0xFFFF
  }

  // The 16-bit one's complement sum, section 1 of RFC 1071.
  function OnesSum(data: seq<byte>): uint16 {
    if |data| == 0 then 0
    else if |data| == 1 then data[0]
    else OnesAdd(Le16(data[0], data[1]), OnesSum(data[2..]))
  }

  // Section 4.1: an odd last byte counts as if a zero byte followed it.
  lemma {:induction false} OddPadded(data: seq<byte>)
    requires |data| % 2 == 1
    ensures OnesSum(data) == OnesSum(data + [0]) && WordSum(data) == WordSum(data + [0])
  {
    var padded := data + [0];
    if |data| == 1 {
      assert padded[2..] == [];
    } else {
      assert padded[2..] == data[2..] + [0];
      OddPadded(data[2..]);
    }
  }

  // The two folds, in 32-bit arithmetic.
  function Folded(sum: uint32): uint32 {
    var once := sum / 0x1_0000 + sum % 0x1_0000;
    once + once / 0x1_0000
  }

  function Checksum(data: seq<byte>): uint16 {
    0xFFFF - Folded(U32(WordSum(data))) % 0x1_0000
  }

  lemma WrapSum(a: nat, b: nat)
    ensures U32(U32(a) + b) == U32(a + b)
  {
  }

  lemma {:induction false} WordSumAppend(a: seq<byte>, b: seq<byte>)
    requires |a| % 2 == 0
    ensures WordSum(a + b) == WordSum(a) + WordSum(b)
  {
    if a == [] {
      assert a + b == b;
    } else {
      assert (a + b)[2..] == a[2..] + b;
      WordSumAppend(a[2..], b);
    }
  }

  // The folds themselves cannot wrap.
  lemma FoldsFit(sum: uint32)
    ensures
      var once := U32(sum / 0x1_0000 + sum % 0x1_0000);
      U32(once + once / 0x1_0000) == Folded(sum)
  {
    var once := sum / 0x1_0000 + sum % 0x1_0000;
    assert once < 0x2_0000;
  }

  lemma NoWords()
    ensures U32(WordSum([])) == 0
  {
  }

  method ComputeChecksum(data: array<byte>, len: nat) returns (checksum: uint16)
    requires len == data.Length
    ensures checksum == Checksum(data[..])
  {
    hide WordSum, Folded, U32;
    var sum: uint32 := 0;
    NoWords();
    assert data[..0] == [];
    var ptr, left := 0, len;
    while left > 1
      invariant ptr + left == len && ptr % 2 == 0
      invariant sum == U32(WordSum(data[..ptr]))
      decreases left
    {
      SumOfNext(data[..], ptr);
      sum := U32(sum + Le16(data[ptr], data[ptr + 1]));
      ptr, left := ptr + 2, left - 2;
    }
    if left == 1 {
      SumOfLast(data[..], ptr);
      sum := U32(sum + data[ptr]);
    }
    assert data[..] == data[..len];
    FoldsFit(sum);
    sum := U32(sum / 0x1_0000 + sum % 0x1_0000);
    sum := U32(sum + sum / 0x1_0000);
    checksum := 0xFFFF - sum % 0x1_0000;
  }

  lemma SumOfNext(s: seq<byte>, ptr: nat)
    requires ptr + 2 <= |s| && ptr % 2 == 0
    ensures U32(U32(WordSum(s[..ptr])) + Le16(s[ptr], s[ptr + 1])) == U32(WordSum(s[..ptr + 2]))
  {
    var word := s[ptr..ptr + 2];
    assert s[..ptr + 2] == s[..ptr] + word;
    WordSumAppend(s[..ptr], word);
    assert WordSum(word) == Le16(s[ptr], s[ptr + 1]) + WordSum(word[2..]);
    WrapSum(WordSum(s[..ptr]), WordSum(word));
  }

  lemma SumOfLast(s: seq<byte>, ptr: nat)
    requires ptr + 1 == |s| && ptr % 2 == 0
    ensures U32(U32(WordSum(s[..ptr])) + s[ptr]) == U32(WordSum(s))
  {
    assert s == s[..ptr] + [s[ptr]];
    WordSumAppend(s[..ptr], [s[ptr]]);
    WrapSum(WordSum(s[..ptr]), s[ptr]);
  }

  // ---------------------------------------------------------------- one's complement arithmetic

  // The 16-bit representative of a sum: congruent modulo 65535, and 0 only for 0.
  function Canonical(sum: nat): (r: uint16)
    ensures (r == 0 <==> sum == 0) && (sum - r) % 0xFFFF == 0
  {
    if sum == 0 then 0 else (sum - 1) % 0xFFFF + 1
  }

  lemma CanonicalUnique(sum: nat, r: uint16)
    requires (r == 0 <==> sum == 0) && (sum - r) % 0xFFFF == 0
    ensures Canonical(sum) == r
  {
  }

  lemma FoldedIsCanonical(sum: uint32)
    ensures Folded(sum) % 0x1_0000 == Canonical(sum)
  {
    var hi, lo := sum / 0x1_0000, sum % 0x1_0000;
    var once := hi + lo;
    assert sum - once == 0xFFFF * hi;
    var r := Folded(sum) % 0x1_0000;
    assert once - r == if once < 0x1_0000 then 0 else 0xFFFF;
    CanonicalUnique(sum, r);
  }

  lemma OnesAddIsCanonical(a: uint16, sum: nat)
    ensures OnesAdd(a, Canonical(sum)) == Canonical(a + sum)
  {
    CanonicalUnique(a + sum, OnesAdd(a, Canonical(sum)));
  }

  lemma {:induction false} OnesSumIsCanonical(data: seq<byte>)
    ensures OnesSum(data) == Canonical(WordSum(data))
  {
    if |data| > 1 {
      OnesSumIsCanonical(data[2..]);
      OnesAddIsCanonical(Le16(data[0], data[1]), WordSum(data[2..]));
    } else if |data| == 1 {
      CanonicalUnique(WordSum(data), data[0]);
    }
  }

  lemma {:induction false} WordSumBound(data: seq<byte>)
    ensures WordSum(data) <= 0xFFFF * ((|data| + 1) / 2)
    ensures |data| % 2 == 1 ==> WordSum(data) <= 0xFFFF * (|data| / 2) + 0xFF
  {
    if |data| > 1 {
      WordSumBound(data[2..]);
    }
  }

  // Dropping the carries out of 32 bits loses one per wrap, which a one's complement sum shows.
  lemma WrapShows(sum: nat)
    requires sum < 0x4000_0000_0000
    ensures Canonical(U32(sum)) == Canonical(sum) <==> sum < 0x1_0000_0000
  {
    var q, r := sum / 0x1_0000_0000, U32(sum);
    if q > 0 && Canonical(r) == Canonical(sum) {
      assert sum - r == q + 0xFFFF * (0x1_0001 * q);
      assert 0 < q < 0xFFFF;
      assert false by {
        Difference(sum, r, Canonical(sum), q, 0x1_0001 * q);
      }
    }
  }

  lemma Difference(a: nat, b: nat, c: uint16, q: nat, k: nat)
    requires (a - c) % 0xFFFF == 0 && (b - c) % 0xFFFF == 0 && a - b == q + 0xFFFF * k && q < 0xFFFF
    ensures q == 0
  {
  }

  // For any length an int can hold: the result is the complement of the one's complement sum exactly when
  // the plain sum stays below 2^32.
  lemma ChecksumIsComplement(data: seq<byte>)
    requires |data| < 0x8000_0000
    ensures Checksum(data) == 0xFFFF - OnesSum(data) <==> WordSum(data) < 0x1_0000_0000
  {
    hide Canonical, Folded, OnesSum, WordSum;
    WordSumBound(data);
    OnesSumIsCanonical(data);
    FoldedIsCanonical(U32(WordSum(data)));
    WrapShows(WordSum(data));
  }

  lemma NoWrapUpTo(data: seq<byte>)
    requires |data| <= 131074
    ensures WordSum(data) < 0x1_0000_0000
  {
    hide WordSum;
    WordSumBound(data);
  }

  lemma {:induction false} AllOnes(n: nat)
    ensures WordSum(seq(n, _ => 0xFF)) == 0xFFFF * (n / 2) + (if n % 2 == 1 then 0xFF else 0)
  {
    if n > 1 {
      assert seq(n, _ => 0xFF as byte)[2..] == seq(n - 2, _ => 0xFF);
      AllOnes(n - 2);
    }
  }

  // One byte more can already go wrong.
  lemma LongestSafeLength()
    ensures var data := seq(131075, _ => 0xFF as byte); Checksum(data) != 0xFFFF - OnesSum(data)
  {
    hide Checksum, OnesSum, WordSum;
    AllOnes(131075);
    ChecksumIsComplement(seq(131075, _ => 0xFF));
  }

  // ---------------------------------------------------------------- the checksum in its packet

  lemma {:induction false} StoredAtEven(a: seq<byte>, lo: byte, hi: byte, b: seq<byte>)
    requires |a| % 2 == 0
    ensures WordSum(a + [lo, hi] + b) == WordSum(a) + Le16(lo, hi) + WordSum(b)
  {
    assert a + [lo, hi] + b == a + ([lo, hi] + b);
    WordSumAppend(a, [lo, hi] + b);
    assert ([lo, hi] + b)[2..] == b;
  }

  lemma ComplementAdded(sum: nat)
    ensures Canonical(sum + (0xFFFF - Canonical(sum))) == 0xFFFF
  {
    CanonicalUnique(sum + (0xFFFF - Canonical(sum)), 0xFFFF);
  }

  lemma ChecksumOfSum(data: seq<byte>)
    requires |data| <= 131074
    ensures Checksum(data) == 0xFFFF - Canonical(WordSum(data))
  {
    hide Canonical, Folded, OnesSum, WordSum, Checksum;
    NoWrapUpTo(data);
    ChecksumIsComplement(data);
    OnesSumIsCanonical(data);
  }

  // Writing the checksum into a zero field at an even offset makes the checksum of the whole 0: what the
  // receiver checks.
  lemma StoredChecksumCancels(data: seq<byte>, at: nat)
    requires |data| <= 131074 && at % 2 == 0 && at + 2 <= |data| && data[at..at + 2] == [0, 0]
    ensures
      var c := Checksum(data);
      Checksum(Splice(data, at, [c % 0x100, c / 0x100])) == 0
  {
    hide Canonical, Checksum, WordSum;
    var c := Checksum(data);
    var a, b := data[..at], data[at + 2..];
    assert data == a + [0, 0] + b;
    assert Splice(data, at, [c % 0x100, c / 0x100]) == a + [c % 0x100, c / 0x100] + b;
    StoredAtEven(a, 0, 0, b);
    StoredAtEven(a, c % 0x100, c / 0x100, b);
    ChecksumOfSum(data);
    ChecksumOfSum(Splice(data, at, [c % 0x100, c / 0x100]));
    ComplementAdded(WordSum(data));
  }

  function SwapWords(data: seq<byte>): (r: seq<byte>)
    requires |data| % 2 == 0
    ensures |r| == |data|
  {
    if data == [] then [] else [data[1], data[0]] + SwapWords(data[2..])
  }

  function SwapBytes(x: uint16): uint16 { Le16(x / 0x100, x % 0x100) }

  // Swapping the bytes of a word multiplies it by 256, modulo 65535.
  lemma {:induction false} SwappedSum(data: seq<byte>) returns (k: int)
    requires |data| % 2 == 0
    ensures WordSum(SwapWords(data)) == 0x100 * WordSum(data) - 0xFFFF * k
    ensures WordSum(SwapWords(data)) == 0 <==> WordSum(data) == 0
  {
    k := 0;
    if data != [] {
      var rest := SwappedSum(data[2..]);
      k := rest + data[1];
      assert SwapWords(data)[2..] == SwapWords(data[2..]);
    }
  }

  lemma SwapCanonical(sum: nat, swapped: nat, k: int)
    requires swapped == 0x100 * sum - 0xFFFF * k && (swapped == 0 <==> sum == 0)
    ensures Canonical(swapped) == SwapBytes(Canonical(sum))
  {
    hide Canonical, SwapBytes;
    var c := Canonical(sum);
    var m := (sum - c) / 0xFFFF;
    assert sum == c + 0xFFFF * m;
    SwapIsProduct(c);
    Multiple(swapped - SwapBytes(c), 0x100 * m - k + c / 0x100);
    CanonicalUnique(swapped, SwapBytes(c));
  }

  lemma SwapIsProduct(c: uint16)
    ensures SwapBytes(c) == 0x100 * c - 0xFFFF * (c / 0x100)
    ensures SwapBytes(c) == 0 <==> c == 0
  {
  }

  lemma Multiple(x: int, q: int)
    requires x == 0xFFFF * q
    ensures x % 0xFFFF == 0
  {
  }

  lemma SwapComplement(c: uint16)
    ensures SwapBytes(0xFFFF - c) == 0xFFFF - SwapBytes(c)
  {
    var hi, lo := c / 0x100, c % 0x100;
    assert (0xFFFF - c) / 0x100 == 0xFF - hi && (0xFFFF - c) % 0x100 == 0xFF - lo;
  }

  // The checksum does not care about byte order: swap every word, and it comes out swapped.
  lemma ByteOrderIndependent(data: seq<byte>)
    requires |data| <= 131074 && |data| % 2 == 0
    ensures Checksum(SwapWords(data)) == SwapBytes(Checksum(data))
  {
    hide Canonical, Checksum, WordSum, SwapWords, SwapBytes;
    var k := SwappedSum(data);
    ChecksumOfSum(data);
    ChecksumOfSum(SwapWords(data));
    SwapCanonical(WordSum(data), WordSum(SwapWords(data)), k);
    SwapComplement(Canonical(WordSum(data)));
  }

  // ---------------------------------------------------------------- the echo request

  // The packet main sends, with this checksum: header, timestamp, padding.
  function EchoRequest(checksum: uint16, id: uint16, sequence: uint16, timestamp: seq<byte>): seq<byte> {
    [8, 0, checksum % 0x100, checksum / 0x100] + PutBe16(id) + PutBe16(sequence) + timestamp + seq(48, _ => 0)
  }

  lemma EchoRequestField(checksum: uint16, id: uint16, sequence: uint16, timestamp: seq<byte>)
    ensures |EchoRequest(0, id, sequence, timestamp)| == 56 + |timestamp|
    ensures EchoRequest(0, id, sequence, timestamp)[2..4] == [0, 0]
    ensures Splice(EchoRequest(0, id, sequence, timestamp), 2, [checksum % 0x100, checksum / 0x100])
      == EchoRequest(checksum, id, sequence, timestamp)
  {
    hide PutBe16;
    var rest := PutBe16(id) + PutBe16(sequence) + timestamp + seq(48, _ => 0);
    assert EchoRequest(0, id, sequence, timestamp) == [8, 0, 0, 0] + rest;
    assert EchoRequest(checksum, id, sequence, timestamp) == [8, 0, checksum % 0x100, checksum / 0x100] + rest;
  }

  lemma FieldsInPlace(cleared: seq<byte>, id: seq<byte>, sequence: seq<byte>, timestamp: seq<byte>)
    requires |cleared| == 72 && |id| == 2 && |sequence| == 2 && |timestamp| == 16
    requires cleared[..4] == [8, 0, 0, 0] && cleared[24..] == seq(48, _ => 0)
    ensures Splice(Splice(Splice(cleared, 4, id), 6, sequence), 8, timestamp)
      == [8, 0, 0, 0] + id + sequence + timestamp + seq(48, _ => 0)
  {
    SpliceTwice(cleared, 4, id, sequence);
    SpliceTwice(cleared, 4, id + sequence, timestamp);
    var fields := id + sequence + timestamp;
    assert Splice(cleared, 4, fields) == cleared[..4] + fields + cleared[24..];
  }

  // The packet before its checksum is known: cleared, then the fields that are not 0.
  method FillEchoRequest(id: int, sequence: int, timestamp: seq<byte>) returns (packet: array<byte>)
    requires |timestamp| == 16
    ensures fresh(packet) && packet[..] == EchoRequest(0, U16(id), U16(sequence), timestamp)
  {
    hide U16, PutBe16, Splice;
    packet := new byte[72](_ => 0);
    packet[0] := 8;
    ghost var cleared := packet[..];
    assert cleared[..4] == [8, 0, 0, 0] && cleared[24..] == seq(48, _ => 0);
    CopyInto(packet, 4, PutBe16(U16(id)));
    CopyInto(packet, 6, PutBe16(U16(sequence)));
    CopyInto(packet, 8, timestamp);
    FieldsInPlace(cleared, PutBe16(U16(id)), PutBe16(U16(sequence)), timestamp);
  }

  method BuildEchoRequest(id: int, sequence: int, timestamp: seq<byte>) returns (packet: array<byte>)
    requires |timestamp| == 16
    ensures packet.Length == 72 && packet[0] == 8 && packet[1] == 0
    ensures 0x100 * packet[4] as int + packet[5] as int == id % 0x1_0000
    ensures 0x100 * packet[6] as int + packet[7] as int == sequence % 0x1_0000
    ensures packet[8..24] == timestamp && forall k :: 24 <= k < 72 ==> packet[k] == 0
    ensures Checksum(packet[..]) == 0
  {
    hide Checksum, EchoRequest, U16;
    packet := FillEchoRequest(id, sequence, timestamp);
    ghost var before := packet[..];
    var checksum := ComputeChecksum(packet, packet.Length);
    EchoRequestField(checksum, U16(id), U16(sequence), timestamp);
    StoredChecksumCancels(before, 2);
    CopyInto(packet, 2, [checksum % 0x100, checksum / 0x100]);
    EchoRequestBytes(packet[..], checksum, id, sequence, timestamp);
  }

  // The request's fields, byte by byte.
  lemma EchoRequestBytes(s: seq<byte>, checksum: uint16, id: int, sequence: int, timestamp: seq<byte>)
    requires |timestamp| == 16 && s == EchoRequest(checksum, U16(id), U16(sequence), timestamp)
    ensures |s| == 72 && s[0] == 8 && s[1] == 0
    ensures 0x100 * s[4] as int + s[5] as int == id % 0x1_0000
    ensures 0x100 * s[6] as int + s[7] as int == sequence % 0x1_0000
    ensures s[8..24] == timestamp && forall k :: 24 <= k < 72 ==> s[k] == 0
  {
    assert s[4..6] == PutBe16(U16(id)) && s[6..8] == PutBe16(U16(sequence));
    hide PutBe16;
    assert s[4..6] == [s[4], s[5]] && s[6..8] == [s[6], s[7]];
  }
}

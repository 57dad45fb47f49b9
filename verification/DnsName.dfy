// The name codec of dns_client.c, against the message format of RFC 1035 (sections 3.1 and 4.1.4).
module DnsName {
  import opened Bytes
  import opened Common

  type Str = seq<byte>

  const DOT: byte := 46
  const MAX_LABEL := 63

  // ---------------------------------------------------------------- encoding

  function UntilDot(s: Str): (r: Str)
    ensures r <= s && DOT !in r
    ensures |r| < |s| ==> s[|r|] == DOT
  {
    if s == [] || s[0] == DOT then [] else [s[0]] + UntilDot(s[1..])
  }

  // What is left of a dotted name after its first label and the dot behind it.
  function AfterLabel(s: Str): (r: Str)
    requires s != []
    ensures |r| < |s|
  {
    var n := |UntilDot(s)|;
    if n < |s| then s[n + 1..] else []
  }

  // The bytes encode_name emits; a label's length is cast to one byte.
  function Wire(name: Str): (r: seq<byte>)
    ensures |r| > 0
    decreases |name|
  {
    if name == [] then [0]
    else [|UntilDot(name)| % 0x100] + UntilDot(name) + Wire(AfterLabel(name))
  }

  // The encoded labels that fit before room runs out: what a failing encode_name leaves behind.
  function Fitting(name: Str, room: int): (r: seq<byte>)
    ensures |r| <= if room < 0 then 0 else room
    decreases |name|
  {
    var len := |UntilDot(name)|;
    if name == [] || 1 + len >= room then []
    else [len % 0x100] + UntilDot(name) + Fitting(AfterLabel(name), room - 1 - len)
  }

  // encode_name fails exactly when the wire form does not fit the buffer.
  method EncodeName(name: Str, buf: array<byte>, at: nat, bufsize: int) returns (r: int)
    requires at <= buf.Length && at + bufsize <= buf.Length
    modifies buf
    ensures |Wire(name)| <= bufsize ==> r == |Wire(name)| && buf[..] == Splice(old(buf[..]), at, Wire(name))
    ensures |Wire(name)| > bufsize ==> r == -1
    ensures r == -1 ==> buf[..] == Splice(old(buf[..]), at, Fitting(name, bufsize))
  {
    hide UntilDot, AfterLabel, Splice, Fitting;
    var pos, rest := 0, name;
    ghost var before: seq<byte> := buf[..];
    ghost var done: seq<byte> := [];
    SpliceNothing(before, at);
    while rest != []
      invariant |done| == pos && (pos > 0 ==> pos < bufsize)
      invariant buf[..] == Splice(before, at, done) && Wire(name) == done + Wire(rest)
      invariant Fitting(name, bufsize) == done + Fitting(rest, bufsize - pos)
      decreases |rest|
    {
      var lab := UntilDot(rest);
      var len := |lab|;
      if pos + 1 + len >= bufsize {
        WireIsLonger(rest);
        NoneFits(rest, bufsize - pos);
        assert done + [] == done;
        return -1;
      }
      ghost var piece: seq<byte> := [len % 0x100] + lab;
      PutLabel(lab, buf, at + pos);
      assert buf[..] == Splice(Splice(before, at, done), at + |done|, piece);
      SpliceTwice(before, at, done, piece);
      Associate(done, piece, Wire(AfterLabel(rest)));
      FirstFits(rest, bufsize - pos);
      Associate(done, piece, Fitting(AfterLabel(rest), bufsize - pos - 1 - len));
      done := done + piece;
      pos := pos + 1 + len;
      rest := AfterLabel(rest);
    }
    if pos >= bufsize {
      NoneFits([], bufsize - pos);
      assert done + [] == done;
      return -1;
    }
    PutRoot(buf, at + pos);
    SpliceTwice<byte>(before, at, done, [0]);
    pos := pos + 1;
    r := pos;
  }

  // What a failing call leaves is the longest run of whole labels of the wire form that keeps a byte free.
  lemma {:induction false} FittingIsLongest(name: Str, room: int) returns (rest: Str)
    ensures Wire(name) == Fitting(name, room) + Wire(rest)
    ensures Fitting(name, room) == [] || |Fitting(name, room)| < room
    ensures rest == [] || |Fitting(name, room)| + 1 + |UntilDot(rest)| >= room
    decreases |name|
  {
    hide UntilDot, AfterLabel;
    rest := name;
    if name == [] || 1 + |UntilDot(name)| >= room {
      NoneFits(name, room);
      assert [] + Wire(name) == Wire(name);
    } else {
      var len := |UntilDot(name)|;
      FirstFits(name, room);
      rest := FittingIsLongest(AfterLabel(name), room - 1 - len);
      WireOfFirst(name);
      Associate([len % 0x100] + UntilDot(name), Fitting(AfterLabel(name), room - 1 - len), Wire(rest));
    }
  }

  lemma WireOfFirst(name: Str)
    requires name != []
    ensures Wire(name) == [|UntilDot(name)| % 0x100] + UntilDot(name) + Wire(AfterLabel(name))
  {
  }

  lemma NoneFits(rest: Str, room: int)
    requires rest == [] || 1 + |UntilDot(rest)| >= room
    ensures Fitting(rest, room) == []
  {
  }

  lemma FirstFits(rest: Str, room: int)
    requires rest != [] && 1 + |UntilDot(rest)| < room
    ensures var len := |UntilDot(rest)|;
            Fitting(rest, room) == [len % 0x100] + UntilDot(rest) + Fitting(AfterLabel(rest), room - 1 - len)
  {
  }

  lemma SpliceNothing(s: seq<byte>, at: nat)
    requires at <= |s|
    ensures Splice(s, at, []) == s
  {
  }

  lemma WireIsLonger(name: Str)
    requires name != []
    ensures |Wire(name)| > 1 + |UntilDot(name)|
  {
  }

  // A length byte followed by the label.
  method PutLabel(lab: Str, buf: array<byte>, at: nat)
    requires at + 1 + |lab| <= buf.Length
    modifies buf
    ensures buf[..] == Splice<byte>(old(buf[..]), at, [|lab| % 0x100] + lab)
  {
    ghost var before := buf[..];
    buf[at] := |lab| % 0x100;
    assert buf[..] == Splice<byte>(before, at, [|lab| % 0x100]);
    CopyInto(buf, at + 1, lab);
    SpliceTwice<byte>(before, at, [|lab| % 0x100], lab);
  }

  method PutRoot(buf: array<byte>, at: nat)
    requires at < buf.Length
    modifies buf
    ensures buf[..] == Splice<byte>(old(buf[..]), at, [0])
  {
    buf[at] := 0;
  }

  // ---------------------------------------------------------------- names as label sequences

  predicate IsLabel(l: Str) { 1 <= |l| <= MAX_LABEL }

  predicate AreLabels(ls: seq<Str>) { forall l :: l in ls ==> IsLabel(l) }

  function LengthByte(l: Str): byte requires IsLabel(l) { |l| }

  function WireLabels(ls: seq<Str>): seq<byte>
    requires AreLabels(ls)
  {
    if ls == [] then [] else [LengthByte(ls[0])] + ls[0] + WireLabels(ls[1..])
  }

  // Labels appended to a dotted name, with a dot before each one unless the name is still empty.
  function Append(name: Str, ls: seq<Str>): (r: Str)
    ensures name <= r
    decreases |ls|
  {
    if ls == [] then name
    else Append(Extend(name, ls[0]), ls[1..])
  }

  function Extend(name: Str, l: Str): (r: Str)
    ensures name <= r && |l| <= |r|
  {
    if name == [] then l else name + [DOT] + l
  }

  function Dotted(ls: seq<Str>): Str { Append([], ls) }

  predicate NoDots(ls: seq<Str>) { forall l :: l in ls ==> DOT !in l }

  // ---------------------------------------------------------------- reference expansion

  // The labels a name at `pos` stands for, and the offset just past its own bytes.
  datatype Expansion = Expansion(labels: seq<Str>, end: nat)

  predicate IsPointer(b: byte) { b >= 0xC0 }

  // Pointer targets must lie strictly below `start`, where the current run of labels began; the run
  // starts over at the target. None for a truncated name, a reserved length byte or such a pointer.
  function Expand(pkt: seq<byte>, len: nat, start: nat, pos: nat): (r: Option<Expansion>)
    requires len <= |pkt|
    ensures r.Some? ==> pos < len && pos < r.value.end <= len && AreLabels(r.value.labels)
    decreases start, |pkt| - pos
  {
    if pos >= len then None
    else if pkt[pos] == 0 then Some(Expansion([], pos + 1))
    else if IsPointer(pkt[pos]) then
      if pos + 1 >= len then None else
      var target := PointerTarget(pkt[pos], pkt[pos + 1]);
      if target >= start then None else
      match Expand(pkt, len, target, target)
      case None => None
      case Some(e) => Some(Expansion(e.labels, pos + 2))
    else if pkt[pos] > MAX_LABEL || pos + 1 + pkt[pos] >= len then None
    else
      match Expand(pkt, len, start, pos + 1 + pkt[pos])
      case None => None
      case Some(e) => Some(Expansion([pkt[pos + 1..pos + 1 + pkt[pos]]] + e.labels, e.end))
  }

  function PointerTarget(hi: byte, lo: byte): nat { hi % 0x40 * 0x100 + lo }

  // ---------------------------------------------------------------- the decoder

  // The variables of parse_name. `overrun` marks a pointer whose second byte is outside the buffer.
  datatype ParseState = ParseState(pos: nat, out: Str, jumped: bool, saved: nat, done: bool, overrun: bool)
  {
    function Offset(): nat { if jumped then saved else pos }
  }

  function ParseStart(offset: nat): ParseState { ParseState(offset, [], false, 0, false, false) }

  predicate Parsing(len: nat, st: ParseState) { !st.done && st.pos < len }

  // One turn of parse_name's loop over the first len bytes of pkt, into an outsize-byte buffer.
  function ParseStep(pkt: seq<byte>, len: nat, outsize: nat, st: ParseState): ParseState
    requires len <= |pkt| && Parsing(len, st)
  {
    var b := pkt[st.pos];
    if b == 0 then st.(pos := st.pos + 1, done := true)
    else if IsPointer(b) then
      if st.pos + 1 >= |pkt| then st.(done := true, overrun := true)
      else st.(pos := PointerTarget(b, pkt[st.pos + 1]), jumped := true,
               saved := if st.jumped then st.saved else st.pos + 2)
    else
      var (pos, out) := LabelOut(pkt, len, outsize, st.pos + 1, b, st.out);
      st.(pos := pos, out := out)
  }

  // How many bytes the copy loop moves: bounded by the label, the packet and the room left.
  function CopyCount(size: int, avail: int, room: int): nat {
    var m := Min(size, Min(avail, room));
    if m < 0 then 0 else m
  }

  function ParseRun(pkt: seq<byte>, len: nat, outsize: nat, st: ParseState, n: nat): ParseState
    requires len <= |pkt|
    decreases n
  {
    if n == 0 || !Parsing(len, st) then st
    else ParseRun(pkt, len, outsize, ParseStep(pkt, len, outsize, st), n - 1)
  }

  // The loop has ended within n turns and stayed inside the buffer.
  predicate ParsesBy(pkt: seq<byte>, len: nat, outsize: nat, st: ParseState, n: nat)
    requires len <= |pkt|
  {
    var end := ParseRun(pkt, len, outsize, st, n);
    !Parsing(len, end) && !end.overrun
  }

  ghost predicate Parses(pkt: seq<byte>, len: nat, outsize: nat, offset: nat)
    requires len <= |pkt|
  {
    exists n: nat :: ParsesBy(pkt, len, outsize, ParseStart(offset), n)
  }

  lemma {:induction false} ParseRunStable(pkt: seq<byte>, len: nat, outsize: nat, st: ParseState, n: nat, m: nat)
    requires len <= |pkt| && n <= m
    requires !Parsing(len, ParseRun(pkt, len, outsize, st, n))
    ensures ParseRun(pkt, len, outsize, st, m) == ParseRun(pkt, len, outsize, st, n)
    decreases n
  {
    if Parsing(len, st) {
      ParseRunStable(pkt, len, outsize, ParseStep(pkt, len, outsize, st), n - 1, m - 1);
    }
  }

  lemma ParseUnique(pkt: seq<byte>, len: nat, outsize: nat, st: ParseState, n: nat, m: nat)
    requires len <= |pkt|
    requires !Parsing(len, ParseRun(pkt, len, outsize, st, n))
    requires !Parsing(len, ParseRun(pkt, len, outsize, st, m))
    ensures ParseRun(pkt, len, outsize, st, m) == ParseRun(pkt, len, outsize, st, n)
  {
    var k := if n <= m then n else m;
    ParseRunStable(pkt, len, outsize, st, k, n);
    ParseRunStable(pkt, len, outsize, st, k, m);
  }

  // From st, the loop ends with this name in the buffer and returns this offset.
  ghost predicate Reads(pkt: seq<byte>, len: nat, outsize: nat, st: ParseState, out: Str, offset: nat)
    requires len <= |pkt|
  {
    exists n: nat :: ReadsBy(pkt, len, outsize, st, out, offset, n)
  }

  predicate ReadsBy(pkt: seq<byte>, len: nat, outsize: nat, st: ParseState, out: Str, offset: nat, n: nat)
    requires len <= |pkt|
  {
    var end := ParseRun(pkt, len, outsize, st, n);
    ParsesBy(pkt, len, outsize, st, n) && end.out == out && end.Offset() == offset
  }

  lemma ReadsStep(pkt: seq<byte>, len: nat, outsize: nat, st: ParseState, out: Str, offset: nat)
    requires len <= |pkt| && Parsing(len, st)
    requires Reads(pkt, len, outsize, ParseStep(pkt, len, outsize, st), out, offset)
    ensures Reads(pkt, len, outsize, st, out, offset)
  {
    hide ParseStep;
    var next := ParseStep(pkt, len, outsize, st);
    var n: nat :| ReadsBy(pkt, len, outsize, next, out, offset, n);
    assert ParseRun(pkt, len, outsize, st, n + 1) == ParseRun(pkt, len, outsize, next, n);
    assert ReadsBy(pkt, len, outsize, st, out, offset, n + 1);
  }

  // ---------------------------------------------------------------- when decoding ends

  // Every jump the decoder makes from st on targets an offset strictly below the start of the label run it
  // jumps from, and reads its second byte inside the buffer. Label lengths and truncation do not matter.
  predicate Descends(pkt: seq<byte>, len: nat, outsize: nat, start: nat, st: ParseState)
    requires len <= |pkt|
    decreases start, if st.pos < len then len - st.pos else 0
  {
    if !Parsing(len, st) || pkt[st.pos] == 0 then true
    else if IsPointer(pkt[st.pos]) then
      && st.pos + 1 < |pkt| && PointerTarget(pkt[st.pos], pkt[st.pos + 1]) < start
      && Descends(pkt, len, outsize, PointerTarget(pkt[st.pos], pkt[st.pos + 1]), ParseStep(pkt, len, outsize, st))
    else Descends(pkt, len, outsize, start, ParseStep(pkt, len, outsize, st))
  }

  // Then the loop ends, on any packet: at each turn the run's start, or else the bytes left, get fewer.
  lemma {:induction false} DescendingEnds(pkt: seq<byte>, len: nat, outsize: nat, start: nat, st: ParseState)
    returns (n: nat)
    requires len <= |pkt| && !st.overrun && Descends(pkt, len, outsize, start, st)
    ensures ParsesBy(pkt, len, outsize, st, n)
    decreases start, if st.pos < len then len - st.pos else 0
  {
    n := 0;
    if Parsing(len, st) {
      var next := ParseStep(pkt, len, outsize, st);
      if pkt[st.pos] == 0 {
        n := 1;
        assert ParseRun(pkt, len, outsize, next, 0) == next;
      } else {
        var run := if IsPointer(pkt[st.pos]) then PointerTarget(pkt[st.pos], pkt[st.pos + 1]) else start;
        var rest := DescendingEnds(pkt, len, outsize, run, next);
        n := rest + 1;
      }
    }
  }

  lemma ParseEnds(pkt: seq<byte>, len: nat, outsize: nat, offset: nat)
    requires len <= |pkt| && Descends(pkt, len, outsize, offset, ParseStart(offset))
    ensures Parses(pkt, len, outsize, offset)
  {
    hide ParsesBy, Descends;
    var n := DescendingEnds(pkt, len, outsize, offset, ParseStart(offset));
  }

  // ---------------------------------------------------------------- decoding refines expansion

  // Bytes that neither end a name nor start a pointer.
  predicate PlainBytes(s: Str) { forall b :: b in s ==> 0 < b && !IsPointer(b) }

  predicate PlainLabels(ls: seq<Str>) { forall l :: l in ls ==> PlainBytes(l) }

  // The name is not cut short, or cutting it short cannot be mistaken for an end or a pointer.
  predicate Readable(ls: seq<Str>, name: Str, outsize: nat) {
    |Append(name, ls)| < outsize || PlainLabels(ls)
  }

  function Cut(s: Str, outsize: nat): Str
    requires outsize > 0
  {
    if |s| < outsize then s else s[..outsize - 1]
  }

  // With a full output buffer the loop moves one byte a turn.
  lemma {:induction false} Skim(pkt: seq<byte>, len: nat, outsize: nat, st: ParseState, stop: nat, out: Str,
      offset: nat)
    requires len <= |pkt| && !st.done && |st.out| == outsize - 1
    requires st.pos <= stop <= len && PlainBytes(pkt[st.pos..stop])
    requires Reads(pkt, len, outsize, st.(pos := stop), out, offset)
    ensures Reads(pkt, len, outsize, st, out, offset)
    decreases stop - st.pos
  {
    hide Reads;
    if st.pos < stop {
      var bytes := pkt[st.pos..stop];
      assert bytes[0] in bytes;
      var next := st.(pos := st.pos + 1);
      assert ParseStep(pkt, len, outsize, st) == next;
      assert pkt[next.pos..stop] == bytes[1..];
      Skim(pkt, len, outsize, next, stop, out, offset);
      ReadsStep(pkt, len, outsize, st, out, offset);
    } else {
      assert st.(pos := stop) == st;
    }
  }

  // One turn on a label: all of it when it fits, else as much as there is room for.
  lemma LabelStep(pkt: seq<byte>, len: nat, outsize: nat, st: ParseState)
    requires len <= |pkt| && Parsing(len, st) && !st.overrun && |st.out| < outsize
    requires 0 < pkt[st.pos] && !IsPointer(pkt[st.pos]) && st.pos + 1 + pkt[st.pos] <= len
    ensures var stop := st.pos + 1 + pkt[st.pos];
            var full := Extend(st.out, pkt[st.pos + 1..stop]);
            var next := ParseStep(pkt, len, outsize, st);
            && next == st.(pos := next.pos, out := Cut(full, outsize)) && st.pos < next.pos <= stop
            && (|full| < outsize ==> next.pos == stop)
  {
    hide Extend, Cut;
    var stop := st.pos + 1 + pkt[st.pos];
    var l, out := pkt[st.pos + 1..stop], if 0 < |st.out| < outsize - 1 then st.out + [DOT] else st.out;
    var n := CopyCount(pkt[st.pos], len - (st.pos + 1), outsize - 1 - |out|);
    assert pkt[st.pos + 1..st.pos + 1 + n] == l[..n];
    CutLabel(st.out, out, l, outsize);
  }

  lemma CutLabel(name: Str, dotted: Str, l: Str, outsize: nat)
    requires |name| < outsize && dotted == if 0 < |name| < outsize - 1 then name + [DOT] else name
    ensures var room := outsize - 1 - |dotted|;
            dotted + l[..Min(|l|, room)] == Cut(Extend(name, l), outsize)
    ensures |Extend(name, l)| < outsize ==> |l| <= outsize - 1 - |dotted|
  {
  }

  lemma {:induction false} AppendExtends(name: Str, l: Str, ls: seq<Str>)
    ensures Append(name, [l] + ls) == Append(Extend(name, l), ls)
  {
    assert ([l] + ls)[1..] == ls;
  }

  // A prefix that is already cut stays what it is.
  lemma CutPrefix(p: Str, s: Str, outsize: nat)
    requires 0 < outsize <= |p| && p <= s
    ensures Cut(s, outsize) == Cut(p, outsize)
  {
  }

  function ReturnedOffset(st: ParseState, e: Expansion): nat { if st.jumped then st.saved else e.end }

  // parse_name follows the reference expansion: it ends, leaves the dotted name (cut to the buffer)
  // and returns the offset past the first pointer, or past the root label when there is none.
  lemma {:induction false} DecodeFollows(pkt: seq<byte>, len: nat, outsize: nat, start: nat, st: ParseState,
      e: Expansion)
    requires len <= |pkt| && !st.done && !st.overrun && |st.out| < outsize
    requires Expand(pkt, len, start, st.pos) == Some(e) && Readable(e.labels, st.out, outsize)
    ensures Reads(pkt, len, outsize, st, Cut(Append(st.out, e.labels), outsize), ReturnedOffset(st, e))
    decreases start, |pkt| - st.pos
  {
    hide Reads;
    var out, offset := Cut(Append(st.out, e.labels), outsize), ReturnedOffset(st, e);
    if pkt[st.pos] == 0 {
      ReadsRoot(pkt, len, outsize, st);
    } else if IsPointer(pkt[st.pos]) {
      var target := PointerTarget(pkt[st.pos], pkt[st.pos + 1]);
      var next := ParseStep(pkt, len, outsize, st);
      DecodeFollows(pkt, len, outsize, target, next, Expand(pkt, len, target, target).value);
      ReadsStep(pkt, len, outsize, st, out, offset);
    } else {
      DecodeLabel(pkt, len, outsize, start, st, e);
    }
  }

  lemma ReadsRoot(pkt: seq<byte>, len: nat, outsize: nat, st: ParseState)
    requires len <= |pkt| && Parsing(len, st) && pkt[st.pos] == 0 && !st.overrun
    ensures Reads(pkt, len, outsize, st, st.out, if st.jumped then st.saved else st.pos + 1)
  {
    assert ParseRun(pkt, len, outsize, st, 1) == ParseStep(pkt, len, outsize, st);
    assert ReadsBy(pkt, len, outsize, st, st.out, if st.jumped then st.saved else st.pos + 1, 1);
  }

  lemma {:induction false} DecodeLabel(pkt: seq<byte>, len: nat, outsize: nat, start: nat, st: ParseState, e: Expansion)
    requires len <= |pkt| && Parsing(len, st) && !st.overrun && |st.out| < outsize
    requires Expand(pkt, len, start, st.pos) == Some(e) && Readable(e.labels, st.out, outsize)
    requires pkt[st.pos] != 0 && !IsPointer(pkt[st.pos])
    ensures Reads(pkt, len, outsize, st, Cut(Append(st.out, e.labels), outsize), ReturnedOffset(st, e))
    decreases start, |pkt| - st.pos, 0
  {
    hide Reads, ParseStep, Expand, Cut, Readable, Append, PlainLabels, Extend;
    var l, rest := ExpandLabel(pkt, len, start, st.pos, e);
    var stop := st.pos + 1 + |l|;
    var out, offset := Cut(Append(st.out, e.labels), outsize), ReturnedOffset(st, e);
    var full, next := Extend(st.out, l), ParseStep(pkt, len, outsize, st);
    LabelStep(pkt, len, outsize, st);
    ReadableRest(st.out, l, rest.labels, outsize);
    AppendExtends(st.out, l, rest.labels);
    if |full| < outsize {
      CutWhole(full, outsize);
      DecodeFollows(pkt, len, outsize, start, next, rest);
    } else {
      CutPrefix(full, Append(full, rest.labels), outsize);
      CutFull(full, outsize);
      DecodeFollows(pkt, len, outsize, start, next.(pos := stop), rest);
      CutAgain(next.out, Append(next.out, rest.labels), outsize);
      PlainTail(pkt, st.pos + 1, next.pos, stop);
      Skim(pkt, len, outsize, next, stop, out, offset);
    }
    ReadsStep(pkt, len, outsize, st, out, offset);
  }

  lemma PlainTail(pkt: seq<byte>, from: nat, mid: nat, stop: nat)
    requires from <= mid <= stop <= |pkt| && PlainBytes(pkt[from..stop])
    ensures PlainBytes(pkt[mid..stop])
  {
    forall b | b in pkt[mid..stop] ensures b in pkt[from..stop] {
      var k :| 0 <= k < stop - mid && pkt[mid..stop][k] == b;
      assert pkt[from..stop][mid - from + k] == b;
    }
  }

  lemma ExpandLabel(pkt: seq<byte>, len: nat, start: nat, pos: nat, e: Expansion) returns (l: Str, rest: Expansion)
    requires len <= |pkt| && pos < len && Expand(pkt, len, start, pos) == Some(e)
    requires pkt[pos] != 0 && !IsPointer(pkt[pos])
    ensures 0 < pkt[pos] <= MAX_LABEL && pos + 1 + pkt[pos] < len && l == pkt[pos + 1..pos + 1 + pkt[pos]]
    ensures Expand(pkt, len, start, pos + 1 + |l|) == Some(rest)
    ensures e == Expansion([l] + rest.labels, rest.end)
  {
    l := pkt[pos + 1..pos + 1 + pkt[pos]];
    rest := Expand(pkt, len, start, pos + 1 + |l|).value;
  }

  lemma ReadableRest(name: Str, l: Str, ls: seq<Str>, outsize: nat)
    requires Readable([l] + ls, name, outsize)
    ensures |Extend(name, l)| < outsize ==> Readable(ls, Extend(name, l), outsize)
    ensures |Extend(name, l)| >= outsize ==> PlainBytes(l) && forall p :: Readable(ls, p, outsize)
  {
    AppendExtends(name, l, ls);
    assert ([l] + ls)[0] in [l] + ls;
    assert forall m :: m in ls ==> m in [l] + ls;
    hide Append, PlainBytes;
  }

  lemma CutWhole(s: Str, outsize: nat)
    requires |s| < outsize
    ensures Cut(s, outsize) == s
  {
  }

  lemma CutFull(s: Str, outsize: nat)
    requires 0 < outsize <= |s|
    ensures |Cut(s, outsize)| == outsize - 1
  {
  }

  lemma CutAgain(p: Str, s: Str, outsize: nat)
    requires |p| == outsize - 1 && p <= s
    ensures Cut(s, outsize) == p
  {
  }

  lemma ReadsParses(pkt: seq<byte>, len: nat, outsize: nat, offset: nat, out: Str, r: nat)
    requires len <= |pkt| && Reads(pkt, len, outsize, ParseStart(offset), out, r)
    ensures Parses(pkt, len, outsize, offset)
  {
    var n: nat :| ReadsBy(pkt, len, outsize, ParseStart(offset), out, r, n);
    assert ParsesBy(pkt, len, outsize, ParseStart(offset), n);
  }

  // A parse has one outcome.
  lemma ReadsUnique(pkt: seq<byte>, len: nat, outsize: nat, st: ParseState, out1: Str, r1: nat, out2: Str, r2: nat)
    requires len <= |pkt|
    requires Reads(pkt, len, outsize, st, out1, r1) && Reads(pkt, len, outsize, st, out2, r2)
    ensures out1 == out2 && r1 == r2
  {
    var n: nat :| ReadsBy(pkt, len, outsize, st, out1, r1, n);
    var m: nat :| ReadsBy(pkt, len, outsize, st, out2, r2, m);
    ParseUnique(pkt, len, outsize, st, n, m);
  }

  // ---------------------------------------------------------------- parse_name

  method ParseName(pkt: array<byte>, pktlen: nat, offset: nat, out: array<byte>, outsize: nat)
    returns (r: nat, ghost name: Str)
    requires pkt != out && pktlen <= pkt.Length && 0 < outsize <= out.Length
    requires Parses(pkt[..], pktlen, outsize, offset)
    modifies out
    ensures |name| < outsize && out[..|name| + 1] == name + [0]
    ensures Reads(pkt[..], pktlen, outsize, ParseStart(offset), name, r)
    ensures forall e :: Expand(pkt[..], pktlen, offset, offset) == Some(e) && Readable(e.labels, [], outsize) ==>
              name == Cut(Dotted(e.labels), outsize) && r == e.end
  {
    hide ParseStep, ParsesBy, Expand, Readable, Dotted, Cut, CopyCount, PointerTarget, Reads;
    var pos, outPos, jumped, savedPos := offset, 0, false, 0;
    ghost var all, start := pkt[..], ParseStart(offset);
    ghost var turns: nat :| ParsesBy(all, pktlen, outsize, start, turns);
    ghost var left, st := turns, start;
    while pos < pktlen
      invariant 0 <= outPos < outsize && 0 <= pos && 0 <= savedPos && pkt[..] == all
      invariant st == ParseState(pos, out[..outPos], jumped, savedPos, false, false)
      invariant ParsesBy(all, pktlen, outsize, st, left)
      invariant ParseRun(all, pktlen, outsize, st, left) == ParseRun(all, pktlen, outsize, start, turns)
      decreases left
    {
      TurnTaken(all, pktlen, outsize, st, left);
      StepCases(all, pktlen, outsize, st);
      st := ParseStep(all, pktlen, outsize, st);
      left := left - 1;
      var len := pkt[pos];
      if len == 0 {
        pos := pos + 1;
        break;
      }
      if IsPointer(len) {
        if !jumped { savedPos := pos + 2; }
        pos := PointerTarget(len, pkt[pos + 1]);
        jumped := true;
        continue;
      }
      pos, outPos := TakeLabel(pkt, pktlen, pos + 1, len, out, outsize, outPos);
    }
    assert ParseRun(all, pktlen, outsize, start, turns) == st;
    out[outPos] := 0;
    r := if jumped then savedPos else pos;
    name := out[..outPos];
    ReadsIn(all, pktlen, outsize, start, name, r, turns);
    forall e | Expand(all, pktlen, offset, offset) == Some(e) && Readable(e.labels, [], outsize)
      ensures name == Cut(Dotted(e.labels), outsize) && r == e.end
    {
      ParsedAsExpanded(all, pktlen, outsize, offset, e, name, r);
    }
  }

  lemma ReadsIn(pkt: seq<byte>, len: nat, outsize: nat, st: ParseState, out: Str, offset: nat, n: nat)
    requires len <= |pkt| && ReadsBy(pkt, len, outsize, st, out, offset, n)
    ensures Reads(pkt, len, outsize, st, out, offset)
  {
  }

  // What one label adds to the output: a dot unless the name is empty, then as many bytes as fit.
  function LabelOut(pkt: seq<byte>, len: nat, outsize: nat, at: nat, size: nat, out: Str): (r: (nat, Str))
    requires at <= len <= |pkt|
  {
    var dotted := if 0 < |out| < outsize - 1 then out + [DOT] else out;
    var n := CopyCount(size, len - at, outsize - 1 - |dotted|);
    (at + n, dotted + pkt[at..at + n])
  }

  method TakeLabel(pkt: array<byte>, pktlen: nat, at: nat, len: nat, out: array<byte>, outsize: nat, outAt: nat)
    returns (pos: nat, outPos: nat)
    requires pkt != out && at <= pktlen <= pkt.Length && outAt < outsize <= out.Length
    modifies out
    ensures outPos < outsize
    ensures (pos, out[..outPos]) == LabelOut(pkt[..], pktlen, outsize, at, len, old(out[..outAt]))
  {
    var start := outAt;
    if outAt > 0 && outAt < outsize - 1 {
      out[outAt] := DOT;
      start := outAt + 1;
      assert out[..start] == old(out[..outAt]) + [DOT];
    }
    pos, outPos := CopyBytes(pkt, pktlen, at, len, out, outsize, start);
    assert pkt[..][at..pos] == pkt[at..pos];
  }

  // The copy loop of a label.
  method CopyBytes(pkt: array<byte>, pktlen: nat, at: nat, len: nat, out: array<byte>, outsize: nat, outAt: nat)
    returns (pos: nat, outPos: nat)
    requires pkt != out && at <= pktlen <= pkt.Length && outAt < outsize <= out.Length
    modifies out
    ensures var n := CopyCount(len, pktlen - at, outsize - 1 - outAt);
            pos == at + n && outPos == outAt + n && outPos < outsize
    ensures at <= pos <= pktlen && out[..outPos] == old(out[..outAt]) + pkt[at..pos]
  {
    pos, outPos := at, outAt;
    var i := 0;
    while i < len && pos < pktlen && outPos < outsize - 1
      invariant 0 <= i <= len && pos == at + i <= pktlen && outPos == outAt + i < outsize
      invariant out[..outPos] == old(out[..outAt]) + pkt[at..pos]
    {
      out[outPos] := pkt[pos];
      outPos := outPos + 1;
      pos := pos + 1;
      i := i + 1;
    }
  }

  lemma TurnTaken(pkt: seq<byte>, len: nat, outsize: nat, st: ParseState, left: nat)
    requires len <= |pkt| && Parsing(len, st) && ParsesBy(pkt, len, outsize, st, left)
    ensures left > 0 && ParsesBy(pkt, len, outsize, ParseStep(pkt, len, outsize, st), left - 1)
    ensures ParseRun(pkt, len, outsize, st, left)
         == ParseRun(pkt, len, outsize, ParseStep(pkt, len, outsize, st), left - 1)
    ensures !ParseStep(pkt, len, outsize, st).overrun
  {
    var next := ParseStep(pkt, len, outsize, st);
    if next.overrun {
      assert ParseRun(pkt, len, outsize, next, left - 1).overrun || st.overrun;
      StaysOverrun(pkt, len, outsize, next, left - 1);
    }
  }

  lemma {:induction false} StaysOverrun(pkt: seq<byte>, len: nat, outsize: nat, st: ParseState, n: nat)
    requires len <= |pkt| && st.overrun
    ensures ParseRun(pkt, len, outsize, st, n).overrun
    decreases n
  {
    if n > 0 && Parsing(len, st) {
      StaysOverrun(pkt, len, outsize, ParseStep(pkt, len, outsize, st), n - 1);
    }
  }

  lemma StepCases(pkt: seq<byte>, len: nat, outsize: nat, st: ParseState)
    requires len <= |pkt| && Parsing(len, st) && !ParseStep(pkt, len, outsize, st).overrun
    ensures var b := pkt[st.pos];
            var next := ParseStep(pkt, len, outsize, st);
            && (b == 0 ==> next == st.(pos := st.pos + 1, done := true))
            && (IsPointer(b) ==>
                  && st.pos + 1 < |pkt|
                  && next == st.(pos := PointerTarget(b, pkt[st.pos + 1]), jumped := true,
                                 saved := if st.jumped then st.saved else st.pos + 2))
            && (b != 0 && !IsPointer(b) ==>
                  var (pos, out) := LabelOut(pkt, len, outsize, st.pos + 1, b, st.out);
                  next == st.(pos := pos, out := out))
  {
  }

  lemma ParsedAsExpanded(pkt: seq<byte>, len: nat, outsize: nat, offset: nat, e: Expansion, name: Str, r: nat)
    requires len <= |pkt| && 0 < outsize
    requires Expand(pkt, len, offset, offset) == Some(e) && Readable(e.labels, [], outsize)
    requires Reads(pkt, len, outsize, ParseStart(offset), name, r)
    ensures name == Cut(Dotted(e.labels), outsize) && r == e.end
  {
    hide Reads, Expand, Readable;
    DecodeFollows(pkt, len, outsize, offset, ParseStart(offset), e);
    ReadsUnique(pkt, len, outsize, ParseStart(offset), name, r, Cut(Dotted(e.labels), outsize), e.end);
  }
}

// Round trips of the name codec, and the answer section walk of dns_client.c.
module DnsMessage {
  import opened Bytes
  import opened Common
  import opened DnsCut
  import opened DnsName

  // ---------------------------------------------------------------- encode, then decode

  lemma {:induction false} UntilDotOf(l: Str, rest: Str)
    requires DOT !in l && (rest == [] || rest[0] == DOT)
    ensures UntilDot(l + rest) == l
  {
    if l == [] {
      assert l + rest == rest;
    } else {
      assert (l + rest)[1..] == l[1..] + rest;
      UntilDotOf(l[1..], rest);
    }
  }

  // Appending to a nonempty name puts one dot between it and the labels' own dotted form.
  lemma {:induction false} AppendIsJoin(name: Str, ls: seq<Str>)
    requires name != [] && ls != [] && AreLabels(ls)
    ensures Append(name, ls) == name + [DOT] + Dotted(ls)
    decreases |ls|
  {
    var l, rest := ls[0], ls[1..];
    assert l in ls;
    if rest != [] {
      assert AreLabels(rest) by { assert forall m :: m in rest ==> m in ls; }
      hide AreLabels;
      AppendIsJoin(Extend(name, l), rest);
      AppendIsJoin(l, rest);
      assert Append(name, ls) == Append(name + [DOT] + l, rest) && Dotted(ls) == Append(l, rest);
      Associate(name + [DOT], l + [DOT], Dotted(rest));
      Associate(name + [DOT], l, [DOT]);
    } else {
      assert Append(name, ls) == Append(name + [DOT] + l, []) && Dotted(ls) == Append(l, []);
    }
  }

  lemma DottedSplits(ls: seq<Str>)
    requires ls != [] && AreLabels(ls)
    ensures Dotted(ls) == ls[0] + if |ls| == 1 then [] else [DOT] + Dotted(ls[1..])
  {
    assert ls[0] in ls;
    assert forall m :: m in ls[1..] ==> m in ls;
    if |ls| > 1 {
      AppendIsJoin(ls[0], ls[1..]);
    }
  }

  lemma WireStep(l: Str, rest: seq<Str>)
    requires IsLabel(l) && DOT !in l && AreLabels(rest)
    ensures Wire(Dotted([l] + rest)) == [LengthByte(l)] + l + Wire(Dotted(rest))
  {
    hide Append, UntilDot, AfterLabel, Wire;
    var tail := if rest == [] then [] else [DOT] + Dotted(rest);
    assert Dotted([l] + rest) == l + tail by {
      assert AreLabels([l] + rest) && ([l] + rest)[1..] == rest;
      DottedSplits([l] + rest);
    }
    EmptyDotted();
    WireOfLabel(l, tail);
  }

  lemma WireOfLabel(l: Str, tail: Str)
    requires IsLabel(l) && DOT !in l && (tail == [] || tail[0] == DOT)
    ensures Wire(l + tail) == [LengthByte(l)] + l + Wire(if tail == [] then [] else tail[1..])
  {
    hide UntilDot;
    UntilDotOf(l, tail);
    assert AfterLabel(l + tail) == if tail == [] then [] else tail[1..];
  }

  lemma EmptyDotted()
    ensures Dotted([]) == []
  {
  }

  // encode_name writes each label behind its length, then the root label.
  lemma {:induction false} WireOfDotted(ls: seq<Str>)
    requires AreLabels(ls) && NoDots(ls)
    ensures Wire(Dotted(ls)) == WireLabels(ls) + [0]
    decreases |ls|
  {
    if ls != [] {
      hide Wire, Dotted;
      var l, rest := ls[0], ls[1..];
      assert l in ls;
      assert forall m :: m in rest ==> m in ls;
      assert ls == [l] + rest;
      WireStep(l, rest);
      WireOfDotted(rest);
      Associate([LengthByte(l)] + l, WireLabels(rest), [0]);
    }
  }

  // The dotted name is one byte shorter than its labels on the wire.
  lemma {:induction false} DottedLength(ls: seq<Str>)
    requires AreLabels(ls)
    ensures |Dotted(ls)| == if ls == [] then 0 else |WireLabels(ls)| - 1
    decreases |ls|
  {
    if ls != [] {
      assert forall m :: m in ls[1..] ==> m in ls;
      DottedSplits(ls);
      DottedLength(ls[1..]);
    }
  }

  // Every name within the 255 octets of section 2.3.4 fits the 256-byte buffers.
  lemma StandardNamesFit(ls: seq<Str>)
    requires AreLabels(ls) && |WireLabels(ls)| + 1 <= 255
    ensures |Dotted(ls)| <= 253
  {
    DottedLength(ls);
  }

  predicate HasAt(pkt: seq<byte>, at: nat, s: seq<byte>) {
    at + |s| <= |pkt| && pkt[at..at + |s|] == s
  }

  lemma HasAtSplit(pkt: seq<byte>, at: nat, a: seq<byte>, b: seq<byte>)
    requires HasAt(pkt, at, a + b)
    ensures HasAt(pkt, at, a) && HasAt(pkt, at + |a|, b)
  {
    var s := pkt[at..at + |a + b|];
    assert s[..|a|] == a && s[|a|..] == b;
  }

  // One turn of the expansion over an encoded label.
  lemma ExpandStep(pkt: seq<byte>, len: nat, start: nat, at: nat, l: Str, rest: Expansion)
    requires len <= |pkt| && IsLabel(l) && HasAt(pkt, at, [LengthByte(l)] + l)
    requires Expand(pkt, len, start, at + 1 + |l|) == Some(rest)
    ensures Expand(pkt, len, start, at) == Some(Expansion([l] + rest.labels, rest.end))
  {
    HasAtSplit(pkt, at, [LengthByte(l)], l);
    assert pkt[at] == pkt[at..at + 1][0] == |l|;
  }

  // Encoded labels followed by anything that expands: the root label, or a pointer to earlier labels.
  lemma {:induction false} ExpandOfWire(pkt: seq<byte>, len: nat, start: nat, at: nat, ls: seq<Str>, tail: Expansion)
    requires len <= |pkt| && AreLabels(ls) && HasAt(pkt, at, WireLabels(ls))
    requires Expand(pkt, len, start, at + |WireLabels(ls)|) == Some(tail)
    ensures Expand(pkt, len, start, at) == Some(Expansion(ls + tail.labels, tail.end))
    decreases |ls|
  {
    hide Expand, HasAt, WireLabels, AreLabels;
    if ls == [] {
      NoWire();
      assert ls + tail.labels == tail.labels;
    } else {
      var l, rest := ls[0], ls[1..];
      FirstOnWire(ls);
      HasAtSplit(pkt, at, [LengthByte(l)] + l, WireLabels(rest));
      ExpandOfWire(pkt, len, start, at + 1 + |l|, rest, tail);
      ExpandStep(pkt, len, start, at, l, Expansion(rest + tail.labels, tail.end));
      Associate([l], rest, tail.labels);
    }
  }

  lemma FirstOnWire(ls: seq<Str>)
    requires AreLabels(ls) && ls != []
    ensures IsLabel(ls[0]) && AreLabels(ls[1..]) && ls == [ls[0]] + ls[1..]
    ensures WireLabels(ls) == [LengthByte(ls[0])] + ls[0] + WireLabels(ls[1..])
  {
    assert ls[0] in ls;
    assert forall m :: m in ls[1..] ==> m in ls;
  }

  // A compressed name: labels, then a pointer to a name that starts before them.
  lemma ExpandOfCompressed(pkt: seq<byte>, len: nat, at: nat, ls: seq<Str>, target: nat, e: Expansion)
    requires len <= |pkt| && AreLabels(ls) && target < at && target < 0x4000
    requires HasAt(pkt, at, WireLabels(ls) + [0xC0 + target / 0x100, target % 0x100])
    requires at + |WireLabels(ls)| + 2 <= len
    requires Expand(pkt, len, target, target) == Some(e)
    ensures Expand(pkt, len, at, at) == Some(Expansion(ls + e.labels, at + |WireLabels(ls)| + 2))
  {
    var p := at + |WireLabels(ls)|;
    HasAtSplit(pkt, at, WireLabels(ls), [0xC0 + target / 0x100, target % 0x100]);
    ExpandPointer(pkt, len, at, p, target, e);
    hide Expand;
    ExpandOfWire(pkt, len, at, at, ls, Expansion(e.labels, p + 2));
  }

  lemma ExpandPointer(pkt: seq<byte>, len: nat, start: nat, at: nat, target: nat, e: Expansion)
    requires len <= |pkt| && target < start && target < 0x4000 && at + 2 <= len
    requires HasAt(pkt, at, [0xC0 + target / 0x100, target % 0x100])
    requires Expand(pkt, len, target, target) == Some(e)
    ensures Expand(pkt, len, start, at) == Some(Expansion(e.labels, at + 2))
  {
    var s := pkt[at..at + 2];
    assert pkt[at] == s[0] && pkt[at + 1] == s[1];
    assert PointerTarget(pkt[at], pkt[at + 1]) == target;
  }

  // An encoded name expands to its labels.
  lemma ExpandOfEncoded(ls: seq<Str>, pkt: seq<byte>, len: nat, at: nat)
    requires AreLabels(ls) && HasAt(pkt, at, WireLabels(ls) + [0]) && at + |WireLabels(ls)| + 1 <= len <= |pkt|
    ensures Expand(pkt, len, at, at) == Some(Expansion(ls, at + |WireLabels(ls)| + 1))
  {
    hide WireLabels;
    var w := WireLabels(ls);
    var p := at + |w|;
    HasAtSplit(pkt, at, w, [0]);
    assert pkt[p] == pkt[p..p + 1][0] == 0;
    assert Expand(pkt, len, at, p) == Some(Expansion([], p + 1));
    hide Expand, HasAt;
    ExpandOfWire(pkt, len, at, at, ls, Expansion([], p + 1));
    assert ls + [] == ls;
  }

  // encode_name followed by parse_name, anywhere in a packet: the name comes back and exactly its
  // encoded length is consumed.
  lemma NameRoundTrip(ls: seq<Str>, pkt: seq<byte>, len: nat, at: nat, outsize: nat)
    requires AreLabels(ls) && NoDots(ls) && |Dotted(ls)| < outsize
    requires HasAt(pkt, at, Wire(Dotted(ls))) && at + |Wire(Dotted(ls))| <= len <= |pkt|
    ensures Expand(pkt, len, at, at) == Some(Expansion(ls, at + |Wire(Dotted(ls))|))
    ensures Reads(pkt, len, outsize, ParseStart(at), Dotted(ls), at + |Wire(Dotted(ls))|)
  {
    hide Reads, Wire, Append, Expand, HasAt, WireLabels;
    WireOfDotted(ls);
    ExpandOfEncoded(ls, pkt, len, at);
    DecodeFollows(pkt, len, outsize, at, ParseStart(at), Expansion(ls, at + |Wire(Dotted(ls))|));
  }

  // ---------------------------------------------------------------- where decoding goes wrong

  // A response whose question's name never ends. The pointer's target lies before it, but is not below the
  // labels in front of it.
  const LOOPING_PACKET: seq<byte> := seq(HEADER_SIZE, _ => 0) + [1, 97, 0xC0, 12]

  predicate InLoop(st: ParseState, outsize: nat) {
    !st.done && (st.pos == 12 || st.pos == 14 || (st.pos == 13 && |st.out| >= outsize - 1))
  }

  lemma LoopStep(st: ParseState, outsize: nat)
    requires InLoop(st, outsize)
    ensures Parsing(16, st) && InLoop(ParseStep(LOOPING_PACKET, 16, outsize, st), outsize)
  {
    assert LOOPING_PACKET[12..] == [1, 97, 0xC0, 12];
    assert forall k :: 0 <= k < 4 ==> LOOPING_PACKET[12 + k] == LOOPING_PACKET[12..][k];
  }

  lemma {:induction false} TargetBeforePointerNotEnough(outsize: nat)
    ensures PointerTarget(LOOPING_PACKET[14], LOOPING_PACKET[15]) < 14
    ensures !Parses(LOOPING_PACKET, 16, outsize, HEADER_SIZE)
    ensures Response(LOOPING_PACKET, 16) == None
  {
    forall n: nat, size: nat ensures !ParsesBy(LOOPING_PACKET, 16, size, ParseStart(HEADER_SIZE), n) {
      LoopsForever(size, ParseStart(HEADER_SIZE), n);
    }
    NeverNamed(LOOPING_PACKET, 16, HEADER_SIZE);
  }

  lemma {:induction false} LoopsForever(outsize: nat, st: ParseState, n: nat)
    requires InLoop(st, outsize)
    ensures Parsing(16, ParseRun(LOOPING_PACKET, 16, outsize, st, n))
    decreases n
  {
    LoopStep(st, outsize);
    hide ParseStep;
    if n > 0 {
      LoopsForever(outsize, ParseStep(LOOPING_PACKET, 16, outsize, st), n - 1);
    }
  }

  lemma NeverNamed(pkt: seq<byte>, len: nat, pos: nat)
    requires len <= |pkt| && !Parses(pkt, len, NAME_BUFFER, pos)
    ensures NameAt(pkt, len, pos) == None
  {
    hide Reads, Parses;
    forall name, r: nat | Reads(pkt, len, NAME_BUFFER, ParseStart(pos), name, r) ensures false {
      ReadsParses(pkt, len, NAME_BUFFER, pos, name, r);
    }
  }

  // Labels that fit leave the decoder behind them.
  lemma {:induction false} FilledByLabels(pkt: seq<byte>, len: nat, outsize: nat, start: nat, st: ParseState,
      ls: seq<Str>)
    requires len <= |pkt| && AreLabels(ls) && HasAt(pkt, st.pos, WireLabels(ls)) && !st.done && !st.overrun
    requires st.pos + |WireLabels(ls)| <= len && |Append(st.out, ls)| < outsize
    ensures Filled(pkt, len, outsize, start, st)
      == Filled(pkt, len, outsize, start, st.(pos := st.pos + |WireLabels(ls)|, out := Append(st.out, ls)))
    decreases |ls|
  {
    hide Expand, ParseStep, HasAt, Cut, IsPointer, Extend;
    if ls == [] {
      assert st.(pos := st.pos + 0, out := Append(st.out, [])) == st;
    } else {
      var l, rest := ls[0], ls[1..];
      assert l in ls && [l] + rest == ls;
      assert forall m :: m in rest ==> m in ls;
      HasAtSplit(pkt, st.pos, [LengthByte(l)] + l, WireLabels(rest));
      LabelRead(pkt, len, outsize, start, st, l);
      AppendExtends(st.out, l, rest);
      var next := st.(pos := st.pos + 1 + |l|, out := Extend(st.out, l));
      FilledByLabels(pkt, len, outsize, start, next, rest);
    }
  }

  lemma LabelAt(pkt: seq<byte>, at: nat, l: Str)
    requires IsLabel(l) && HasAt(pkt, at, [LengthByte(l)] + l)
    ensures pkt[at] == |l| && pkt[at + 1..at + 1 + |l|] == l
  {
    HasAtSplit(pkt, at, [LengthByte(l)], l);
    assert pkt[at] == pkt[at..at + 1][0];
  }

  lemma LabelRead(pkt: seq<byte>, len: nat, outsize: nat, start: nat, st: ParseState, l: Str)
    requires len <= |pkt| && IsLabel(l) && HasAt(pkt, st.pos, [LengthByte(l)] + l) && !st.done && !st.overrun
    requires st.pos + 1 + |l| <= len && |Extend(st.out, l)| < outsize
    ensures Filled(pkt, len, outsize, start, st)
      == Filled(pkt, len, outsize, start, st.(pos := st.pos + 1 + |l|, out := Extend(st.out, l)))
  {
    hide ParseStep, Cut, HasAt, PointerTarget;
    LabelAt(pkt, st.pos, l);
    LabelStep(pkt, len, outsize, st);
    CutWhole(Extend(st.out, l), outsize);
  }

  // A name of 260 octets in a 512-byte response: four labels of 63 bytes fill the 256-byte buffer, and the
  // fifth holds a zero byte. The text is cut as it should be, but the offset is 271 where the name ends at 273.
  const LONG_LABEL: Str := seq(63, _ => 97)
  const LONG_LABELS: seq<Str> := [LONG_LABEL, LONG_LABEL, LONG_LABEL, LONG_LABEL]
  const ZERO_LABEL: Str := [97, 0, 98]
  const CUT_PACKET: seq<byte> :=
    seq(HEADER_SIZE, _ => 0) + (WireLabels(LONG_LABELS) + ([3] + ZERO_LABEL + [0])) + seq(239, _ => 0)

  lemma WireMore(l: Str, rest: seq<Str>)
    requires IsLabel(l) && AreLabels(rest)
    ensures AreLabels([l] + rest) && |WireLabels([l] + rest)| == 1 + |l| + |WireLabels(rest)|
  {
    assert ([l] + rest)[1..] == rest;
  }

  lemma LongLabels()
    ensures AreLabels(LONG_LABELS) && |WireLabels(LONG_LABELS)| == 256 && |Dotted(LONG_LABELS)| == 255
  {
    var l := LONG_LABEL;
    assert LONG_LABELS == [l] + ([l] + ([l] + ([l] + [])));
    WireMore(l, []);
    WireMore(l, [l] + []);
    WireMore(l, [l] + ([l] + []));
    WireMore(l, [l] + ([l] + ([l] + [])));
    hide WireLabels, AreLabels;
    assert |WireLabels(LONG_LABELS)| == 256 + |WireLabels([])|;
    NoWire();
    DottedLength(LONG_LABELS);
  }

  lemma NoWire()
    ensures WireLabels([]) == []
  {
  }

  // The pieces of the packet behind its header.
  lemma CutPacketParts()
    ensures |CUT_PACKET| == 512 && HasAt(CUT_PACKET, 12, WireLabels(LONG_LABELS))
    ensures HasAt(CUT_PACKET, 268, [LengthByte(ZERO_LABEL)] + ZERO_LABEL) && CUT_PACKET[272] == 0
    ensures CUT_PACKET[268..273] == [3, 97, 0, 98, 0]
  {
    LongLabels();
    hide WireLabels;
    var tail: seq<byte> := [3] + ZERO_LABEL + [0];
    var name := WireLabels(LONG_LABELS) + tail;
    assert CUT_PACKET[12..273] == name;
    assert name[..256] == WireLabels(LONG_LABELS) && name[256..] == tail;
    assert CUT_PACKET[268..273] == name[256..];
    assert CUT_PACKET[12..268] == name[..256];
    assert CUT_PACKET[268..272] == tail[..4] == [3] + ZERO_LABEL;
    assert CUT_PACKET[272] == CUT_PACKET[268..273][4];
  }

  lemma CutPacketExpands()
    ensures |CUT_PACKET| == 512
    ensures Expand(CUT_PACKET, 512, 12, 12) == Some(Expansion(LONG_LABELS + [ZERO_LABEL], 273))
  {
    CutPacketParts();
    LongLabels();
    assert Expand(CUT_PACKET, 512, 12, 272) == Some(Expansion([], 273));
    ExpandStep(CUT_PACKET, 512, 12, 268, ZERO_LABEL, Expansion([], 273));
    hide Expand, WireLabels, HasAt;
    assert [ZERO_LABEL] + [] == [ZERO_LABEL];
    ExpandOfWire(CUT_PACKET, 512, 12, 12, LONG_LABELS, Expansion([ZERO_LABEL], 273));
  }

  lemma CutPacketFills()
    ensures |CUT_PACKET| == 512
    ensures Filled(CUT_PACKET, 512, NAME_BUFFER, 12, ParseStart(12))
      == ParseState(268, Dotted(LONG_LABELS), false, 0, false, false)
    ensures FirstStop(CUT_PACKET, 512, 268) == 270 && CUT_PACKET[270] == 0
  {
    CutPacketParts();
    LongLabels();
    var bytes := CUT_PACKET[268..273];
    assert CUT_PACKET[268] == bytes[0] && CUT_PACKET[269] == bytes[1] && CUT_PACKET[270] == bytes[2];
    assert FirstStop(CUT_PACKET, 512, 269) == 270;
    hide WireLabels, HasAt, Append;
    FilledByLabels(CUT_PACKET, 512, NAME_BUFFER, 12, ParseStart(12), LONG_LABELS);
  }

  lemma CutNameMisread()
    ensures |CUT_PACKET| == 512
    ensures Expand(CUT_PACKET, 512, 12, 12) == Some(Expansion(LONG_LABELS + [ZERO_LABEL], 273))
    ensures
      var text := Cut(Dotted(LONG_LABELS + [ZERO_LABEL]), NAME_BUFFER);
      && Reads(CUT_PACKET, 512, NAME_BUFFER, ParseStart(12), text, 271)
      && !Reads(CUT_PACKET, 512, NAME_BUFFER, ParseStart(12), text, 273)
  {
    var labels := LONG_LABELS + [ZERO_LABEL];
    CutPacketExpands();
    CutPacketFills();
    LongLabels();
    LongerStill(LONG_LABELS, ZERO_LABEL);
    hide Expand, WireLabels, Append, Cut, Reads, Filled, FirstStop;
    ZeroEnds(CUT_PACKET, 512, NAME_BUFFER, 12, Expansion(labels, 273));
    RecoveredExactly(CUT_PACKET, 512, NAME_BUFFER, 12, Expansion(labels, 273));
  }

  lemma {:induction false} LongerStill(ls: seq<Str>, l: Str)
    requires AreLabels(ls) && IsLabel(l)
    ensures AreLabels(ls + [l]) && |Dotted(ls + [l])| >= |Dotted(ls)| + |l|
  {
    assert forall m :: m in ls + [l] ==> m in ls || m == l;
    WireAppend(ls, l);
    DottedLength(ls + [l]);
    DottedLength(ls);
  }

  lemma {:induction false} WireAppend(ls: seq<Str>, l: Str)
    requires AreLabels(ls) && IsLabel(l)
    ensures AreLabels(ls + [l]) && |WireLabels(ls + [l])| == |WireLabels(ls)| + 1 + |l|
  {
    assert forall m :: m in ls + [l] ==> m in ls || m == l;
    if ls == [] {
      assert ls + [l] == [l];
      WireMore(l, []);
      assert [l] + [] == [l];
    } else {
      assert ls[0] in ls;
      assert forall m :: m in ls[1..] ==> m in ls;
      assert (ls + [l])[1..] == ls[1..] + [l];
      WireAppend(ls[1..], l);
    }
  }

  // ---------------------------------------------------------------- answers

  const NAME_BUFFER := 256
  const HEADER_SIZE := 12
  const QUESTION_SIZE := 4
  const RR_SIZE := 10

  // What one answer prints.
  datatype Answer =
    | AddressA(name: Str, ttl: uint32, addr: seq<byte>)
    | AddressAAAA(name: Str, ttl: uint32, addr: seq<byte>)
    | Alias(name: Str, ttl: uint32, target: Str)
    | Other(name: Str, rtype: uint16, rdlen: uint16, ttl: uint32)

  // The text and offset parse_name gives at pos; None where it would not end inside the buffer.
  ghost function NameAt(pkt: seq<byte>, len: nat, pos: nat): Option<(Str, nat)>
    requires len <= |pkt|
  {
    if exists name, r: nat :: Reads(pkt, len, NAME_BUFFER, ParseStart(pos), name, r)
    then
      var name, r: nat :| Reads(pkt, len, NAME_BUFFER, ParseStart(pos), name, r);
      Some((CString(name), r))
    else None
  }

  ghost function AnswerAt(pkt: seq<byte>, len: nat, name: Str, rtype: uint16, rdlen: uint16, ttl: uint32, at: nat)
    : Option<Answer>
    requires len <= |pkt|
  {
    if rtype == 1 && rdlen == 4 then
      if at + 4 <= |pkt| then Some(AddressA(name, ttl, pkt[at..at + 4])) else None
    else if rtype == 28 && rdlen == 16 then
      if at + 16 <= |pkt| then Some(AddressAAAA(name, ttl, pkt[at..at + 16])) else None
    else if rtype == 5 then
      match NameAt(pkt, len, at)
      case None => None
      case Some((target, _)) => Some(Alias(name, ttl, target))
    else Some(Other(name, rtype, rdlen, ttl))
  }

  // The answers printed from pos on; None where the walk would leave the buffer or not end.
  ghost function AnswersFrom(pkt: seq<byte>, len: nat, pos: nat, count: nat): Option<seq<Answer>>
    requires len <= |pkt|
    decreases count
  {
    if count == 0 || pos >= len then Some([]) else
    match NameAt(pkt, len, pos)
    case None => None
    case Some((name, end)) =>
      if end + RR_SIZE > len then Some([]) else
      var rdlen := Be16(pkt[end + 8], pkt[end + 9]);
      match AnswerAt(pkt, len, name, Be16(pkt[end], pkt[end + 1]), rdlen,
                     Be32(pkt[end + 4], pkt[end + 5], pkt[end + 6], pkt[end + 7]), end + RR_SIZE)
      case None => None
      case Some(a) =>
        match AnswersFrom(pkt, len, end + RR_SIZE + rdlen, count - 1)
        case None => None
        case Some(rest) => Some([a] + rest)
  }

  datatype Outcome = Refused(rcode: nat) | Answered(answers: seq<Answer>)

  ghost function Response(pkt: seq<byte>, len: nat): Option<Outcome>
    requires len <= |pkt| && HEADER_SIZE <= |pkt|
  {
    if pkt[3] % 0x10 != 0 then Some(Refused(pkt[3] % 0x10)) else
    match NameAt(pkt, len, HEADER_SIZE)
    case None => None
    case Some((_, end)) =>
      match AnswersFrom(pkt, len, end + QUESTION_SIZE, Be16(pkt[6], pkt[7]))
      case None => None
      case Some(answers) => Some(Answered(answers))
  }

  // A response is refused exactly when the low four bits of its flags word, read in network order, are not 0,
  // and with that number, whatever follows.
  lemma RefusedExactly(pkt: seq<byte>, len: nat)
    requires len <= |pkt| && |pkt| >= 12
    ensures var flags := 0x100 * pkt[2] as int + pkt[3] as int;
            && (flags % 16 != 0 ==> Response(pkt, len) == Some(Refused(flags % 16)))
            && (Response(pkt, len).Some? && Response(pkt, len).value.Refused? ==> flags % 16 != 0)
  {
    hide NameAt, AnswersFrom, Be16;
    var flags := 0x100 * pkt[2] as int + pkt[3] as int;
    assert flags % 16 == pkt[3] % 16;
  }

  lemma NameAtIs(pkt: seq<byte>, len: nat, pos: nat, name: Str, r: nat)
    requires len <= |pkt| && Reads(pkt, len, NAME_BUFFER, ParseStart(pos), name, r)
    ensures NameAt(pkt, len, pos) == Some((CString(name), r))
  {
    hide Reads;
    var other, k: nat :| Reads(pkt, len, NAME_BUFFER, ParseStart(pos), other, k)
                         && NameAt(pkt, len, pos) == Some((CString(other), k));
    ReadsUnique(pkt, len, NAME_BUFFER, ParseStart(pos), name, r, other, k);
  }

  method NameText(resp: array<byte>, n: nat, pos: nat) returns (name: Str, r: nat)
    requires n <= resp.Length && NameAt(resp[..], n, pos).Some?
    ensures NameAt(resp[..], n, pos) == Some((name, r))
  {
    hide Expand, Readable, Dotted, Cut;
    var buf := new byte[NAME_BUFFER];
    ghost var out: Str;
    ghost var known, k: nat :| Reads(resp[..], n, NAME_BUFFER, ParseStart(pos), known, k);
    ReadsParses(resp[..], n, NAME_BUFFER, pos, known, k);
    r, out := ParseName(resp, n, pos, buf, NAME_BUFFER);
    NameAtIs(resp[..], n, pos, out, r);
    name := CString(buf[..]);
    assert buf[..|out| + 1][|out|] == 0;
    CStringStops(buf[..], |out|);
    assert buf[..][..|out|] == buf[..|out| + 1][..|out|] == out;
  }

  // The guard of the answer loop, and what it needs to go on.
  lemma NoAnswers(pkt: seq<byte>, len: nat, pos: nat, count: nat)
    requires len <= |pkt|
    ensures count == 0 || pos >= len ==> AnswersFrom(pkt, len, pos, count) == Some([])
    ensures count > 0 && pos < len && AnswersFrom(pkt, len, pos, count).Some? ==> NameAt(pkt, len, pos).Some?
  {
    hide AnswerAt, NameAt, Be16, Be32;
  }

  // One turn of the answer loop.
  lemma AnswersStep(pkt: seq<byte>, len: nat, pos: nat, count: nat, name: Str, end: nat)
    requires len <= |pkt| && count > 0 && pos < len && NameAt(pkt, len, pos) == Some((name, end))
    ensures end + RR_SIZE > len ==> AnswersFrom(pkt, len, pos, count) == Some([])
    ensures end + RR_SIZE <= len ==>
              var rdlen := Be16(pkt[end + 8], pkt[end + 9]);
              var a := AnswerAt(pkt, len, name, Be16(pkt[end], pkt[end + 1]), rdlen,
                                Be32(pkt[end + 4], pkt[end + 5], pkt[end + 6], pkt[end + 7]), end + RR_SIZE);
              var rest := AnswersFrom(pkt, len, end + RR_SIZE + rdlen, count - 1);
              AnswersFrom(pkt, len, pos, count) == Joined(a, rest)
  {
    hide AnswerAt, NameAt, Be16, Be32;
  }

  function Joined(a: Option<Answer>, rest: Option<seq<Answer>>): Option<seq<Answer>> {
    if a.Some? && rest.Some? then Some([a.value] + rest.value) else None
  }

  // What has been printed so far, before what is still to come.
  function After(printed: seq<Answer>, rest: Option<seq<Answer>>): (r: Option<seq<Answer>>)
    ensures rest.Some? <==> r.Some?
  {
    if rest.Some? then Some(printed + rest.value) else None
  }

  lemma AfterJoined(printed: seq<Answer>, a: Answer, rest: Option<seq<Answer>>)
    ensures After(printed, Joined(Some(a), rest)) == After(printed + [a], rest)
  {
    if rest.Some? {
      assert printed + ([a] + rest.value) == printed + [a] + rest.value;
    }
  }

  lemma AfterEnds(s: seq<Answer>)
    ensures After(s, Some([])) == Some(s)
    ensures After([], Some(s)) == Some(s)
  {
    assert s + [] == s && [] + s == s;
  }

  // The answer loop of main.
  method PrintAnswers(resp: array<byte>, n: nat, start: nat, ancount: nat) returns (printed: seq<Answer>)
    requires n <= resp.Length && AnswersFrom(resp[..], n, start, ancount).Some?
    ensures AnswersFrom(resp[..], n, start, ancount) == Some(printed)
  {
    hide NameAt, CString, After, Be16, Be32, AnswerAt, AnswersFrom;
    ghost var pkt := resp[..];
    var pos, i := start, 0;
    printed := [];
    AfterEnds(AnswersFrom(pkt, n, start, ancount).value);
    while i < ancount && pos < n
      invariant 0 <= i <= ancount && 0 <= pos
      invariant After(printed, AnswersFrom(pkt, n, pos, ancount - i)) == AnswersFrom(pkt, n, start, ancount)
    {
      NoAnswers(pkt, n, pos, ancount - i);
      var name, end := NameText(resp, n, pos);
      AnswersStep(pkt, n, pos, ancount - i, name, end);
      if end + RR_SIZE > n {
        AfterEnds(printed);
        return;
      }
      var answer, next := PrintAnswer(resp, n, name, end);
      AfterJoined(printed, answer, AnswersFrom(pkt, n, next, ancount - i - 1));
      printed := printed + [answer];
      pos := next;
      i := i + 1;
    }
    NoAnswers(pkt, n, pos, ancount - i);
    AfterEnds(printed);
  }

  // The body of the loop behind the name: one answer, and where the next one starts.
  method PrintAnswer(resp: array<byte>, n: nat, name: Str, end: nat) returns (answer: Answer, next: nat)
    requires n <= resp.Length && end + RR_SIZE <= n
    requires AnswerAt(resp[..], n, name, Be16(resp[end], resp[end + 1]), Be16(resp[end + 8], resp[end + 9]),
                      Be32(resp[end + 4], resp[end + 5], resp[end + 6], resp[end + 7]), end + RR_SIZE).Some?
    ensures AnswerAt(resp[..], n, name, Be16(resp[end], resp[end + 1]), Be16(resp[end + 8], resp[end + 9]),
                     Be32(resp[end + 4], resp[end + 5], resp[end + 6], resp[end + 7]), end + RR_SIZE) == Some(answer)
    ensures next == end + RR_SIZE + Be16(resp[end + 8], resp[end + 9])
  {
    var rtype, rdlen := Be16(resp[end], resp[end + 1]), Be16(resp[end + 8], resp[end + 9]);
    var ttl := Be32(resp[end + 4], resp[end + 5], resp[end + 6], resp[end + 7]);
    hide NameAt, Be16, Be32;
    var pos := end + RR_SIZE;
    if rtype == 1 && rdlen == 4 {
      answer := AddressA(name, ttl, resp[..][pos..pos + 4]);
    } else if rtype == 28 && rdlen == 16 {
      answer := AddressAAAA(name, ttl, resp[..][pos..pos + 16]);
    } else if rtype == 5 {
      var target, _ := NameText(resp, n, pos);
      answer := Alias(name, ttl, target);
    } else {
      answer := Other(name, rtype, rdlen, ttl);
    }
    next := pos + rdlen;
  }

  lemma ResponseCases(pkt: seq<byte>, len: nat)
    requires len <= |pkt| && HEADER_SIZE <= |pkt| && Response(pkt, len).Some?
    ensures
      if pkt[3] % 0x10 != 0 then Response(pkt, len) == Some(Refused(pkt[3] % 0x10))
      else
        && NameAt(pkt, len, HEADER_SIZE).Some?
        && var answers :=
             AnswersFrom(pkt, len, NameAt(pkt, len, HEADER_SIZE).value.1 + QUESTION_SIZE, Be16(pkt[6], pkt[7]));
           answers.Some? && Response(pkt, len) == Some(Answered(answers.value))
  {
    hide NameAt, AnswersFrom, Be16;
  }

  method HandleResponse(resp: array<byte>, n: nat) returns (outcome: Outcome)
    requires n <= resp.Length && HEADER_SIZE <= resp.Length && Response(resp[..], n).Some?
    ensures Response(resp[..], n) == Some(outcome)
    ensures
      var flags := 0x100 * resp[2] as int + resp[3] as int;
      if flags % 16 != 0 then outcome == Refused(flags % 16) else outcome.Answered?
  {
    RefusedExactly(resp[..], n);
    hide Response, NameAt, AnswersFrom;
    ResponseCases(resp[..], n);
    var rcode := resp[3] % 0x10;
    if rcode != 0 {
      return Refused(rcode);
    }
    var _, end := NameText(resp, n, HEADER_SIZE);
    var answers := PrintAnswers(resp, n, end + QUESTION_SIZE, Be16(resp[6], resp[7]));
    outcome := Answered(answers);
  }

  // ---------------------------------------------------------------- well-formed messages

  // RDLENGTH is a 16-bit field.
  type Rdata = s: seq<byte> | |s| < 0x1_0000

  // A resource record; `target` is the name a CNAME's data stands for.
  datatype Record = Record(name: seq<Str>, rtype: uint16, rclass: uint16, ttl: uint32, rdata: Rdata, target: seq<Str>)

  function FixedFields(r: Record): seq<byte> {
    PutBe16(r.rtype) + PutBe16(r.rclass) + PutBe32(r.ttl) + PutBe16(|r.rdata|)
  }

  // The record stands at pos, its names compressed or not.
  predicate RecordStored(pkt: seq<byte>, len: nat, pos: nat, r: Record)
    requires len <= |pkt|
  {
    match Expand(pkt, len, pos, pos)
    case None => false
    case Some(e) =>
      && e.labels == r.name && e.end + RR_SIZE + |r.rdata| <= len
      && HasAt(pkt, e.end, FixedFields(r)) && HasAt(pkt, e.end + RR_SIZE, r.rdata)
      && (r.rtype == 5 ==> NameStored(pkt, len, e.end + RR_SIZE, r.target))
  }

  predicate NameStored(pkt: seq<byte>, len: nat, pos: nat, ls: seq<Str>)
    requires len <= |pkt|
  {
    match Expand(pkt, len, pos, pos)
    case None => false
    case Some(e) => e.labels == ls
  }

  // Its owner is recovered, by the exact condition for that, and the parse of a CNAME's target ends.
  ghost predicate NamesRecovered(pkt: seq<byte>, len: nat, pos: nat, r: Record)
    requires len <= |pkt|
  {
    match Expand(pkt, len, pos, pos)
    case None => false
    case Some(e) =>
      Recovers(pkt, len, NAME_BUFFER, pos, e) && (r.rtype == 5 ==> Parses(pkt, len, NAME_BUFFER, e.end + RR_SIZE))
  }

  predicate RecordsStored(pkt: seq<byte>, len: nat, pos: nat, rs: seq<Record>)
    requires len <= |pkt|
    decreases |rs|
  {
    || rs == []
    || (RecordStored(pkt, len, pos, rs[0])
        && RecordsStored(pkt, len, BehindRecord(pkt, len, pos, rs[0]), rs[1..]))
  }

  function BehindRecord(pkt: seq<byte>, len: nat, pos: nat, r: Record): nat
    requires len <= |pkt|
  {
    match Expand(pkt, len, pos, pos)
    case None => 0
    case Some(e) => e.end + RR_SIZE + |r.rdata|
  }

  ghost predicate AllNamesRecovered(pkt: seq<byte>, len: nat, pos: nat, rs: seq<Record>)
    requires len <= |pkt|
    decreases |rs|
  {
    || rs == []
    || (NamesRecovered(pkt, len, pos, rs[0])
        && AllNamesRecovered(pkt, len, BehindRecord(pkt, len, pos, rs[0]), rs[1..]))
  }

  function Shown(ls: seq<Str>): Str { CString(Cut(Dotted(ls), NAME_BUFFER)) }

  function Expected(r: Record): Answer {
    if r.rtype == 1 && |r.rdata| == 4 then AddressA(Shown(r.name), r.ttl, r.rdata)
    else if r.rtype == 28 && |r.rdata| == 16 then AddressAAAA(Shown(r.name), r.ttl, r.rdata)
    else if r.rtype == 5 then Alias(Shown(r.name), r.ttl, Shown(r.target))
    else Other(Shown(r.name), r.rtype, |r.rdata|, r.ttl)
  }

  lemma ShownName(pkt: seq<byte>, len: nat, pos: nat, e: Expansion)
    requires len <= |pkt| && Expand(pkt, len, pos, pos) == Some(e) && Recovers(pkt, len, NAME_BUFFER, pos, e)
    ensures NameAt(pkt, len, pos) == Some((Shown(e.labels), e.end))
  {
    hide Reads, Expand, NameAt, Cut, Recovers, Append;
    RecoveredExactly(pkt, len, NAME_BUFFER, pos, e);
    NameAtIs(pkt, len, pos, Cut(Dotted(e.labels), NAME_BUFFER), e.end);
  }

  lemma ShownTarget(pkt: seq<byte>, len: nat, pos: nat, e: Expansion)
    requires len <= |pkt| && Expand(pkt, len, pos, pos) == Some(e) && Parses(pkt, len, NAME_BUFFER, pos)
    ensures NameAt(pkt, len, pos).Some? && NameAt(pkt, len, pos).value.0 == Shown(e.labels)
  {
    hide Reads, Expand, NameAt, Cut, Parses, Append;
    var r := TextRecovered(pkt, len, NAME_BUFFER, pos, e);
    NameAtIs(pkt, len, pos, Cut(Dotted(e.labels), NAME_BUFFER), r);
  }

  lemma FixedFieldsRead(pkt: seq<byte>, at: nat, r: Record)
    requires HasAt(pkt, at, FixedFields(r))
    ensures at + RR_SIZE <= |pkt|
    ensures Be16(pkt[at], pkt[at + 1]) == r.rtype && Be16(pkt[at + 8], pkt[at + 9]) == |r.rdata|
    ensures Be32(pkt[at + 4], pkt[at + 5], pkt[at + 6], pkt[at + 7]) == r.ttl
  {
    var f := FixedFields(r);
    var s := pkt[at..at + |f|];
    assert |f| == 10;
    assert forall k :: 0 <= k < 10 ==> pkt[at + k] == s[k];
    hide Be16, Be32, PutBe16, PutBe32;
    assert f[0..2] == PutBe16(r.rtype) && f[4..8] == PutBe32(r.ttl) && f[8..10] == PutBe16(|r.rdata|);
  }

  function Answers(rs: seq<Record>): (r: seq<Answer>)
    ensures |r| == |rs| && forall i :: 0 <= i < |rs| ==> r[i] == Expected(rs[i])
  {
    if rs == [] then [] else [Expected(rs[0])] + Answers(rs[1..])
  }

  // Where the records end.
  function BehindRecords(pkt: seq<byte>, len: nat, pos: nat, rs: seq<Record>): nat
    requires len <= |pkt|
    decreases |rs|
  {
    if rs == [] then pos else BehindRecords(pkt, len, BehindRecord(pkt, len, pos, rs[0]), rs[1..])
  }

  // The answer walk recovers every record of an answer section, in order, and goes on behind them.
  lemma {:induction false} AnswersRecovered(pkt: seq<byte>, len: nat, pos: nat, rs: seq<Record>, count: nat)
    requires len <= |pkt| && RecordsStored(pkt, len, pos, rs) && AllNamesRecovered(pkt, len, pos, rs) && |rs| <= count
    ensures AnswersFrom(pkt, len, pos, count)
      == After(Answers(rs), AnswersFrom(pkt, len, BehindRecords(pkt, len, pos, rs), count - |rs|))
    decreases |rs|
  {
    hide NameAt, Expected, AnswerAt, AnswersFrom, Shown, RecordStored, NamesRecovered, Expand, BehindRecord;
    hide Answers, After, Joined;
    FirstAnswer(rs, AnswersFrom(pkt, len, BehindRecords(pkt, len, pos, rs), count - |rs|));
    if rs != [] {
      AnswersRecovered(pkt, len, BehindRecord(pkt, len, pos, rs[0]), rs[1..], count - 1);
      RecordAnswered(pkt, len, pos, rs[0], count);
    }
  }

  lemma FirstAnswer(rs: seq<Record>, rest: Option<seq<Answer>>)
    ensures After(Answers(rs), rest) ==
      if rs == [] then rest else Joined(Some(Expected(rs[0])), After(Answers(rs[1..]), rest))
  {
    hide Expected;
    if rest.Some? {
      if rs == [] {
        assert [] + rest.value == rest.value;
      } else {
        assert [Expected(rs[0])] + (Answers(rs[1..]) + rest.value) == Answers(rs) + rest.value;
      }
    }
  }

  // Where the walk ends: the count is used up, or the response is, or it ends inside the next record's fields.
  ghost predicate WalkEnds(pkt: seq<byte>, len: nat, pos: nat, left: nat)
    requires len <= |pkt|
  {
    left == 0 || pos >= len || (NameAt(pkt, len, pos).Some? && NameAt(pkt, len, pos).value.1 + 10 > len)
  }

  // A response cut short, or with fewer records than it announces, gives the records that are whole.
  lemma WholeRecordsRecovered(pkt: seq<byte>, len: nat, pos: nat, rs: seq<Record>, count: nat)
    requires len <= |pkt| && RecordsStored(pkt, len, pos, rs) && AllNamesRecovered(pkt, len, pos, rs) && |rs| <= count
    requires WalkEnds(pkt, len, BehindRecords(pkt, len, pos, rs), count - |rs|)
    ensures AnswersFrom(pkt, len, pos, count) == Some(Answers(rs))
  {
    hide NameAt, RecordsStored, AllNamesRecovered, BehindRecords, AnswersFrom;
    var end, left := BehindRecords(pkt, len, pos, rs), count - |rs|;
    AnswersRecovered(pkt, len, pos, rs, count);
    NoAnswers(pkt, len, end, left);
    if left > 0 && end < len {
      AnswersStep(pkt, len, end, left, NameAt(pkt, len, end).value.0, NameAt(pkt, len, end).value.1);
    }
    AfterEnds(Answers(rs));
  }

  // One stored record gives one answer, and the walk goes on behind it.
  lemma RecordAnswered(pkt: seq<byte>, len: nat, pos: nat, r: Record, count: nat)
    requires len <= |pkt| && RecordStored(pkt, len, pos, r) && NamesRecovered(pkt, len, pos, r) && count > 0
    ensures AnswersFrom(pkt, len, pos, count)
         == Joined(Some(Expected(r)), AnswersFrom(pkt, len, BehindRecord(pkt, len, pos, r), count - 1))
  {
    hide NameAt, Expected, AnswerAt, AnswersFrom, Shown, RecordStored, NamesRecovered, Expand, BehindRecord;
    hide Joined, Be32;
    var e := RecordRead(pkt, len, pos, r);
    AnswersStep(pkt, len, pos, count, Shown(r.name), e.end);
  }

  lemma RecordRead(pkt: seq<byte>, len: nat, pos: nat, r: Record) returns (e: Expansion)
    requires len <= |pkt| && RecordStored(pkt, len, pos, r) && NamesRecovered(pkt, len, pos, r)
    ensures Expand(pkt, len, pos, pos) == Some(e) && BehindRecord(pkt, len, pos, r) == e.end + RR_SIZE + |r.rdata|
    ensures pos < len && e.end + RR_SIZE <= len
    ensures NameAt(pkt, len, pos) == Some((Shown(r.name), e.end))
    ensures Be16(pkt[e.end + 8], pkt[e.end + 9]) == |r.rdata|
    ensures AnswerAt(pkt, len, Shown(r.name), Be16(pkt[e.end], pkt[e.end + 1]), |r.rdata|,
                     Be32(pkt[e.end + 4], pkt[e.end + 5], pkt[e.end + 6], pkt[e.end + 7]), e.end + RR_SIZE)
         == Some(Expected(r))
  {
    hide Expand, NameAt, Expected, AnswerAt, Shown, Recovers, Parses;
    e := Expand(pkt, len, pos, pos).value;
    ShownName(pkt, len, pos, e);
    FixedFieldsRead(pkt, e.end, r);
    RecordShown(pkt, len, e.end + RR_SIZE, r);
  }

  lemma RecordShown(pkt: seq<byte>, len: nat, at: nat, r: Record)
    requires len <= |pkt| && HasAt(pkt, at, r.rdata) && at + |r.rdata| <= len
    requires r.rtype == 5 ==> NameStored(pkt, len, at, r.target) && Parses(pkt, len, NAME_BUFFER, at)
    ensures AnswerAt(pkt, len, Shown(r.name), r.rtype, |r.rdata|, r.ttl, at) == Some(Expected(r))
  {
    hide Shown, NameAt, Expand, Parses;
    if r.rtype == 5 {
      ShownTarget(pkt, len, at, Expand(pkt, len, at, at).value);
    }
  }

  // A whole one-question message with response code 0.
  predicate MessageStored(pkt: seq<byte>, len: nat, question: seq<Str>, rs: seq<Record>)
    requires len <= |pkt|
  {
    && HEADER_SIZE <= len && pkt[3] % 0x10 == 0 && Be16(pkt[6], pkt[7]) == |rs|
    && NameStored(pkt, len, HEADER_SIZE, question)
    && RecordsStored(pkt, len, Expand(pkt, len, HEADER_SIZE, HEADER_SIZE).value.end + 4, rs)
  }

  // Each name of it is recovered, by the exact condition for that.
  ghost predicate MessageNamesRecovered(pkt: seq<byte>, len: nat, rs: seq<Record>)
    requires len <= |pkt|
  {
    match Expand(pkt, len, HEADER_SIZE, HEADER_SIZE)
    case None => false
    case Some(e) =>
      Recovers(pkt, len, NAME_BUFFER, HEADER_SIZE, e) && AllNamesRecovered(pkt, len, e.end + 4, rs)
  }

  lemma MessageRecovered(pkt: seq<byte>, len: nat, question: seq<Str>, rs: seq<Record>)
    requires len <= |pkt| && MessageStored(pkt, len, question, rs) && MessageNamesRecovered(pkt, len, rs)
    ensures Response(pkt, len) == Some(Answered(Answers(rs)))
  {
    hide Expand, Recovers, AllNamesRecovered, RecordsStored, AnswersFrom;
    var e := Expand(pkt, len, HEADER_SIZE, HEADER_SIZE).value;
    ShownName(pkt, len, HEADER_SIZE, e);
    WholeRecordsRecovered(pkt, len, e.end + 4, rs, |rs|);
  }

  // ---------------------------------------------------------------- names within the standard's length

  // Section 2.3.4 of RFC 1035: at most 255 octets.
  predicate StandardName(ls: seq<Str>) { AreLabels(ls) && |WireLabels(ls)| + 1 <= 255 }

  predicate StandardRecord(r: Record) { StandardName(r.name) && (r.rtype == 5 ==> StandardName(r.target)) }

  lemma StandardRecovers(pkt: seq<byte>, len: nat, pos: nat, e: Expansion)
    requires len <= |pkt| && Expand(pkt, len, pos, pos) == Some(e) && StandardName(e.labels)
    ensures Recovers(pkt, len, NAME_BUFFER, pos, e) && Parses(pkt, len, NAME_BUFFER, pos)
  {
    hide Expand, Append, WireLabels, Reads, Parses;
    StandardNamesFit(e.labels);
    FitReads(pkt, len, NAME_BUFFER, pos, e);
    ReadsParses(pkt, len, NAME_BUFFER, pos, Cut(Dotted(e.labels), NAME_BUFFER), e.end);
  }

  lemma {:induction false} StandardRecords(pkt: seq<byte>, len: nat, pos: nat, rs: seq<Record>)
    requires len <= |pkt| && RecordsStored(pkt, len, pos, rs)
    requires forall i :: 0 <= i < |rs| ==> StandardRecord(rs[i])
    ensures AllNamesRecovered(pkt, len, pos, rs)
    decreases |rs|
  {
    hide Expand, Recovers, Parses, StandardName, HasAt, FixedFields;
    if rs != [] {
      var e := Expand(pkt, len, pos, pos).value;
      StandardRecovers(pkt, len, pos, e);
      if rs[0].rtype == 5 {
        StandardRecovers(pkt, len, e.end + RR_SIZE, Expand(pkt, len, e.end + RR_SIZE, e.end + RR_SIZE).value);
      }
      StandardRecords(pkt, len, BehindRecord(pkt, len, pos, rs[0]), rs[1..]);
    }
  }

  // A message whose names keep to the standard's length is recovered whatever bytes its labels hold.
  lemma StandardMessageRecovered(pkt: seq<byte>, len: nat, question: seq<Str>, rs: seq<Record>)
    requires len <= |pkt| && MessageStored(pkt, len, question, rs) && StandardName(question)
    requires forall i :: 0 <= i < |rs| ==> StandardRecord(rs[i])
    ensures Response(pkt, len) == Some(Answered(Answers(rs)))
  {
    hide Expand, Recovers, Parses, AllNamesRecovered, RecordsStored, StandardName, StandardRecord, Response, Answers;
    var e := Expand(pkt, len, HEADER_SIZE, HEADER_SIZE).value;
    StandardRecovers(pkt, len, HEADER_SIZE, e);
    StandardRecords(pkt, len, e.end + 4, rs);
    MessageRecovered(pkt, len, question, rs);
  }
}

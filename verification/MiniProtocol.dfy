// protocol.h, and what mini_server.c's handle_client answers to a stream of bytes.
module MiniProtocol {
  import opened Bytes

  const PROTO_MAGIC: uint32 := 0x4D494E49
  const PROTO_VERSION: byte := 1
  const HEADER_SIZE := 12
  const MAX_PAYLOAD := 4096
  const HELLO_SIZE := 32

  const MSG_HELLO: byte := 0x01
  const MSG_DATA: byte := 0x02
  const MSG_STATUS: byte := 0x03
  const MSG_BYE: byte := 0x04
  const MSG_ACK: byte := 0x80
  const MSG_ERROR: byte := 0xFF

  datatype Header = Header(magic: uint32, version: byte, msgType: byte, seqNo: uint16, payloadLen: uint32)

  datatype Message = Message(msgType: byte, seqNo: uint16, payload: seq<byte>)

  // The packed struct on the wire.
  function HeaderBytes(h: Header): (r: seq<byte>)
    ensures |r| == HEADER_SIZE
  {
    PutBe32(h.magic) + [h.version, h.msgType] + PutBe16(h.seqNo) + PutBe32(h.payloadLen)
  }

  function HeaderOf(s: seq<byte>): Header
    requires |s| == HEADER_SIZE
  {
    Header(Be32(s[0], s[1], s[2], s[3]), s[4], s[5], Be16(s[6], s[7]), Be32(s[8], s[9], s[10], s[11]))
  }

  function FillHeader(msgType: byte, seqNo: uint16, payloadLen: uint32): Header {
    Header(PROTO_MAGIC, PROTO_VERSION, msgType, seqNo, payloadLen)
  }

  function ValidateHeader(h: Header): int {
    if h.magic != PROTO_MAGIC then -1
    else if h.version != PROTO_VERSION then -2
    else if h.payloadLen > MAX_PAYLOAD then -3
    else 0
  }

  // What send_message writes.
  function Frame(m: Message): seq<byte>
    requires |m.payload| < 0x1_0000_0000
  {
    HeaderBytes(FillHeader(m.msgType, m.seqNo, |m.payload|)) + m.payload
  }

  predicate Fits(m: Message) { |m.payload| <= MAX_PAYLOAD }

  predicate AllFit(ms: seq<Message>) { forall i :: 0 <= i < |ms| ==> Fits(ms[i]) }

  function Frames(ms: seq<Message>): seq<byte>
    requires AllFit(ms)
  {
    if ms == [] then [] else Frame(ms[0]) + Frames(ms[1..])
  }

  // What the next message of a stream is: nothing whole before the end, a header refused, or a message.
  datatype Incoming = Ended | BadHeader(err: int) | Got(message: Message, rest: seq<byte>)

  function Receive(input: seq<byte>): (r: Incoming)
    ensures r.Got? ==> |r.rest| < |input| && Fits(r.message)
  {
    if |input| < HEADER_SIZE then Ended
    else
      var h := HeaderOf(input[..HEADER_SIZE]);
      var end := HEADER_SIZE + h.payloadLen;
      if ValidateHeader(h) < 0 then BadHeader(ValidateHeader(h))
      else if |input| < end then Ended
      else Got(Message(h.msgType, h.seqNo, input[HEADER_SIZE..end]), input[end..])
  }

  function Ascii(s: string): (r: seq<byte>)
    requires forall i :: 0 <= i < |s| ==> s[i] < 128 as char
    ensures |r| == |s|
  {
    seq(|s|, i requires 0 <= i < |s| => s[i] as int)
  }

  // The counters of a STATUS reply; unsigned long values are cut to 32 bits on the wire.
  function StatusPayload(uptime: uint32, connections: nat, messages: nat): (r: seq<byte>)
    ensures |r| == 12
  {
    PutBe32(uptime) + PutBe32(U32(connections)) + PutBe32(U32(messages))
  }

  // What a server knows: its connection count, the messages it has processed, and its clock at each.
  datatype Server = Server(connections: nat, messages: nat, uptime: nat -> uint32)

  // The reply to m, the messages-th message the server has processed.
  function Reply(m: Message, connections: nat, messages: nat, uptime: uint32): (r: Message)
    ensures Fits(m) ==> Fits(r)
  {
    if m.msgType == MSG_HELLO then Message(MSG_ACK, m.seqNo, [])
    else if m.msgType == MSG_DATA then Message(MSG_ACK, m.seqNo, m.payload)
    else if m.msgType == MSG_STATUS then Message(MSG_STATUS, m.seqNo, StatusPayload(uptime, connections, messages))
    else if m.msgType == MSG_BYE then Message(MSG_ACK, m.seqNo, [])
    else Message(MSG_ERROR, m.seqNo, Ascii("Unknown type"))
  }

  // The name a HELLO leaves: 32 bytes of the payload, up to a zero byte.
  function NameAfter(m: Message, name: seq<byte>): seq<byte> {
    if m.msgType == MSG_HELLO && |m.payload| >= HELLO_SIZE then CString(m.payload[..HELLO_SIZE]) else name
  }

  datatype Outcome = Outcome(replies: seq<Message>, messages: nat, name: seq<byte>)

  // handle_client on a whole stream.
  function Serve(input: seq<byte>, s: Server, name: seq<byte>): (o: Outcome)
    ensures AllFit(o.replies)
    decreases |input|
  {
    match Receive(input)
    case Ended => Outcome([], s.messages, name)
    case BadHeader(_) => Outcome([Message(MSG_ERROR, 0, Ascii("Bad header"))], s.messages, name)
    case Got(m, rest) =>
      var n := s.messages + 1;
      var reply := Reply(m, s.connections, n, s.uptime(n));
      if m.msgType == MSG_BYE then Outcome([reply], n, name)
      else
        var o := Serve(rest, s.(messages := n), NameAfter(m, name));
        Outcome([reply] + o.replies, o.messages, o.name)
  }

  // ---------------------------------------------------------------- framing

  lemma HeaderRoundTrip(h: Header)
    ensures HeaderOf(HeaderBytes(h)) == h
  {
  }

  // A frame is received whole, with what follows it left alone.
  lemma ReceiveFrame(m: Message, rest: seq<byte>)
    requires Fits(m)
    ensures Receive(Frame(m) + rest) == Got(m, rest)
  {
    hide HeaderBytes, HeaderOf;
    var h := FillHeader(m.msgType, m.seqNo, |m.payload|);
    var input := Frame(m) + rest;
    HeaderRoundTrip(h);
    assert input[..HEADER_SIZE] == HeaderBytes(h);
    assert input[HEADER_SIZE..HEADER_SIZE + |m.payload|] == m.payload;
    assert input[HEADER_SIZE + |m.payload|..] == rest;
  }

  // ---------------------------------------------------------------- the bytes on the wire

  // The number that four bytes spell, highest first.
  function Spelled(s: seq<byte>, at: nat): nat
    requires at + 4 <= |s|
  {
    0x100_0000 * s[at] as int + 0x1_0000 * s[at + 1] as int + 0x100 * s[at + 2] as int + s[at + 3] as int
  }

  // Which of the checks refuses the first twelve bytes of a stream, if any: "MINI", version 1, at most 4096.
  function Refusal(s: seq<byte>): int
    requires |s| >= 12
  {
    if s[..4] != [0x4D, 0x49, 0x4E, 0x49] then -1
    else if s[4] != 1 then -2
    else if Spelled(s, 8) > 4096 then -3
    else 0
  }

  // The stream ends before its next message does.
  predicate CutShort(s: seq<byte>) { |s| < 12 || (Refusal(s) == 0 && |s| < 12 + Spelled(s, 8)) }

  lemma MagicSpelled(a: byte, b: byte, c: byte, d: byte)
    ensures Be32(a, b, c, d) == 0x4D494E49 <==> a == 0x4D && b == 0x49 && c == 0x4E && d == 0x49
  {
  }

  lemma HeaderSpelled(s: seq<byte>)
    requires |s| >= 12
    ensures var h := HeaderOf(s[..12]);
            && (h.magic == 0x4D494E49 <==> s[..4] == [0x4D, 0x49, 0x4E, 0x49])
            && h.version == s[4] && h.msgType == s[5] && h.seqNo == 0x100 * s[6] as int + s[7] as int
            && h.payloadLen == Spelled(s, 8)
  {
    MagicSpelled(s[0], s[1], s[2], s[3]);
    assert s[..4] == [s[0], s[1], s[2], s[3]];
  }

  // Every stream, from its bytes: what is refused and why, what is received, and what is not whole.
  lemma ReceivedExactly(s: seq<byte>)
    ensures Receive(s).Ended? <==> CutShort(s)
    ensures |s| >= 12 && Refusal(s) < 0 ==> Receive(s) == BadHeader(Refusal(s))
    ensures !CutShort(s) && Refusal(s) == 0 ==>
      Receive(s) == Got(Message(s[5], 0x100 * s[6] as int + s[7] as int, s[12..12 + Spelled(s, 8)]),
                        s[12 + Spelled(s, 8)..])
  {
    if |s| >= 12 {
      HeaderSpelled(s);
    }
    hide HeaderOf, Spelled;
  }

  // The bytes of a frame.
  lemma FrameBytes(m: Message)
    requires Fits(m)
    ensures var n := |m.payload|;
            Frame(m) == [0x4D, 0x49, 0x4E, 0x49, 1, m.msgType, m.seqNo / 0x100, m.seqNo % 0x100,
                         0, 0, n / 0x100, n % 0x100] + m.payload
  {
    hide Be16, Be32;
    var n := |m.payload|;
    assert PutBe32(0x4D494E49) == [0x4D, 0x49, 0x4E, 0x49] && PutBe16(m.seqNo) == [m.seqNo / 0x100, m.seqNo % 0x100];
    assert PutBe32(n) == [0, 0, n / 0x100, n % 0x100];
    hide PutBe16, PutBe32;
  }

  // The messages of a stream up to the first that is not whole or not valid.
  function Received(input: seq<byte>): seq<Message>
    decreases |input|
  {
    match Receive(input)
    case Got(m, rest) => [m] + Received(rest)
    case _ => []
  }

  // The messages received are exactly those sent.
  lemma {:induction false} FramesReceived(ms: seq<Message>)
    requires AllFit(ms)
    ensures Received(Frames(ms)) == ms
  {
    hide Frame, Receive;
    if ms != [] {
      ReceiveFrame(ms[0], Frames(ms[1..]));
      FramesReceived(ms[1..]);
    }
  }

  lemma {:induction false} FramesAppend(ms: seq<Message>, m: Message)
    requires AllFit(ms) && Fits(m)
    ensures AllFit(ms + [m]) && Frames(ms + [m]) == Frames(ms) + Frame(m)
  {
    hide Frame;
    if ms == [] {
      assert ms + [m] == [m];
    } else {
      assert (ms + [m])[1..] == ms[1..] + [m];
      FramesAppend(ms[1..], m);
      assert Frame(ms[0]) + (Frames(ms[1..]) + Frame(m)) == Frame(ms[0]) + Frames(ms[1..]) + Frame(m);
    }
  }

  // ---------------------------------------------------------------- sessions

  predicate NoBye(ms: seq<Message>) { forall i :: 0 <= i < |ms| ==> ms[i].msgType != MSG_BYE }

  // One reply to each request, in order.
  function Replies(ms: seq<Message>, s: Server): (r: seq<Message>)
    ensures |r| == |ms|
  {
    seq(|ms|, i requires 0 <= i < |ms| =>
      Reply(ms[i], s.connections, s.messages + i + 1, s.uptime(s.messages + i + 1)))
  }

  function NameAfterAll(ms: seq<Message>, name: seq<byte>): seq<byte> {
    if ms == [] then name else NameAfterAll(ms[1..], NameAfter(ms[0], name))
  }

  lemma RepliesOfFirst(ms: seq<Message>, s: Server)
    requires ms != []
    ensures Replies(ms, s) ==
      [Reply(ms[0], s.connections, s.messages + 1, s.uptime(s.messages + 1))]
      + Replies(ms[1..], s.(messages := s.messages + 1))
  {
    hide Reply;
  }

  lemma NoReplies(s: Server)
    ensures Replies([], s) == []
  {
  }

  lemma ServeNothing(s: Server, name: seq<byte>)
    ensures Receive([]) == Ended && Serve([], s, name) == Outcome([], s.messages, name)
  {
  }

  lemma ServeOne(m: Message, rest: seq<byte>, s: Server, name: seq<byte>)
    requires Fits(m) && m.msgType != MSG_BYE
    ensures
      var n := s.messages + 1;
      var o := Serve(rest, s.(messages := n), NameAfter(m, name));
      Serve(Frame(m) + rest, s, name)
        == Outcome([Reply(m, s.connections, n, s.uptime(n))] + o.replies, o.messages, o.name)
  {
    hide Reply, Frame, NameAfter, Receive;
    ReceiveFrame(m, rest);
  }

  lemma FramesThen(ms: seq<Message>, rest: seq<byte>)
    requires AllFit(ms) && ms != []
    ensures Frames(ms) + rest == Frame(ms[0]) + (Frames(ms[1..]) + rest)
  {
    hide Frame;
  }

  lemma FirstReply(first: Message, middle: seq<Message>, last: seq<Message>)
    ensures [first] + (middle + last) == ([first] + middle) + last
  {
  }

  // The server answers a run of requests one by one and goes on with whatever follows.
  lemma {:induction false} ServeFrames(ms: seq<Message>, rest: seq<byte>, s: Server, name: seq<byte>)
    requires AllFit(ms) && NoBye(ms)
    ensures
      var o := Serve(rest, s.(messages := s.messages + |ms|), NameAfterAll(ms, name));
      Serve(Frames(ms) + rest, s, name) == Outcome(Replies(ms, s) + o.replies, o.messages, o.name)
  {
    hide Reply, Frame, NameAfter, Replies, Receive, Serve;
    if ms == [] {
      NoReplies(s);
      assert Frames(ms) + rest == rest;
    } else {
      var s1, name1 := s.(messages := s.messages + 1), NameAfter(ms[0], name);
      FramesThen(ms, rest);
      ServeOne(ms[0], Frames(ms[1..]) + rest, s, name);
      RepliesOfFirst(ms, s);
      ServeFrames(ms[1..], rest, s1, name1);
      FirstReply(Reply(ms[0], s.connections, s.messages + 1, s.uptime(s.messages + 1)), Replies(ms[1..], s1),
        Serve(rest, s.(messages := s.messages + |ms|), NameAfterAll(ms, name)).replies);
    }
  }

  // Serving a stream is serving some whole frames of it and going on with the rest from the state they leave:
  // a server that is fed a request at a time answers as one that reads the stream in one go.
  lemma ServeContinues(ms: seq<Message>, rest: seq<byte>, s: Server, name: seq<byte>)
    requires AllFit(ms) && NoBye(ms)
    ensures
      var a := Serve(Frames(ms), s, name);
      var b := Serve(rest, s.(messages := a.messages), a.name);
      Serve(Frames(ms) + rest, s, name) == Outcome(a.replies + b.replies, b.messages, b.name)
  {
    hide Reply, Frame, Frames, NameAfter, NameAfterAll, Receive, Serve, Replies;
    ServeFrames(ms, rest, s, name);
    ServeFrames(ms, [], s, name);
    ServeNothing(s.(messages := s.messages + |ms|), NameAfterAll(ms, name));
    assert Frames(ms) + [] == Frames(ms);
    assert Replies(ms, s) + [] == Replies(ms, s);
  }

  lemma RepliesOfLast(ms: seq<Message>, last: Message, s: Server)
    ensures
      var n := s.messages + |ms| + 1;
      Replies(ms + [last], s) == Replies(ms, s) + [Reply(last, s.connections, n, s.uptime(n))]
  {
    hide Reply;
  }

  lemma ServeBye(bye: Message, rest: seq<byte>, s: Server, name: seq<byte>)
    requires Fits(bye) && bye.msgType == MSG_BYE
    ensures
      var n := s.messages + 1;
      Serve(Frame(bye) + rest, s, name) == Outcome([Reply(bye, s.connections, n, s.uptime(n))], n, name)
  {
    hide Reply, Frame, NameAfter, Receive;
    ReceiveFrame(bye, rest);
  }

  // A session ended by BYE: every request, the BYE included, gets exactly one reply, and what comes after
  // the BYE is not looked at.
  lemma SessionAnswered(ms: seq<Message>, bye: Message, rest: seq<byte>, s: Server, name: seq<byte>)
    requires AllFit(ms) && NoBye(ms) && Fits(bye) && bye.msgType == MSG_BYE
    ensures Serve(Frames(ms) + (Frame(bye) + rest), s, name)
      == Outcome(Replies(ms + [bye], s), s.messages + |ms| + 1, NameAfterAll(ms, name))
  {
    hide Reply, Frame, Frames, NameAfter, NameAfterAll, Receive, Serve, Replies;
    ServeFrames(ms, Frame(bye) + rest, s, name);
    ServeBye(bye, rest, s.(messages := s.messages + |ms|), NameAfterAll(ms, name));
    RepliesOfLast(ms, bye, s);
  }

  // After the frames of some requests: twelve bytes that are refused draw one error and end the session, no
  // matter what follows them; a message that is not whole ends it without a word. Neither is counted.
  lemma BadHeaderEnds(ms: seq<Message>, rest: seq<byte>, s: Server, name: seq<byte>)
    requires AllFit(ms) && NoBye(ms)
    ensures |rest| >= 12 && Refusal(rest) < 0 ==>
      Serve(Frames(ms) + rest, s, name)
        == Outcome(Replies(ms, s) + [Message(0xFF, 0, Ascii("Bad header"))], s.messages + |ms|, NameAfterAll(ms, name))
    ensures CutShort(rest) ==>
      Serve(Frames(ms) + rest, s, name) == Outcome(Replies(ms, s), s.messages + |ms|, NameAfterAll(ms, name))
  {
    hide Reply, Frame, NameAfter, Receive, Frames, NameAfterAll, Replies, Refusal, Ascii;
    ServeFrames(ms, rest, s, name);
    ReceivedExactly(rest);
    hide CutShort;
    assert Replies(ms, s) + [] == Replies(ms, s);
  }

  // A HELLO that carries a whole proto_hello.
  predicate Introduces(m: Message) { m.msgType == 1 && |m.payload| >= 32 }

  // The name a server ends up with is that of the last introduction, ms[i], or the one it had if there is none.
  lemma {:induction false} NameIsLast(ms: seq<Message>, name: seq<byte>, i: int)
    requires -1 <= i < |ms| && (i >= 0 ==> Introduces(ms[i])) && forall j :: i < j < |ms| ==> !Introduces(ms[j])
    ensures NameAfterAll(ms, name) == if i < 0 then name else CString(ms[i].payload[..32])
    decreases |ms|
  {
    if ms != [] {
      FirstName(ms[0], name);
      hide CString, Introduces, NameAfter;
      NameIsLast(ms[1..], NameAfter(ms[0], name), if i > 0 then i - 1 else -1);
    }
  }

  lemma FirstName(m: Message, name: seq<byte>)
    ensures NameAfter(m, name) == if Introduces(m) then CString(m.payload[..32]) else name
  {
    hide CString;
  }

  // What the client sees in a reply: its own sequence number; its own data in the reply to DATA; in the
  // reply to STATUS the clock at that message, the connections, and the number of messages processed so far,
  // this one included, modulo 2^32.
  lemma ReplyMeans(ms: seq<Message>, s: Server, i: nat)
    requires i < |ms|
    ensures
      var m, r := ms[i], Replies(ms, s)[i];
      && r.seqNo == m.seqNo
      && (m.msgType == 2 ==> r.msgType == 0x80 && r.payload == m.payload)
      && (m.msgType == 1 || m.msgType == 4 ==> r.msgType == 0x80 && r.payload == [])
      && (m.msgType == 3 ==>
            && r.msgType == 3 && |r.payload| == 12
            && Spelled(r.payload, 0) == s.uptime(s.messages + i + 1)
            && Spelled(r.payload, 4) == s.connections % 0x1_0000_0000
            && Spelled(r.payload, 8) == (s.messages + i + 1) % 0x1_0000_0000)
      && (m.msgType == 0 || m.msgType > 4 ==> r.msgType == 0xFF && r.payload == Ascii("Unknown type"))
  {
    hide StatusPayload, Spelled, Ascii;
    StatusWords(s.uptime(s.messages + i + 1), s.connections, s.messages + i + 1);
  }

  lemma StatusWords(uptime: uint32, connections: nat, messages: nat)
    ensures
      var p := StatusPayload(uptime, connections, messages);
      && Spelled(p, 0) == uptime && Spelled(p, 4) == connections % 0x1_0000_0000
      && Spelled(p, 8) == messages % 0x1_0000_0000
  {
    var p, u := StatusPayload(uptime, connections, messages), PutBe32(uptime);
    var c, n := PutBe32(U32(connections)), PutBe32(U32(messages));
    assert p[0..4] == u && p[4..8] == c && p[8..12] == n;
    hide PutBe32;
    assert u == [p[0], p[1], p[2], p[3]] && c == [p[4], p[5], p[6], p[7]] && n == [p[8], p[9], p[10], p[11]];
  }
}

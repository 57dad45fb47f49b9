// mini_client.c: recv_message and the session in main, talking to a server that answers as handle_client does.
module MiniClient {
  import opened Bytes
  import opened Common
  import opened MiniProtocol
  import opened MiniServer

  const LINE_SIZE := 1024

  // What fgets and strlen can give: a text of at most LINE_SIZE - 1 bytes.
  predicate Line(line: seq<byte>) { |line| < LINE_SIZE && 0 !in line }

  predicate Lines(lines: seq<seq<byte>>) { forall i :: 0 <= i < |lines| ==> Line(lines[i]) }

  // The line without its newline.
  function Chomp(line: seq<byte>): (r: seq<byte>)
    ensures |r| <= |line|
  {
    if |line| > 0 && line[|line| - 1] == 10 then line[..|line| - 1] else line
  }

  function Request(line: seq<byte>, seqNo: uint16): (m: Message)
    ensures m.seqNo == seqNo && |m.payload| <= |line|
  {
    if line == Ascii("/status") then Message(MSG_STATUS, seqNo, [])
    else if line == Ascii("/quit") then Message(MSG_BYE, seqNo, [])
    else Message(MSG_DATA, seqNo, line)
  }

  // ++seq
  function Bump(seqNo: uint16): uint16 { U16(seqNo + 1) }

  // What the command loop sends, when seqNo was the last number used.
  function Requests(lines: seq<seq<byte>>, seqNo: uint16): (r: seq<Message>)
    requires Lines(lines)
    ensures AllFit(r)
  {
    if lines == [] then []
    else if Chomp(lines[0]) == [] then Requests(lines[1..], seqNo)
    else
      var m := Request(Chomp(lines[0]), Bump(seqNo));
      if m.msgType == MSG_BYE then [m] else [m] + Requests(lines[1..], Bump(seqNo))
  }

  // The struct proto_hello: cleared, then snprintf of the name into its 32 bytes.
  function HelloPayload(name: seq<byte>): (r: seq<byte>)
    ensures |r| == HELLO_SIZE
  {
    var kept := name[..Min(|name|, HELLO_SIZE - 1)];
    kept + seq(HELLO_SIZE - |kept|, _ => 0)
  }

  // Everything the client sends.
  function Script(name: seq<byte>, lines: seq<seq<byte>>): (r: seq<Message>)
    requires Lines(lines)
    ensures AllFit(r)
  {
    [Message(MSG_HELLO, 1, HelloPayload(name))] + Requests(lines, 1)
  }

  // ---------------------------------------------------------------- the server at the other end

  class Remote {
    const connections: nat
    const uptime: nat -> uint32
    var messages: nat
    var name: seq<byte>

    function State(): Server
      reads this
    {
      Server(connections, messages, uptime)
    }

    constructor (s: Server, name: seq<byte>)
      ensures State() == s && this.name == name
    {
      connections, messages, uptime, this.name := s.connections, s.messages, s.uptime, name;
    }

    // The server reads what just arrived and its replies reach the client.
    method React(conn: Connection, arrived: seq<byte>)
      modifies this, conn`unread
      ensures
        var o := Serve(arrived, old(State()), old(name));
        conn.unread == old(conn.unread) + Frames(o.replies) && messages == o.messages && name == o.name
    {
      var o := Serve(arrived, State(), name);
      conn.unread := conn.unread + Frames(o.replies);
      messages, name := o.messages, o.name;
    }
  }

  // recv_message: 0 and the message, or -1.
  method RecvMessage(conn: Connection, hdr: array<byte>, payload: array<byte>) returns (status: int, m: Message)
    requires hdr.Length == HEADER_SIZE && payload.Length == MAX_PAYLOAD + 1 && hdr != payload
    modifies conn`unread, hdr, payload
    ensures
      match Receive(old(conn.unread))
      case Got(got, rest) => status == 0 && m == got && conn.unread == rest
      case _ => status == -1
  {
    status, m := ReceiveMessage(conn, hdr, payload);
    status := if status == 1 then 0 else -1;
  }

  // A request on its own is answered by one reply.
  lemma ServeAlone(m: Message, s: Server, name: seq<byte>)
    requires Fits(m)
    ensures
      var n := s.messages + 1;
      Serve(Frame(m), s, name)
        == Outcome([Reply(m, s.connections, n, s.uptime(n))], n,
                   if m.msgType == MSG_BYE then name else NameAfter(m, name))
  {
    hide Reply, Frame, NameAfter, Receive;
    assert Frame(m) + [] == Frame(m);
    if m.msgType == MSG_BYE {
      ServeBye(m, [], s, name);
    } else {
      ServeOne(m, [], s, name);
      ServeNothing(s.(messages := s.messages + 1), NameAfter(m, name));
    }
  }

  lemma OneFrame(m: Message)
    requires Fits(m)
    ensures Frames([m]) == Frame(m)
  {
    hide Frame;
    assert [m][1..] == [];
    assert Frame(m) + [] == Frame(m);
  }

  method Exchange(conn: Connection, remote: Remote, m: Message, hdr: array<byte>, payload: array<byte>)
    returns (status: int, reply: Message)
    requires Fits(m) && conn.unread == []
    requires hdr.Length == HEADER_SIZE && payload.Length == MAX_PAYLOAD + 1 && hdr != payload
    modifies conn, remote, hdr, payload
    ensures conn.written == old(conn.written) + Frame(m) && conn.unread == []
    ensures remote.messages == old(remote.messages) + 1
    ensures status == 0 && reply == Reply(m, remote.connections, remote.messages, remote.uptime(remote.messages))
  {
    hide Reply, Frame, Serve, Receive, NameAfter, Frames;
    conn.SendMessage(m.msgType, m.seqNo, m.payload);
    ServeAlone(m, remote.State(), remote.name);
    ghost var expected := Reply(m, remote.connections, remote.messages + 1, remote.uptime(remote.messages + 1));
    OneFrame(expected);
    ReceiveFrame(expected, []);
    remote.React(conn, Frame(m));
    assert conn.unread == Frame(expected) + [];
    status, reply := RecvMessage(conn, hdr, payload);
  }

  // One more request sent and answered.
  lemma Exchanged(before: seq<byte>, sent: seq<Message>, m: Message, rest: seq<Message>, s: Server)
    requires AllFit(sent) && Fits(m)
    ensures AllFit(sent + [m]) && sent + ([m] + rest) == (sent + [m]) + rest
    ensures before + Frames(sent) + Frame(m) == before + Frames(sent + [m])
    ensures
      var n := s.messages + |sent| + 1;
      Replies(sent + [m], s) == Replies(sent, s) + [Reply(m, s.connections, n, s.uptime(n))]
  {
    hide Frame, Frames, Reply, Replies, AllFit;
    FramesAppend(sent, m);
    RepliesOfLast(sent, m, s);
    Associate(sent, [m], rest);
    Associate(before, Frames(sent), Frame(m));
  }

  lemma RequestsNext(lines: seq<seq<byte>>, i: nat, seqNo: uint16)
    requires i < |lines| && Lines(lines)
    ensures
      var line := Chomp(lines[i]);
      var m := Request(line, Bump(seqNo));
      Requests(lines[i..], seqNo) ==
        if line == [] then Requests(lines[i + 1..], seqNo)
        else if m.msgType == MSG_BYE then [m] + []
        else [m] + Requests(lines[i + 1..], Bump(seqNo))
  {
    hide Request, Chomp, Bump;
    assert lines[i..][1..] == lines[i + 1..];
  }

  lemma NoMoreLines(lines: seq<seq<byte>>, seqNo: uint16)
    requires Lines(lines)
    ensures Requests(lines[|lines|..], seqNo) == []
  {
  }

  lemma ScriptStarts(name: seq<byte>, lines: seq<seq<byte>>)
    requires Lines(lines)
    ensures Script(name, lines) == [Message(MSG_HELLO, 1, HelloPayload(name))] + Requests(lines, 1)
  {
  }

  // The session: every request goes out, and each gets the reply the server owes it.
  method Session(conn: Connection, remote: Remote, name: seq<byte>, lines: seq<seq<byte>>)
    returns (received: seq<Message>)
    requires conn.unread == [] && Lines(lines)
    modifies conn, remote
    ensures conn.written == old(conn.written) + Frames(Script(name, lines))
    ensures received == Replies(Script(name, lines), old(remote.State()))
    ensures remote.messages == old(remote.messages) + |received|
  {
    hide Reply, Frame, Frames, Replies, Requests, Request, Chomp, HelloPayload, AllFit, Script, Bump;
    var hdr, payload := new byte[HEADER_SIZE], new byte[MAX_PAYLOAD + 1];
    ghost var s := remote.State();
    ghost var sent: seq<Message> := [];
    StartOfSession(s);
    var seqNo: uint16 := 1;
    var m := Message(MSG_HELLO, seqNo, HelloPayload(name));
    var status, reply := Exchange(conn, remote, m, hdr, payload);
    Exchanged(old(conn.written), sent, m, [], s);
    sent, received := sent + [m], [reply];
    ghost var script := Script(name, lines);
    ScriptStarts(name, lines);
    var i := 0;
    assert lines[0..] == lines;
    while i < |lines|
      invariant i <= |lines| && conn.unread == [] && AllFit(sent)
      invariant script == sent + Requests(lines[i..], seqNo)
      invariant conn.written == old(conn.written) + Frames(sent)
      invariant received == Replies(sent, s) && remote.messages == s.messages + |sent|
    {
      RequestsNext(lines, i, seqNo);
      var line := Chomp(lines[i]);
      i := i + 1;
      if line == [] {
        continue;
      }
      seqNo := Bump(seqNo);
      m := Request(line, seqNo);
      status, reply := Exchange(conn, remote, m, hdr, payload);
      Exchanged(old(conn.written), sent, m, if m.msgType == MSG_BYE then [] else Requests(lines[i..], seqNo), s);
      sent, received := sent + [m], received + [reply];
      if m.msgType == MSG_BYE {
        assert sent == script;
        return;
      }
    }
    NoMoreLines(lines, seqNo);
    assert sent == script;
  }

  lemma StartOfSession(s: Server)
    ensures AllFit([]) && Frames([]) == [] && Replies([], s) == []
  {
  }

  // ---------------------------------------------------------------- the session as the server sees it

  // Numbers go up by one from request to request, modulo 65536, and a BYE can only come last.
  predicate Numbered(r: seq<Message>, seqNo: uint16) {
    && (forall i :: 0 <= i < |r| ==> r[i].seqNo == U16(seqNo + 1 + i))
    && forall i :: 0 <= i < |r| - 1 ==> r[i].msgType != MSG_BYE
  }

  lemma BumpThen(seqNo: uint16, i: int)
    ensures U16(Bump(seqNo) + i) == U16(seqNo + 1 + i)
  {
  }

  lemma NumberedShort(r: seq<Message>, seqNo: uint16)
    requires |r| <= 1 && forall m :: m in r ==> m.seqNo == Bump(seqNo)
    ensures Numbered(r, seqNo)
  {
  }

  lemma NumberedFrom(m: Message, rest: seq<Message>, seqNo: uint16)
    requires m.seqNo == Bump(seqNo) && m.msgType != MSG_BYE && Numbered(rest, Bump(seqNo))
    ensures Numbered([m] + rest, seqNo)
  {
    hide U16;
    var r := [m] + rest;
    forall i | 0 <= i < |r| ensures r[i].seqNo == U16(seqNo + 1 + i) {
      if i > 0 {
        assert r[i] == rest[i - 1];
        assert rest[i - 1].seqNo == U16(Bump(seqNo) + 1 + (i - 1));
        BumpThen(seqNo, i);
      }
    }
  }

  lemma {:induction false} RequestNumbers(lines: seq<seq<byte>>, seqNo: uint16)
    requires Lines(lines)
    ensures Numbered(Requests(lines, seqNo), seqNo)
    decreases |lines|
  {
    hide Request, Chomp, Requests, Numbered;
    if lines == [] {
      NoMoreLines(lines, seqNo);
      assert lines[|lines|..] == lines;
      NumberedShort([], seqNo);
    } else {
      var n := Bump(seqNo);
      var m := Request(Chomp(lines[0]), n);
      assert lines[0..] == lines;
      RequestsNext(lines, 0, seqNo);
      if Chomp(lines[0]) == [] {
        RequestNumbers(lines[1..], seqNo);
      } else if m.msgType == MSG_BYE {
        NumberedShort([m] + [], seqNo);
      } else {
        RequestNumbers(lines[1..], n);
        NumberedFrom(m, Requests(lines[1..], n), seqNo);
      }
    }
  }

  lemma ServeWhole(ms: seq<Message>, s: Server, name: seq<byte>)
    requires AllFit(ms) && ms != [] && NoBye(ms[..|ms| - 1])
    ensures
      var o := Serve(Frames(ms), s, name);
      && o.replies == Replies(ms, s) && o.messages == s.messages + |ms|
      && o.name == NameAfterAll(if ms[|ms| - 1].msgType == MSG_BYE then ms[..|ms| - 1] else ms, name)
  {
    hide Reply, Frame, Frames, NameAfter, NameAfterAll, Receive, Serve, Replies;
    var init, last := ms[..|ms| - 1], ms[|ms| - 1];
    assert ms == init + [last];
    if last.msgType == MSG_BYE {
      FramesAppend(init, last);
      assert Frames(ms) == Frames(init) + (Frame(last) + []);
      SessionAnswered(init, last, [], s, name);
    } else {
      assert Frames(ms) + [] == Frames(ms);
      ServeNothing(s.(messages := s.messages + |ms|), NameAfterAll(ms, name));
      ServeFrames(ms, [], s, name);
      assert Replies(ms, s) + [] == Replies(ms, s);
    }
  }

  lemma FirstNumber()
    ensures U16(1) == 1
  {
  }

  // The bytes a session puts on the wire draw from the server exactly the replies the client received: one
  // to each request, under the request's own number.
  lemma EveryRequestAnswered(clientName: seq<byte>, lines: seq<seq<byte>>, s: Server, serverName: seq<byte>)
    requires Lines(lines)
    ensures
      var script := Script(clientName, lines);
      var o := Serve(Frames(script), s, serverName);
      && o.replies == Replies(script, s) && o.messages == s.messages + |script|
      && forall i :: 0 <= i < |o.replies| ==> script[i].seqNo == o.replies[i].seqNo == U16(i + 1)
  {
    hide Reply, Frame, Frames, NameAfter, NameAfterAll, Receive, Serve, Replies, Requests, HelloPayload, U16;
    var script := Script(clientName, lines);
    RequestNumbers(lines, 1);
    assert forall i :: 0 < i < |script| ==> script[i] == Requests(lines, 1)[i - 1];
    FirstNumber();
    ServeWhole(script, s, serverName);
    forall i: nat | i < |script| ensures Replies(script, s)[i].seqNo == script[i].seqNo {
      ReplyMeans(script, s, i);
    }
  }

  // The session and the server's own loop: the bytes the client sent, given to handle_client in whatever
  // chunks, draw exactly the replies the client received, as long as the server starts where it started then.
  method SessionAndServer(server: MiniServer, uptime: nat -> uint32, clientName: seq<byte>, lines: seq<seq<byte>>)
    returns (received: seq<Message>, serverEnd: Connection)
    requires Lines(lines)
    modifies server
    ensures AllFit(received) && serverEnd.written == Frames(received)
    ensures received
      == Replies(Script(clientName, lines), Server(old(server.totalConnections) + 1, old(server.totalMessages), uptime))
    ensures |received| == |Script(clientName, lines)| && server.totalMessages == old(server.totalMessages) + |received|
    ensures forall i :: 0 <= i < |received| ==> received[i].seqNo == Script(clientName, lines)[i].seqNo == U16(i + 1)
  {
    hide Reply, Frame, Frames, Serve, Replies, Script, Ascii, U16;
    var s := Server(server.totalConnections + 1, server.totalMessages, uptime);
    var remote := new Remote(s, Ascii("unknown"));
    var clientEnd := new Connection([]);
    received := Session(clientEnd, remote, clientName, lines);
    EveryRequestAnswered(clientName, lines, s, Ascii("unknown"));
    assert clientEnd.written == Frames(Script(clientName, lines));
    serverEnd := new Connection(clientEnd.written);
    var _ := server.HandleClient(serverEnd, uptime);
    assert serverEnd.written == Frames(received);
  }

  // ---------------------------------------------------------------- what is typed

  // A text that can be typed as one line and is no command.
  predicate Plain(text: seq<byte>) {
    0 < |text| <= 1022 && 0 !in text && 10 !in text && text != Ascii("/status") && text != Ascii("/quit")
  }

  function Typed(text: seq<byte>): seq<byte> { text + [10] }

  lemma ChompTyped(text: seq<byte>)
    ensures Chomp(Typed(text)) == text
    ensures 10 !in text ==> Chomp(text) == text
  {
  }

  // The first line decides the first request; the last line of the input may lack its newline.
  lemma FirstTyped(text: seq<byte>, line: seq<byte>, rest: seq<seq<byte>>, seqNo: uint16)
    requires Lines([line] + rest) && Lines(rest) && 10 !in text && (line == Typed(text) || line == text)
    ensures
      var next := (seqNo + 1) % 0x1_0000;
      Requests([line] + rest, seqNo) ==
        if text == [] then Requests(rest, seqNo)
        else if text == Ascii("/quit") then [Message(4, next, [])]
        else if text == Ascii("/status") then [Message(3, next, [])] + Requests(rest, next)
        else [Message(2, next, text)] + Requests(rest, next)
  {
    ChompTyped(text);
    hide Chomp, Ascii;
    assert ([line] + rest)[1..] == rest;
  }

  function AllTyped(texts: seq<seq<byte>>): (r: seq<seq<byte>>)
    ensures |r| == |texts| && forall i :: 0 <= i < |texts| ==> r[i] == Typed(texts[i])
  {
    seq(|texts|, i requires 0 <= i < |texts| => Typed(texts[i]))
  }

  lemma TypedFirst(texts: seq<seq<byte>>, rest: seq<seq<byte>>)
    requires texts != [] && (forall i :: 0 <= i < |texts| ==> Plain(texts[i])) && Lines(rest)
    ensures AllTyped(texts) + rest == [Typed(texts[0])] + (AllTyped(texts[1..]) + rest)
    ensures Lines(AllTyped(texts) + rest)
  {
    hide Ascii;
    var all := AllTyped(texts) + rest;
    forall i | 0 <= i < |all| ensures Line(all[i]) {
      if i < |texts| {
        assert Plain(texts[i]) && all[i] == Typed(texts[i]);
      } else {
        assert all[i] == rest[i - |texts|];
      }
    }
  }

  // These are the first requests: the texts as DATA, numbered from seqNo on.
  predicate AsData(r: seq<Message>, texts: seq<seq<byte>>, seqNo: int) {
    |r| >= |texts| && forall i :: 0 <= i < |texts| ==> r[i] == Message(2, U16(seqNo + i), texts[i])
  }

  lemma DataFirst(texts: seq<seq<byte>>, tail: seq<Message>, seqNo: uint16)
    requires texts != [] && AsData(tail, texts[1..], U16(seqNo + 1) + 1)
    ensures AsData([Message(2, U16(seqNo + 1), texts[0])] + tail, texts, seqNo + 1)
  {
    hide U16;
    var r := [Message(2, U16(seqNo + 1), texts[0])] + tail;
    forall i | 0 <= i < |texts| ensures r[i] == Message(2, U16(seqNo + 1 + i), texts[i]) {
      if i > 0 {
        assert r[i] == tail[i - 1] && texts[i] == texts[1..][i - 1];
        BumpThen(seqNo, i);
      }
    }
  }

  // Every text that is typed goes out as DATA under the next number.
  lemma {:induction false} TextsSent(texts: seq<seq<byte>>, rest: seq<seq<byte>>, seqNo: uint16)
    requires (forall i :: 0 <= i < |texts| ==> Plain(texts[i])) && Lines(rest)
    ensures Lines(AllTyped(texts) + rest)
    ensures AsData(Requests(AllTyped(texts) + rest, seqNo), texts, seqNo + 1)
    decreases |texts|
  {
    hide Plain, Typed, Requests, AllTyped, AsData;
    if texts == [] {
      NothingTyped(rest);
      NoData(Requests(rest, seqNo), seqNo + 1);
    } else {
      var next := U16(seqNo + 1);
      var others := AllTyped(texts[1..]) + rest;
      TypedFirst(texts, rest);
      PlainText(texts[0]);
      TextsSent(texts[1..], rest, next);
      FirstTyped(texts[0], Typed(texts[0]), others, seqNo);
      DataFirst(texts, Requests(others, next), seqNo);
    }
  }

  lemma NoData(r: seq<Message>, seqNo: int)
    ensures AsData(r, [], seqNo)
  {
  }

  lemma NothingTyped(rest: seq<seq<byte>>)
    ensures AllTyped([]) + rest == rest
  {
  }

  lemma PlainText(text: seq<byte>)
    requires Plain(text)
    ensures text != [] && 10 !in text && text != Ascii("/status") && text != Ascii("/quit")
  {
  }

  // And comes back: with what a session receives by its contract, the reply to each typed text is that text,
  // acknowledged under its number.
  lemma TextsEchoed(clientName: seq<byte>, texts: seq<seq<byte>>, rest: seq<seq<byte>>, s: Server)
    requires (forall i :: 0 <= i < |texts| ==> Plain(texts[i])) && Lines(rest)
    ensures Lines(AllTyped(texts) + rest)
    ensures
      var script := Script(clientName, AllTyped(texts) + rest);
      && |script| > |texts|
      && forall i :: 0 <= i < |texts| ==> Replies(script, s)[i + 1] == Message(0x80, (i + 2) % 0x1_0000, texts[i])
  {
    hide Plain, Requests, AllTyped, Replies, HelloPayload;
    TextsSent(texts, rest, 1);
    var lines := AllTyped(texts) + rest;
    var script := Script(clientName, lines);
    forall i | 0 <= i < |texts|
      ensures Replies(script, s)[i + 1] == Message(0x80, (i + 2) % 0x1_0000, texts[i])
    {
      assert script[i + 1] == Requests(lines, 1)[i];
      ReplyMeans(script, s, i + 1);
    }
  }

  // A name of up to 31 bytes reaches the server as it is.
  lemma NameLearned(clientName: seq<byte>, serverName: seq<byte>)
    requires |clientName| < HELLO_SIZE && 0 !in clientName
    ensures NameAfter(Message(MSG_HELLO, 1, HelloPayload(clientName)), serverName) == clientName
  {
    var p := HelloPayload(clientName);
    assert p[..HELLO_SIZE] == p;
    assert p[..|clientName|] == clientName;
    CStringStops(p, |clientName|);
    CStringOfText(clientName);
  }
}

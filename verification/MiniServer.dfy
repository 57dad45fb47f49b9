// mini_server.c: the read and write loops, send_message and handle_client over a reliable stream whose
// reads and writes may move any positive number of bytes at a time.
module MiniServer {
  import opened Bytes
  import opened MiniProtocol

  // One end of a connection: what the peer has sent and is not read yet, ending where it closes, and what
  // was written here.
  class Connection {
    var unread: seq<byte>
    var written: seq<byte>

    constructor (unread: seq<byte>)
      ensures this.unread == unread && written == []
    {
      this.unread, written := unread, [];
    }

    // read(2): any positive number of bytes up to n, or none at the end of the stream.
    method Read(n: nat) returns (chunk: seq<byte>)
      requires n > 0
      modifies `unread
      ensures |chunk| <= n && old(unread) == chunk + unread
      ensures chunk == [] <==> old(unread) == []
    {
      if unread == [] {
        return [];
      }
      var k :| 0 < k <= |unread| && k <= n;
      chunk, unread := unread[..k], unread[k..];
    }

    // write(2): any positive number of the bytes.
    method Write(data: seq<byte>) returns (w: nat)
      requires data != []
      modifies `written
      ensures 0 < w <= |data| && written == old(written) + data[..w]
    {
      w :| 0 < w <= |data|;
      written := written + data[..w];
    }

    // Exactly n bytes into buf, however the stream is cut up, or 0 when it ends before.
    method ReadAll(buf: array<byte>, n: nat) returns (r: nat)
      requires n <= buf.Length
      modifies `unread, buf
      ensures |old(unread)| >= n ==> r == n && buf[..n] == old(unread)[..n] && unread == old(unread)[n..]
      ensures |old(unread)| < n ==> r == 0 && unread == []
    {
      var total := 0;
      while total < n
        invariant total <= n && total <= |old(unread)|
        invariant buf[..total] == old(unread)[..total] && unread == old(unread)[total..]
        decreases n - total
      {
        var chunk := Read(n - total);
        if chunk == [] {
          return 0;
        }
        StreamCut(old(unread), total, chunk, unread);
        CopyInto(buf, total, chunk);
        SpliceParts(buf[..], total, chunk);
        total := total + |chunk|;
      }
      return total;
    }

    // All of data, however the stream takes it.
    method WriteAll(data: seq<byte>) returns (r: nat)
      modifies `written
      ensures r == |data| && written == old(written) + data
    {
      var total := 0;
      while total < |data|
        invariant total <= |data| && written == old(written) + data[..total]
        decreases |data| - total
      {
        var w := Write(data[total..]);
        assert data[..total + w] == data[..total] + data[total..][..w];
        total := total + w;
      }
      assert data[..total] == data;
      return total;
    }

    method SendMessage(msgType: byte, seqNo: uint16, payload: seq<byte>)
      requires |payload| < 0x1_0000_0000
      modifies `written
      ensures written == old(written) + Frame(Message(msgType, seqNo, payload))
    {
      var r := WriteAll(HeaderBytes(FillHeader(msgType, seqNo, |payload|)));
      if |payload| > 0 {
        r := WriteAll(payload);
      }
    }
  }

  // The reads at the head of the server's loop: 0 for a stream that ends first, validate's code for a header
  // it refuses, 1 for a message.
  method ReceiveMessage(conn: Connection, hdr: array<byte>, payload: array<byte>) returns (status: int, m: Message)
    requires hdr.Length == HEADER_SIZE && payload.Length == MAX_PAYLOAD + 1 && hdr != payload
    modifies conn`unread, hdr, payload
    ensures
      match Receive(old(conn.unread))
      case Ended => status == 0
      case BadHeader(err) => status == err < 0
      case Got(got, rest) => status == 1 && m == got && conn.unread == rest
    ensures |old(conn.unread)| >= 12 && Refusal(old(conn.unread)) < 0 ==> status == Refusal(old(conn.unread))
  {
    ReceivedExactly(conn.unread);
    hide HeaderOf, Refusal, CutShort;
    ghost var input := conn.unread;
    m := Message(0, 0, []);
    var n := conn.ReadAll(hdr, HEADER_SIZE);
    if n <= 0 {
      return 0, m;
    }
    assert hdr[..] == input[..HEADER_SIZE];
    var h := HeaderOf(hdr[..]);
    var err := ValidateHeader(h);
    if err < 0 {
      return err, m;
    }
    if h.payloadLen > 0 {
      n := conn.ReadAll(payload, h.payloadLen);
      if n <= 0 {
        return 0, m;
      }
      payload[h.payloadLen] := 0;
    }
    assert payload[..h.payloadLen] == input[HEADER_SIZE..HEADER_SIZE + h.payloadLen];
    m := Message(h.msgType, h.seqNo, payload[..h.payloadLen]);
    return 1, m;
  }

  lemma StreamCut(s: seq<byte>, total: nat, chunk: seq<byte>, rest: seq<byte>)
    requires total <= |s| && s[total..] == chunk + rest
    ensures total + |chunk| <= |s| && s[..total + |chunk|] == s[..total] + chunk && rest == s[total + |chunk|..]
  {
    assert s == s[..total] + (chunk + rest);
  }

  // The whole outcome, when these replies are out and o is still to come.
  function Total(replies: seq<Message>, o: Outcome): Outcome {
    Outcome(replies + o.replies, o.messages, o.name)
  }

  lemma NothingSent(whole: Outcome)
    ensures AllFit([]) && Frames([]) == [] && Total([], whole) == whole
  {
  }

  lemma ByeKeepsName(m: Message, name: seq<byte>)
    requires m.msgType == MSG_BYE
    ensures NameAfter(m, name) == name
  {
  }

  // One message of a stream.
  lemma ServeStep(replies: seq<Message>, input: seq<byte>, s: Server, name: seq<byte>)
    ensures
      var whole := Total(replies, Serve(input, s, name));
      match Receive(input)
      case Ended => whole == Outcome(replies, s.messages, name)
      case BadHeader(_) => whole == Outcome(replies + [Message(MSG_ERROR, 0, Ascii("Bad header"))], s.messages, name)
      case Got(m, rest) =>
        var n := s.messages + 1;
        var reply := Reply(m, s.connections, n, s.uptime(n));
        whole == if m.msgType == MSG_BYE then Outcome(replies + [reply], n, name)
                 else Total(replies + [reply], Serve(rest, s.(messages := n), NameAfter(m, name)))
  {
    hide Receive, Reply, NameAfter, Ascii;
  }

  class MiniServer {
    var totalConnections: nat
    var totalMessages: nat

    // The switch of handle_client: the reply goes out, and a HELLO sets the name.
    method Answer(conn: Connection, m: Message, uptime: uint32, name: seq<byte>) returns (newName: seq<byte>)
      requires Fits(m)
      modifies conn`written
      ensures conn.written == old(conn.written) + Frame(Reply(m, totalConnections, totalMessages, uptime))
      ensures newName == NameAfter(m, name)
    {
      hide Frame;
      newName := name;
      if m.msgType == MSG_HELLO {
        if |m.payload| >= HELLO_SIZE {
          newName := CString(m.payload[..HELLO_SIZE]);
        }
        conn.SendMessage(MSG_ACK, m.seqNo, []);
      } else if m.msgType == MSG_DATA {
        conn.SendMessage(MSG_ACK, m.seqNo, m.payload);
      } else if m.msgType == MSG_STATUS {
        conn.SendMessage(MSG_STATUS, m.seqNo, StatusPayload(uptime, totalConnections, totalMessages));
      } else if m.msgType == MSG_BYE {
        conn.SendMessage(MSG_ACK, m.seqNo, []);
      } else {
        conn.SendMessage(MSG_ERROR, m.seqNo, Ascii("Unknown type"));
      }
    }

    // Whatever the chunks, the bytes sent back are the frames of the replies Serve names.
    method HandleClient(conn: Connection, uptime: nat -> uint32) returns (clientName: seq<byte>)
      modifies this, conn
      ensures totalConnections == old(totalConnections) + 1
      ensures
        var o := Serve(old(conn.unread), Server(totalConnections, old(totalMessages), uptime), Ascii("unknown"));
        && conn.written == old(conn.written) + Frames(o.replies)
        && totalMessages == o.messages && clientName == o.name
    {
      hide Serve, Frames, Frame, Reply, NameAfter, Ascii, Receive, Total, HeaderOf, HeaderBytes;
      totalConnections := totalConnections + 1;
      clientName := Ascii("unknown");
      var hdr, payload := new byte[HEADER_SIZE], new byte[MAX_PAYLOAD + 1];
      ghost var whole := Serve(conn.unread, Server(totalConnections, totalMessages, uptime), clientName);
      ghost var replies: seq<Message> := [];
      NothingSent(whole);
      while true
        invariant totalConnections == old(totalConnections) + 1 && AllFit(replies)
        invariant conn.written == old(conn.written) + Frames(replies)
        invariant whole
          == Total(replies, Serve(conn.unread, Server(totalConnections, totalMessages, uptime), clientName))
        decreases |conn.unread|
      {
        ServeStep(replies, conn.unread, Server(totalConnections, totalMessages, uptime), clientName);
        var status, m := ReceiveMessage(conn, hdr, payload);
        if status == 0 {
          break;
        }
        if status < 0 {
          FramesAppend(replies, Message(MSG_ERROR, 0, Ascii("Bad header")));
          replies := replies + [Message(MSG_ERROR, 0, Ascii("Bad header"))];
          conn.SendMessage(MSG_ERROR, 0, Ascii("Bad header"));
          break;
        }
        totalMessages := totalMessages + 1;
        ghost var reply := Reply(m, totalConnections, totalMessages, uptime(totalMessages));
        FramesAppend(replies, reply);
        if m.msgType == MSG_BYE {
          ByeKeepsName(m, clientName);
        }
        clientName := Answer(conn, m, uptime(totalMessages), clientName);
        replies := replies + [reply];
        if m.msgType == MSG_BYE {
          break;
        }
      }
    }
  }
}

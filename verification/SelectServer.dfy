// select_server.c: the array of client descriptors, and the service pass that removes closed clients from it
// by moving the last one into the freed slot while it is still iterating.
module SelectServer {
  import opened Common

  const MAX_CLIENTS := 64

  datatype Accepted = NoClient | NewClient(fd: int)

  // What the kernel answers in one round: which descriptors select marks, what accept gives, and for which
  // descriptors read would return 0 or an error.
  datatype Round = Round(marked: set<int>, accepted: Accepted, hungUp: set<int>)

  function Elements(s: seq<int>): set<int> { set x | x in s }

  // client_fds[i] = client_fds[num_clients - 1]; num_clients--
  function SwapRemove(fds: seq<int>, i: nat): (r: seq<int>)
    requires i < |fds|
    ensures |r| == |fds| - 1
  {
    fds[i := fds[|fds| - 1]][..|fds| - 1]
  }

  datatype Outcome = Outcome(clients: seq<int>, served: seq<int>, closed: seq<int>)

  // The service pass from index i on.
  function Pass(fds: seq<int>, i: nat, ready: set<int>, hungUp: set<int>): Outcome
    requires i <= |fds|
    decreases |fds| - i
  {
    if i == |fds| then Outcome(fds, [], [])
    else if fds[i] !in ready then Pass(fds, i + 1, ready, hungUp)
    else if fds[i] in hungUp then
      var rest := Pass(SwapRemove(fds, i), i, ready, hungUp);
      Outcome(rest.clients, [fds[i]] + rest.served, [fds[i]] + rest.closed)
    else
      var rest := Pass(fds, i + 1, ready, hungUp);
      Outcome(rest.clients, [fds[i]] + rest.served, rest.closed)
  }

  lemma SwapRemoveKeeps(fds: seq<int>, i: nat)
    requires i < |fds| && NoRepeats(fds)
    ensures NoRepeats(SwapRemove(fds, i)) && fds[i] !in SwapRemove(fds, i)
    ensures Elements(SwapRemove(fds, i)) == Elements(fds) - {fds[i]}
    ensures Elements(SwapRemove(fds, i)[i..]) == Elements(fds[i..]) - {fds[i]}
  {
    var r, last := SwapRemove(fds, i), |fds| - 1;
    assert forall k :: 0 <= k < last ==> r[k] == if k == i then fds[last] else fds[k];
    assert forall x :: x in fds && x != fds[i] ==> x in r by {
      forall x | x in fds && x != fds[i] ensures x in r {
        var k :| 0 <= k < |fds| && fds[k] == x;
        assert if k == last then r[i] == x else r[k] == x;
      }
    }
    assert forall x :: x in fds[i..] && x != fds[i] ==> x in r[i..] by {
      forall x | x in fds[i..] && x != fds[i] ensures x in r[i..] {
        var k :| 0 <= k < |fds[i..]| && fds[i..][k] == x;
        assert if i + k == last then r[i..][0] == x else r[i..][k] == x;
      }
    }
  }

  lemma FirstOfRest(fds: seq<int>, i: nat)
    requires i < |fds| && NoRepeats(fds)
    ensures Elements(fds[i..]) == {fds[i]} + Elements(fds[i + 1..]) && fds[i] !in Elements(fds[i + 1..])
    ensures fds[i] in Elements(fds)
  {
    assert fds[i..] == [fds[i]] + fds[i + 1..];
  }

  lemma Prepended(x: int, s: seq<int>)
    requires NoRepeats(s) && x !in Elements(s)
    ensures NoRepeats([x] + s) && Elements([x] + s) == {x} + Elements(s)
  {
  }

  lemma NoneLeft(fds: seq<int>)
    ensures Elements(fds[|fds|..]) == {} && Elements([]) == {} && NoRepeats<int>([])
  {
  }

  // The pass reads each ready descriptor exactly once and no other, whatever is swapped where, closes the
  // ones that hung up, and leaves the rest.
  lemma {:induction false} PassServesEachOnce(fds: seq<int>, i: nat, ready: set<int>, hungUp: set<int>)
    requires i <= |fds| && NoRepeats(fds)
    ensures
      var o := Pass(fds, i, ready, hungUp);
      && NoRepeats(o.served) && Elements(o.served) == ready * Elements(fds[i..])
      && NoRepeats(o.closed) && Elements(o.closed) == ready * hungUp * Elements(fds[i..])
      && NoRepeats(o.clients) && Elements(o.clients) == Elements(fds) - Elements(o.closed)
      && |o.clients| <= |fds|
    decreases |fds| - i
  {
    hide SwapRemove, NoRepeats, Elements;
    NoneLeft(fds);
    if i < |fds| {
      FirstOfRest(fds, i);
      if fds[i] in ready && fds[i] in hungUp {
        SwapRemoveKeeps(fds, i);
        PassServesEachOnce(SwapRemove(fds, i), i, ready, hungUp);
        var rest := Pass(SwapRemove(fds, i), i, ready, hungUp);
        Prepended(fds[i], rest.served);
        Prepended(fds[i], rest.closed);
      } else {
        PassServesEachOnce(fds, i + 1, ready, hungUp);
        if fds[i] in ready {
          Prepended(fds[i], Pass(fds, i + 1, ready, hungUp).served);
        }
      }
    }
  }

  // ---------------------------------------------------------------- rounds

  // The array's used part, and the client descriptors that are open.
  datatype State = State(clients: seq<int>, open: set<int>)

  // What select and accept can answer: only watched descriptors are marked, and a new descriptor is none
  // that is in use.
  predicate Possible(server: int, s: State, r: Round) {
    && r.marked <= {server} + Elements(s.clients)
    && (r.accepted.NewClient? ==> r.accepted.fd >= 0 && r.accepted.fd != server && r.accepted.fd !in s.open)
  }

  predicate Joins(server: int, s: State, r: Round) {
    server in r.marked && r.accepted.NewClient? && |s.clients| < MAX_CLIENTS
  }

  // A client that finds the array full is closed at once.
  function Admitted(server: int, s: State, r: Round): State {
    if Joins(server, s, r) then State(s.clients + [r.accepted.fd], s.open + {r.accepted.fd}) else s
  }

  // Closed as soon as it was accepted.
  function TurnedAway(server: int, s: State, r: Round): seq<int> {
    if server in r.marked && r.accepted.NewClient? && !Joins(server, s, r) then [r.accepted.fd] else []
  }

  function Served(server: int, s: State, r: Round): Outcome {
    Pass(Admitted(server, s, r).clients, 0, r.marked, r.hungUp)
  }

  function Next(server: int, s: State, r: Round): State {
    State(Served(server, s, r).clients, Admitted(server, s, r).open - Elements(Served(server, s, r).closed))
  }

  // The array holds the open client descriptors, each once.
  predicate Inv(server: int, s: State) {
    NoRepeats(s.clients) && |s.clients| <= MAX_CLIENTS && Elements(s.clients) == s.open && server !in s.open
  }

  lemma AdmittedKeeps(server: int, s: State, r: Round)
    requires Inv(server, s) && Possible(server, s, r)
    ensures Inv(server, Admitted(server, s, r))
    ensures r.marked * Elements(Admitted(server, s, r).clients) == r.marked - {server}
  {
  }

  lemma {:induction false} AsManyElements(s: seq<int>)
    requires NoRepeats(s)
    ensures |Elements(s)| == |s|
    decreases |s|
  {
    if s != [] {
      var rest, last := s[..|s| - 1], s[|s| - 1];
      AsManyElements(rest);
      assert s == rest + [last];
      assert Elements(s) == Elements(rest) + {last} && last !in Elements(rest);
    }
  }

  // One round: every marked client is read exactly once and nothing else is, the newcomer of the round
  // included; the array then holds the old clients and the newcomer, less those that hung up. The newcomer is
  // turned away exactly when 64 clients are open.
  lemma RoundServes(server: int, s: State, r: Round)
    requires Inv(server, s) && Possible(server, s, r)
    ensures Inv(server, Next(server, s, r))
    ensures NoRepeats(Served(server, s, r).served) && Elements(Served(server, s, r).served) == r.marked - {server}
    ensures
      var offered := server in r.marked && r.accepted.NewClient?;
      && Next(server, s, r).open ==
           s.open + (if offered && |s.open| < 64 then {r.accepted.fd} else {}) - (r.marked * r.hungUp - {server})
      && TurnedAway(server, s, r) == (if offered && |s.open| == 64 then [r.accepted.fd] else [])
  {
    AsManyElements(s.clients);
    hide NoRepeats, Pass, Possible;
    AdmittedKeeps(server, s, r);
    var clients := Admitted(server, s, r).clients;
    assert clients[0..] == clients;
    PassServesEachOnce(clients, 0, r.marked, r.hungUp);
  }

  predicate Runs(server: int, s: State, rs: seq<Round>)
    decreases |rs|
  {
    rs == [] || (Possible(server, s, rs[0]) && Runs(server, Next(server, s, rs[0]), rs[1..]))
  }

  function After(server: int, s: State, rs: seq<Round>): State
    decreases |rs|
  {
    if rs == [] then s else After(server, Next(server, s, rs[0]), rs[1..])
  }

  lemma {:induction false} ClientsAlways(server: int, s: State, rs: seq<Round>)
    requires Inv(server, s) && Runs(server, s, rs)
    ensures Inv(server, After(server, s, rs))
    decreases |rs|
  {
    hide Inv, Next, Possible;
    if rs != [] {
      RoundServes(server, s, rs[0]);
      ClientsAlways(server, Next(server, s, rs[0]), rs[1..]);
    }
  }

  // ---------------------------------------------------------------- the program

  // What the whole pass will have done, when this much is done and o is the rest.
  function Total(served: seq<int>, closed: seq<int>, o: Outcome): Outcome {
    Outcome(o.clients, served + o.served, closed + o.closed)
  }

  lemma PassStep(served: seq<int>, closed: seq<int>, fds: seq<int>, i: nat, ready: set<int>, hungUp: set<int>)
    requires i < |fds|
    ensures Total(served, closed, Pass(fds, i, ready, hungUp)) ==
      if fds[i] !in ready then Total(served, closed, Pass(fds, i + 1, ready, hungUp))
      else if fds[i] in hungUp then
        Total(served + [fds[i]], closed + [fds[i]], Pass(SwapRemove(fds, i), i, ready, hungUp))
      else Total(served + [fds[i]], closed, Pass(fds, i + 1, ready, hungUp))
  {
    hide SwapRemove;
  }

  lemma PassOver(served: seq<int>, closed: seq<int>, fds: seq<int>, ready: set<int>, hungUp: set<int>)
    ensures Total(served, closed, Pass(fds, |fds|, ready, hungUp)) == Outcome(fds, served, closed)
  {
  }

  class Server {
    const clientFds: array<int>
    var numClients: nat
    // The read and close calls of the service passes, in order.
    var served: seq<int>
    var closed: seq<int>

    ghost predicate Valid() reads this { clientFds.Length == MAX_CLIENTS && numClients <= MAX_CLIENTS }

    function Clients(): seq<int>
      requires Valid()
      reads this, clientFds
    {
      clientFds[..numClients]
    }

    constructor ()
      ensures Valid() && fresh(clientFds) && Clients() == [] && served == [] && closed == []
    {
      clientFds := new int[MAX_CLIENTS];
      numClients := 0;
      served, closed := [], [];
    }

    // FD_SET for the listener and each client, and the highest descriptor among them.
    method Watch(server: int) returns (readfds: set<int>, maxfd: int)
      requires Valid()
      ensures readfds == {server} + Elements(Clients())
      ensures maxfd in readfds && forall fd :: fd in readfds ==> fd <= maxfd
    {
      readfds, maxfd := {server}, server;
      for i := 0 to numClients
        invariant readfds == {server} + Elements(clientFds[..i])
        invariant maxfd in readfds && forall fd :: fd in readfds ==> fd <= maxfd
      {
        readfds := readfds + {clientFds[i]};
        if clientFds[i] > maxfd {
          maxfd := clientFds[i];
        }
        assert clientFds[..i + 1] == clientFds[..i] + [clientFds[i]];
      }
    }

    method ServicePass(ready: set<int>, hungUp: set<int>)
      requires Valid()
      modifies `numClients, `served, `closed, clientFds
      ensures Valid()
      ensures
        var o := Pass(old(Clients()), 0, ready, hungUp);
        Clients() == o.clients && served == old(served) + o.served && closed == old(closed) + o.closed
    {
      hide Pass;
      ghost var total := Total(served, closed, Pass(Clients(), 0, ready, hungUp));
      var i := 0;
      while i < numClients
        invariant 0 <= i <= numClients && Valid()
        invariant total == Total(served, closed, Pass(Clients(), i, ready, hungUp))
        decreases numClients - i
      {
        PassStep(served, closed, Clients(), i, ready, hungUp);
        if clientFds[i] in ready {
          served := served + [clientFds[i]];
          if clientFds[i] in hungUp {
            closed := closed + [clientFds[i]];
            ghost var removed := SwapRemove(Clients(), i);
            clientFds[i] := clientFds[numClients - 1];
            numClients := numClients - 1;
            assert Clients() == removed;
            i := i - 1;
          }
        }
        i := i + 1;
      }
      PassOver(served, closed, Clients(), ready, hungUp);
    }

    // One round of the main loop, given what the kernel answers.
    method ServeRound(server: int, r: Round, ghost open: set<int>)
      requires Valid()
      modifies `numClients, `served, `closed, clientFds
      ensures Valid()
      ensures
        var s := State(old(Clients()), open);
        && Clients() == Next(server, s, r).clients
        && served == old(served) + Served(server, s, r).served
        && closed == old(closed) + TurnedAway(server, s, r) + Served(server, s, r).closed
    {
      hide Pass;
      if server in r.marked && r.accepted.NewClient? {
        if numClients < MAX_CLIENTS {
          clientFds[numClients] := r.accepted.fd;
          numClients := numClients + 1;
          assert Clients() == old(Clients()) + [r.accepted.fd];
        } else {
          closed := closed + [r.accepted.fd];
        }
      }
      ServicePass(r.marked, r.hungUp);
    }
  }
}

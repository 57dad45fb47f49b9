// epoll_server.c: the event loop over a level-triggered listener and edge-triggered clients, interleaved
// with whatever the peers do. The kernel's part is small: an edge is queued when something happens on a
// registered socket, or when a socket is registered that is already readable, and epoll_wait hands out
// each queued edge once.
module EpollServer {
  import opened Common

  const MAX_EVENTS := 64
  const BUFFER_SIZE := 1024

  datatype Peer = Connected | Closed | Reset

  // A connection: its number in the order of arrival, the bytes its peer has sent and the server has read, and
  // the bytes in between.
  datatype Socket = Socket(id: nat, sent: nat, received: nat, unread: nat, peer: Peer)

  datatype Entry = Entry(socket: Socket, registered: bool, edge: bool)

  datatype Source = Listener | Client(fd: nat)

  datatype Control =
    | Waiting                                    // at epoll_wait
    | Serving(todo: seq<Source>)                 // at the head of the loop over the batch
    | Accepting(todo: seq<Source>)
    | Adding(fd: nat, todo: seq<Source>)         // accepted, EPOLL_CTL_ADD next
    | Counting(todo: seq<Source>)                // num_clients++ next
    | Draining(fd: nat, todo: seq<Source>)
    | Closing(fd: nat, todo: seq<Source>)        // at close_client
    | Uncounting(todo: seq<Source>)              // num_clients-- next

  datatype State = State(open: map<nat, Entry>, backlog: seq<Socket>, connects: nat, numClients: int, control: Control)

  datatype Event =
    // what peers do
    | Connect
    | QueuedArrives(i: nat, n: nat)
    | QueuedLeaves(i: nat, peer: Peer)
    | Arrives(fd: nat, n: nat)
    | Leaves(fd: nat, peer: Peer)
    // what the server does
    | Wait(batch: seq<Source>)
    | Take
    | Accept(fd: nat)
    | AcceptEmpty          // nothing queued: EAGAIN, or another error
    | AcceptError          // an error although a connection is queued
    | Register
    | Count
    | ReadSome(n: nat)
    | ReadNothing          // EAGAIN
    | ReadEnd              // 0, or an error other than EAGAIN
    | Close
    | Uncount

  // Something a read would report.
  predicate Ready(s: Socket) { s.unread > 0 || !s.peer.Connected? }

  // What epoll_wait may return: at most MAX_EVENTS distinct sources, a client only for a queued edge. A
  // timeout or an interrupted call is the empty batch.
  predicate Reportable(s: State, batch: seq<Source>) {
    && |batch| <= MAX_EVENTS && NoRepeats(batch)
    && forall b :: b in batch ==>
         if b.Listener? then s.backlog != [] else b.fd in s.open && s.open[b.fd].registered && s.open[b.fd].edge
  }

  predicate Reading(s: State) { s.control.Draining? && s.control.fd in s.open }

  predicate Enabled(s: State, e: Event) {
    match e
    case Connect => true
    case QueuedArrives(i, n) => i < |s.backlog| && n > 0 && s.backlog[i].peer.Connected?
    case QueuedLeaves(i, peer) => i < |s.backlog| && s.backlog[i].peer.Connected? && !peer.Connected?
    case Arrives(fd, n) => fd in s.open && n > 0 && s.open[fd].socket.peer.Connected?
    case Leaves(fd, peer) => fd in s.open && s.open[fd].socket.peer.Connected? && !peer.Connected?
    case Wait(batch) => s.control.Waiting? && Reportable(s, batch)
    case Take => s.control.Serving?
    case Accept(fd) => s.control.Accepting? && s.backlog != [] && fd !in s.open
    case AcceptEmpty => s.control.Accepting? && s.backlog == []
    case AcceptError => s.control.Accepting? && s.backlog != []
    case Register => s.control.Adding? && s.control.fd in s.open
    case Count => s.control.Counting?
    case ReadSome(n) =>
      && Reading(s) && !s.open[s.control.fd].socket.peer.Reset?
      && 0 < n <= BUFFER_SIZE && n <= s.open[s.control.fd].socket.unread
    case ReadNothing => Reading(s) && !Ready(s.open[s.control.fd].socket)
    case ReadEnd =>
      && Reading(s)
      && (s.open[s.control.fd].socket.peer.Reset?
          || (s.open[s.control.fd].socket.peer.Closed? && s.open[s.control.fd].socket.unread == 0))
    case Close => s.control.Closing?
    case Uncount => s.control.Uncounting?
  }

  function Arrived(socket: Socket, n: nat): Socket { socket.(sent := socket.sent + n, unread := socket.unread + n) }

  function Taken(socket: Socket, n: nat): Socket
    requires n <= socket.unread
  {
    socket.(received := socket.received + n, unread := socket.unread - n)
  }

  // Something happened on the socket of an open descriptor.
  function Happened(open: map<nat, Entry>, fd: nat, socket: Socket): map<nat, Entry>
    requires fd in open
  {
    open[fd := Entry(socket, open[fd].registered, open[fd].registered || open[fd].edge)]
  }

  // epoll_wait hands out the edges of the batch.
  function Delivered(open: map<nat, Entry>, batch: seq<Source>): map<nat, Entry> {
    map fd | fd in open :: if Client(fd) in batch then open[fd].(edge := false) else open[fd]
  }

  function Next(s: State, e: Event): State
    requires Enabled(s, e)
  {
    match e
    case Connect => s.(backlog := s.backlog + [Socket(s.connects, 0, 0, 0, Connected)], connects := s.connects + 1)
    case QueuedArrives(i, n) => s.(backlog := s.backlog[i := Arrived(s.backlog[i], n)])
    case QueuedLeaves(i, peer) => s.(backlog := s.backlog[i := s.backlog[i].(peer := peer)])
    case Arrives(fd, n) => s.(open := Happened(s.open, fd, Arrived(s.open[fd].socket, n)))
    case Leaves(fd, peer) => s.(open := Happened(s.open, fd, s.open[fd].socket.(peer := peer)))
    case Wait(batch) => s.(open := Delivered(s.open, batch), control := Serving(batch))
    case Take =>
      var todo := s.control.todo;
      if todo == [] then s.(control := Waiting)
      else if todo[0].Listener? then s.(control := Accepting(todo[1..]))
      else s.(control := Draining(todo[0].fd, todo[1..]))
    case Accept(fd) =>
      s.(open := s.open[fd := Entry(s.backlog[0], false, false)], backlog := s.backlog[1..],
         control := Adding(fd, s.control.todo))
    case AcceptEmpty => s.(control := Serving(s.control.todo))
    case AcceptError => s.(control := Serving(s.control.todo))
    case Register =>
      var fd := s.control.fd;
      s.(open := s.open[fd := Entry(s.open[fd].socket, true, Ready(s.open[fd].socket))],
         control := Counting(s.control.todo))
    case Count => s.(numClients := s.numClients + 1, control := Accepting(s.control.todo))
    case ReadSome(n) =>
      var fd := s.control.fd;
      s.(open := s.open[fd := s.open[fd].(socket := Taken(s.open[fd].socket, n))])
    case ReadNothing => s.(control := Serving(s.control.todo))
    case ReadEnd => s.(control := Closing(s.control.fd, s.control.todo))
    case Close => s.(open := s.open - {s.control.fd}, control := Uncounting(s.control.todo))
    case Uncount => s.(numClients := s.numClients - 1, control := Serving(s.control.todo))
  }

  predicate Initial(s: State) {
    s.open == map[] && s.backlog == [] && s.connects == 0 && s.numClients == 0 && s.control.Waiting?
  }

  predicate Runs(s: State, es: seq<Event>)
    decreases |es|
  {
    es == [] || (Enabled(s, es[0]) && Runs(Next(s, es[0]), es[1..]))
  }

  function After(s: State, es: seq<Event>): State
    requires Runs(s, es)
    decreases |es|
  {
    if es == [] then s else After(Next(s, es[0]), es[1..])
  }

  // ---------------------------------------------------------------- invariant

  function Todo(c: Control): seq<Source> { if c.Waiting? then [] else c.todo }

  // The descriptor the server is working on.
  predicate InHand(c: Control, fd: nat) { (c.Draining? || c.Closing?) && c.fd == fd }

  // A registered client that a read would report something about is not forgotten: its edge is queued, or it
  // is still ahead in the batch, or it is being drained.
  predicate Remembered(s: State) {
    forall fd :: fd in s.open && s.open[fd].registered && Ready(s.open[fd].socket) ==>
      s.open[fd].edge || Client(fd) in Todo(s.control) || InHand(s.control, fd)
  }

  // The batch and the descriptor in hand name distinct registered clients.
  ghost predicate BatchInv(s: State) {
    && NoRepeats(Todo(s.control))
    && (forall fd :: Client(fd) in Todo(s.control) ==> fd in s.open && s.open[fd].registered && !InHand(s.control, fd))
    && (s.control.Draining? || s.control.Closing? ==> s.control.fd in s.open && s.open[s.control.fd].registered)
  }

  function Registered(open: map<nat, Entry>): set<nat> {
    set fd | fd in open && open[fd].registered
  }

  // Every open client is registered, but for the one just accepted.
  ghost predicate OneUnregistered(s: State) {
    && (s.control.Adding? ==> s.control.fd in s.open && !s.open[s.control.fd].registered)
    && (forall fd :: fd in s.open && !s.open[fd].registered ==> s.control.Adding? && s.control.fd == fd)
  }

  // num_clients counts the registered clients, except between a change and its count.
  predicate Counted(s: State) {
    s.numClients == |Registered(s.open)| - (if s.control.Counting? then 1 else 0)
      + (if s.control.Uncounting? then 1 else 0)
  }

  ghost predicate CountInv(s: State) { OneUnregistered(s) && Counted(s) }

  // A client is closed only after its peer left, with everything it sent read unless it was a reset.
  predicate CloseInv(s: State) {
    s.control.Closing? && s.control.fd in s.open ==>
      var socket := s.open[s.control.fd].socket;
      socket.peer.Reset? || (socket.peer.Closed? && socket.received == socket.sent)
  }

  predicate AllThere(socket: Socket) { socket.sent == socket.received + socket.unread }

  // No byte is lost or read twice.
  predicate BytesInv(s: State) {
    && (forall fd :: fd in s.open ==> AllThere(s.open[fd].socket))
    && forall i :: 0 <= i < |s.backlog| ==> AllThere(s.backlog[i])
  }

  // The number of the oldest connection not accepted yet.
  function Oldest(s: State): int { s.connects - |s.backlog| }

  // Connections are accepted in the order they came, each once.
  predicate OrderInv(s: State) { QueueInv(s) && OnceInv(s) }

  predicate QueueInv(s: State) {
    && Oldest(s) >= 0
    && (forall i :: 0 <= i < |s.backlog| ==> s.backlog[i].id == Oldest(s) + i)
    && (forall fd :: fd in s.open ==> s.open[fd].socket.id < Oldest(s))
  }

  predicate OnceInv(s: State) {
    forall fd, other :: fd in s.open && other in s.open && fd != other ==>
      s.open[fd].socket.id != s.open[other].socket.id
  }

  ghost predicate Inv(s: State) {
    Remembered(s) && BatchInv(s) && CountInv(s) && CloseInv(s) && BytesInv(s) && OrderInv(s)
  }

  lemma RememberedKept(s: State, e: Event)
    requires Remembered(s) && BatchInv(s) && Enabled(s, e)
    ensures Remembered(Next(s, e))
  {
  }

  lemma EmptyBatch()
    ensures NoRepeats<Source>([])
  {
  }

  lemma RestOfBatch(todo: seq<Source>)
    requires NoRepeats(todo) && todo != []
    ensures NoRepeats(todo[1..]) && todo[0] !in todo[1..]
  {
  }

  lemma BatchKept(s: State, e: Event)
    requires BatchInv(s) && CountInv(s) && Enabled(s, e)
    ensures BatchInv(Next(s, e))
  {
    hide NoRepeats, Registered;
    if e.Take? && s.control.todo != [] {
      RestOfBatch(s.control.todo);
    }
    if s.control.Waiting? {
      EmptyBatch();
    }
  }

  lemma EntryUpdated(open: map<nat, Entry>, fd: nat, entry: Entry)
    ensures Registered(open[fd := entry])
      == if entry.registered then Registered(open) + {fd} else Registered(open) - {fd}
    ensures fd in Registered(open) <==> fd in open && open[fd].registered
    ensures Registered(open - {fd}) == Registered(open) - {fd}
  {
  }

  lemma DeliveryKeeps(open: map<nat, Entry>, batch: seq<Source>)
    ensures Registered(Delivered(open, batch)) == Registered(open)
  {
  }

  // Only EPOLL_CTL_ADD and the close change which descriptors are registered.
  lemma RegisteredChange(s: State, e: Event)
    requires BatchInv(s) && CountInv(s) && Enabled(s, e)
    ensures e.Register? ==> s.control.fd !in Registered(s.open)
    ensures e.Close? ==> s.control.fd in Registered(s.open)
    ensures Registered(Next(s, e).open) ==
      if e.Register? then Registered(s.open) + {s.control.fd}
      else if e.Close? then Registered(s.open) - {s.control.fd}
      else Registered(s.open)
  {
    hide NoRepeats, Reportable, Registered, Delivered, Ready;
    var t := Next(s, e);
    match e
    case Wait(batch) => DeliveryKeeps(s.open, batch);
    case Arrives(fd, _) => EntryUpdated(s.open, fd, t.open[fd]);
    case Leaves(fd, _) => EntryUpdated(s.open, fd, t.open[fd]);
    case Accept(fd) => EntryUpdated(s.open, fd, t.open[fd]);
    case Register => EntryUpdated(s.open, s.control.fd, t.open[s.control.fd]);
    case ReadSome(_) => EntryUpdated(s.open, s.control.fd, t.open[s.control.fd]);
    case Close => EntryUpdated(s.open, s.control.fd, s.open[s.control.fd]);
    case _ =>
  }

  lemma OneUnregisteredKept(s: State, e: Event)
    requires OneUnregistered(s) && Enabled(s, e)
    ensures OneUnregistered(Next(s, e))
  {
    hide Reportable;
  }

  lemma OneMore(fds: set<nat>, fd: nat)
    ensures fd !in fds ==> |fds + {fd}| == |fds| + 1
    ensures fd in fds ==> |fds - {fd}| == |fds| - 1
  {
  }

  // The counter with the change made good that is still to be counted.
  function Settling(s: State): int {
    s.numClients + (if s.control.Counting? then 1 else 0) - (if s.control.Uncounting? then 1 else 0)
  }

  lemma CountStep(s: State, e: Event)
    requires Enabled(s, e)
    ensures Settling(Next(s, e)) == Settling(s) + (if e.Register? then 1 else 0) - (if e.Close? then 1 else 0)
  {
    hide Reportable, Happened, Delivered, Arrived, Taken, Ready;
  }

  lemma CountKept(s: State, e: Event)
    requires BatchInv(s) && CountInv(s) && Enabled(s, e)
    ensures CountInv(Next(s, e))
  {
    hide BatchInv, OneUnregistered, Registered, Next, Reportable;
    OneUnregisteredKept(s, e);
    RegisteredChange(s, e);
    CountStep(s, e);
    if e.Register? || e.Close? {
      OneMore(Registered(s.open), s.control.fd);
    }
  }

  lemma CloseKept(s: State, e: Event)
    requires CloseInv(s) && BytesInv(s) && Enabled(s, e)
    ensures CloseInv(Next(s, e))
  {
    hide Reportable;
  }

  lemma BytesKept(s: State, e: Event)
    requires BytesInv(s) && Enabled(s, e)
    ensures BytesInv(Next(s, e))
  {
    hide Reportable;
  }

  lemma QueueKept(s: State, e: Event)
    requires QueueInv(s) && Enabled(s, e)
    ensures QueueInv(Next(s, e))
  {
    hide Reportable;
  }

  // No step but an accept gives a descriptor another connection.
  lemma OnceKept(s: State, e: Event)
    requires QueueInv(s) && OnceInv(s) && Enabled(s, e)
    ensures OnceInv(Next(s, e))
  {
    hide Reportable;
    var t := Next(s, e);
    assert forall fd :: fd in t.open && !(e.Accept? && fd == e.fd) ==>
      fd in s.open && t.open[fd].socket.id == s.open[fd].socket.id;
  }

  lemma OrderKept(s: State, e: Event)
    requires OrderInv(s) && Enabled(s, e)
    ensures OrderInv(Next(s, e))
  {
    hide QueueInv, OnceInv, Next, Enabled;
    QueueKept(s, e);
    OnceKept(s, e);
  }

  lemma InvKept(s: State, e: Event)
    requires Inv(s) && Enabled(s, e)
    ensures Inv(Next(s, e))
  {
    hide Remembered, BatchInv, CountInv, CloseInv, BytesInv, OrderInv, Next, Enabled;
    RememberedKept(s, e);
    BatchKept(s, e);
    CountKept(s, e);
    CloseKept(s, e);
    BytesKept(s, e);
    OrderKept(s, e);
  }

  lemma InitialInv(s: State)
    requires Initial(s)
    ensures Inv(s)
  {
    assert Registered(s.open) == {};
  }

  lemma {:induction false} InvAlways(s: State, es: seq<Event>)
    requires Inv(s) && Runs(s, es)
    ensures Inv(After(s, es))
    decreases |es|
  {
    hide Inv, Next, Enabled;
    if es != [] {
      InvKept(s, es[0]);
      InvAlways(Next(s, es[0]), es[1..]);
    }
  }

  // What holds whenever control is back at epoll_wait.
  ghost predicate Settled(s: State) {
    && (forall fd :: fd in s.open ==> s.open[fd].registered && (Ready(s.open[fd].socket) ==> s.open[fd].edge))
    && s.numClients == |s.open|
  }

  lemma WaitingIsSettled(s: State)
    requires Remembered(s) && CountInv(s) && s.control.Waiting?
    ensures Settled(s)
  {
    assert Registered(s.open) == s.open.Keys;
  }

  // Whatever arrives while the server works through a batch: each time control returns to epoll_wait, every
  // open client is registered and counted, and one with unread bytes or a departed peer has its edge
  // queued; a client is closed only once it was reset or all it sent has been read; and connections are
  // accepted in order, their bytes read without loss.
  lemma EdgesNeverLost(s: State, es: seq<Event>)
    requires Initial(s) && Runs(s, es)
    ensures After(s, es).control.Waiting? ==> Settled(After(s, es))
    ensures CloseInv(After(s, es)) && BytesInv(After(s, es)) && OrderInv(After(s, es))
  {
    hide Remembered, CountInv, BatchInv, CloseInv, BytesInv, OrderInv, Settled, Runs, After;
    InitialInv(s);
    InvAlways(s, es);
    if After(s, es).control.Waiting? {
      WaitingIsSettled(After(s, es));
    }
  }

  // ---------------------------------------------------------------- one pass over a batch

  predicate ByServer(e: Event) {
    !(e.Connect? || e.QueuedArrives? || e.QueuedLeaves? || e.Arrives? || e.Leaves?)
  }

  // Sources still to be served, counting the one at work, with the stage it has reached.
  function Outer(s: State): nat {
    match s.control
    case Waiting => 0
    case Serving(todo) => 3 * |todo| + 1
    case Uncounting(todo) => 3 * |todo| + 2
    case _ => 3 * |s.control.todo| + 3
  }

  // Work left on the source at hand.
  function Inner(s: State): nat {
    match s.control
    case Accepting(_) => 3 * |s.backlog|
    case Counting(_) => 3 * |s.backlog| + 1
    case Adding(_, _) => 3 * |s.backlog| + 2
    case Draining(fd, _) => if fd in s.open then s.open[fd].socket.unread + 1 else 0
    case _ => 0
  }

  // If the peers keep still, every step of the server brings it nearer to epoll_wait, and it always has one.
  lemma PassProgresses(s: State, e: Event)
    requires BatchInv(s) && ByServer(e) && !e.Wait? && Enabled(s, e)
    ensures Outer(Next(s, e)) < Outer(s) || (Outer(Next(s, e)) == Outer(s) && Inner(Next(s, e)) < Inner(s))
  {
    hide BatchInv;
  }

  // Any descriptor above all open ones is free.
  lemma {:induction false} FreshAbove(fds: set<nat>) returns (fd: nat)
    ensures forall g :: g in fds ==> g < fd
    decreases fds
  {
    fd := 0;
    if g :| g in fds {
      var rest := FreshAbove(fds - {g});
      fd := if rest <= g then g + 1 else rest;
      assert forall h :: h in fds ==> h == g || h in fds - {g};
    }
  }

  lemma PassNeverStuck(s: State) returns (e: Event)
    requires BatchInv(s) && CountInv(s)
    ensures ByServer(e) && Enabled(s, e) && !e.AcceptError?
  {
    hide NoRepeats;
    match s.control
    case Waiting => e := Wait([]); EmptyBatch();
    case Serving(_) => e := Take;
    case Accepting(_) =>
      var fd := FreshAbove(s.open.Keys);
      e := if s.backlog == [] then AcceptEmpty else Accept(fd);
    case Adding(_, _) => e := Register;
    case Counting(_) => e := Count;
    case Draining(fd, _) =>
      var socket := s.open[fd].socket;
      e := if socket.peer.Reset? then ReadEnd
           else if socket.unread > 0 then ReadSome(1)
           else if socket.peer.Closed? then ReadEnd
           else ReadNothing;
    case Closing(_, _) => e := Close;
    case Uncounting(_) => e := Uncount;
  }

  // ---------------------------------------------------------------- what a pass does

  // A connection that was queued when the pass began is still queued, or open under a descriptor the pass
  // will not touch any more.
  predicate OpenAt(s: State, fd: nat, id: nat) {
    && fd in s.open && s.open[fd].socket.id == id
    && Client(fd) !in Todo(s.control) && !InHand(s.control, fd)
  }

  ghost predicate Placed(s: State, id: nat) { Oldest(s) <= id || exists fd :: OpenAt(s, fd, id) }

  // The pass has not come to the listener yet, or is at it, or has left no connection below `bound` queued.
  predicate ListenerAhead(s: State, bound: nat) {
    || Listener in Todo(s.control) || s.control.Accepting? || s.control.Adding? || s.control.Counting?
    || bound <= Oldest(s)
  }

  lemma StaysOpen(s: State, e: Event, fd: nat, id: nat)
    requires OpenAt(s, fd, id) && BatchInv(s) && Enabled(s, e) && !e.Wait?
    ensures OpenAt(Next(s, e), fd, id)
  {
    hide NoRepeats, Reportable;
  }

  lemma PlacedKept(s: State, e: Event, id: nat)
    requires Placed(s, id) && id < s.connects && BatchInv(s) && OrderInv(s) && Enabled(s, e) && !e.Wait?
    ensures Placed(Next(s, e), id)
  {
    hide NoRepeats, Reportable, OpenAt, OrderInv, Happened, Delivered, Arrived, Taken;
    if fd :| OpenAt(s, fd, id) {
      StaysOpen(s, e, fd, id);
    } else if e.Accept? {
      AcceptedOpens(s, e.fd, id);
    }
  }

  lemma AcceptedOpens(s: State, fd: nat, id: nat)
    requires BatchInv(s) && OrderInv(s) && Enabled(s, Accept(fd))
    ensures id == Oldest(s) ==> OpenAt(Next(s, Accept(fd)), fd, id)
    ensures Oldest(Next(s, Accept(fd))) == Oldest(s) + 1
  {
    hide NoRepeats, Reportable;
  }

  lemma ListenerKept(s: State, e: Event, bound: nat)
    requires ListenerAhead(s, bound) && bound <= s.connects && Enabled(s, e) && !e.Wait? && !e.AcceptError?
    ensures ListenerAhead(Next(s, e), bound) && bound <= Next(s, e).connects
  {
    hide Reportable;
  }

  // The events of one pass: no second epoll_wait.
  predicate OnePass(es: seq<Event>) { forall e :: e in es ==> !e.Wait? }

  lemma {:induction false} PlacedThrough(s: State, es: seq<Event>, id: nat)
    requires Inv(s) && Runs(s, es) && OnePass(es) && Placed(s, id) && id < s.connects
    ensures Placed(After(s, es), id)
    decreases |es|
  {
    hide Remembered, BatchInv, CountInv, CloseInv, BytesInv, OrderInv, Placed, Enabled;
    if es != [] {
      assert es[0] in es && forall e :: e in es[1..] ==> e in es;
      InvKept(s, es[0]);
      PlacedKept(s, es[0], id);
      ConnectsGrow(s, es[0]);
      hide Inv, Next;
      PlacedThrough(Next(s, es[0]), es[1..], id);
    }
  }

  lemma ConnectsGrow(s: State, e: Event)
    requires Enabled(s, e)
    ensures s.connects <= Next(s, e).connects
  {
  }

  lemma {:induction false} ListenerThrough(s: State, es: seq<Event>, bound: nat)
    requires Runs(s, es) && OnePass(es) && AcceptError !in es && ListenerAhead(s, bound) && bound <= s.connects
    ensures ListenerAhead(After(s, es), bound)
    decreases |es|
  {
    hide ListenerAhead, Next, Enabled;
    if es != [] {
      assert es[0] in es && forall e :: e in es[1..] ==> e in es;
      ListenerKept(s, es[0], bound);
      ListenerThrough(Next(s, es[0]), es[1..], bound);
    }
  }

  // A client of the batch is still ahead, or in hand, or the pass has read all it had sent by then; one that
  // had left is closed.
  predicate Served(s: State, fd: nat, id: nat, sent: nat, left: bool) {
    && (fd in s.open && s.open[fd].socket.id == id ==>
          s.open[fd].socket.sent >= sent && (left ==> !s.open[fd].socket.peer.Connected?))
    && (Client(fd) in Todo(s.control) || InHand(s.control, fd)
        || (fd in s.open && s.open[fd].socket.id == id ==> s.open[fd].socket.received >= sent && !left))
  }

  lemma ServedKept(s: State, e: Event, fd: nat, id: nat, sent: nat, left: bool)
    requires Served(s, fd, id, sent, left) && id < Oldest(s) && BytesInv(s) && OrderInv(s) && Enabled(s, e) && !e.Wait?
    ensures Served(Next(s, e), fd, id, sent, left) && id < Oldest(Next(s, e))
  {
    hide Reportable;
  }

  lemma {:induction false} ServedThrough(s: State, es: seq<Event>, fd: nat, id: nat, sent: nat, left: bool)
    requires Inv(s) && Runs(s, es) && OnePass(es) && Served(s, fd, id, sent, left) && id < Oldest(s)
    ensures Served(After(s, es), fd, id, sent, left)
    decreases |es|
  {
    hide Remembered, BatchInv, CountInv, CloseInv, BytesInv, OrderInv, Served, Enabled, Next;
    if es != [] {
      assert es[0] in es && forall e :: e in es[1..] ==> e in es;
      InvKept(s, es[0]);
      ServedKept(s, es[0], fd, id, sent, left);
      ServedThrough(Next(s, es[0]), es[1..], fd, id, sent, left);
    }
  }

  // The connection is open, registered and counted, and no longer in the accept queue.
  ghost predicate TakenIn(s: State, id: nat) {
    && (exists fd :: fd in s.open && s.open[fd].socket.id == id && s.open[fd].registered)
    && (forall i :: 0 <= i < |s.backlog| ==> s.backlog[i].id != id)
    && s.numClients == |s.open|
  }

  lemma PlacedIsTakenIn(s: State, id: nat, bound: nat)
    requires Placed(s, id) && id < bound && ListenerAhead(s, bound) && OrderInv(s) && Settled(s) && s.control.Waiting?
    ensures TakenIn(s, id)
  {
    var fd :| OpenAt(s, fd, id);
    assert fd in s.open && s.open[fd].socket.id == id && s.open[fd].registered;
  }

  // One pass, from an epoll_wait to the next, whatever the peers do meanwhile. If the batch holds the
  // listener and no accept fails while something is queued, every connection that was queued at the wait
  // has been taken in.
  lemma PassAccepts(s: State, batch: seq<Source>, es: seq<Event>, i: nat)
    requires Inv(s) && Enabled(s, Wait(batch)) && Runs(Next(s, Wait(batch)), es) && OnePass(es)
    requires After(Next(s, Wait(batch)), es).control.Waiting?
    requires Listener in batch && AcceptError !in es && i < |s.backlog|
    ensures TakenIn(After(Next(s, Wait(batch)), es), s.backlog[i].id)
  {
    hide Remembered, BatchInv, CountInv, CloseInv, BytesInv, Settled, Runs, After, TakenIn;
    var first, id := Next(s, Wait(batch)), s.backlog[i].id;
    InvKept(s, Wait(batch));
    PlacedThrough(first, es, id);
    ListenerThrough(first, es, s.connects);
    InvAlways(first, es);
    WaitingIsSettled(After(first, es));
    hide Inv, OrderInv, Placed, Reportable;
    LastOfPass(After(first, es), id, s.connects);
  }

  lemma LastOfPass(s: State, id: nat, bound: nat)
    requires Inv(s) && Placed(s, id) && id < bound && ListenerAhead(s, bound) && Settled(s) && s.control.Waiting?
    ensures TakenIn(s, id)
  {
    hide Remembered, BatchInv, CountInv, CloseInv, BytesInv;
    PlacedIsTakenIn(s, id, bound);
  }

  // A client of the batch has been read until there was nothing more: all it had sent at the wait has been
  // received if it is still open, and if its peer had left by then it has been closed.
  lemma PassDrains(s: State, batch: seq<Source>, es: seq<Event>, fd: nat)
    requires Inv(s) && Enabled(s, Wait(batch)) && Runs(Next(s, Wait(batch)), es) && OnePass(es)
    requires After(Next(s, Wait(batch)), es).control.Waiting?
    requires Client(fd) in batch
    ensures fd in s.open
    ensures
      var t, socket := After(Next(s, Wait(batch)), es), s.open[fd].socket;
      fd in t.open && t.open[fd].socket.id == socket.id ==>
        t.open[fd].socket.received >= socket.sent && socket.peer.Connected?
  {
    hide Remembered, BatchInv, CountInv, CloseInv, BytesInv, Runs, After;
    var first, socket := Next(s, Wait(batch)), s.open[fd].socket;
    InvKept(s, Wait(batch));
    ServedThrough(first, es, fd, socket.id, socket.sent, !socket.peer.Connected?);
  }

  // The registered connection under fd has no edge queued.
  predicate Quiet(s: State, fd: nat, id: nat) {
    fd in s.open && s.open[fd].socket.id == id ==> s.open[fd].registered && !s.open[fd].edge
  }

  lemma QuietKept(s: State, e: Event, fd: nat, id: nat)
    requires Quiet(s, fd, id) && id < Oldest(s) && OrderInv(s) && CountInv(s)
    requires Enabled(s, e) && ByServer(e) && !e.Wait?
    ensures Quiet(Next(s, e), fd, id) && id < Oldest(Next(s, e))
  {
    hide Reportable, Counted;
  }

  lemma {:induction false} QuietThrough(s: State, es: seq<Event>, fd: nat, id: nat)
    requires Inv(s) && Runs(s, es) && OnePass(es) && (forall e :: e in es ==> ByServer(e))
    requires Quiet(s, fd, id) && id < Oldest(s)
    ensures Quiet(After(s, es), fd, id)
    decreases |es|
  {
    hide Remembered, BatchInv, CountInv, CloseInv, BytesInv, OrderInv, Quiet, Enabled, Next, ByServer;
    if es != [] {
      assert es[0] in es && forall e :: e in es[1..] ==> e in es;
      InvKept(s, es[0]);
      QuietKept(s, es[0], fd, id);
      QuietThrough(Next(s, es[0]), es[1..], fd, id);
    }
  }

  // An edge is handed out once: if no peer stirs, a client of the batch is not reported again after the pass.
  lemma ReportedOnce(s: State, batch: seq<Source>, es: seq<Event>, fd: nat, again: seq<Source>)
    requires Inv(s) && Enabled(s, Wait(batch)) && Runs(Next(s, Wait(batch)), es) && OnePass(es)
    requires (forall e :: e in es ==> ByServer(e)) && Client(fd) in batch
    ensures fd in s.open
    ensures
      var t := After(Next(s, Wait(batch)), es);
      Enabled(t, Wait(again)) && Client(fd) in again ==> t.open[fd].socket.id != s.open[fd].socket.id
  {
    hide Remembered, BatchInv, CountInv, CloseInv, BytesInv, Runs, After, ByServer, OnePass;
    InvKept(s, Wait(batch));
    QuietThrough(Next(s, Wait(batch)), es, fd, s.open[fd].socket.id);
  }

  // ---------------------------------------------------------------- a connection from beginning to end

  const NOTHING := State(map[], [], 0, 0, Waiting)

  lemma {:induction false} Extend(s: State, es: seq<Event>, e: Event)
    requires Runs(s, es) && Enabled(After(s, es), e)
    ensures Runs(s, es + [e]) && After(s, es + [e]) == Next(After(s, es), e)
    decreases |es|
  {
    hide Next, Enabled;
    if es == [] {
      assert es + [e] == [e];
      assert [e][1..] == [];
    } else {
      assert (es + [e])[1..] == es[1..] + [e];
      Extend(Next(s, es[0]), es[1..], e);
    }
  }

  lemma NoEvents(s: State)
    ensures Runs(s, []) && After(s, []) == s
  {
  }

  // A client of whom 5 bytes came before the accept, at descriptor 7.
  function Open(edge: bool, received: nat, unread: nat, peer: Peer): map<nat, Entry> {
    map[7 := Entry(Socket(0, received + unread, received, unread, peer), true, edge)]
  }

  lemma NoneDelivered(batch: seq<Source>)
    ensures Delivered(map[], batch) == map[]
  {
  }

  // It has connected and sent 5 bytes, and waits to be accepted.
  const QUEUED := State(map[], [Socket(0, 5, 0, 5, Connected)], 1, 0, Waiting)

  lemma Connects() returns (es: seq<Event>)
    ensures Runs(NOTHING, es) && After(NOTHING, es) == QUEUED
  {
    hide Runs, After;
    es := [];
    NoEvents(NOTHING);
    Extend(NOTHING, es, Connect); es := es + [Connect];
    assert After(NOTHING, es) == State(map[], [Socket(0, 0, 0, 0, Connected)], 1, 0, Waiting);
    Extend(NOTHING, es, QueuedArrives(0, 5)); es := es + [QueuedArrives(0, 5)];
  }

  lemma IsReported()
    ensures Enabled(QUEUED, Wait([Listener]))
    ensures Next(QUEUED, Wait([Listener])) == QUEUED.(control := Serving([Listener]))
  {
    NoneDelivered([Listener]);
  }

  lemma IsAccepted() returns (es: seq<Event>)
    ensures Runs(NOTHING, es)
    ensures After(NOTHING, es)
      == State(map[7 := Entry(Socket(0, 5, 0, 5, Connected), false, false)], [], 1, 0, Adding(7, []))
  {
    hide Runs, After, Delivered, Reportable;
    es := Connects();
    IsReported();
    Extend(NOTHING, es, Wait([Listener])); es := es + [Wait([Listener])];
    assert [Listener][1..] == [];
    Extend(NOTHING, es, Take); es := es + [Take];
    assert After(NOTHING, es) == QUEUED.(control := Accepting([]));
    Extend(NOTHING, es, Accept(7)); es := es + [Accept(7)];
  }

  lemma Joins() returns (es: seq<Event>)
    ensures Runs(NOTHING, es) && After(NOTHING, es) == State(Open(true, 0, 5, Connected), [], 1, 1, Waiting)
  {
    hide Runs, After;
    es := IsAccepted();
    Extend(NOTHING, es, Register); es := es + [Register];
    Extend(NOTHING, es, Count); es := es + [Count];
    Extend(NOTHING, es, AcceptEmpty); es := es + [AcceptEmpty];
    Extend(NOTHING, es, Take); es := es + [Take];
  }

  lemma Talks() returns (es: seq<Event>)
    ensures Runs(NOTHING, es) && After(NOTHING, es) == State(Open(true, 5, 3, Closed), [], 1, 1, Waiting)
  {
    hide Runs, After;
    es := Joins();
    Extend(NOTHING, es, Wait([Client(7)])); es := es + [Wait([Client(7)])];
    Extend(NOTHING, es, Take); es := es + [Take];
    Extend(NOTHING, es, ReadSome(5)); es := es + [ReadSome(5)];
    Extend(NOTHING, es, ReadNothing); es := es + [ReadNothing];
    Extend(NOTHING, es, Take); es := es + [Take];
    Extend(NOTHING, es, Arrives(7, 3)); es := es + [Arrives(7, 3)];
    Extend(NOTHING, es, Leaves(7, Closed)); es := es + [Leaves(7, Closed)];
  }

  // A run in which a client connects, is accepted, read, read to its end, and closed.
  lemma Conversation() returns (es: seq<Event>)
    ensures Initial(NOTHING) && Runs(NOTHING, es) && After(NOTHING, es) == State(map[], [], 1, 0, Waiting)
  {
    hide Runs, After;
    es := Talks();
    Extend(NOTHING, es, Wait([Client(7)])); es := es + [Wait([Client(7)])];
    Extend(NOTHING, es, Take); es := es + [Take];
    Extend(NOTHING, es, ReadSome(3)); es := es + [ReadSome(3)];
    Extend(NOTHING, es, ReadEnd); es := es + [ReadEnd];
    Extend(NOTHING, es, Close); es := es + [Close];
    Extend(NOTHING, es, Uncount); es := es + [Uncount];
    Extend(NOTHING, es, Take); es := es + [Take];
  }
}

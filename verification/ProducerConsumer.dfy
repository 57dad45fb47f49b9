// producer_consumer.c as a transition system: any number of producers and consumers, one mutex, the
// condition variables not_full and not_empty (signal only), and spurious wakeups.
module ProducerConsumer {
  import opened Sums
  import opened Ring

  // Where a producer or consumer is in its loop; n counts the items it has put or taken.
  datatype Thread =
    | Idle(n: nat)                    // about to lock the mutex, or finished
    | Checking(n: nat, woken: bool)   // holds it; about to test the wait condition
    | Waiting(n: nat)
    | Woken(n: nat)                   // left the wait set, needs the mutex back
    | Signalling(n: nat)              // holds the mutex, item moved
    | Unlocking(n: nat)

  datatype Owner = Free | Producer(i: nat) | Consumer(j: nat)

  datatype State = State(mutex: Owner, ring: Ring, ps: seq<Thread>, cs: seq<Thread>,
                         produced: seq<int>, consumed: seq<int>)

  datatype Event =
    | Produce(i: nat, v: nat)   // one step of producer i; v is the consumer its signal wakes
    | Consume(j: nat, v: nat)   // one step of consumer j; v is the producer its signal wakes
    | WakeProducer(i: nat)      // spurious wakeups
    | WakeConsumer(j: nat)

  // The int a producer stores for its n-th item.
  const BASE := 1000

  function ItemValue(id: nat, n: nat): int { id * BASE + n }

  predicate WaitsAt(ts: seq<Thread>, v: nat) { v < |ts| && ts[v].Waiting? }

  predicate NoneWaits(ts: seq<Thread>) { forall i :: 0 <= i < |ts| ==> !ts[i].Waiting? }

  // pthread_cond_signal: one waiting thread, if there is one, moves to the mutex queue.
  function Signal(ts: seq<Thread>, v: nat): (r: seq<Thread>)
    ensures |r| == |ts|
  {
    if WaitsAt(ts, v) then ts[v := Woken(ts[v].n)] else ts
  }

  // A thread can take its next step; `others` is the wait set it signals.
  predicate Ready(t: Thread, mutex: Owner, items: nat, others: seq<Thread>, v: nat) {
    match t
    case Idle(n) => n < items && mutex.Free?
    case Woken(_) => mutex.Free?
    case Waiting(_) => false
    case Signalling(_) => WaitsAt(others, v) || NoneWaits(others)
    case _ => true
  }

  predicate Enabled(s: State, items: nat, e: Event) {
    match e
    case Produce(i, v) => Valid(s.ring) && i < |s.ps| && Ready(s.ps[i], s.mutex, items, s.cs, v)
    case Consume(j, v) => Valid(s.ring) && j < |s.cs| && Ready(s.cs[j], s.mutex, items, s.ps, v)
    case WakeProducer(i) => WaitsAt(s.ps, i)
    case WakeConsumer(j) => WaitsAt(s.cs, j)
  }

  function ProducerStep(s: State, i: nat, v: nat): State
    requires Valid(s.ring) && i < |s.ps| && !s.ps[i].Waiting?
  {
    var t := s.ps[i];
    match t
    case Idle(n) => s.(mutex := Producer(i), ps := s.ps[i := Checking(n, false)])
    case Woken(n) => s.(mutex := Producer(i), ps := s.ps[i := Checking(n, true)])
    case Checking(n, _) =>
      if s.ring.count == |s.ring.buffer| then s.(mutex := Free, ps := s.ps[i := Waiting(n)])
      else
        var item := ItemValue(i, n);
        s.(ring := Put(s.ring, item), produced := s.produced + [item], ps := s.ps[i := Signalling(n + 1)])
    case Signalling(n) => s.(ps := s.ps[i := Unlocking(n)], cs := Signal(s.cs, v))
    case Unlocking(n) => s.(mutex := Free, ps := s.ps[i := Idle(n)])
  }

  function ConsumerStep(s: State, j: nat, v: nat): State
    requires Valid(s.ring) && j < |s.cs| && !s.cs[j].Waiting?
  {
    var t := s.cs[j];
    match t
    case Idle(n) => s.(mutex := Consumer(j), cs := s.cs[j := Checking(n, false)])
    case Woken(n) => s.(mutex := Consumer(j), cs := s.cs[j := Checking(n, true)])
    case Checking(n, _) =>
      if s.ring.count == 0 then s.(mutex := Free, cs := s.cs[j := Waiting(n)])
      else
        var (ring, item) := Take(s.ring);
        s.(ring := ring, consumed := s.consumed + [item], cs := s.cs[j := Signalling(n + 1)])
    case Signalling(n) => s.(cs := s.cs[j := Unlocking(n)], ps := Signal(s.ps, v))
    case Unlocking(n) => s.(mutex := Free, cs := s.cs[j := Idle(n)])
  }

  function Next(s: State, items: nat, e: Event): State
    requires Enabled(s, items, e)
  {
    match e
    case Produce(i, v) => ProducerStep(s, i, v)
    case Consume(j, v) => ConsumerStep(s, j, v)
    case WakeProducer(i) => s.(ps := Signal(s.ps, i))
    case WakeConsumer(j) => s.(cs := Signal(s.cs, j))
  }

  predicate Initial(s: State) {
    && s.mutex.Free? && 0 < |s.ring.buffer| && s.ring == Empty(|s.ring.buffer|)
    && (forall i :: 0 <= i < |s.ps| ==> s.ps[i] == Idle(0))
    && (forall j :: 0 <= j < |s.cs| ==> s.cs[j] == Idle(0))
    && s.produced == [] && s.consumed == []
  }

  predicate Runs(s: State, items: nat, es: seq<Event>)
    decreases |es|
  {
    es == [] || (Enabled(s, items, es[0]) && Runs(Next(s, items, es[0]), items, es[1..]))
  }

  function After(s: State, items: nat, es: seq<Event>): State
    requires Runs(s, items, es)
    decreases |es|
  {
    if es == [] then s else After(Next(s, items, es[0]), items, es[1..])
  }

  // ---------------------------------------------------------------- invariant

  predicate Holds(t: Thread) { t.Checking? || t.Signalling? || t.Unlocking? }

  predicate MutexInv(s: State) {
    && (forall i: nat :: i < |s.ps| ==> (Holds(s.ps[i]) <==> s.mutex == Producer(i)))
    && (forall j: nat :: j < |s.cs| ==> (Holds(s.cs[j]) <==> s.mutex == Consumer(j)))
    && (s.mutex.Producer? ==> s.mutex.i < |s.ps|)
    && (s.mutex.Consumer? ==> s.mutex.j < |s.cs|)
  }

  // Everything taken out, followed by what is in the ring, is everything put in.
  predicate FifoInv(s: State) {
    Valid(s.ring) && s.produced == s.consumed + Window(s.ring)
  }

  function Index(t: Thread): nat { t.n }

  // Threads move only their own items, and stop at their quota.
  predicate InQuota(ts: seq<Thread>, items: nat) {
    forall i :: 0 <= i < |ts| ==>
      ts[i].n <= items && (ts[i].Checking? || ts[i].Waiting? || ts[i].Woken? ==> ts[i].n < items)
  }

  predicate QuotaInv(s: State, items: nat) {
    && InQuota(s.ps, items) && InQuota(s.cs, items)
    && |s.produced| == Sum(Index, s.ps) && |s.consumed| == Sum(Index, s.cs)
  }

  // The items of one producer, in the order they occur.
  function ItemsOf(s: seq<int>, id: nat): seq<int> {
    if s == [] then []
    else ItemsOf(s[..|s| - 1], id) + if s[|s| - 1] / BASE == id then [s[|s| - 1]] else []
  }

  function FirstItems(id: nat, n: nat): (r: seq<int>)
    ensures |r| == n && forall k :: 0 <= k < n ==> r[k] == 1000 * id + k
  {
    if n == 0 then [] else FirstItems(id, n - 1) + [ItemValue(id, n - 1)]
  }

  // Each producer's items went in once each, in order.
  predicate OrderInv(s: State) {
    forall id: nat :: id < |s.ps| ==> ItemsOf(s.produced, id) == FirstItems(id, s.ps[id].n)
  }

  function Waits(t: Thread): nat { if t.Waiting? then 1 else 0 }

  function Signalled(t: Thread): nat { if t.Woken? || (t.Checking? && t.woken) then 1 else 0 }

  predicate PendingFromConsumer(s: State) {
    s.mutex.Consumer? && s.mutex.j < |s.cs| && s.cs[s.mutex.j].Signalling?
  }

  predicate PendingFromProducer(s: State) {
    s.mutex.Producer? && s.mutex.i < |s.ps| && s.ps[s.mutex.i].Signalling?
  }

  // No lost wakeup: while a thread waits, enough others have been signalled for the room there is.
  predicate Covered(ts: seq<Thread>, pending: bool, room: int) {
    Sum(Waits, ts) == 0 || Sum(Signalled, ts) + (if pending then 1 else 0) >= room
  }

  predicate WakeInv(s: State) {
    && Covered(s.ps, PendingFromConsumer(s), |s.ring.buffer| - s.ring.count)
    && Covered(s.cs, PendingFromProducer(s), s.ring.count)
  }

  predicate Inv(s: State, items: nat) {
    MutexInv(s) && FifoInv(s) && QuotaInv(s, items) && WakeInv(s)
  }

  // ---------------------------------------------------------------- the invariant is kept

  lemma MutexKeptByThread(s: State, items: nat, e: Event)
    requires MutexInv(s) && Enabled(s, items, e) && Driven(e)
    ensures MutexInv(Next(s, items, e))
  {
    hide Put, Take, Valid, ItemValue, NoneWaits;
  }

  lemma MutexKept(s: State, items: nat, e: Event)
    requires MutexInv(s) && Enabled(s, items, e)
    ensures MutexInv(Next(s, items, e))
  {
    hide ProducerStep, ConsumerStep, Ready;
    if Driven(e) {
      MutexKeptByThread(s, items, e);
    }
  }

  lemma FifoKept(s: State, items: nat, e: Event)
    requires FifoInv(s) && Enabled(s, items, e)
    ensures FifoInv(Next(s, items, e))
  {
    hide Window, Valid, Put, Take;
    if e.Produce? && s.ps[e.i].Checking? && s.ring.count != |s.ring.buffer| {
      ValidCount(s.ring);
      var item := ItemValue(e.i, s.ps[e.i].n);
      PutAppends(s.ring, item);
      assert s.consumed + Window(s.ring) + [item] == s.consumed + (Window(s.ring) + [item]);
    } else if e.Consume? && s.cs[e.j].Checking? && s.ring.count != 0 {
      TakeDrops(s.ring);
      var (ring, item) := Take(s.ring);
      assert s.consumed + ([item] + Window(ring)) == s.consumed + [item] + Window(ring);
    }
  }

  lemma ValidCount(r: Ring)
    requires Valid(r)
    ensures r.count <= |r.buffer|
  {
  }

  lemma SignalKeeps(ts: seq<Thread>, v: nat)
    ensures Sum(Index, Signal(ts, v)) == Sum(Index, ts)
    ensures Sum(Waits, ts) == 0 ==> Signal(ts, v) == ts
    ensures WaitsAt(ts, v) ==> Sum(Waits, Signal(ts, v)) == Sum(Waits, ts) - 1
                               && Sum(Signalled, Signal(ts, v)) == Sum(Signalled, ts) + 1
    ensures forall k :: 0 <= k < |ts| ==> Signal(ts, v)[k].n == ts[k].n
  {
    SumZero(Waits, ts);
    if WaitsAt(ts, v) {
      SumUpdate(Index, ts, v, Woken(ts[v].n));
      SumUpdate(Waits, ts, v, Woken(ts[v].n));
      SumUpdate(Signalled, ts, v, Woken(ts[v].n));
    }
  }

  lemma SignalInQuota(ts: seq<Thread>, v: nat, items: nat)
    requires InQuota(ts, items)
    ensures InQuota(Signal(ts, v), items)
  {
  }

  // The own thread moves, and counts exactly the items it moved; the other side is signalled at most.
  lemma ProducerShape(s: State, items: nat, i: nat, v: nat)
    requires Enabled(s, items, Produce(i, v)) && InQuota(s.ps, items)
    ensures var t := ProducerStep(s, i, v);
            && t.ps == s.ps[i := t.ps[i]] && InQuota(t.ps, items)
            && (t.cs == s.cs || t.cs == Signal(s.cs, v))
            && |t.produced| + s.ps[i].n == |s.produced| + t.ps[i].n && t.consumed == s.consumed
  {
    hide Put, Valid, ItemValue, Signal;
  }

  lemma ConsumerShape(s: State, items: nat, j: nat, v: nat)
    requires Enabled(s, items, Consume(j, v)) && InQuota(s.cs, items)
    ensures var t := ConsumerStep(s, j, v);
            && t.cs == s.cs[j := t.cs[j]] && InQuota(t.cs, items)
            && (t.ps == s.ps || t.ps == Signal(s.ps, v))
            && |t.consumed| + s.cs[j].n == |s.consumed| + t.cs[j].n && t.produced == s.produced
  {
    hide Take, Valid, Signal;
  }

  lemma QuotaKept(s: State, items: nat, e: Event)
    requires QuotaInv(s, items) && Enabled(s, items, e)
    ensures QuotaInv(Next(s, items, e), items)
  {
    hide ProducerStep, ConsumerStep, InQuota, Valid, Signal;
    match e {
      case Produce(i, v) =>
        ProducerShape(s, items, i, v);
        SumUpdate(Index, s.ps, i, ProducerStep(s, i, v).ps[i]);
        SignalKeeps(s.cs, v);
        SignalInQuota(s.cs, v, items);
      case Consume(j, v) =>
        ConsumerShape(s, items, j, v);
        SumUpdate(Index, s.cs, j, ConsumerStep(s, j, v).cs[j]);
        SignalKeeps(s.ps, v);
        SignalInQuota(s.ps, v, items);
      case WakeProducer(i) =>
        SignalKeeps(s.ps, i);
        SignalInQuota(s.ps, i, items);
      case WakeConsumer(j) =>
        SignalKeeps(s.cs, j);
        SignalInQuota(s.cs, j, items);
    }
  }

  lemma ItemValueInverse(id: nat, n: nat)
    requires n < BASE
    ensures ItemValue(id, n) / BASE == id
  {
  }

  predicate Puts(s: State, e: Event) {
    e.Produce? && e.i < |s.ps| && s.ps[e.i].Checking? && s.ring.count != |s.ring.buffer|
  }

  // Only a put changes what has been produced and how far its producer is.
  lemma OrderShape(s: State, items: nat, e: Event)
    requires Enabled(s, items, e)
    ensures var t := Next(s, items, e);
            && |t.ps| == |s.ps|
            && t.produced == (if Puts(s, e) then s.produced + [ItemValue(e.i, s.ps[e.i].n)] else s.produced)
            && forall id :: 0 <= id < |s.ps| ==>
                 t.ps[id].n == if Puts(s, e) && id == e.i then s.ps[id].n + 1 else s.ps[id].n
  {
    hide Put, Take, Valid, ItemValue;
  }

  lemma ItemsOfPut(produced: seq<int>, i: nat, n: nat, id: nat)
    requires n < BASE
    ensures ItemsOf(produced + [ItemValue(i, n)], id) ==
      if id == i then ItemsOf(produced, id) + [ItemValue(i, n)] else ItemsOf(produced, id)
  {
    hide ItemValue;
    ItemValueInverse(i, n);
    var item := ItemValue(i, n);
    assert (produced + [item])[..|produced|] == produced;
    assert ItemsOf(produced, id) + [] == ItemsOf(produced, id);
  }

  lemma OrderKept(s: State, items: nat, e: Event)
    requires OrderInv(s) && QuotaInv(s, items) && items <= BASE && Enabled(s, items, e)
    ensures OrderInv(Next(s, items, e))
  {
    hide ItemValue, ItemsOf, Enabled, Next;
    OrderShape(s, items, e);
    if Puts(s, e) {
      forall id: nat | id < |s.ps|
        ensures ItemsOf(Next(s, items, e).produced, id) == FirstItems(id, Next(s, items, e).ps[id].n)
      {
        ItemsOfPut(s.produced, e.i, s.ps[e.i].n, id);
      }
    }
  }

  // How a step of one thread moves the two wake-up counts of its own side.
  lemma OwnCounts(ts: seq<Thread>, i: nat, t: Thread)
    requires i < |ts|
    ensures Sum(Waits, ts[i := t]) + Waits(ts[i]) == Sum(Waits, ts) + Waits(t)
    ensures Sum(Signalled, ts[i := t]) + Signalled(ts[i]) == Sum(Signalled, ts) + Signalled(t)
  {
    SumUpdate(Waits, ts, i, t);
    SumUpdate(Signalled, ts, i, t);
  }

  lemma PutSize(r: Ring, x: int)
    requires Valid(r)
    ensures |Put(r, x).buffer| == |r.buffer|
  {
  }

  lemma NoneWaitsSum(ts: seq<Thread>)
    requires NoneWaits(ts)
    ensures Sum(Waits, ts) == 0
  {
    SumZero(Waits, ts);
  }

  lemma WakeKeptByProducer(s: State, items: nat, i: nat, v: nat)
    requires WakeInv(s) && MutexInv(s) && Enabled(s, items, Produce(i, v))
    ensures WakeInv(ProducerStep(s, i, v))
  {
    hide Valid, ItemValue, NoneWaits;
    var t := ProducerStep(s, i, v);
    PutSize(s.ring, ItemValue(i, s.ps[i].n));
    OwnCounts(s.ps, i, t.ps[i]);
    SignalKeeps(s.cs, v);
    if NoneWaits(s.cs) { NoneWaitsSum(s.cs); }
  }

  lemma WakeKeptByConsumer(s: State, items: nat, j: nat, v: nat)
    requires WakeInv(s) && MutexInv(s) && Enabled(s, items, Consume(j, v))
    ensures WakeInv(ConsumerStep(s, j, v))
  {
    hide Valid, NoneWaits;
    var t := ConsumerStep(s, j, v);
    OwnCounts(s.cs, j, t.cs[j]);
    SignalKeeps(s.ps, v);
    if NoneWaits(s.ps) { NoneWaitsSum(s.ps); }
  }

  lemma WakeKeptByWakeup(s: State, items: nat, e: Event)
    requires WakeInv(s) && MutexInv(s) && Enabled(s, items, e) && (e.WakeProducer? || e.WakeConsumer?)
    ensures WakeInv(Next(s, items, e))
  {
    if e.WakeProducer? {
      SignalKeeps(s.ps, e.i);
    } else {
      SignalKeeps(s.cs, e.j);
    }
  }

  lemma InvKept(s: State, items: nat, e: Event)
    requires Inv(s, items) && Enabled(s, items, e)
    ensures Inv(Next(s, items, e), items)
  {
    hide MutexInv, FifoInv, QuotaInv, WakeInv, ProducerStep, ConsumerStep;
    MutexKept(s, items, e);
    FifoKept(s, items, e);
    QuotaKept(s, items, e);
    match e {
      case Produce(i, v) => WakeKeptByProducer(s, items, i, v);
      case Consume(j, v) => WakeKeptByConsumer(s, items, j, v);
      case _ => WakeKeptByWakeup(s, items, e);
    }
  }

  lemma InitialInv(s: State, items: nat)
    requires Initial(s) && 0 < items
    ensures Inv(s, items) && OrderInv(s)
  {
    SumZero(Index, s.ps);
    SumZero(Index, s.cs);
    SumZero(Waits, s.ps);
    SumZero(Waits, s.cs);
    EmptyIsValid(|s.ring.buffer|);
  }

  lemma SizesStay(s: State, items: nat, e: Event)
    requires Enabled(s, items, e)
    ensures var t := Next(s, items, e);
            |t.ps| == |s.ps| && |t.cs| == |s.cs| && |t.ring.buffer| == |s.ring.buffer|
  {
    hide Valid, ItemValue;
    if e.Produce? {
      PutSize(s.ring, ItemValue(e.i, s.ps[e.i].n));
    }
  }

  lemma {:induction false} InvAlways(s: State, items: nat, es: seq<Event>)
    requires Inv(s, items) && Runs(s, items, es)
    ensures var t := After(s, items, es);
            Inv(t, items) && |t.ps| == |s.ps| && |t.cs| == |s.cs| && |t.ring.buffer| == |s.ring.buffer|
    decreases |es|
  {
    hide Inv, Next, Enabled;
    if es != [] {
      InvKept(s, items, es[0]);
      SizesStay(s, items, es[0]);
      InvAlways(Next(s, items, es[0]), items, es[1..]);
    }
  }

  // The order of each producer's items is told from their numbers, which stay apart up to BASE items.
  lemma {:induction false} OrderAlways(s: State, items: nat, es: seq<Event>)
    requires Inv(s, items) && OrderInv(s) && items <= BASE && Runs(s, items, es)
    ensures OrderInv(After(s, items, es))
    decreases |es|
  {
    hide Next, Enabled, OrderInv, MutexInv, FifoInv, QuotaInv, WakeInv;
    if es != [] {
      InvKept(s, items, es[0]);
      OrderKept(s, items, es[0]);
      OrderAlways(Next(s, items, es[0]), items, es[1..]);
    }
  }

  // ---------------------------------------------------------------- no deadlock

  predicate Finished(s: State, items: nat) {
    (forall i :: 0 <= i < |s.ps| ==> s.ps[i] == Idle(items)) && (forall j :: 0 <= j < |s.cs| ==> s.cs[j] == Idle(items))
  }

  predicate Driven(e: Event) { e.Produce? || e.Consume? }

  ghost predicate CanMove(s: State, items: nat) { exists e :: Enabled(s, items, e) && Driven(e) }

  lemma Moves(s: State, items: nat, e: Event)
    requires Enabled(s, items, e) && Driven(e)
    ensures CanMove(s, items)
  {
  }

  // A thread to signal: a waiting one, or any index when none waits.
  lemma SignalTarget(ts: seq<Thread>) returns (v: nat)
    ensures WaitsAt(ts, v) || NoneWaits(ts)
  {
    v := 0;
    if !NoneWaits(ts) {
      v :| v < |ts| && ts[v].Waiting?;
    }
  }

  lemma OwnerMoves(s: State, items: nat)
    requires MutexInv(s) && Valid(s.ring) && !s.mutex.Free?
    ensures CanMove(s, items)
  {
    hide CanMove, Valid, WaitsAt, NoneWaits;
    match s.mutex {
      case Producer(i) =>
        var v := SignalTarget(s.cs);
        Moves(s, items, Produce(i, v));
      case Consumer(j) =>
        var v := SignalTarget(s.ps);
        Moves(s, items, Consume(j, v));
    }
  }

  // With the mutex free, no thread can move only if all of one side wait or are through.
  predicate Stalled(ts: seq<Thread>, items: nat) {
    forall i :: 0 <= i < |ts| ==> ts[i].Waiting? || ts[i] == Idle(items)
  }

  lemma StalledSum(ts: seq<Thread>, items: nat)
    requires Stalled(ts, items) && InQuota(ts, items)
    ensures Sum(Signalled, ts) == 0 && Sum(Index, ts) <= |ts| * items
    ensures Sum(Waits, ts) == 0 ==> Sum(Index, ts) == |ts| * items
                                    && forall i :: 0 <= i < |ts| ==> ts[i] == Idle(items)
    ensures Sum(Waits, ts) > 0 ==> Sum(Index, ts) < |ts| * items
  {
    SumZero(Signalled, ts);
    SumZero(Waits, ts);
    SumAtMost(Index, ts, items);
    if Sum(Waits, ts) == 0 {
      SumConstant(Index, ts, items);
    } else {
      var i := SomePositive(Waits, ts);
      SumUpdate(Index, ts, i, Idle(items));
      SumAtMost(Index, ts[i := Idle(items)], items);
    }
  }

  // With as many consumers as producers and equal quotas, all threads stalled means all finished.
  lemma StalledIsFinished(s: State, items: nat)
    requires Inv(s, items) && s.mutex.Free? && |s.ps| == |s.cs|
    requires Stalled(s.ps, items) && Stalled(s.cs, items)
    ensures Finished(s, items)
  {
    hide MutexInv, Stalled, Window, Sum, Waits, Signalled, Index, InQuota;
    StalledSum(s.ps, items);
    StalledSum(s.cs, items);
    assert |s.produced| == |s.consumed| + s.ring.count;
    assert 0 < |s.ring.buffer|;
  }

  // No reachable state is deadlocked, although only signal is used: until every thread has moved its
  // quota some thread can take a step without any spurious wakeup.
  lemma NeverDeadlocked(s: State, items: nat)
    requires Inv(s, items) && |s.ps| == |s.cs| && !Finished(s, items)
    ensures CanMove(s, items)
  {
    hide CanMove, WakeInv, QuotaInv, Finished;
    if !s.mutex.Free? {
      OwnerMoves(s, items);
    } else if !Stalled(s.ps, items) {
      var i: nat :| i < |s.ps| && !s.ps[i].Waiting? && s.ps[i] != Idle(items);
      assert s.ps[i].n <= items by { QuotaBound(s, items, i, true); }
      Moves(s, items, Produce(i, 0));
    } else if !Stalled(s.cs, items) {
      var j: nat :| j < |s.cs| && !s.cs[j].Waiting? && s.cs[j] != Idle(items);
      assert s.cs[j].n <= items by { QuotaBound(s, items, j, false); }
      Moves(s, items, Consume(j, 0));
    } else {
      StalledIsFinished(s, items);
    }
  }

  lemma QuotaBound(s: State, items: nat, k: nat, producer: bool)
    requires QuotaInv(s, items)
    ensures producer && k < |s.ps| ==> s.ps[k].n <= items
    ensures !producer && k < |s.cs| ==> s.cs[k].n <= items
  {
  }

  // ---------------------------------------------------------------- termination

  function Phase(t: Thread): nat {
    match t
    case Waiting(_) => 4
    case Checking(_, _) => 5
    case Idle(_) => 6
    case Woken(_) => 6
    case Unlocking(_) => 8
    case Signalling(_) => 11
  }

  // Steps still to come, apart from those spent on spurious wakeups.
  function Measure(s: State, items: nat): int {
    8 * ((|s.ps| + |s.cs|) * items - Sum(Index, s.ps) - Sum(Index, s.cs)) + Sum(Phase, s.ps) + Sum(Phase, s.cs)
  }

  lemma SignalPhase(ts: seq<Thread>, v: nat)
    ensures Sum(Phase, Signal(ts, v)) <= Sum(Phase, ts) + 2
  {
    if WaitsAt(ts, v) {
      SumUpdate(Phase, ts, v, Woken(ts[v].n));
    }
  }

  lemma PhaseDrops(s: State, items: nat, e: Event)
    requires Enabled(s, items, e) && Driven(e)
    ensures var t := Next(s, items, e);
            if e.Produce? then
              && t.ps == s.ps[e.i := t.ps[e.i]]
              && Phase(t.ps[e.i]) + 8 * s.ps[e.i].n < Phase(s.ps[e.i]) + 8 * t.ps[e.i].n
              && (t.cs == s.cs || (t.cs == Signal(s.cs, e.v) && t.ps[e.i].n == s.ps[e.i].n
                                   && Phase(t.ps[e.i]) + 2 < Phase(s.ps[e.i])))
            else
              && t.cs == s.cs[e.j := t.cs[e.j]]
              && Phase(t.cs[e.j]) + 8 * s.cs[e.j].n < Phase(s.cs[e.j]) + 8 * t.cs[e.j].n
              && (t.ps == s.ps || (t.ps == Signal(s.ps, e.v) && t.cs[e.j].n == s.cs[e.j].n
                                   && Phase(t.cs[e.j]) + 2 < Phase(s.cs[e.j])))
  {
    hide Valid, Put, Take, ItemValue, Signal;
  }

  // Every step that is not a spurious wakeup brings the end nearer; a spurious wakeup costs at most two.
  lemma StepsRunOut(s: State, items: nat, e: Event)
    requires Enabled(s, items, e)
    ensures Driven(e) ==> Measure(Next(s, items, e), items) < Measure(s, items)
    ensures !Driven(e) ==> Measure(Next(s, items, e), items) <= Measure(s, items) + 2
  {
    var t := Next(s, items, e);
    SizesStay(s, items, e);
    match e {
      case WakeProducer(i) =>
        SignalKeeps(s.ps, i);
        SignalPhase(s.ps, i);
      case WakeConsumer(j) =>
        SignalKeeps(s.cs, j);
        SignalPhase(s.cs, j);
      case Produce(i, v) =>
        PhaseDrops(s, items, e);
        hide Next, Enabled, Phase;
        SignalKeeps(s.cs, v);
        SignalPhase(s.cs, v);
        SumUpdate(Index, s.ps, i, t.ps[i]);
        SumUpdate(Phase, s.ps, i, t.ps[i]);
      case Consume(j, v) =>
        PhaseDrops(s, items, e);
        hide Next, Enabled, Phase;
        SignalKeeps(s.ps, v);
        SignalPhase(s.ps, v);
        SumUpdate(Index, s.cs, j, t.cs[j]);
        SumUpdate(Phase, s.cs, j, t.cs[j]);
    }
  }

  function SpuriousIn(es: seq<Event>): nat {
    if es == [] then 0 else (if Driven(es[0]) then 0 else 1) + SpuriousIn(es[1..])
  }

  lemma {:induction false} RunsAreBounded(s: State, items: nat, es: seq<Event>)
    requires Runs(s, items, es)
    ensures |es| + Measure(After(s, items, es), items) <= Measure(s, items) + 3 * SpuriousIn(es)
    decreases |es|
  {
    hide Next, Enabled, Measure, Driven;
    if es != [] {
      StepsRunOut(s, items, es[0]);
      RunsAreBounded(Next(s, items, es[0]), items, es[1..]);
    }
  }

  // A run of n producers and n consumers takes at most 2n * (8 * items + 6) steps, and three more for
  // each spurious wakeup.
  lemma RunLength(s: State, items: nat, es: seq<Event>)
    requires Initial(s) && 0 < items && |s.ps| == |s.cs| && Runs(s, items, es)
    ensures |es| <= 2 * |s.ps| * (8 * items + 6) + 3 * SpuriousIn(es)
  {
    hide Inv, After, Runs, Initial, Measure;
    InitialInv(s, items);
    InvAlways(s, items, es);
    RunsAreBounded(s, items, es);
    MeasureNonNegative(After(s, items, es), items);
    InitialMeasure(s, items);
  }

  lemma InitialMeasure(s: State, items: nat)
    requires Initial(s) && |s.ps| == |s.cs|
    ensures Measure(s, items) == 2 * |s.ps| * (8 * items + 6)
  {
    SumConstant(Index, s.ps, 0);
    SumConstant(Index, s.cs, 0);
    SumConstant(Phase, s.ps, 6);
    SumConstant(Phase, s.cs, 6);
    hide Initial, Phase, Index;
    Expand(|s.ps|, items);
  }

  lemma Expand(n: nat, items: nat)
    ensures 2 * n * (8 * items + 6) == 8 * ((n + n) * items) + 2 * (n * 6)
  {
    assert (n + n) * items == 2 * (n * items);
    assert n * (8 * items + 6) == 8 * (n * items) + n * 6;
  }

  lemma MeasureNonNegative(s: State, items: nat)
    requires Inv(s, items)
    ensures Measure(s, items) >= 0
  {
    hide MutexInv, FifoInv, WakeInv;
    SumAtMost(Index, s.ps, items);
    SumAtMost(Index, s.cs, items);
    assert (|s.ps| + |s.cs|) * items == |s.ps| * items + |s.cs| * items;
  }

  // ---------------------------------------------------------------- every run

  // With n producers and n consumers of `items` items each: items leave in the order they entered, up to
  // BASE items each producer's in its own order and exactly once; no run deadlocks, and a run that cannot go
  // on has delivered everything.
  lemma TransferCorrect(s: State, items: nat, es: seq<Event>)
    requires Initial(s) && 0 < items && |s.ps| == |s.cs| && Runs(s, items, es)
    ensures var t := After(s, items, es);
            && t.consumed <= t.produced && |t.produced| - |t.consumed| == t.ring.count <= |s.ring.buffer|
            && |t.ps| == |s.ps|
            && (items <= BASE ==>
                  forall id: nat :: id < |t.ps| ==> ItemsOf(t.produced, id) == FirstItems(id, t.ps[id].n))
            && (CanMove(t, items) || Finished(t, items))
            && (Finished(t, items) ==> t.consumed == t.produced && |t.produced| == |s.ps| * items)
  {
    hide CanMove, Finished, ItemsOf, FirstItems, MutexInv, WakeInv, Window, QuotaInv;
    InitialInv(s, items);
    InvAlways(s, items, es);
    if items <= BASE {
      OrderAlways(s, items, es);
    }
    var t := After(s, items, es);
    hide After, Runs, Initial;
    if Finished(t, items) {
      AllDelivered(t, items);
    } else {
      NeverDeadlocked(t, items);
    }
  }

  lemma AllDelivered(s: State, items: nat)
    requires Inv(s, items) && Finished(s, items) && |s.ps| == |s.cs|
    ensures s.consumed == s.produced && |s.produced| == |s.ps| * items
  {
    hide MutexInv, WakeInv, Window;
    SumConstant(Index, s.ps, items);
    SumConstant(Index, s.cs, items);
    assert Window(s.ring) == [];
  }
}

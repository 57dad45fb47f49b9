// shm_demo.c as a transition system: a producer and a consumer process over a shared ring guarded by
// three counting semaphores.
module ShmRing {
  import opened Ring

  // Where a process is in its loop body. Slot is sem_wait on its own counting semaphore, Post is
  // sem_post on the other one.
  datatype Phase = Slot | Lock | Critical | Unlock | Post

  // shared_ring_t, the semaphores, each process's loop index and phase, and the values consumed.
  datatype State = State(
    buffer: seq<int>, head: nat, tail: nat, produced: nat, consumed: nat,
    semProd: nat, semCons: nat, semMutex: nat,
    pi: nat, pp: Phase, ci: nat, cp: Phase, values: seq<int>)

  datatype Event = ProducerStep | ConsumerStep

  function ValueOf(i: nat): int { i * 10 }

  predicate Enabled(s: State, items: nat, e: Event) {
    match e
    case ProducerStep =>
      s.pi < items && s.head < |s.buffer| && (s.pp.Slot? ==> s.semProd > 0) && (s.pp.Lock? ==> s.semMutex > 0)
    case ConsumerStep =>
      s.ci < items && s.tail < |s.buffer| && (s.cp.Slot? ==> s.semCons > 0) && (s.cp.Lock? ==> s.semMutex > 0)
  }

  function Next(s: State, items: nat, e: Event): State
    requires Enabled(s, items, e)
  {
    match e
    case ProducerStep => (
      match s.pp
      case Slot => s.(semProd := s.semProd - 1, pp := Lock)
      case Lock => s.(semMutex := s.semMutex - 1, pp := Critical)
      case Critical => s.(buffer := s.buffer[s.head := ValueOf(s.pi)], head := (s.head + 1) % |s.buffer|,
                          produced := s.produced + 1, pp := Unlock)
      case Unlock => s.(semMutex := s.semMutex + 1, pp := Post)
      case Post => s.(semCons := s.semCons + 1, pp := Slot, pi := s.pi + 1))
    case ConsumerStep => (
      match s.cp
      case Slot => s.(semCons := s.semCons - 1, cp := Lock)
      case Lock => s.(semMutex := s.semMutex - 1, cp := Critical)
      case Critical => s.(values := s.values + [s.buffer[s.tail]], tail := (s.tail + 1) % |s.buffer|,
                          consumed := s.consumed + 1, cp := Unlock)
      case Unlock => s.(semMutex := s.semMutex + 1, cp := Post)
      case Post => s.(semProd := s.semProd + 1, cp := Slot, ci := s.ci + 1))
  }

  predicate Initial(s: State, size: nat) {
    && 0 < size && s.buffer == seq(size, _ => 0) && s.head == s.tail == s.produced == s.consumed == 0
    && s.semProd == size && s.semCons == 0 && s.semMutex == 1
    && s.pi == s.ci == 0 && s.pp.Slot? && s.cp.Slot? && s.values == []
  }

  predicate Runs(s: State, items: nat, es: seq<Event>)
    decreases |es|
  {
    es == [] || (Enabled(s, items, es[0]) && Runs(Next(s, items, es[0]), items, es[1..]))
  }

  function After(s: State, items: nat, es: seq<Event>): State
    requires Runs(s, items, es)
    decreases |es|
  {
    if es == [] then s else After(Next(s, items, es[0]), items, es[1..])
  }

  // ---------------------------------------------------------------- invariant

  function One(b: bool): nat { if b then 1 else 0 }

  // A slot is held from the wait on the own semaphore to the post on the other.
  function Held(p: Phase): nat { One(!p.Slot?) }

  predicate Inside(p: Phase) { p.Critical? || p.Unlock? }

  predicate Moved(p: Phase) { p.Unlock? || p.Post? }

  // The free and the filled slots and the held ones make up the ring; the mutex excludes.
  predicate SemInv(s: State) {
    && s.semProd + s.semCons + Held(s.pp) + Held(s.cp) == |s.buffer|
    && s.semMutex + One(Inside(s.pp)) + One(Inside(s.cp)) == 1
  }

  predicate CountInv(s: State) {
    && s.produced == s.pi + One(Moved(s.pp)) && s.consumed == s.ci + One(Moved(s.cp))
    && s.produced == s.consumed + s.semCons + One(Moved(s.pp)) + One(s.cp.Lock? || s.cp.Critical?)
  }

  function Values(n: nat): (r: seq<int>)
    ensures |r| == n && forall i :: 0 <= i < n ==> r[i] == 10 * i
  {
    seq(n, i => 10 * i)
  }

  function RingOf(s: State): Ring
    requires s.consumed <= s.produced
  {
    Ring(s.buffer, s.head, s.tail, s.produced - s.consumed)
  }

  // The values taken, then the values in the ring, are 0, 10, 20, ... up to the last one produced.
  predicate DataInv(s: State) {
    && s.consumed <= s.produced && Valid(RingOf(s)) && |s.values| == s.consumed
    && s.values + Window(RingOf(s)) == Values(s.produced)
  }

  predicate RangeInv(s: State, items: nat) {
    && s.pi <= items && s.ci <= items && (s.pi == items ==> s.pp.Slot?) && (s.ci == items ==> s.cp.Slot?)
  }

  predicate Inv(s: State, items: nat) { SemInv(s) && CountInv(s) && DataInv(s) && RangeInv(s, items) }

  lemma CountersKept(s: State, items: nat, e: Event)
    requires SemInv(s) && CountInv(s) && RangeInv(s, items) && Enabled(s, items, e)
    ensures var t := Next(s, items, e); SemInv(t) && CountInv(t) && RangeInv(t, items)
  {
  }

  lemma DataKeptByProducer(s: State, items: nat)
    requires Inv(s, items) && Enabled(s, items, ProducerStep)
    ensures DataInv(Next(s, items, ProducerStep))
  {
    if s.pp.Critical? {
      var r, x := RingOf(s), ValueOf(s.pi);
      PutAppends(r, x);
      assert RingOf(Next(s, items, ProducerStep)) == Put(r, x);
      hide Window, Put, Valid;
      assert s.values + (Window(r) + [x]) == (s.values + Window(r)) + [x];
      assert Values(s.produced + 1) == Values(s.produced) + [x];
    }
  }

  lemma DataKeptByConsumer(s: State, items: nat)
    requires Inv(s, items) && Enabled(s, items, ConsumerStep)
    ensures DataInv(Next(s, items, ConsumerStep))
  {
    if s.cp.Critical? {
      var r := RingOf(s);
      TakeDrops(r);
      var (rest, x) := Take(r);
      assert RingOf(Next(s, items, ConsumerStep)) == rest;
      hide Window, Take, Valid;
      assert s.values + ([x] + Window(rest)) == (s.values + [x]) + Window(rest);
    }
  }

  lemma InvKept(s: State, items: nat, e: Event)
    requires Inv(s, items) && Enabled(s, items, e)
    ensures Inv(Next(s, items, e), items)
  {
    hide SemInv, CountInv, DataInv, RangeInv, Next, Enabled;
    CountersKept(s, items, e);
    if e.ProducerStep? { DataKeptByProducer(s, items); } else { DataKeptByConsumer(s, items); }
  }

  lemma InitialInv(s: State, size: nat, items: nat)
    requires Initial(s, size)
    ensures Inv(s, items)
  {
  }

  // Steps left: five for each item still to be moved.
  function StepsLeft(p: Phase): nat {
    match p
    case Slot => 5
    case Lock => 4
    case Critical => 3
    case Unlock => 2
    case Post => 1
  }

  function Measure(s: State, items: nat): int {
    5 * (items - s.pi) + StepsLeft(s.pp) + 5 * (items - s.ci) + StepsLeft(s.cp)
  }

  lemma StepCounts(s: State, items: nat, e: Event)
    requires Enabled(s, items, e)
    ensures Measure(Next(s, items, e), items) == Measure(s, items) - 1
  {
  }

  // The invariant after every run, and the exact number of steps still to come.
  lemma {:induction false} InvAlways(s: State, items: nat, es: seq<Event>)
    requires Inv(s, items) && Runs(s, items, es)
    ensures Inv(After(s, items, es), items)
    ensures Measure(After(s, items, es), items) == Measure(s, items) - |es|
    decreases |es|
  {
    hide Inv, Next, Enabled, Measure;
    if es != [] {
      InvKept(s, items, es[0]);
      StepCounts(s, items, es[0]);
      InvAlways(Next(s, items, es[0]), items, es[1..]);
    }
  }

  predicate Finished(s: State, items: nat) { s.pi == s.ci == items }

  // No reachable state is stuck before both loops have ended.
  lemma NeverStuck(s: State, items: nat)
    requires Inv(s, items) && !Finished(s, items)
    ensures Enabled(s, items, ProducerStep) || Enabled(s, items, ConsumerStep)
  {
  }

  // In every interleaving: the slots are conserved, at most one process is in its critical section,
  // the i-th value consumed is 10 * i, nothing gets stuck, and after exactly 10 steps an item both
  // loops have ended with everything produced and consumed.
  lemma RingCorrect(s: State, size: nat, items: nat, es: seq<Event>)
    requires Initial(s, size) && Runs(s, items, es)
    ensures var t := After(s, items, es);
            && t.semProd + t.semCons + Held(t.pp) + Held(t.cp) == |t.buffer|
            && !(Inside(t.pp) && Inside(t.cp))
            && (forall i :: 0 <= i < |t.values| ==> t.values[i] == 10 * i) && |t.values| == t.consumed
            && (Finished(t, items) || Enabled(t, items, ProducerStep) || Enabled(t, items, ConsumerStep))
            && |es| <= 10 * items
            && (|es| == 10 * items <==> Finished(t, items))
            && (Finished(t, items) ==> t.produced == t.consumed == items && t.values == Values(items))
  {
    hide Next, Enabled, Window, Valid;
    InitialInv(s, size, items);
    InvAlways(s, items, es);
    var t := After(s, items, es);
    assert t.values == Values(t.produced)[..|t.values|];
    if !Finished(t, items) { NeverStuck(t, items); }
  }
}

// What the RCU demo's threads get done: how far each has come is told by the number of its own steps alone,
// whatever the others do, and what a reader dereferences is the version current at that moment.
module RcuProgress {
  import opened Common
  import opened Rcu

  function StepsOfReader(es: seq<Event>, r: nat): nat {
    if es == [] then 0 else (if es[0] == Read(r) then 1 else 0) + StepsOfReader(es[1..], r)
  }

  function StepsOfWriter(es: seq<Event>): nat {
    if es == [] then 0 else (if es[0].Write? then 1 else 0) + StepsOfWriter(es[1..])
  }

  // A failing kmalloc.
  function Fails(s: State, e: Event): nat { if e == Write(false) && s.writer.Numbered? then 1 else 0 }

  function Failures(s: State, es: seq<Event>): nat
    requires Runs(s, es)
    decreases |es|
  {
    if es == [] then 0 else Fails(s, es[0]) + Failures(Next(s, es[0]), es[1..])
  }

  // ---------------------------------------------------------------- readers

  // Lock, dereference, unlock: three steps to a section, and one to stop.
  function ReaderCame(s: State, r: nat): int
    requires r < |s.readers| && r < |s.seen|
  {
    3 * |s.seen[r]|
    + match s.readers[r]
      case Outside => 0
      case Entered => 1
      case Holding(_) => -1
      case ReaderStopped => 1
  }

  // What a reader holds is what it dereferenced last.
  predicate HoldsLast(s: State, r: nat)
    requires r < |s.readers| && r < |s.seen|
  {
    s.readers[r].Holding? ==> s.seen[r] != [] && s.seen[r][|s.seen[r]| - 1] == s.readers[r].v
  }

  lemma ReaderStep(s: State, e: Event, r: nat)
    requires r < |s.readers| == |s.seen| && Enabled(s, e) && HoldsLast(s, r)
    ensures var t := Next(s, e);
            && r < |t.readers| == |t.seen| && HoldsLast(t, r)
            && ReaderCame(t, r) == ReaderCame(s, r) + (if e == Read(r) then 1 else 0)
            && (t.seen[r] == s.seen[r] || t.seen[r] == s.seen[r] + [s.current])
  {
  }

  // Each section a reader goes through adds one dereference, whatever the others do in between.
  lemma {:induction false} ReaderPaces(s: State, es: seq<Event>, r: nat)
    requires r < |s.readers| == |s.seen| && Runs(s, es) && HoldsLast(s, r)
    ensures var t := After(s, es);
            && r < |t.readers| == |t.seen| && HoldsLast(t, r)
            && ReaderCame(t, r) == ReaderCame(s, r) + StepsOfReader(es, r)
    decreases |es|
  {
    hide Enabled, Next, ReaderCame, HoldsLast;
    if es != [] {
      ReaderStep(s, es[0], r);
      ReaderPaces(Next(s, es[0]), es[1..], r);
    }
  }

  lemma CurrentGrows(s: State, e: Event)
    requires WriterInv(s) && Enabled(s, e)
    ensures s.current <= Next(s, e).current
  {
  }

  // From any moment on a reader dereferences only versions at least as new as the one current then: with
  // Rcu.OrderInv, which bounds them by the one current afterwards, exactly the current one.
  lemma {:induction false} NothingStale(s: State, es: seq<Event>, r: nat)
    requires Inv(s) && r < |s.readers| && Runs(s, es) && HoldsLast(s, r)
    ensures r < |After(s, es).seen| && s.seen[r] <= After(s, es).seen[r]
    ensures forall k :: |s.seen[r]| <= k < |After(s, es).seen[r]| ==> s.current <= After(s, es).seen[r][k]
    decreases |es|
  {
    hide PlaceInv, WriterInv, OrderInv, GraceInv, HeldSafely, Enabled, Next, HoldsLast, ReaderCame, Whole;
    if es != [] {
      var next := Next(s, es[0]);
      ReaderStep(s, es[0], r);
      CurrentGrows(s, es[0]);
      InvKept(s, es[0]);
      NothingStale(next, es[1..], r);
    }
  }

  // ---------------------------------------------------------------- the writer

  // Where the writer is in its round of seven steps.
  function Phase(w: Writer): int {
    match w
    case Top => 0
    case Numbered => -6
    case Allocated(_) => -5
    case HasValue(_) => -4
    case HasInfo(_) => -3
    case HasOld(_, _) => -2
    case Published(_) => -1
    case WriterStopped => 1
  }

  function WriterCame(s: State): int { 7 * s.version + Phase(s.writer) }

  // Versions that got memory, the one numbered last being still without.
  function Unmade(s: State): int { s.version + 1 - |s.made| - (if s.writer.Numbered? then 1 else 0) }

  function Building(w: Writer): set<nat> {
    if w.Allocated? || w.HasValue? || w.HasInfo? || w.HasOld? then {w.new'} else {}
  }

  // The newest version that got memory is published, unless it is still being built.
  predicate NewestCurrent(s: State) {
    s.current in s.made && forall v :: v in s.made ==> v <= s.current || v in Building(s.writer)
  }

  lemma WriterStep(s: State, e: Event)
    requires Enabled(s, e)
    ensures WriterCame(Next(s, e)) == WriterCame(s) + (if e.Write? then 1 else 0) + 5 * Fails(s, e)
  {
    hide InsideNow, Left;
  }

  lemma NumberedIsNew(s: State)
    requires PlaceInv(s) && WriterInv(s) && s.writer.Numbered?
    ensures s.version !in s.made && |s.made + {s.version}| == |s.made| + 1
  {
    hide NoRepeats;
  }

  // Only the writer numbers a version, and only a kmalloc that succeeds makes one.
  lemma MadeShape(s: State, e: Event)
    requires Enabled(s, e)
    ensures
      var t := Next(s, e);
      if e.Write? && s.writer.Numbered? then
        !t.writer.Numbered? && t.version == s.version && t.made == (if e.ok then s.made + {s.version} else s.made)
      else
        t.made == s.made && t.version - s.version == (if t.writer.Numbered? && !s.writer.Numbered? then 1 else 0)
        && (s.writer.Numbered? ==> t.writer.Numbered?)
  {
    hide InsideNow, Left;
  }

  lemma MadeStep(s: State, e: Event)
    requires PlaceInv(s) && WriterInv(s) && Enabled(s, e)
    ensures Unmade(Next(s, e)) == Unmade(s) + Fails(s, e)
  {
    hide PlaceInv, WriterInv, Enabled, Next;
    MadeShape(s, e);
    if s.writer.Numbered? {
      NumberedIsNew(s);
    }
  }

  lemma NewestKept(s: State, e: Event)
    requires NewestCurrent(s) && PlaceInv(s) && WriterInv(s) && Enabled(s, e)
    ensures NewestCurrent(Next(s, e))
  {
    hide NoRepeats, InsideNow, Left;
  }

  // Seven steps publish a version, or two end in a failing kmalloc.
  lemma {:induction false} WriterPaces(s: State, es: seq<Event>)
    requires Inv(s) && NewestCurrent(s) && Runs(s, es)
    ensures var t := After(s, es);
            && NewestCurrent(t)
            && WriterCame(t) == WriterCame(s) + StepsOfWriter(es) + 5 * Failures(s, es)
            && Unmade(t) == Unmade(s) + Failures(s, es)
    decreases |es|
  {
    hide PlaceInv, WriterInv, ReaderInv, OrderInv, GraceInv, Enabled, Next, NewestCurrent, WriterCame, Unmade, Fails;
    if es != [] {
      InvKept(s, es[0]);
      WriterStep(s, es[0]);
      MadeStep(s, es[0]);
      NewestKept(s, es[0]);
      WriterPaces(Next(s, es[0]), es[1..]);
    }
  }

  // After any run, from the threads' own steps: each reader has dereferenced once for each section it got into,
  // the writer has numbered a version every seven steps, or two where kmalloc failed, all the others got
  // memory, and the newest of them is the current one unless it is being built.
  lemma RcuProgresses(s: State, es: seq<Event>)
    requires Initial(s) && Runs(s, es)
    ensures
      var t := After(s, es);
      && |t.readers| == |t.seen| == |s.readers|
      && (forall r: nat :: r < |t.readers| ==> HoldsLast(t, r) && ReaderCame(t, r) == StepsOfReader(es, r))
      && WriterCame(t) == StepsOfWriter(es) + 5 * Failures(s, es)
      && Unmade(t) == Failures(s, es)
      && NewestCurrent(t)
  {
    InitialInv(s);
    ReadersStay(s, es);
    hide Inv, Runs, After, StepsOfReader, StepsOfWriter, Failures;
    forall r: nat | r < |s.readers|
      ensures HoldsLast(After(s, es), r) && ReaderCame(After(s, es), r) == StepsOfReader(es, r)
    {
      ReaderPaces(s, es, r);
    }
    WriterPaces(s, es);
  }

  lemma ReadersStayPut(s: State, e: Event)
    requires |s.readers| == |s.seen| && Enabled(s, e)
    ensures |Next(s, e).readers| == |Next(s, e).seen| == |s.readers|
  {
  }

  lemma {:induction false} ReadersStay(s: State, es: seq<Event>)
    requires |s.readers| == |s.seen| && Runs(s, es)
    ensures |After(s, es).readers| == |After(s, es).seen| == |s.readers|
    decreases |es|
  {
    if es != [] {
      ReadersStayPut(s, es[0]);
      hide Enabled, Next;
      ReadersStay(Next(s, es[0]), es[1..]);
    }
  }
}

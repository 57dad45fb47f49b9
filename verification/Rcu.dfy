// rcu_demo.c as a transition system: one writer publishing versions, any number of readers, callbacks
// that run after a grace period, and the module's exit. What RCU itself promises is a step rule: a
// callback queued by call_rcu runs only when every reader inside a read section at that moment has left it.
module Rcu {
  import opened Common

  datatype Reader =
    | Outside
    | Entered            // after rcu_read_lock
    | Holding(v: nat)    // after rcu_dereference
    | ReaderStopped

  datatype Writer =
    | Top                        // at the loop condition
    | Numbered                   // version incremented, about to allocate
    | Allocated(new': nat)       // neither field written yet
    | HasValue(new': nat)
    | HasInfo(new': nat)         // fully initialised
    | HasOld(new': nat, old': nat)  // read the pointer it is about to replace
    | Published(old': nat)
    | WriterStopped

  datatype Module = Live | StoppingWriter | StoppingReaders | Synchronizing(waitFor: set<nat>) | Exited

  // A my_data object: which of its fields have been written.
  datatype Object = Object(value: bool, info: bool)

  datatype State = State(
    heap: map<nat, Object>,          // live objects, by version number
    made: set<nat>,                  // every version kmalloc ever gave memory to
    current: nat,                    // global_data
    pending: map<nat, set<nat>>,     // queued callbacks and the readers each still waits for
    freed: seq<nat>,                 // kfree calls, in order
    version: nat,
    readers: seq<Reader>, seen: seq<seq<nat>>,   // what each reader dereferenced, in order
    writer: Writer, main: Module)

  datatype Event =
    | Read(r: nat)
    | Write(ok: bool)   // one writer step; kmalloc may fail
    | Callback(v: nat)
    | Exit

  predicate Inside(rd: Reader) { rd.Entered? || rd.Holding? }

  function InsideNow(readers: seq<Reader>): set<nat> {
    set r | 0 <= r < |readers| && Inside(readers[r])
  }

  // A reader leaving its section no longer holds up any grace period.
  function Left(pending: map<nat, set<nat>>, r: nat): map<nat, set<nat>> {
    map v | v in pending :: pending[v] - {r}
  }

  predicate Enabled(s: State, e: Event) {
    match e
    case Read(r) =>
      r < |s.readers| && r < |s.seen| && !s.readers[r].ReaderStopped?
    case Write(_) => !s.writer.WriterStopped?
    case Callback(v) => v in s.pending && s.pending[v] == {}
    case Exit =>
      && !s.main.Exited?
      && (s.main.StoppingWriter? ==> s.writer.WriterStopped?)
      && (s.main.StoppingReaders? ==> forall r :: 0 <= r < |s.readers| ==> s.readers[r].ReaderStopped?)
      && (s.main.Synchronizing? ==> s.main.waitFor == {})
  }

  function ReadStep(s: State, r: nat): State
    requires Enabled(s, Read(r))
  {
    match s.readers[r]
    case Outside =>
      // kthread_should_stop, then rcu_read_lock
      s.(readers := s.readers[r := if s.main.StoppingReaders? then ReaderStopped else Entered])
    case Entered =>
      s.(readers := s.readers[r := Holding(s.current)], seen := s.seen[r := s.seen[r] + [s.current]])
    case Holding(_) =>
      var main := if s.main.Synchronizing? then Synchronizing(s.main.waitFor - {r}) else s.main;
      s.(readers := s.readers[r := Outside], pending := Left(s.pending, r), main := main)
  }

  function WriteStep(s: State, ok: bool): State
    requires !s.writer.WriterStopped?
  {
    match s.writer
    case Top =>
      if s.main.StoppingWriter? then s.(writer := WriterStopped)
      else s.(version := s.version + 1, writer := Numbered)
    case Numbered =>
      if ok then
        s.(heap := s.heap[s.version := Object(false, false)], made := s.made + {s.version},
           writer := Allocated(s.version))
      else s.(writer := Top)
    case Allocated(n) => s.(heap := s.heap[n := Object(true, false)], writer := HasValue(n))
    case HasValue(n) => s.(heap := s.heap[n := Object(true, true)], writer := HasInfo(n))
    case HasInfo(n) => s.(writer := HasOld(n, s.current))
    case HasOld(n, o) => s.(current := n, writer := Published(o))
    case Published(o) => s.(pending := s.pending[o := InsideNow(s.readers)], writer := Top)
  }

  function ExitStep(s: State): State
    requires Enabled(s, Exit)
  {
    match s.main
    case Live => s.(main := StoppingWriter)
    case StoppingWriter => s.(main := StoppingReaders)
    case StoppingReaders => s.(main := Synchronizing(InsideNow(s.readers)))
    case Synchronizing(_) => s.(heap := s.heap - {s.current}, freed := s.freed + [s.current], main := Exited)
  }

  function Next(s: State, e: Event): State
    requires Enabled(s, e)
  {
    match e
    case Read(r) => ReadStep(s, r)
    case Write(a) => WriteStep(s, a)
    case Callback(v) => s.(heap := s.heap - {v}, pending := s.pending - {v}, freed := s.freed + [v])
    case Exit => ExitStep(s)
  }

  // After rcu_demo_init: version 0 is published and the threads are about to start.
  predicate Initial(s: State) {
    && s.heap == map[0 := Object(true, true)] && s.made == {0} && s.current == 0 && s.pending == map[] && s.freed == []
    && s.version == 0 && |s.seen| == |s.readers|
    && (forall r :: 0 <= r < |s.readers| ==> s.readers[r].Outside? && s.seen[r] == [])
    && s.writer.Top? && s.main.Live?
  }

  predicate Runs(s: State, es: seq<Event>)
    decreases |es|
  {
    es == [] || (Enabled(s, es[0]) && Runs(Next(s, es[0]), es[1..]))
  }

  function After(s: State, es: seq<Event>): State
    requires Runs(s, es)
    decreases |es|
  {
    if es == [] then s else After(Next(s, es[0]), es[1..])
  }

  // ---------------------------------------------------------------- invariant

  // The version being built, and the one just replaced whose callback is not queued yet.
  function InHand(w: Writer): set<nat> {
    match w
    case Allocated(n) => {n}
    case HasValue(n) => {n}
    case HasInfo(n) => {n}
    case HasOld(n, _) => {n}
    case Published(o) => {o}
    case _ => {}
  }

  function Current(s: State): set<nat> { if s.main.Exited? then {} else {s.current} }

  function Freed(s: State): set<nat> { set v | v in s.freed }

  // Every live object is in exactly one place: current, pending, or in the writer's hands; a freed one is
  // nowhere, none is freed twice, and every version made is either live or freed.
  predicate PlaceInv(s: State) {
    && s.heap.Keys == Current(s) + s.pending.Keys + InHand(s.writer)
    && Current(s) !! s.pending.Keys !! InHand(s.writer)
    && s.heap.Keys !! Freed(s) && NoRepeats(s.freed)
    && s.made == s.heap.Keys + Freed(s)
  }

  predicate WriterInv(s: State) {
    && (forall v :: v in s.heap ==> v <= s.version) && (forall v :: v in s.freed ==> v <= s.version)
    && (s.writer.Numbered? ==> s.version !in s.heap && s.version !in s.freed && s.current < s.version)
    && (s.writer.Allocated? || s.writer.HasValue? || s.writer.HasInfo? || s.writer.HasOld? ==>
          s.current < s.writer.new' && s.writer.new' in s.heap)
    && (s.writer.HasOld? ==> s.writer.old' == s.current)
    && (s.writer.HasInfo? || s.writer.HasOld? ==> s.heap[s.writer.new'] == Object(true, true))
    && (s.main.StoppingReaders? || s.main.Synchronizing? || s.main.Exited? ==> s.writer.WriterStopped?)
    && (s.main.Synchronizing? || s.main.Exited? ==> forall r :: 0 <= r < |s.readers| ==> s.readers[r].ReaderStopped?)
  }

  predicate Whole(s: State, v: nat) { v in s.heap && s.heap[v] == Object(true, true) }

  // What a reader holds is whole, and is current or cannot be freed before the reader leaves.
  predicate HeldSafely(s: State, r: nat)
    requires r < |s.readers|
  {
    s.readers[r].Holding? ==>
      var v := s.readers[r].v;
      && Whole(s, v)
      && (v == s.current || s.writer == Published(v) || (v in s.pending && r in s.pending[v]))
  }

  predicate ReaderInv(s: State) {
    && |s.seen| == |s.readers|
    && (!s.main.Exited? ==> Whole(s, s.current))
    && forall r: nat :: r < |s.readers| ==> HeldSafely(s, r)
  }

  predicate Ascending(vs: seq<nat>) { forall i, j :: 0 <= i < j < |vs| ==> vs[i] <= vs[j] }

  // Versions only move forward for every reader.
  predicate OrderInv(s: State) {
    forall r: nat :: r < |s.seen| ==>
      Ascending(s.seen[r]) && forall k :: 0 <= k < |s.seen[r]| ==> s.seen[r][k] <= s.current
  }

  // A callback waits only for readers that are inside now.
  predicate GraceInv(s: State) {
    forall v :: v in s.pending ==> s.pending[v] <= InsideNow(s.readers)
  }

  predicate Inv(s: State) { PlaceInv(s) && WriterInv(s) && ReaderInv(s) && OrderInv(s) && GraceInv(s) }

  // Nothing but a kfree and a kmalloc moves objects between places.
  lemma PlaceKeptByWriter(s: State, ok: bool)
    requires PlaceInv(s) && WriterInv(s) && !s.writer.WriterStopped?
    ensures PlaceInv(WriteStep(s, ok))
  {
  }

  lemma FreedOnce(freed: seq<nat>, v: nat)
    requires NoRepeats(freed) && v !in freed
    ensures NoRepeats(freed + [v])
    ensures (set u | u in freed + [v]) == (set u | u in freed) + {v}
  {
  }

  lemma PlaceKeptByCallback(s: State, v: nat)
    requires PlaceInv(s) && Enabled(s, Callback(v))
    ensures PlaceInv(Next(s, Callback(v)))
  {
    hide NoRepeats;
    FreedOnce(s.freed, v);
  }

  lemma PlaceKeptByExit(s: State)
    requires PlaceInv(s) && WriterInv(s) && Enabled(s, Exit)
    ensures PlaceInv(Next(s, Exit))
  {
    hide NoRepeats;
    if s.main.Synchronizing? {
      FreedOnce(s.freed, s.current);
    }
  }

  lemma PlaceKeptByReader(s: State, r: nat)
    requires PlaceInv(s) && Enabled(s, Read(r))
    ensures PlaceInv(Next(s, Read(r)))
  {
    hide NoRepeats;
  }

  lemma PlaceKept(s: State, e: Event)
    requires PlaceInv(s) && WriterInv(s) && Enabled(s, e)
    ensures PlaceInv(Next(s, e))
  {
    hide PlaceInv, WriterInv, ReadStep, WriteStep, ExitStep;
    match e
    case Write(ok) => PlaceKeptByWriter(s, ok);
    case Read(r) => PlaceKeptByReader(s, r);
    case Callback(v) => PlaceKeptByCallback(s, v);
    case Exit => PlaceKeptByExit(s);
  }

  lemma WriterKept(s: State, e: Event)
    requires PlaceInv(s) && WriterInv(s) && Enabled(s, e)
    ensures WriterInv(Next(s, e))
  {
    hide NoRepeats;
  }

  // What one reader holds stays whole through a step of anyone.
  lemma HeldKept(s: State, e: Event, r: nat)
    requires PlaceInv(s) && WriterInv(s) && ReaderInv(s) && Enabled(s, e) && r < |s.readers|
    ensures HeldSafely(Next(s, e), r)
  {
    hide NoRepeats;
    assert HeldSafely(s, r);
    match e
    case Read(q) => assert HeldSafely(s, q);
    case Write(ok) =>
    case Callback(v) =>
    case Exit =>
  }

  lemma CurrentKept(s: State, e: Event)
    requires PlaceInv(s) && WriterInv(s) && ReaderInv(s) && Enabled(s, e)
    ensures !Next(s, e).main.Exited? ==> Whole(Next(s, e), Next(s, e).current)
  {
    hide NoRepeats, HeldSafely;
  }

  lemma ReaderKept(s: State, e: Event)
    requires PlaceInv(s) && WriterInv(s) && ReaderInv(s) && Enabled(s, e)
    ensures ReaderInv(Next(s, e))
  {
    hide PlaceInv, WriterInv, HeldSafely, Whole;
    CurrentKept(s, e);
    forall r: nat | r < |s.readers| ensures HeldSafely(Next(s, e), r) {
      HeldKept(s, e, r);
    }
  }

  lemma OrderKept(s: State, e: Event)
    requires OrderInv(s) && WriterInv(s) && Enabled(s, e)
    ensures OrderInv(Next(s, e))
  {
  }

  lemma GraceKept(s: State, e: Event)
    requires GraceInv(s) && Enabled(s, e)
    ensures GraceInv(Next(s, e))
  {
  }

  lemma InvKept(s: State, e: Event)
    requires Inv(s) && Enabled(s, e)
    ensures Inv(Next(s, e))
  {
    hide PlaceInv, WriterInv, ReaderInv, OrderInv, GraceInv, Next, Enabled;
    PlaceKept(s, e);
    WriterKept(s, e);
    ReaderKept(s, e);
    OrderKept(s, e);
    GraceKept(s, e);
  }

  lemma InitialInv(s: State)
    requires Initial(s)
    ensures Inv(s)
  {
  }

  lemma {:induction false} InvAlways(s: State, es: seq<Event>)
    requires Inv(s) && Runs(s, es)
    ensures Inv(After(s, es))
    decreases |es|
  {
    hide Inv, Next, Enabled;
    if es != [] {
      InvKept(s, es[0]);
      InvAlways(Next(s, es[0]), es[1..]);
    }
  }

  // In how many of the places current, callback pending, in the writer's hands and freed a version is.
  function Places(s: State, v: nat): nat {
    (if v in Current(s) then 1 else 0) + (if v in s.pending then 1 else 0)
    + (if v in InHand(s.writer) then 1 else 0) + (if v in s.freed then 1 else 0)
  }

  // A version held inside a read section is live, whole and not freed.
  ghost predicate HoldersSafe(s: State) {
    forall r: nat, v :: r < |s.readers| && s.readers[r] == Holding(v) ==> Whole(s, v) && v !in s.freed
  }

  lemma HoldersAreSafe(s: State)
    requires PlaceInv(s) && ReaderInv(s)
    ensures HoldersSafe(s)
  {
    hide NoRepeats;
    forall r: nat, v | r < |s.readers| && s.readers[r] == Holding(v) ensures Whole(s, v) && v !in s.freed {
      assert HeldSafely(s, r);
    }
  }

  lemma PlacedOnce(s: State)
    requires PlaceInv(s)
    ensures forall v: nat :: Places(s, v) == if v in s.made then 1 else 0
  {
    hide NoRepeats;
  }

  // Over every run, with any number of readers: what a reader holds is fully initialised and never freed
  // under it, no reader goes back to an older version, every version made is in exactly one place and is
  // freed at most once, and after exit each is freed or still has its callback pending.
  lemma RcuCorrect(s: State, es: seq<Event>)
    requires Initial(s) && Runs(s, es)
    ensures
      var t := After(s, es);
      && HoldersSafe(t)
      && (forall r: nat :: r < |t.seen| ==> Ascending(t.seen[r]))
      && (forall v: nat :: Places(t, v) == if v in t.made then 1 else 0)
      && NoRepeats(t.freed)
      && (t.main.Exited? ==> forall v :: v in t.made ==> v in t.freed || v in t.pending)
  {
    hide Next, Enabled, Runs, After, NoRepeats, Ascending, HoldersSafe;
    InitialInv(s);
    InvAlways(s, es);
    HoldersAreSafe(After(s, es));
    PlacedOnce(After(s, es));
  }

  // ---------------------------------------------------------------- callbacks left at exit

  lemma {:induction false} Extend(s: State, es: seq<Event>, e: Event)
    requires Runs(s, es) && Enabled(After(s, es), e)
    ensures Runs(s, es + [e]) && After(s, es + [e]) == Next(After(s, es), e)
    decreases |es|
  {
    hide Next, Enabled;
    if es == [] {
      assert es + [e] == [e];
      assert [e][1..] == [];
    } else {
      assert (es + [e])[1..] == es[1..] + [e];
      Extend(Next(s, es[0]), es[1..], e);
    }
  }

  lemma NoneInside(s: State)
    requires GraceInv(s) && WriterInv(s) && s.main.Exited?
    ensures forall v :: v in s.pending ==> s.pending[v] == {}
  {
  }

  lemma NothingLeft(s: State)
    requires Inv(s) && s.main.Exited? && s.pending.Keys == {}
    ensures s.made == Freed(s)
  {
    hide NoRepeats, Freed, ReaderInv, OrderInv, GraceInv;
  }

  // A step frees what its callback is for, or at the exit the current version.
  lemma FreedByStep(s: State, e: Event, v: nat)
    requires WriterInv(s) && Enabled(s, e)
    ensures
      var t := Next(s, e);
      && (v in t.freed <==> v in s.freed || e == Callback(v) || (!s.main.Exited? && t.main.Exited? && v == s.current))
      && (s.main.Exited? ==> t.main.Exited?)
      && (t.main.Exited? ==> t.current == s.current)
  {
  }

  // After the exit the current version stays what it was.
  lemma {:induction false} ExitedStays(s: State, es: seq<Event>)
    requires Inv(s) && s.main.Exited? && Runs(s, es)
    ensures After(s, es).main.Exited? && After(s, es).current == s.current
    decreases |es|
  {
    hide Next, Enabled, PlaceInv, ReaderInv, OrderInv, GraceInv, WriterInv;
    if es != [] {
      InvKept(s, es[0]);
      FreedByStep(s, es[0], 0);
      ExitedStays(Next(s, es[0]), es[1..]);
    }
  }

  lemma {:induction false} FreedByRun(s: State, es: seq<Event>, v: nat)
    requires Inv(s) && Runs(s, es)
    ensures
      var t := After(s, es);
      v in t.freed <==> v in s.freed || Callback(v) in es || (!s.main.Exited? && t.main.Exited? && v == t.current)
    decreases |es|
  {
    hide Next, Enabled, PlaceInv, ReaderInv, OrderInv, GraceInv, WriterInv;
    if es != [] {
      var next := Next(s, es[0]);
      InvKept(s, es[0]);
      FreedByStep(s, es[0], v);
      FreedByRun(next, es[1..], v);
      assert Callback(v) in es <==> es[0] == Callback(v) || Callback(v) in es[1..];
      if next.main.Exited? {
        ExitedStays(next, es[1..]);
      }
    }
  }

  // After the exit nothing is pending exactly when all versions made have been freed.
  lemma PendingIsUnfreed(s: State)
    requires PlaceInv(s) && WriterInv(s) && s.main.Exited?
    ensures s.pending == map[] <==> forall v :: v in s.made ==> v in s.freed
  {
    hide NoRepeats;
    assert s.heap.Keys == s.pending.Keys;
    if v :| v in s.pending {
      assert v in s.made && v !in s.freed;
    } else {
      assert s.pending.Keys == {};
    }
  }

  // In every run that has exited: no callback is left exactly when each replaced version's has run.
  lemma NothingPendingExactly(s: State, es: seq<Event>)
    requires Initial(s) && Runs(s, es) && After(s, es).main.Exited?
    ensures
      var t := After(s, es);
      t.pending == map[] <==> forall v :: v in t.made && v != t.current ==> Callback(v) in es
  {
    hide PlaceInv, WriterInv, ReaderInv, OrderInv, GraceInv, Runs, After;
    InitialInv(s);
    InvAlways(s, es);
    var t := After(s, es);
    PendingIsUnfreed(t);
    forall v: nat ensures v in t.freed <==> Callback(v) in es || v == t.current {
      FreedByRun(s, es, v);
    }
  }

  lemma FreedByCallback(s: State, v: nat)
    requires Inv(s) && s.main.Exited? && v in s.pending
    ensures Enabled(s, Callback(v))
    ensures
      var t := Next(s, Callback(v));
      Inv(t) && t.main.Exited? && t.made == s.made && |t.pending| < |s.pending|
  {
    hide PlaceInv, NoRepeats, ReaderInv, OrderInv;
    NoneInside(s);
    InvKept(s, Callback(v));
    assert s.pending.Keys == (s.pending - {v}).Keys + {v};
  }

  lemma Precede(s: State, e: Event, es: seq<Event>)
    requires Enabled(s, e) && Runs(Next(s, e), es)
    ensures Runs(s, [e] + es) && After(s, [e] + es) == After(Next(s, e), es)
  {
    hide Enabled, Next;
    assert ([e] + es)[1..] == es;
  }

  // Once the module has exited every pending callback may run, in some order, and then all is freed.
  lemma {:induction false} CallbacksDrain(s: State) returns (es: seq<Event>)
    requires Inv(s) && s.main.Exited?
    ensures Runs(s, es) && (forall e :: e in es ==> e.Callback?)
    ensures After(s, es).made == s.made == Freed(After(s, es)) && After(s, es).pending == map[]
    decreases |s.pending|
  {
    hide Inv, Enabled, Next, Freed;
    es := [];
    if v :| v in s.pending {
      FreedByCallback(s, v);
      var rest := CallbacksDrain(Next(s, Callback(v)));
      es := [Callback(v)] + rest;
      Precede(s, Callback(v), rest);
    } else {
      NothingLeft(s);
    }
  }

  function OneReader(): State {
    State(map[0 := Object(true, true)], {0}, 0, map[], [], 0, [Outside], [[]], Top, Live)
  }

  lemma NoEvents(s: State)
    ensures Runs(s, []) && After(s, []) == s
  {
  }

  // One round of the writer's loop with no reader inside.
  lemma PublishedOnce() returns (es: seq<Event>)
    ensures Runs(OneReader(), es)
    ensures After(OneReader(), es) == OneReader().(heap := map[0 := Object(true, true), 1 := Object(true, true)],
        made := {0, 1}, current := 1, pending := map[0 := {}], version := 1)
  {
    hide Runs, After;
    es := [];
    NoEvents(OneReader());
    var w := Write(true);
    Extend(OneReader(), es, w); es := es + [w];
    Extend(OneReader(), es, w); es := es + [w];
    Extend(OneReader(), es, w); es := es + [w];
    Extend(OneReader(), es, w); es := es + [w];
    Extend(OneReader(), es, w); es := es + [w];
    Extend(OneReader(), es, w); es := es + [w];
    Extend(OneReader(), es, w); es := es + [w];
    assert InsideNow([Outside]) == {};
  }

  // The exit path calls synchronize_rcu, not rcu_barrier: a run exists that exits with a callback queued.
  lemma ExitLeavesCallback() returns (es: seq<Event>)
    ensures Initial(OneReader()) && Runs(OneReader(), es)
    ensures After(OneReader(), es).main.Exited? && 0 in After(OneReader(), es).pending
    ensures 0 !in After(OneReader(), es).freed
  {
    hide Runs, After;
    es := PublishedOnce();
    Extend(OneReader(), es, Exit); es := es + [Exit];
    Extend(OneReader(), es, Write(true)); es := es + [Write(true)];
    Extend(OneReader(), es, Exit); es := es + [Exit];
    Extend(OneReader(), es, Read(0)); es := es + [Read(0)];
    Extend(OneReader(), es, Exit); es := es + [Exit];
    assert InsideNow([ReaderStopped]) == {};
    Extend(OneReader(), es, Exit); es := es + [Exit];
  }
}

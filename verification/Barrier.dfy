// barrier_demo.c on a weakly ordered machine: a thread's accesses may be performed in any order, except that
// nothing moves across a barrier of that thread. Loads may run ahead of the branch they depend on; a run
// counts only if the values loaded agree with the path that was predicted.
module Barrier {

  datatype Variable = Message | Flag

  datatype Op = Access(variable: Variable, value: int) | Fence   // value: what a store writes; unused by a load

  datatype State = State(message: int, flag: int, stored: set<nat>, loaded: map<nat, int>)

  datatype Event = Store(i: nat) | Load(i: nat)

  function Maybe(fence: bool): seq<Op> { if fence then [Fence] else [] }

  // Stores of writer_fn.
  function Writer(wmb: bool): seq<Op> { [Access(Message, 42)] + Maybe(wmb) + [Access(Flag, 1)] }

  // Loads of the wait loop, k times round.
  function Waiting(k: nat, loopRmb: bool): seq<Op> {
    if k == 0 then [] else Waiting(k - 1, loopRmb) + [Access(Flag, 0)] + Maybe(loopRmb)
  }

  // Loads of reader_fn when the loop body runs k times and the branch is taken: the loop's last test, the
  // if's test, then the two values printed.
  function Reader(k: nat, loopRmb: bool, rmb: bool): seq<Op> {
    Waiting(k, loopRmb) + [Access(Flag, 0), Access(Flag, 0)] + Maybe(rmb) + [Access(Flag, 0), Access(Message, 0)]
  }

  // Position of the if's test in the reader's program, and of the two printed loads.
  function Test(k: nat, loopRmb: bool): nat { |Waiting(k, loopRmb)| + 1 }
  function PrintedFlag(k: nat, loopRmb: bool, rmb: bool): nat { Test(k, loopRmb) + |Maybe(rmb)| + 1 }
  function PrintedMessage(k: nat, loopRmb: bool, rmb: bool): nat { PrintedFlag(k, loopRmb, rmb) + 1 }

  // A barrier separates access j from the later access i.
  predicate Fenced(program: seq<Op>, j: nat, i: nat) {
    exists f :: j < f < i < |program| && program[f].Fence?
  }

  predicate MayPerform(program: seq<Op>, done: set<nat>, i: nat) {
    && i < |program| && program[i].Access? && i !in done
    && forall j: nat :: j < i && program[j].Access? && Fenced(program, j, i) ==> j in done
  }

  predicate Enabled(writer: seq<Op>, reader: seq<Op>, s: State, e: Event) {
    match e
    case Store(i) => MayPerform(writer, s.stored, i)
    case Load(i) => MayPerform(reader, s.loaded.Keys, i)
  }

  function Next(writer: seq<Op>, reader: seq<Op>, s: State, e: Event): State
    requires Enabled(writer, reader, s, e)
  {
    match e
    case Store(i) =>
      if writer[i].variable.Message? then s.(message := writer[i].value, stored := s.stored + {i})
      else s.(flag := writer[i].value, stored := s.stored + {i})
    case Load(i) =>
      s.(loaded := s.loaded[i := if reader[i].variable.Message? then s.message else s.flag])
  }

  const START := State(0, 0, {}, map[])

  predicate Runs(writer: seq<Op>, reader: seq<Op>, s: State, es: seq<Event>)
    decreases |es|
  {
    es == [] || (Enabled(writer, reader, s, es[0]) && Runs(writer, reader, Next(writer, reader, s, es[0]), es[1..]))
  }

  function After(writer: seq<Op>, reader: seq<Op>, s: State, es: seq<Event>): State
    requires Runs(writer, reader, s, es)
    decreases |es|
  {
    if es == [] then s else After(writer, reader, Next(writer, reader, s, es[0]), es[1..])
  }

  // Every load is performed and the values agree with the path: the loop's tests read 0 until the last, the
  // loop ended because that one did not or because the count reached 50, and the if's test read 1.
  predicate TookBranch(reader: seq<Op>, k: nat, loopRmb: bool, s: State) {
    && (forall i: nat :: i < |reader| && reader[i].Access? ==> i in s.loaded)
    && (forall i: nat :: i < |Waiting(k, loopRmb)| && i in s.loaded ==> s.loaded[i] == 0)
    && Test(k, loopRmb) - 1 in s.loaded && Test(k, loopRmb) in s.loaded
    && (s.loaded[Test(k, loopRmb) - 1] != 0 || k == 50)
    && s.loaded[Test(k, loopRmb)] == 1
  }

  // Every run that takes the branch prints flag=1 and message=42.
  ghost predicate Safe(wmb: bool, loopRmb: bool, rmb: bool) {
    forall k: nat, es ::
      k <= 50 && Runs(Writer(wmb), Reader(k, loopRmb, rmb), START, es) ==>
        var s := After(Writer(wmb), Reader(k, loopRmb, rmb), START, es);
        TookBranch(Reader(k, loopRmb, rmb), k, loopRmb, s) ==>
          PrintedFlag(k, loopRmb, rmb) in s.loaded && s.loaded[PrintedFlag(k, loopRmb, rmb)] == 1
          && PrintedMessage(k, loopRmb, rmb) in s.loaded && s.loaded[PrintedMessage(k, loopRmb, rmb)] == 42
  }

  // ---------------------------------------------------------------- with both barriers

  // The tail of the reader's program with its barrier, whatever the loop before it.
  predicate Tail(reader: seq<Op>, c: nat) {
    |reader| == c + 4
    && reader[c..] == [Access(Flag, 0), Fence, Access(Flag, 0), Access(Message, 0)]
  }

  // Flag is set only after message; a test that read 1 leaves flag set; what is printed follows the test.
  predicate Inv(c: nat, s: State) {
    && (s.flag == 1 ==> s.message == 42)
    && (s.flag == 1 <==> 2 in s.stored) && (0 in s.stored ==> s.message == 42)
    && (c in s.loaded && s.loaded[c] == 1 ==> s.flag == 1)
    && (c + 2 in s.loaded ==> c in s.loaded && (s.loaded[c] == 1 ==> s.loaded[c + 2] == 1))
    && (c + 3 in s.loaded ==> c in s.loaded && (s.loaded[c] == 1 ==> s.loaded[c + 3] == 42))
  }

  lemma InvKept(reader: seq<Op>, c: nat, s: State, e: Event)
    requires Tail(reader, c) && Inv(c, s) && Enabled(Writer(true), reader, s, e)
    ensures Inv(c, Next(Writer(true), reader, s, e))
  {
    match e
    case Store(i) =>
      assert Writer(true) == [Access(Message, 42), Fence, Access(Flag, 1)];
      if i == 2 {
        assert Writer(true)[1].Fence? && Fenced(Writer(true), 0, 2);
      }
    case Load(i) =>
      assert reader[c] == reader[c..][0] && reader[c + 1] == reader[c..][1];
      assert reader[c + 2] == reader[c..][2] && reader[c + 3] == reader[c..][3];
      if i == c + 2 || i == c + 3 {
        assert Fenced(reader, c, i);
      }
  }

  lemma {:induction false} InvAlways(reader: seq<Op>, c: nat, s: State, es: seq<Event>)
    requires Tail(reader, c) && Inv(c, s) && Runs(Writer(true), reader, s, es)
    ensures Inv(c, After(Writer(true), reader, s, es))
    decreases |es|
  {
    hide Inv, Tail, Next, Enabled;
    if es != [] {
      InvKept(reader, c, s, es[0]);
      InvAlways(reader, c, Next(Writer(true), reader, s, es[0]), es[1..]);
    }
  }

  lemma TailOfReader(k: nat, loopRmb: bool)
    ensures Tail(Reader(k, loopRmb, true), Test(k, loopRmb))
    ensures PrintedFlag(k, loopRmb, true) == Test(k, loopRmb) + 2
  {
    hide Waiting;
  }

  lemma PrintsMessage(k: nat, loopRmb: bool, es: seq<Event>)
    requires Runs(Writer(true), Reader(k, loopRmb, true), START, es)
    requires TookBranch(Reader(k, loopRmb, true), k, loopRmb, After(Writer(true), Reader(k, loopRmb, true), START, es))
    ensures
      var s := After(Writer(true), Reader(k, loopRmb, true), START, es);
      var f, m := PrintedFlag(k, loopRmb, true), PrintedMessage(k, loopRmb, true);
      f in s.loaded && s.loaded[f] == 1 && m in s.loaded && s.loaded[m] == 42
  {
    hide Waiting, Reader, Runs, After, Writer;
    var reader, c := Reader(k, loopRmb, true), Test(k, loopRmb);
    TailOfReader(k, loopRmb);
    assert reader[c + 2] == reader[c..][2] && reader[c + 3] == reader[c..][3];
    InvAlways(reader, c, START, es);
  }

  lemma BarriersSuffice(loopRmb: bool)
    ensures Safe(true, loopRmb, true)
  {
    hide Waiting, Reader, Runs, After, Writer, TookBranch, Test, PrintedFlag, PrintedMessage;
    forall k: nat, es |
      k <= 50 && Runs(Writer(true), Reader(k, loopRmb, true), START, es)
      && TookBranch(Reader(k, loopRmb, true), k, loopRmb, After(Writer(true), Reader(k, loopRmb, true), START, es))
      ensures
        var s := After(Writer(true), Reader(k, loopRmb, true), START, es);
        var f, m := PrintedFlag(k, loopRmb, true), PrintedMessage(k, loopRmb, true);
        f in s.loaded && s.loaded[f] == 1 && m in s.loaded && s.loaded[m] == 42
    {
      PrintsMessage(k, loopRmb, es);
    }
  }

  // ---------------------------------------------------------------- without one of them

  lemma {:induction false} Extend(writer: seq<Op>, reader: seq<Op>, s: State, es: seq<Event>, e: Event)
    requires Runs(writer, reader, s, es) && Enabled(writer, reader, After(writer, reader, s, es), e)
    ensures Runs(writer, reader, s, es + [e])
    ensures After(writer, reader, s, es + [e]) == Next(writer, reader, After(writer, reader, s, es), e)
    decreases |es|
  {
    hide Next, Enabled;
    if es == [] {
      assert es + [e] == [e];
      assert [e][1..] == [];
    } else {
      assert (es + [e])[1..] == es[1..] + [e];
      Extend(writer, reader, Next(writer, reader, s, es[0]), es[1..], e);
    }
  }

  lemma NoEvents(writer: seq<Op>, reader: seq<Op>, s: State)
    ensures Runs(writer, reader, s, []) && After(writer, reader, s, []) == s
  {
  }

  lemma PrintsOldMessage(wmb: bool, loopRmb: bool, rmb: bool, es: seq<Event>)
    requires Runs(Writer(wmb), Reader(0, loopRmb, rmb), START, es)
    requires
      var s := After(Writer(wmb), Reader(0, loopRmb, rmb), START, es);
      && TookBranch(Reader(0, loopRmb, rmb), 0, loopRmb, s)
      && PrintedMessage(0, loopRmb, rmb) in s.loaded && s.loaded[PrintedMessage(0, loopRmb, rmb)] != 42
    ensures !Safe(wmb, loopRmb, rmb)
  {
    hide Writer, Reader, Runs, After, TookBranch, PrintedMessage, PrintedFlag;
  }

  // Without the write barrier, flag = 1 may be stored first: all loads then see the old message.
  lemma FlagStoredFirst(loopRmb: bool, rmb: bool)
    ensures !Safe(false, loopRmb, rmb)
  {
    hide Runs, After, Safe;
    var writer, reader := Writer(false), Reader(0, loopRmb, rmb);
    var es: seq<Event> := [];
    NoEvents(writer, reader, START);
    Extend(writer, reader, START, es, Store(1)); es := es + [Store(1)];
    Extend(writer, reader, START, es, Load(0)); es := es + [Load(0)];
    Extend(writer, reader, START, es, Load(1)); es := es + [Load(1)];
    var f, m := PrintedFlag(0, loopRmb, rmb), PrintedMessage(0, loopRmb, rmb);
    Extend(writer, reader, START, es, Load(f)); es := es + [Load(f)];
    Extend(writer, reader, START, es, Load(m)); es := es + [Load(m)];
    PrintsOldMessage(false, loopRmb, rmb, es);
  }

  // Without the read barrier after the test, message may be loaded before the flag is ever set.
  lemma MessageLoadedFirst(loopRmb: bool)
    ensures !Safe(true, loopRmb, false)
  {
    hide Runs, After, Safe;
    var writer, reader := Writer(true), Reader(0, loopRmb, false);
    var es: seq<Event> := [];
    NoEvents(writer, reader, START);
    Extend(writer, reader, START, es, Load(3)); es := es + [Load(3)];
    Extend(writer, reader, START, es, Store(0)); es := es + [Store(0)];
    Extend(writer, reader, START, es, Store(2)); es := es + [Store(2)];
    Extend(writer, reader, START, es, Load(0)); es := es + [Load(0)];
    Extend(writer, reader, START, es, Load(1)); es := es + [Load(1)];
    Extend(writer, reader, START, es, Load(2)); es := es + [Load(2)];
    PrintsOldMessage(true, loopRmb, false, es);
  }

  lemma BothStored(wmb: bool, reader: seq<Op>) returns (es: seq<Event>)
    ensures Runs(Writer(wmb), reader, START, es)
    ensures After(Writer(wmb), reader, START, es).(stored := {}) == State(42, 1, {}, map[])
  {
    hide Runs, After;
    var store := if wmb then 2 else 1;
    es := [];
    NoEvents(Writer(wmb), reader, START);
    Extend(Writer(wmb), reader, START, es, Store(0)); es := es + [Store(0)];
    Extend(Writer(wmb), reader, START, es, Store(store)); es := es + [Store(store)];
  }

  // Whatever barriers are there, some run takes the branch and prints the message.
  lemma BranchReached(wmb: bool, loopRmb: bool, rmb: bool) returns (es: seq<Event>)
    ensures Runs(Writer(wmb), Reader(0, loopRmb, rmb), START, es)
    ensures
      var s := After(Writer(wmb), Reader(0, loopRmb, rmb), START, es);
      && TookBranch(Reader(0, loopRmb, rmb), 0, loopRmb, s)
      && PrintedFlag(0, loopRmb, rmb) in s.loaded && s.loaded[PrintedFlag(0, loopRmb, rmb)] == 1
      && PrintedMessage(0, loopRmb, rmb) in s.loaded && s.loaded[PrintedMessage(0, loopRmb, rmb)] == 42
  {
    hide Runs, After, Writer;
    var writer, reader, f := Writer(wmb), Reader(0, loopRmb, rmb), PrintedFlag(0, loopRmb, rmb);
    es := BothStored(wmb, reader);
    Extend(writer, reader, START, es, Load(0)); es := es + [Load(0)];
    Extend(writer, reader, START, es, Load(1)); es := es + [Load(1)];
    Extend(writer, reader, START, es, Load(f)); es := es + [Load(f)];
    Extend(writer, reader, START, es, Load(f + 1)); es := es + [Load(f + 1)];
  }

  // The message passing is right exactly when both barriers are there; the one inside the wait loop is not
  // needed and does not replace the one after the test.
  lemma MessagePassing(wmb: bool, loopRmb: bool, rmb: bool)
    ensures Safe(wmb, loopRmb, rmb) <==> wmb && rmb
  {
    hide Safe;
    if !wmb {
      FlagStoredFirst(loopRmb, rmb);
    } else if !rmb {
      MessageLoadedFirst(loopRmb);
    } else {
      BarriersSuffice(loopRmb);
    }
  }
}

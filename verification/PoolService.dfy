// What a pool does with the tasks it is given: every submit that gets as far as its append counts, and from the
// start any number of tasks can be submitted, run and waited for.
module PoolService {
  import opened Sums
  import opened ThreadPool

  // A submit that has begun and has not appended its task yet.
  function Preparing(c: Client): nat { if c.Locking? || c.Appending? then 1 else 0 }

  lemma StepCounted(s: State, e: Event)
    requires Enabled(s, e)
    ensures
      var t := Next(s, e);
      s.submitted + Sum(Preparing, s.clients) + BeginsSubmit(s, e) == t.submitted + Sum(Preparing, t.clients)
  {
    if e.Submit? {
      SumUpdate(Preparing, s.clients, e.j, SubmitStep(s, e.j, e.w).clients[e.j]);
    }
  }

  // Every submit that has begun has appended its task or is about to: none is dropped.
  lemma {:induction false} SubmitsCounted(s: State, es: seq<Event>)
    requires Runs(s, es)
    ensures
      var t := After(s, es);
      s.submitted + Sum(Preparing, s.clients) + Begun(s, es) == t.submitted + Sum(Preparing, t.clients)
    decreases |es|
  {
    hide Next, Enabled, BeginsSubmit, Preparing;
    if es != [] {
      StepCounted(s, es[0]);
      SubmitsCounted(Next(s, es[0]), es[1..]);
    }
  }

  // From the start, as many tasks have been submitted as submits have got past their append.
  lemma AllSubmitted(s: State, es: seq<Event>)
    requires Initial(s) && Runs(s, es)
    ensures After(s, es).submitted + Sum(Preparing, After(s, es).clients) == Begun(s, es)
  {
    SumZero(Preparing, s.clients);
    assert Sum(Preparing, s.clients) == 0;
    hide Runs, After, Preparing, Begun;
    SubmitsCounted(s, es);
  }

  // ---------------------------------------------------------------- coming to rest

  lemma Precede(s: State, e: Event, es: seq<Event>)
    requires Enabled(s, e) && Runs(Next(s, e), es)
    ensures Runs(s, [e] + es) && After(s, [e] + es) == After(Next(s, e), es)
    ensures Begun(s, [e] + es) == BeginsSubmit(s, e) + Begun(Next(s, e), es)
  {
    hide Enabled, Next, BeginsSubmit;
    assert ([e] + es)[1..] == es;
  }

  lemma {:induction false} Append(s: State, es: seq<Event>, more: seq<Event>)
    requires Runs(s, es) && Runs(After(s, es), more)
    ensures Runs(s, es + more) && After(s, es + more) == After(After(s, es), more)
    decreases |es|
  {
    hide Enabled, Next;
    if es == [] {
      assert es + more == more;
    } else {
      assert (es + more)[1..] == es[1..] + more;
      Append(Next(s, es[0]), es[1..], more);
    }
  }

  lemma Stays(s: State, e: Event)
    requires Enabled(s, e) && Driven(s, e)
    ensures BeginsSubmit(s, e) == 0 && (Next(s, e).main.Serving? <==> s.main.Serving?)
    ensures |Next(s, e).workers| == |s.workers| && |Next(s, e).clients| == |s.clients|
  {
  }

  // Left to itself a pool comes to rest: it has no step of its own left.
  lemma {:induction false} Settle(s: State) returns (es: seq<Event>)
    requires Inv(s)
    ensures Runs(s, es) && Inv(After(s, es)) && !CanMove(After(s, es)) && Begun(s, es) == 0
    ensures After(s, es).main.Serving? <==> s.main.Serving?
    ensures |After(s, es).workers| == |s.workers| && |After(s, es).clients| == |s.clients|
    decreases ToDo(s)
  {
    hide MutexInv, StatsInv, QueueInv, OnceInv, CountInv, WakeInv, ShutdownInv, ExitInv;
    hide Enabled, Next, Driven, ToDo, BeginsSubmit;
    es := [];
    if e :| Enabled(s, e) && Driven(s, e) {
      InvKept(s, e);
      StepsCharged(s, e);
      Stays(s, e);
      var rest := Settle(Next(s, e));
      Precede(s, e, rest);
      es := [e] + rest;
    }
  }

  // What rest looks like while the pool serves.
  lemma Resting(s: State)
    requires Inv(s) && s.workers != [] && !CanMove(s)
    ensures s.main.Serving? || s.main.Finished?
    ensures s.main.Serving? ==> forall j :: 0 <= j < |s.clients| ==> s.clients[j].Idle?
  {
    hide MutexInv, StatsInv, QueueInv, OnceInv, CountInv, WakeInv, ShutdownInv, ExitInv, CanMove;
    if Busy(s) && !s.main.Finished? {
      NeverStuck(s);
    }
  }

  // One event of the outside, then rest.
  lemma Then(s: State, e: Event) returns (es: seq<Event>)
    requires Inv(s) && s.workers != [] && Enabled(s, e) && (e.Submit? || e.Destroy?)
    ensures Runs(s, es) && Inv(After(s, es)) && !CanMove(After(s, es)) && Begun(s, es) == BeginsSubmit(s, e)
    ensures After(s, es).main.Serving? <==> Next(s, e).main.Serving?
    ensures |After(s, es).workers| == |s.workers| && |After(s, es).clients| == |s.clients|
  {
    hide MutexInv, StatsInv, QueueInv, OnceInv, CountInv, WakeInv, ShutdownInv, ExitInv, CanMove, BeginsSubmit, Begun;
    InvKept(s, e);
    WorkersStay(s, e);
    ClientsStay(s, e);
    hide Next, Enabled, Inv;
    var rest := Settle(Next(s, e));
    Precede(s, e, rest);
    es := [e] + rest;
  }

  lemma ClientsStay(s: State, e: Event)
    requires Enabled(s, e)
    ensures |Next(s, e).clients| == |s.clients|
  {
  }

  // At rest and serving, n tasks submitted.
  ghost predicate AtRest(s: State, n: nat) {
    Inv(s) && s.workers != [] && s.clients != [] && s.main.Serving? && !CanMove(s) && s.submitted == n
  }

  // One more task: submitted, run, and at rest again.
  lemma OneMoreTask(s: State, n: nat) returns (es: seq<Event>)
    requires AtRest(s, n)
    ensures Runs(s, es) && AtRest(After(s, es), n + 1)
  {
    hide Inv, CanMove, Runs, After, Begun;
    Resting(s);
    assert BeginsSubmit(s, Submit(0, 0)) == 1;
    es := Then(s, Submit(0, 0));
    SubmitsCounted(s, es);
    Resting(After(s, es));
    SumZero(Preparing, s.clients);
    SumZero(Preparing, After(s, es).clients);
  }

  // Any number of tasks can be submitted.
  lemma {:induction false} TasksServed(s: State, n: nat) returns (es: seq<Event>)
    requires Initial(s) && s.workers != [] && s.clients != []
    ensures Runs(s, es) && AtRest(After(s, es), n)
    decreases n
  {
    hide AtRest, Initial, Inv, CanMove, Runs, After;
    if n == 0 {
      es := NoTasks(s);
    } else {
      es := TasksServed(s, n - 1);
      var more := OneMoreTask(After(s, es), n - 1);
      Append(s, es, more);
      es := es + more;
    }
  }

  lemma NoTasks(s: State) returns (es: seq<Event>)
    requires Initial(s) && s.workers != [] && s.clients != []
    ensures Runs(s, es) && AtRest(After(s, es), 0)
  {
    hide Inv, CanMove, Runs, After, Begun;
    InitialInv(s);
    es := Settle(s);
    AllSubmitted(s, es);
  }

  lemma DestroyBegins(s: State, n: nat)
    requires AtRest(s, n)
    ensures Enabled(s, Destroy) && !Next(s, Destroy).main.Serving? && BeginsSubmit(s, Destroy) == 0
    ensures Sum(Preparing, s.clients) == 0
  {
    hide Inv, CanMove;
    Resting(s);
    SumZero(Preparing, s.clients);
  }

  // From the start of any pool there is a run that submits n tasks, runs each of them once, and returns from
  // pool_destroy.
  lemma PoolServes(s: State, n: nat) returns (es: seq<Event>)
    requires Initial(s) && s.workers != [] && s.clients != []
    ensures Runs(s, es)
    ensures var t := After(s, es);
            && t.main.Finished? && t.submitted == t.completed == n && t.queue == []
            && multiset(t.executed) == FirstTasks(n)
  {
    hide Initial, Inv, CanMove, Runs, After, FirstTasks, Begun;
    es := TasksServed(s, n);
    var t := After(s, es);
    DestroyBegins(t, n);
    var more := Then(t, Destroy);
    hide Enabled, Next;
    SubmitsCounted(t, more);
    Resting(After(t, more));
    ClientsAtRest(After(t, more));
    RestIsDone(After(t, more));
    Append(s, es, more);
    es := es + more;
  }

  // Once the destroy has begun no submit is under way.
  lemma ClientsAtRest(s: State)
    requires Inv(s) && !s.main.Serving?
    ensures Sum(Preparing, s.clients) == 0
  {
    SumZero(Preparing, s.clients);
  }
}

// The unprotected counter of thread_debug.c, worker_thread, and thread_lab.c, unsafe_increment: each
// increment is a load and a store, and other threads may run in between.
module LostUpdates {
  import opened Sums

  datatype Phase = Between | Loaded(tmp: nat)

  datatype Thread = Thread(done: nat, phase: Phase)

  datatype State = State(counter: nat, threads: seq<Thread>)

  datatype Event = Load(t: nat) | Store(t: nat)

  predicate Enabled(n: nat, s: State, e: Event) {
    && e.t < |s.threads|
    && match e
       case Load(t) => s.threads[t].phase.Between? && s.threads[t].done < n
       case Store(t) => s.threads[t].phase.Loaded?
  }

  function Next(n: nat, s: State, e: Event): State
    requires Enabled(n, s, e)
  {
    match e
    case Load(t) => s.(threads := s.threads[t := s.threads[t].(phase := Loaded(s.counter))])
    case Store(t) =>
      State(s.threads[t].phase.tmp + 1, s.threads[t := Thread(s.threads[t].done + 1, Between)])
  }

  function Start(threads: nat): State { State(0, seq(threads, _ => Thread(0, Between))) }

  predicate Runs(n: nat, s: State, es: seq<Event>)
    decreases |es|
  {
    es == [] || (Enabled(n, s, es[0]) && Runs(n, Next(n, s, es[0]), es[1..]))
  }

  function After(n: nat, s: State, es: seq<Event>): State
    requires Runs(n, s, es)
    decreases |es|
  {
    if es == [] then s else After(n, Next(n, s, es[0]), es[1..])
  }

  // Every thread has done its n increments.
  predicate Finished(n: nat, s: State) {
    forall t :: 0 <= t < |s.threads| ==> s.threads[t] == Thread(n, Between)
  }

  // The values the counter may end with.
  ghost predicate Possible(threads: nat, n: nat, v: nat) {
    exists es :: Runs(n, Start(threads), es) && Finished(n, After(n, Start(threads), es))
                 && After(n, Start(threads), es).counter == v
  }

  // ---------------------------------------------------------------- bounds

  const DONE := (th: Thread) => th.done

  // Nobody has seen more than the increments made so far, and after one's first store one sees at least 1.
  predicate SeenInv(s: State) {
    && s.counter <= Sum(DONE, s.threads)
    && forall t :: 0 <= t < |s.threads| ==>
         && (s.threads[t].phase.Loaded? ==> s.threads[t].phase.tmp <= Sum(DONE, s.threads))
         && (s.threads[t].done > 0 ==> s.counter > 0)
         && (s.threads[t].done > 0 && s.threads[t].phase.Loaded? ==> s.threads[t].phase.tmp > 0)
  }

  // While the counter is below 2, someone still has more than one increment to make.
  predicate LowInv(s: State) {
    s.counter < 2 ==> exists t :: 0 <= t < |s.threads| && s.threads[t].done <= 1
  }

  lemma SeenKept(n: nat, s: State, e: Event)
    requires SeenInv(s) && Enabled(n, s, e)
    ensures SeenInv(Next(n, s, e))
  {
    SumUpdate(DONE, s.threads, e.t, Next(n, s, e).threads[e.t]);
  }

  lemma LowKept(n: nat, s: State, e: Event)
    requires SeenInv(s) && LowInv(s) && Enabled(n, s, e)
    ensures LowInv(Next(n, s, e))
  {
    var after := Next(n, s, e);
    if after.counter < 2 {
      match e
      case Load(t) =>
        var u :| 0 <= u < |s.threads| && s.threads[u].done <= 1;
        assert after.threads[u].done <= 1;
      case Store(t) => assert after.threads[t].done <= 1;
    }
  }

  lemma StartInv(threads: nat)
    requires threads >= 1
    ensures SeenInv(Start(threads)) && LowInv(Start(threads))
  {
    assert Start(threads).threads[0].done <= 1;
  }

  lemma {:induction false} SeenAlways(n: nat, s: State, es: seq<Event>)
    requires SeenInv(s) && Runs(n, s, es)
    ensures SeenInv(After(n, s, es)) && |After(n, s, es).threads| == |s.threads|
    decreases |es|
  {
    hide SeenInv;
    if es != [] {
      SeenKept(n, s, es[0]);
      SeenAlways(n, Next(n, s, es[0]), es[1..]);
    }
  }

  lemma {:induction false} LowAlways(n: nat, s: State, es: seq<Event>)
    requires SeenInv(s) && LowInv(s) && Runs(n, s, es)
    ensures LowInv(After(n, s, es))
    decreases |es|
  {
    hide SeenInv, LowInv;
    if es != [] {
      SeenKept(n, s, es[0]);
      LowKept(n, s, es[0]);
      LowAlways(n, Next(n, s, es[0]), es[1..]);
    }
  }

  // A thread that is alone loses nothing.
  predicate AloneInv(s: State) {
    && |s.threads| == 1 && s.counter == s.threads[0].done
    && (s.threads[0].phase.Loaded? ==> s.threads[0].phase.tmp == s.counter)
  }

  lemma {:induction false} AloneAlways(n: nat, s: State, es: seq<Event>)
    requires AloneInv(s) && Runs(n, s, es)
    ensures AloneInv(After(n, s, es))
    decreases |es|
  {
    if es != [] {
      AloneAlways(n, Next(n, s, es[0]), es[1..]);
    }
  }

  // The least value the counter may end with.
  function Least(threads: nat, n: nat): nat {
    if threads == 0 || n == 0 then 0 else if threads == 1 then n else if n == 1 then 1 else 2
  }

  lemma FinalBounds(threads: nat, n: nat, es: seq<Event>)
    requires Runs(n, Start(threads), es) && Finished(n, After(n, Start(threads), es))
    ensures Least(threads, n) <= After(n, Start(threads), es).counter <= threads * n
  {
    hide Runs, After;
    var end := After(n, Start(threads), es);
    SeenAlways(n, Start(threads), es);
    SumConstant(DONE, end.threads, n);
    if threads >= 1 {
      assert end.threads[0].done == n;
      StartInv(threads);
      LowAlways(n, Start(threads), es);
    }
    if threads == 1 {
      AloneAlways(n, Start(threads), es);
    }
  }

  // ---------------------------------------------------------------- every value in between

  ghost predicate Reaches(n: nat, s: State, s': State) {
    exists es :: Runs(n, s, es) && After(n, s, es) == s'
  }

  lemma {:induction false} Concatenate(n: nat, s: State, es: seq<Event>, fs: seq<Event>)
    requires Runs(n, s, es) && Runs(n, After(n, s, es), fs)
    ensures Runs(n, s, es + fs) && After(n, s, es + fs) == After(n, After(n, s, es), fs)
    decreases |es|
  {
    hide Enabled, Next;
    if es == [] {
      assert es + fs == fs;
    } else {
      assert (es + fs)[1..] == es[1..] + fs;
      Concatenate(n, Next(n, s, es[0]), es[1..], fs);
    }
  }

  lemma Then(n: nat, s: State, s': State, s'': State)
    requires Reaches(n, s, s') && Reaches(n, s', s'')
    ensures Reaches(n, s, s'')
  {
    var es :| Runs(n, s, es) && After(n, s, es) == s';
    var fs :| Runs(n, s', fs) && After(n, s', fs) == s'';
    Concatenate(n, s, es, fs);
  }

  lemma Stay(n: nat, s: State)
    ensures Reaches(n, s, s)
  {
    assert Runs(n, s, []) && After(n, s, []) == s;
  }

  lemma Step(n: nat, s: State, e: Event)
    requires Enabled(n, s, e)
    ensures Reaches(n, s, Next(n, s, e))
  {
    hide Enabled, Next;
    assert [e][1..] == [];
    assert Runs(n, s, [e]) && After(n, s, [e]) == Next(n, s, e);
  }

  // Thread t after k more increments undisturbed.
  function Alone(s: State, t: nat, k: nat): State
    requires t < |s.threads|
  {
    State(s.counter + k, s.threads[t := s.threads[t].(done := s.threads[t].done + k)])
  }

  lemma {:induction false} RunAlone(n: nat, s: State, t: nat, k: nat)
    requires t < |s.threads| && s.threads[t].phase.Between? && s.threads[t].done + k <= n
    ensures Reaches(n, s, Alone(s, t, k))
    decreases k
  {
    hide Reaches;
    if k == 0 {
      Stay(n, s);
      assert Alone(s, t, 0) == s;
    } else {
      var s1 := Next(n, s, Load(t));
      var s2 := Next(n, s1, Store(t));
      Step(n, s, Load(t));
      Step(n, s1, Store(t));
      Then(n, s, s1, s2);
      RunAlone(n, s2, t, k - 1);
      assert Alone(s2, t, k - 1) == Alone(s, t, k);
      Then(n, s, s2, Alone(s, t, k));
    }
  }

  // Threads from k on brought to their targets, one after the other.
  function Brought(threads: seq<Thread>, targets: seq<nat>, k: nat): seq<Thread>
    requires |targets| == |threads|
  {
    seq(|threads|, t requires 0 <= t < |threads| => if t < k then threads[t] else threads[t].(done := targets[t]))
  }

  lemma {:induction false} RunAll(n: nat, s: State, targets: seq<nat>, k: nat) returns (s': State)
    requires |targets| == |s.threads| && k <= |s.threads|
    requires forall t :: k <= t < |s.threads| ==> s.threads[t].phase.Between? && s.threads[t].done <= targets[t] <= n
    ensures Reaches(n, s, s') && s'.threads == Brought(s.threads, targets, k)
    ensures s'.counter - s.counter == Sum(DONE, s'.threads) - Sum(DONE, s.threads)
    decreases |s.threads| - k
  {
    hide Reaches;
    if k == |s.threads| {
      s' := s;
      Stay(n, s);
    } else {
      var more := targets[k] - s.threads[k].done;
      var s1 := Alone(s, k, more);
      RunAlone(n, s, k, more);
      SumUpdate(DONE, s.threads, k, s1.threads[k]);
      s' := RunAll(n, s1, targets, k + 1);
      assert s'.threads == Brought(s.threads, targets, k);
      Then(n, s, s1, s');
    }
  }

  const SELF := (x: nat) => x

  // m increments shared out among k threads of at most n each.
  lemma {:induction false} Share(m: nat, k: nat, n: nat) returns (parts: seq<nat>)
    requires m <= k * n
    ensures |parts| == k && Sum(SELF, parts) == m && forall i :: 0 <= i < k ==> parts[i] <= n
  {
    if k == 0 {
      parts := [];
    } else {
      var first := if m <= n then m else n;
      assert m - first <= (k - 1) * n by {
        assert k * n == (k - 1) * n + n;
        assert (k - 1) * n >= 0;
      }
      var rest := Share(m - first, k - 1, n);
      parts := [first] + rest;
      assert parts[1..] == rest;
    }
  }

  // Thread 0 has read the untouched counter.
  function Ahead(threads: nat): State
    requires threads >= 1
  {
    State(0, Start(threads).threads[0 := Thread(0, Loaded(0))])
  }

  lemma GetAhead(threads: nat, n: nat)
    requires threads >= 1 && n >= 1
    ensures Reaches(n, Start(threads), Ahead(threads)) && Sum(DONE, Ahead(threads).threads) == 0
  {
    hide Reaches;
    Step(n, Start(threads), Load(0));
    SumZero(DONE, Ahead(threads).threads);
  }

  // Thread 0 reads, the others make the increments of `targets`, and thread 0's store throws them away.
  lemma ThrowAway(threads: nat, n: nat, targets: seq<nat>) returns (s: State)
    requires threads >= 1 && n >= 1 && |targets| == threads && targets[0] == 0
    requires forall t :: 0 <= t < threads ==> targets[t] <= n
    ensures Reaches(n, Start(threads), s)
    ensures s == State(1,
      seq(threads, t requires 0 <= t < threads => Thread(if t == 0 then 1 else targets[t], Between)))
  {
    hide Reaches;
    GetAhead(threads, n);
    var s2 := RunAll(n, Ahead(threads), targets, 1);
    Then(n, Start(threads), Ahead(threads), s2);
    assert s2.threads[0] == Thread(0, Loaded(0));
    s := Next(n, s2, Store(0));
    Step(n, s2, Store(0));
    Then(n, Start(threads), s2, s);
    assert s.threads == seq(threads, t requires 0 <= t < threads => Thread(if t == 0 then 1 else targets[t], Between));
  }

  lemma ReachedIsPossible(threads: nat, n: nat, s: State)
    requires Reaches(n, Start(threads), s) && Finished(n, s)
    ensures Possible(threads, n, s.counter)
  {
    hide Runs, After;
    var es :| Runs(n, Start(threads), es) && After(n, Start(threads), es) == s;
  }

  lemma DoneOfTargets(threads: seq<Thread>, targets: seq<nat>)
    requires |threads| == |targets| > 0 && targets[0] == 0 && threads[0].done == 1
    requires forall t :: 1 <= t < |threads| ==> threads[t].done == targets[t]
    ensures Sum(DONE, threads) == Sum(SELF, targets) + 1
  {
    SumAgree(DONE, SELF, threads[1..], targets[1..]);
  }

  // m increments lost, in one stroke: any final value from n to threads * n.
  lemma LoseMany(threads: nat, n: nat, m: nat)
    requires threads >= 2 && n >= 1 && m <= (threads - 1) * n
    ensures Possible(threads, n, threads * n - m)
  {
    hide Reaches, Possible;
    var parts := Share(m, threads - 1, n);
    var targets := [0] + parts;
    assert targets[1..] == parts;
    var s := ThrowAway(threads, n, targets);
    DoneOfTargets(s.threads, targets);
    var s' := RunAll(n, s, seq(threads, _ => n), 0);
    Then(n, Start(threads), s, s');
    SumConstant(DONE, s'.threads, n);
    ReachedIsPossible(threads, n, s');
  }

  // All but the first and the last increment of thread 1 are thrown away by thread 0; thread 1's last store
  // then throws away all but j of thread 0's.
  lemma LoseAlmostAll(threads: nat, n: nat, j: nat)
    requires threads >= 2 && n >= 2 && j < n
    ensures Possible(threads, n, 2 + j)
  {
    hide Reaches, Possible;
    var targets := [0, n - 1] + seq(threads - 2, _ => n);
    var s3 := ThrowAway(threads, n, targets);
    var s4 := Alone(s3, 0, j);
    RunAlone(n, s3, 0, j);
    Then(n, Start(threads), s3, s4);
    var s5 := Next(n, s4, Load(1));
    Step(n, s4, Load(1));
    Then(n, Start(threads), s4, s5);
    var s6 := Alone(s5, 0, n - 1 - j);
    RunAlone(n, s5, 0, n - 1 - j);
    Then(n, Start(threads), s5, s6);
    var s7 := Next(n, s6, Store(1));
    Step(n, s6, Store(1));
    Then(n, Start(threads), s6, s7);
    ReachedIsPossible(threads, n, s7);
  }

  // One thread after the other loses nothing.
  lemma NoneLost(threads: nat, n: nat)
    ensures Possible(threads, n, threads * n)
  {
    hide Reaches, Possible;
    var s := RunAll(n, Start(threads), seq(threads, _ => n), 0);
    SumZero(DONE, Start(threads).threads);
    SumConstant(DONE, s.threads, n);
    ReachedIsPossible(threads, n, s);
  }

  // For every number of threads and of increments, the values the counter may end with: none is lost by a
  // single thread, at least one of many single increments counts, and otherwise they are exactly the
  // values from 2 on.
  lemma FinalValues(threads: nat, n: nat, v: nat)
    ensures Possible(threads, n, v) <==> Least(threads, n) <= v <= threads * n
  {
    if Possible(threads, n, v) {
      var es :| Runs(n, Start(threads), es) && Finished(n, After(n, Start(threads), es))
                && After(n, Start(threads), es).counter == v;
      FinalBounds(threads, n, es);
    }
    if Least(threads, n) <= v <= threads * n {
      if v == threads * n {
        NoneLost(threads, n);
      } else if v < n {
        LoseAlmostAll(threads, n, v - 2);
      } else {
        assert threads * n == (threads - 1) * n + n;
        LoseMany(threads, n, threads * n - v);
      }
    }
  }

  // No update can be lost exactly when there is at most one thread, or nothing to do.
  lemma NothingLostExactly(threads: nat, n: nat)
    ensures (forall v :: Possible(threads, n, v) ==> v == threads * n) <==> threads <= 1 || n == 0
  {
    hide Possible;
    if threads <= 1 || n == 0 {
      forall v | Possible(threads, n, v) ensures v == threads * n {
        FinalValues(threads, n, v);
      }
    } else {
      assert (threads - 1) * n >= 1;
      LoseMany(threads, n, 1);
    }
  }
}

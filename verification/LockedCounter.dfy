// The counter of thread_lab.c, safe_increment: the same load and store, inside a mutex.
module LockedCounter {
  import opened Sums

  datatype Phase = Outside | Locked | Loaded(tmp: nat) | Stored

  datatype Thread = Thread(done: nat, phase: Phase)

  datatype Mutex = Free | HeldBy(t: nat)

  datatype State = State(counter: nat, mutex: Mutex, threads: seq<Thread>)

  // Thread t takes its next step: lock, load, store or unlock.
  predicate Enabled(n: nat, s: State, t: nat) {
    && t < |s.threads|
    && (s.threads[t].phase.Outside? ==> s.threads[t].done < n && s.mutex.Free?)
  }

  function Next(n: nat, s: State, t: nat): State
    requires Enabled(n, s, t)
  {
    var th := s.threads[t];
    match th.phase
    case Outside => State(s.counter, HeldBy(t), s.threads[t := th.(phase := Locked)])
    case Locked => s.(threads := s.threads[t := th.(phase := Loaded(s.counter))])
    case Loaded(tmp) => s.(counter := tmp + 1, threads := s.threads[t := Thread(th.done + 1, Stored)])
    case Stored => s.(mutex := Free, threads := s.threads[t := th.(phase := Outside)])
  }

  function Start(threads: nat): State { State(0, Free, seq(threads, _ => Thread(0, Outside))) }

  predicate Runs(n: nat, s: State, ts: seq<nat>)
    decreases |ts|
  {
    ts == [] || (Enabled(n, s, ts[0]) && Runs(n, Next(n, s, ts[0]), ts[1..]))
  }

  function After(n: nat, s: State, ts: seq<nat>): State
    requires Runs(n, s, ts)
    decreases |ts|
  {
    if ts == [] then s else After(n, Next(n, s, ts[0]), ts[1..])
  }

  const DONE := (th: Thread) => th.done

  // Only the holder is inside, what it loaded is current, and the counter has every increment made so far.
  predicate Inv(n: nat, s: State) {
    && s.counter == Sum(DONE, s.threads)
    && (forall t :: 0 <= t < |s.threads| ==> s.threads[t].done <= n)
    && (forall t :: 0 <= t < |s.threads| ==> (!s.threads[t].phase.Outside? <==> s.mutex == HeldBy(t)))
    && (forall t :: 0 <= t < |s.threads| && s.threads[t].phase.Loaded? ==> s.threads[t].phase.tmp == s.counter)
    && (forall t :: 0 <= t < |s.threads| && (s.threads[t].phase.Locked? || s.threads[t].phase.Loaded?) ==>
          s.threads[t].done < n)
    && (s.mutex.HeldBy? ==> s.mutex.t < |s.threads|)
  }

  lemma InvKept(n: nat, s: State, t: nat)
    requires Inv(n, s) && Enabled(n, s, t)
    ensures Inv(n, Next(n, s, t))
  {
    SumUpdate(DONE, s.threads, t, Next(n, s, t).threads[t]);
  }

  lemma {:induction false} Always(n: nat, s: State, ts: seq<nat>)
    requires Inv(n, s) && Runs(n, s, ts)
    ensures Inv(n, After(n, s, ts)) && |After(n, s, ts).threads| == |s.threads|
    decreases |ts|
  {
    hide Inv;
    if ts != [] {
      InvKept(n, s, ts[0]);
      Always(n, Next(n, s, ts[0]), ts[1..]);
    }
  }

  // Steps a thread has taken: four to an increment.
  function StepsOf(th: Thread): nat {
    match th.phase
    case Outside => 4 * th.done
    case Locked => 4 * th.done + 1
    case Loaded(_) => 4 * th.done + 2
    case Stored => if th.done == 0 then 0 else 4 * th.done - 1
  }

  const STEPS := (th: Thread) => StepsOf(th)

  lemma {:induction false} StepsCounted(n: nat, s: State, ts: seq<nat>)
    requires Inv(n, s) && Runs(n, s, ts)
    requires forall t :: 0 <= t < |s.threads| && s.threads[t].phase.Stored? ==> s.threads[t].done > 0
    ensures Sum(STEPS, After(n, s, ts).threads) == Sum(STEPS, s.threads) + |ts|
    decreases |ts|
  {
    hide Inv;
    if ts != [] {
      InvKept(n, s, ts[0]);
      SumUpdate(STEPS, s.threads, ts[0], Next(n, s, ts[0]).threads[ts[0]]);
      StepsCounted(n, Next(n, s, ts[0]), ts[1..]);
    }
  }

  lemma StepsBounded(n: nat, s: State)
    requires Inv(n, s)
    ensures Sum(STEPS, s.threads) <= |s.threads| * (4 * n)
  {
    SumAtMost(STEPS, s.threads, 4 * n);
  }

  // Every run is finite, and where it can go no further all have made their increments and none is lost.
  lemma CountsEveryIncrement(threads: nat, n: nat, ts: seq<nat>) returns (t: nat)
    requires Runs(n, Start(threads), ts)
    ensures |ts| <= threads * (4 * n)
    ensures
      var s := After(n, Start(threads), ts);
      || Enabled(n, s, t)
      || (s.counter == threads * n && |s.threads| == threads
          && forall u :: 0 <= u < threads ==> s.threads[u] == Thread(n, Outside))
  {
    hide Runs, After, StepsOf;
    SumZero(DONE, Start(threads).threads);
    Always(n, Start(threads), ts);
    var s := After(n, Start(threads), ts);
    StepsCounted(n, Start(threads), ts);
    StepsBounded(n, s);
    t := 0;
    if s.mutex.HeldBy? {
      t := s.mutex.t;
    } else if u: nat :| u < threads && s.threads[u].done < n {
      t := u;
    } else {
      SumConstant(DONE, s.threads, n);
    }
  }
}

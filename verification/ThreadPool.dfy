// The thread pool of thread_pool.c as a transition system: any number of workers and of submitting
// threads, one thread that destroys the pool, an explicit queue mutex, a condition variable's wait
// set with spurious wakeups, and the statistics mutex.
module ThreadPool {
  import opened Sums

  // Tasks are numbered in the order pool_submit appends them.
  type Task = nat

  // Where a worker is in its loop.
  datatype Worker =
    | AtLock                 // about to lock the queue mutex
    | AtCheck                // holds it; about to evaluate the loop and shutdown conditions
    | Waiting                // in the wait set of `cond`
    | Woken                  // left the wait set, needs the mutex back
    | AtUnlock(task: Task)   // holds the mutex and a dequeued task
    | AtExitUnlock           // holds the mutex, about to leave
    | Running(task: Task)
    | AtStats                // ran its task; about to lock stats_mutex
    | InStats                // holds stats_mutex, about to count the task
    | AtStatsUnlock
    | Exited

  datatype Client = Idle | Locking | Appending | Signalling | Unlocking

  datatype Destroyer = Serving | Locking' | Setting | Broadcasting | Unlocking' | Joining(next: nat) | Finished

  datatype Owner = Free | OwnedByWorker(i: nat) | OwnedByClient(j: nat) | OwnedByMain

  datatype Holder = Nobody | Somebody(i: nat)

  datatype State = State(
    mutex: Owner, stats: Holder,
    queue: seq<Task>, taskCount: int, shutdown: bool,
    workers: seq<Worker>, clients: seq<Client>, main: Destroyer,
    submitted: nat, executed: seq<Task>, completed: nat)

  datatype Event =
    | Work(i: nat)           // one step of worker i
    | Wakeup(i: nat)         // a spurious wakeup
    | Submit(j: nat, w: nat) // one step of submitting thread j; w is the worker its signal wakes
    | Destroy                // one step of pool_destroy

  predicate IsWaiting(s: State, w: nat) { w < |s.workers| && s.workers[w].Waiting? }

  predicate NoneWaits(ws: seq<Worker>) { forall i :: 0 <= i < |ws| ==> !ws[i].Waiting? }

  // ---------------------------------------------------------------- steps

  predicate WorkEnabled(s: State, i: nat) {
    && i < |s.workers|
    && match s.workers[i]
       case AtLock => s.mutex.Free?
       case Woken => s.mutex.Free?
       case AtStats => s.stats.Nobody?
       case Waiting => false
       case Exited => false
       case _ => true
  }

  function WorkStep(s: State, i: nat): State
    requires WorkEnabled(s, i)
  {
    match s.workers[i]
    case AtLock => s.(mutex := OwnedByWorker(i), workers := s.workers[i := AtCheck])
    case Woken => s.(mutex := OwnedByWorker(i), workers := s.workers[i := AtCheck])
    case AtCheck =>
      if s.queue == [] && !s.shutdown then s.(mutex := Free, workers := s.workers[i := Waiting])
      else if s.shutdown && s.queue == [] then s.(workers := s.workers[i := AtExitUnlock])
      else s.(queue := s.queue[1..], taskCount := s.taskCount - 1,
              workers := s.workers[i := AtUnlock(s.queue[0])])
    case AtUnlock(t) => s.(mutex := Free, workers := s.workers[i := Running(t)])
    case AtExitUnlock => s.(mutex := Free, workers := s.workers[i := Exited])
    case Running(t) => s.(executed := s.executed + [t], workers := s.workers[i := AtStats])
    case AtStats => s.(stats := Somebody(i), workers := s.workers[i := InStats])
    case InStats => s.(completed := s.completed + 1, workers := s.workers[i := AtStatsUnlock])
    case AtStatsUnlock => s.(stats := Nobody, workers := s.workers[i := AtLock])
  }

  // A submit may begin only while the pool is not being destroyed.
  predicate SubmitEnabled(s: State, j: nat, w: nat) {
    && j < |s.clients|
    && match s.clients[j]
       case Idle => s.main.Serving?
       case Locking => s.mutex.Free?
       case Signalling => IsWaiting(s, w) || NoneWaits(s.workers)
       case _ => true
  }

  function SubmitStep(s: State, j: nat, w: nat): State
    requires SubmitEnabled(s, j, w)
  {
    match s.clients[j]
    case Idle => s.(clients := s.clients[j := Locking])
    case Locking => s.(mutex := OwnedByClient(j), clients := s.clients[j := Appending])
    case Appending =>
      s.(queue := s.queue + [s.submitted], taskCount := s.taskCount + 1, submitted := s.submitted + 1,
         clients := s.clients[j := Signalling])
    case Signalling =>
      s.(clients := s.clients[j := Unlocking],
         workers := if IsWaiting(s, w) then s.workers[w := Woken] else s.workers)
    case Unlocking => s.(mutex := Free, clients := s.clients[j := Idle])
  }

  predicate DestroyEnabled(s: State) {
    match s.main
    case Serving => forall j :: 0 <= j < |s.clients| ==> s.clients[j].Idle?
    case Locking' => s.mutex.Free?
    case Joining(k) => k < |s.workers| ==> s.workers[k].Exited?
    case Finished => false
    case _ => true
  }

  function WakeAll(ws: seq<Worker>): (r: seq<Worker>)
    ensures |r| == |ws|
    ensures forall i :: 0 <= i < |ws| ==> r[i] == if ws[i].Waiting? then Woken else ws[i]
  {
    if ws == [] then [] else [if ws[0].Waiting? then Woken else ws[0]] + WakeAll(ws[1..])
  }

  function DestroyStep(s: State): State
    requires DestroyEnabled(s)
  {
    match s.main
    case Serving => s.(main := Locking')
    case Locking' => s.(mutex := OwnedByMain, main := Setting)
    case Setting => s.(shutdown := true, main := Broadcasting)
    case Broadcasting => s.(workers := WakeAll(s.workers), main := Unlocking')
    case Unlocking' => s.(mutex := Free, main := Joining(0))
    case Joining(k) => s.(main := if k < |s.workers| then Joining(k + 1) else Finished)
  }

  predicate Enabled(s: State, e: Event) {
    match e
    case Work(i) => WorkEnabled(s, i)
    case Wakeup(i) => IsWaiting(s, i)
    case Submit(j, w) => SubmitEnabled(s, j, w)
    case Destroy => DestroyEnabled(s)
  }

  function Next(s: State, e: Event): State
    requires Enabled(s, e)
  {
    match e
    case Work(i) => WorkStep(s, i)
    case Wakeup(i) => s.(workers := s.workers[i := Woken])
    case Submit(j, w) => SubmitStep(s, j, w)
    case Destroy => DestroyStep(s)
  }

  // pool_create: every worker starts at the top of its loop.
  predicate Initial(s: State) {
    && s.mutex.Free? && s.stats.Nobody? && s.queue == [] && s.taskCount == 0 && !s.shutdown
    && (forall i :: 0 <= i < |s.workers| ==> s.workers[i].AtLock?)
    && (forall j :: 0 <= j < |s.clients| ==> s.clients[j].Idle?)
    && s.main.Serving? && s.submitted == 0 && s.executed == [] && s.completed == 0
  }

  predicate Runs(s: State, es: seq<Event>)
    decreases |es|
  {
    es == [] || (Enabled(s, es[0]) && Runs(Next(s, es[0]), es[1..]))
  }

  function After(s: State, es: seq<Event>): State
    requires Runs(s, es)
    decreases |es|
  {
    if es == [] then s else After(Next(s, es[0]), es[1..])
  }

  // ---------------------------------------------------------------- invariant

  predicate HoldsMutex(w: Worker) { w.AtCheck? || w.AtUnlock? || w.AtExitUnlock? }

  predicate HoldsStats(w: Worker) { w.InStats? || w.AtStatsUnlock? }

  predicate ClientHolds(c: Client) { c.Appending? || c.Signalling? || c.Unlocking? }

  predicate MainHolds(m: Destroyer) { m.Setting? || m.Broadcasting? || m.Unlocking'? }

  predicate MutexInv(s: State) {
    && (forall i: nat :: i < |s.workers| ==> (HoldsMutex(s.workers[i]) <==> s.mutex == OwnedByWorker(i)))
    && (forall j: nat :: j < |s.clients| ==> (ClientHolds(s.clients[j]) <==> s.mutex == OwnedByClient(j)))
    && (MainHolds(s.main) <==> s.mutex.OwnedByMain?)
    && (s.mutex.OwnedByWorker? ==> s.mutex.i < |s.workers|)
    && (s.mutex.OwnedByClient? ==> s.mutex.j < |s.clients|)
  }

  predicate StatsInv(s: State) {
    && (forall i: nat :: i < |s.workers| ==> (HoldsStats(s.workers[i]) <==> s.stats == Somebody(i)))
    && (s.stats.Somebody? ==> s.stats.i < |s.workers|)
  }

  function Taken(s: State): int { s.submitted - |s.queue| }

  // FIFO: the queue holds the latest submissions in order, so tasks leave in submission order.
  predicate QueueInv(s: State) {
    && s.taskCount == |s.queue| <= s.submitted
    && forall k :: 0 <= k < |s.queue| ==> s.queue[k] == Taken(s) + k
  }

  function HeldBy(w: Worker): multiset<Task> {
    if w.AtUnlock? || w.Running? then multiset{w.task} else multiset{}
  }

  function Held(ws: seq<Worker>): multiset<Task> {
    if ws == [] then multiset{} else HeldBy(ws[0]) + Held(ws[1..])
  }

  function FirstTasks(n: nat): multiset<Task> {
    if n == 0 then multiset{} else FirstTasks(n - 1) + multiset{n - 1}
  }

  // Every task taken from the queue is held by one worker or has been executed, exactly once.
  predicate OnceInv(s: State) {
    Taken(s) >= 0 && OnceOf(s.executed, s.workers, Taken(s))
  }

  predicate OnceOf(executed: seq<Task>, ws: seq<Worker>, taken: nat) {
    multiset(executed) + Held(ws) == FirstTasks(taken)
  }

  function Uncounted(w: Worker): nat { if w.AtStats? || w.InStats? then 1 else 0 }

  function Holding(w: Worker): nat { if w.AtUnlock? || w.Running? then 1 else 0 }

  function Waits(w: Worker): nat { if w.Waiting? then 1 else 0 }

  predicate CountInv(s: State) {
    && |s.executed| == s.completed + Sum(Uncounted, s.workers)
    && Taken(s) == |s.executed| + Sum(Holding, s.workers)
  }

  predicate SignalPending(s: State) {
    s.mutex.OwnedByClient? && s.mutex.j < |s.clients| && s.clients[s.mutex.j].Signalling?
  }

  // No lost wakeup: while a worker waits, the others are at least as many as the queued tasks.
  predicate WakeInv(s: State) {
    var waiting := Sum(Waits, s.workers);
    waiting == 0 || |s.queue| <= |s.workers| - waiting + (if SignalPending(s) then 1 else 0)
  }

  predicate PastBroadcast(m: Destroyer) { m.Unlocking'? || m.Joining? || m.Finished? }

  predicate ShutdownInv(s: State) {
    && (s.shutdown <==> s.main.Broadcasting? || PastBroadcast(s.main))
    && (PastBroadcast(s.main) ==> NoneWaits(s.workers))
    && (!s.main.Serving? ==> forall j :: 0 <= j < |s.clients| ==> s.clients[j].Idle?)
  }

  // A worker leaves only from an empty queue that stays empty; joined workers have left.
  predicate ExitInv(s: State) {
    && (forall i :: 0 <= i < |s.workers| && (s.workers[i].AtExitUnlock? || s.workers[i].Exited?) ==>
          s.shutdown && s.queue == [])
    && (s.main.Joining? ==> s.main.next <= |s.workers|
                            && forall i :: 0 <= i < s.main.next ==> s.workers[i].Exited?)
    && (s.main.Finished? ==> forall i :: 0 <= i < |s.workers| ==> s.workers[i].Exited?)
  }

  predicate Inv(s: State) {
    && MutexInv(s) && StatsInv(s) && QueueInv(s) && OnceInv(s) && CountInv(s)
    && WakeInv(s) && ShutdownInv(s) && ExitInv(s)
  }

  lemma {:induction false} HeldUpdate(ws: seq<Worker>, i: nat, w: Worker)
    requires i < |ws|
    ensures HeldBy(ws[i]) <= Held(ws)
    ensures Held(ws[i := w]) == Held(ws) - HeldBy(ws[i]) + HeldBy(w)
  {
    hide HeldBy;
    if i == 0 {
      assert ws[i := w][1..] == ws[1..];
    } else {
      assert ws[i := w][1..] == ws[1..][i - 1 := w];
      HeldUpdate(ws[1..], i - 1, w);
      Exchange(HeldBy(ws[0]), Held(ws[1..]), HeldBy(ws[i]), HeldBy(w));
    }
  }

  lemma Exchange(h: multiset<Task>, m: multiset<Task>, a: multiset<Task>, b: multiset<Task>)
    requires a <= m
    ensures h + (m - a + b) == h + m - a + b
  {
  }

  lemma Unchanged(m: multiset<Task>, a: multiset<Task>)
    requires a <= m
    ensures m - a + a == m
  {
  }

  lemma {:induction false} HeldNone(ws: seq<Worker>)
    requires forall i :: 0 <= i < |ws| ==> Holding(ws[i]) == 0
    ensures Held(ws) == multiset{}
  {
    if ws != [] {
      HeldNone(ws[1..]);
    }
  }

  lemma {:induction false} HeldWakeAll(ws: seq<Worker>)
    ensures Held(WakeAll(ws)) == Held(ws)
  {
    if ws != [] {
      HeldWakeAll(ws[1..]);
      assert WakeAll(ws)[1..] == WakeAll(ws[1..]);
    }
  }

  lemma MutexKeptByWork(s: State, i: nat)
    requires MutexInv(s) && WorkEnabled(s, i)
    ensures MutexInv(WorkStep(s, i))
  {
  }

  lemma MutexKeptBySubmit(s: State, j: nat, w: nat)
    requires MutexInv(s) && SubmitEnabled(s, j, w)
    ensures MutexInv(SubmitStep(s, j, w))
  {
  }

  lemma MutexKeptByOthers(s: State, e: Event)
    requires MutexInv(s) && Enabled(s, e) && (e.Wakeup? || e.Destroy?)
    ensures MutexInv(Next(s, e))
  {
  }

  lemma StatsKeptByWork(s: State, i: nat)
    requires StatsInv(s) && WorkEnabled(s, i)
    ensures StatsInv(WorkStep(s, i))
  {
  }

  lemma ExitKeptByWork(s: State, i: nat)
    requires ExitInv(s) && ShutdownInv(s) && WorkEnabled(s, i)
    ensures ExitInv(WorkStep(s, i))
  {
  }

  lemma ExitKeptBySubmit(s: State, j: nat, w: nat)
    requires ExitInv(s) && ShutdownInv(s) && SubmitEnabled(s, j, w)
    ensures ExitInv(SubmitStep(s, j, w))
  {
  }

  lemma QueueKept(s: State, e: Event)
    requires QueueInv(s) && Enabled(s, e)
    ensures QueueInv(Next(s, e))
  {
  }

  lemma ExitKeptByOthers(s: State, e: Event)
    requires ExitInv(s) && ShutdownInv(s) && Enabled(s, e) && (e.Wakeup? || e.Destroy?)
    ensures ExitInv(Next(s, e))
  {
  }

  lemma ShutdownKept(s: State, e: Event)
    requires ShutdownInv(s) && Enabled(s, e)
    ensures ShutdownInv(Next(s, e))
  {
  }

  lemma OnceSame(executed: seq<Task>, ws: seq<Worker>, i: nat, w: Worker, n: nat)
    requires OnceOf(executed, ws, n) && i < |ws| && HeldBy(w) == HeldBy(ws[i])
    ensures OnceOf(executed, ws[i := w], n)
  {
    hide HeldBy, Held, FirstTasks;
    HeldUpdate(ws, i, w);
    Unchanged(Held(ws), HeldBy(w));
  }

  lemma OnceTaken(executed: seq<Task>, ws: seq<Worker>, i: nat, n: nat)
    requires OnceOf(executed, ws, n) && i < |ws| && ws[i].AtCheck?
    ensures OnceOf(executed, ws[i := AtUnlock(n)], n + 1)
  {
    hide Held;
    HeldUpdate(ws, i, AtUnlock(n));
    assert HeldBy(ws[i]) == multiset{} && HeldBy(AtUnlock(n)) == multiset{n};
    Taking(multiset(executed), Held(ws), n, FirstTasks(n));
  }

  lemma OnceRun(executed: seq<Task>, ws: seq<Worker>, i: nat, n: nat)
    requires OnceOf(executed, ws, n) && i < |ws| && ws[i].Running?
    ensures OnceOf(executed + [ws[i].task], ws[i := AtStats], n)
  {
    hide Held, FirstTasks;
    HeldUpdate(ws, i, AtStats);
    assert HeldBy(ws[i]) == multiset{ws[i].task} && HeldBy(AtStats) == multiset{};
    assert multiset(executed + [ws[i].task]) == multiset(executed) + multiset{ws[i].task};
    Finishing(multiset(executed), Held(ws), ws[i].task);
  }

  lemma OnceWakeAll(executed: seq<Task>, ws: seq<Worker>, n: nat)
    requires OnceOf(executed, ws, n)
    ensures OnceOf(executed, WakeAll(ws), n)
  {
    HeldWakeAll(ws);
  }

  lemma OnceKeptByTake(s: State, i: nat)
    requires OnceInv(s) && QueueInv(s) && WorkEnabled(s, i) && s.workers[i].AtCheck? && s.queue != []
    ensures OnceInv(WorkStep(s, i))
  {
    hide OnceOf;
    OnceTaken(s.executed, s.workers, i, Taken(s));
    assert s.queue[0] == Taken(s);
  }

  // The other steps of a worker change neither what it holds nor what has been executed or taken.
  lemma WorkHoldsSame(s: State, i: nat)
    requires WorkEnabled(s, i) && !s.workers[i].Running? && !(s.workers[i].AtCheck? && s.queue != [])
    ensures var t := WorkStep(s, i);
            && t.executed == s.executed && Taken(t) == Taken(s)
            && t.workers == s.workers[i := t.workers[i]] && HeldBy(t.workers[i]) == HeldBy(s.workers[i])
  {
  }

  lemma OnceKeptByWork(s: State, i: nat)
    requires OnceInv(s) && QueueInv(s) && WorkEnabled(s, i)
    ensures OnceInv(WorkStep(s, i))
  {
    hide OnceOf, QueueInv, HeldBy;
    var w := s.workers[i];
    if w.AtCheck? && s.queue != [] {
      OnceKeptByTake(s, i);
    } else if w.Running? {
      OnceRun(s.executed, s.workers, i, Taken(s));
    } else {
      WorkHoldsSame(s, i);
      hide WorkStep, WorkEnabled;
      OnceSame(s.executed, s.workers, i, WorkStep(s, i).workers[i], Taken(s));
    }
  }

  lemma Taking(done: multiset<Task>, held: multiset<Task>, task: Task, all: multiset<Task>)
    requires done + held == all
    ensures done + (held - multiset{} + multiset{task}) == all + multiset{task}
  {
  }

  lemma Finishing(done: multiset<Task>, held: multiset<Task>, task: Task)
    requires multiset{task} <= held
    ensures (done + multiset{task}) + (held - multiset{task} + multiset{}) == done + held
  {
  }

  predicate Wakes(ws: seq<Worker>, t: seq<Worker>, w: nat) {
    w < |ws| && ws[w].Waiting? && t == ws[w := Woken]
  }

  // Steps of the other threads: at most they move workers out of the wait set.
  lemma OthersShape(s: State, e: Event) returns (w: nat)
    requires Enabled(s, e) && !e.Work?
    ensures var t := Next(s, e);
            && t.stats == s.stats && t.executed == s.executed && t.completed == s.completed && Taken(t) == Taken(s)
            && (t.workers == s.workers || t.workers == WakeAll(s.workers) || Wakes(s.workers, t.workers, w))
  {
    hide WakeAll;
    w := if e.Wakeup? then e.i else if e.Submit? then e.w else 0;
  }

  lemma StatsKeptByOthers(s: State, e: Event)
    requires StatsInv(s) && Enabled(s, e) && !e.Work?
    ensures StatsInv(Next(s, e))
  {
    hide Next, Enabled;
    var w := OthersShape(s, e);
  }

  lemma OnceKeptByOthers(s: State, e: Event)
    requires OnceInv(s) && Enabled(s, e) && !e.Work?
    ensures OnceInv(Next(s, e))
  {
    hide OnceOf, WakeAll, Next, Enabled;
    var w := OthersShape(s, e);
    OnceWakeAll(s.executed, s.workers, Taken(s));
    if Wakes(s.workers, Next(s, e).workers, w) {
      OnceSame(s.executed, s.workers, w, Woken, Taken(s));
    }
  }

  lemma CountKeptByWork(s: State, i: nat)
    requires CountInv(s) && WorkEnabled(s, i)
    ensures CountInv(WorkStep(s, i))
  {
    SumUpdate(Uncounted, s.workers, i, WorkStep(s, i).workers[i]);
    SumUpdate(Holding, s.workers, i, WorkStep(s, i).workers[i]);
  }

  lemma CountKeptByOthers(s: State, e: Event)
    requires CountInv(s) && Enabled(s, e) && !e.Work?
    ensures CountInv(Next(s, e))
  {
    hide Next, Enabled;
    SumAgree(Uncounted, Uncounted, s.workers, WakeAll(s.workers));
    SumAgree(Holding, Holding, s.workers, WakeAll(s.workers));
    var w := OthersShape(s, e);
    if Wakes(s.workers, Next(s, e).workers, w) {
      SumUpdate(Uncounted, s.workers, w, Woken);
      SumUpdate(Holding, s.workers, w, Woken);
    }
  }

  lemma SignalStays(s: State, i: nat)
    requires MutexInv(s) && WorkEnabled(s, i) && SignalPending(s)
    ensures SignalPending(WorkStep(s, i))
  {
  }

  lemma WakeKeptByWork(s: State, i: nat)
    requires WakeInv(s) && MutexInv(s) && WorkEnabled(s, i)
    ensures WakeInv(WorkStep(s, i))
  {
    hide SignalPending, MutexInv, WorkStep, WorkEnabled;
    var t := WorkStep(s, i);
    WaitShape(s, i);
    SumUpdate(Waits, s.workers, i, t.workers[i]);
    SumAtMost(Waits, t.workers, 1);
    if SignalPending(s) {
      SignalStays(s, i);
    }
  }

  // A worker starts to wait only when the queue is empty.
  lemma WaitShape(s: State, i: nat)
    requires WorkEnabled(s, i)
    ensures var t := WorkStep(s, i);
            && i < |s.workers| && t.workers == s.workers[i := t.workers[i]] && !s.workers[i].Waiting?
            && |t.queue| <= |s.queue| && (t.workers[i].Waiting? ==> t.queue == [])
  {
  }

  lemma WakeKeptBySubmit(s: State, j: nat, w: nat)
    requires WakeInv(s) && MutexInv(s) && SubmitEnabled(s, j, w)
    ensures WakeInv(SubmitStep(s, j, w))
  {
    SumZero(Waits, s.workers);
    SumAtMost(Waits, s.workers, 1);
    if IsWaiting(s, w) {
      SumUpdate(Waits, s.workers, w, Woken);
    }
  }

  lemma WakeKeptByOthers(s: State, e: Event)
    requires WakeInv(s) && MutexInv(s) && Enabled(s, e) && (e.Wakeup? || e.Destroy?)
    ensures WakeInv(Next(s, e))
  {
    SumZero(Waits, WakeAll(s.workers));
    if e.Wakeup? {
      SumUpdate(Waits, s.workers, e.i, Woken);
    }
  }

  // Every step keeps the invariant.
  lemma InvKept(s: State, e: Event)
    requires Inv(s) && Enabled(s, e)
    ensures Inv(Next(s, e))
  {
    QueueKept(s, e);
    ShutdownKept(s, e);
    hide MutexInv, StatsInv, QueueInv, OnceInv, CountInv, WakeInv, ShutdownInv, ExitInv;
    match e {
      case Work(i) =>
        MutexKeptByWork(s, i);
        StatsKeptByWork(s, i);
        ExitKeptByWork(s, i);
        OnceKeptByWork(s, i);
        CountKeptByWork(s, i);
        WakeKeptByWork(s, i);
      case Submit(j, w) =>
        MutexKeptBySubmit(s, j, w);
        StatsKeptByOthers(s, e);
        ExitKeptBySubmit(s, j, w);
        OnceKeptByOthers(s, e);
        CountKeptByOthers(s, e);
        WakeKeptBySubmit(s, j, w);
      case _ =>
        MutexKeptByOthers(s, e);
        StatsKeptByOthers(s, e);
        ExitKeptByOthers(s, e);
        OnceKeptByOthers(s, e);
        CountKeptByOthers(s, e);
        WakeKeptByOthers(s, e);
    }
  }

  lemma InitialInv(s: State)
    requires Initial(s)
    ensures Inv(s)
  {
    SumZero(Uncounted, s.workers);
    SumZero(Holding, s.workers);
    SumZero(Waits, s.workers);
    HeldNone(s.workers);
  }

  // Main theorem: the invariant holds after every run, whatever the interleaving.
  lemma {:induction false} InvAlways(s: State, es: seq<Event>)
    requires Inv(s) && Runs(s, es)
    ensures Inv(After(s, es))
    decreases |es|
  {
    hide Inv, Next, Enabled;
    if es != [] {
      InvKept(s, es[0]);
      InvAlways(Next(s, es[0]), es[1..]);
    }
  }

  // ---------------------------------------------------------------- what the invariant gives

  // At every moment each submitted task is queued, in the hands of one worker, or counted as completed.
  lemma TasksConserved(s: State)
    requires Inv(s)
    ensures s.submitted == |s.queue| + Sum(Holding, s.workers) + Sum(Uncounted, s.workers) + s.completed
  {
    hide MutexInv, StatsInv, QueueInv, OnceInv, WakeInv, ShutdownInv, ExitInv;
  }

  // No task runs twice.
  lemma NeverTwice(s: State)
    requires Inv(s)
    ensures forall t: Task :: multiset(s.executed)[t] + Held(s.workers)[t] == if t < Taken(s) then 1 else 0
  {
    hide MutexInv, StatsInv, QueueInv, CountInv, WakeInv, ShutdownInv, ExitInv, Held;
    forall t: Task ensures multiset(s.executed)[t] + Held(s.workers)[t] == if t < Taken(s) then 1 else 0 {
      FirstTasksOnce(Taken(s), t);
      assert (multiset(s.executed) + Held(s.workers))[t] == FirstTasks(Taken(s))[t];
    }
  }

  lemma {:induction false} FirstTasksOnce(n: nat, t: Task)
    ensures FirstTasks(n)[t] == if t < n then 1 else 0
  {
    if n > 0 {
      FirstTasksOnce(n - 1, t);
    }
  }

  // No lost wakeup: outside the window between an append and its signal, before shutdown, at least
  // min(queue length, number of workers) workers are not waiting.
  lemma NoLostWakeup(s: State)
    requires Inv(s) && !SignalPending(s)
    ensures var awake := |s.workers| - Sum(Waits, s.workers);
            awake >= |s.queue| || awake == |s.workers|
  {
    hide MutexInv, StatsInv, QueueInv, OnceInv, CountInv, ShutdownInv, ExitInv;
  }

  // When every worker has been joined the queue is empty and each task has run exactly once.
  lemma DrainedWhenJoined(s: State)
    requires Inv(s) && s.main.Finished? && |s.workers| > 0
    ensures s.queue == [] && s.completed == s.submitted == |s.executed|
    ensures multiset(s.executed) == FirstTasks(s.submitted)
  {
    assert s.workers[0].Exited?;
    SumZero(Uncounted, s.workers);
    SumZero(Holding, s.workers);
    HeldNone(s.workers);
    hide MutexInv, StatsInv, QueueInv, WakeInv, ShutdownInv, Held, FirstTasks;
  }

  // ---------------------------------------------------------------- progress

  // Something is left to do for the pool itself: not merely waiting for the next submit.
  predicate Busy(s: State) {
    || s.queue != [] || !s.main.Serving?
    || (exists j :: 0 <= j < |s.clients| && !s.clients[j].Idle?)
    || (exists i :: 0 <= i < |s.workers| && !s.workers[i].Waiting?)
  }

  // The step is one of the pool's own: no spurious wakeup, and no fresh submit or destroy.
  predicate Driven(s: State, e: Event) {
    match e
    case Work(_) => true
    case Wakeup(_) => false
    case Submit(j, _) => j < |s.clients| && !s.clients[j].Idle?
    case Destroy => !s.main.Serving?
  }

  ghost predicate CanMove(s: State) { exists e :: Enabled(s, e) && Driven(s, e) }

  lemma Moves(s: State, e: Event)
    requires Enabled(s, e) && Driven(s, e)
    ensures CanMove(s)
  {
  }

  // A held mutex is never stuck: its owner can go on.
  lemma OwnerMoves(s: State)
    requires MutexInv(s) && !s.mutex.Free?
    ensures CanMove(s)
  {
    hide CanMove;
    match s.mutex {
      case OwnedByWorker(i) => Moves(s, Work(i));
      case OwnedByMain => Moves(s, Destroy);
      case OwnedByClient(j) =>
        if NoneWaits(s.workers) {
          Moves(s, Submit(j, 0));
        } else {
          var w: nat :| w < |s.workers| && s.workers[w].Waiting?;
          Moves(s, Submit(j, w));
        }
    }
  }

  // With the mutex free, a worker that neither waits nor has left can go on, or the one in the
  // statistics section can.
  lemma WorkerMoves(s: State, i: nat)
    requires MutexInv(s) && StatsInv(s) && s.mutex.Free? && i < |s.workers|
    requires !s.workers[i].Waiting? && !s.workers[i].Exited?
    ensures CanMove(s)
  {
    hide CanMove;
    if s.workers[i].AtStats? && s.stats.Somebody? {
      Moves(s, Work(s.stats.i));
    } else {
      Moves(s, Work(i));
    }
  }

  // While the pool serves, a nonempty queue finds a worker awake.
  lemma AwakeWorker(s: State) returns (i: nat)
    requires WakeInv(s) && ShutdownInv(s) && ExitInv(s)
    requires s.queue != [] && s.workers != [] && s.main.Serving? && s.mutex.Free?
    ensures i < |s.workers| && !s.workers[i].Waiting? && !s.workers[i].Exited?
  {
    i := SomeZero(Waits, s.workers);
  }

  // No reachable state is stuck: while there is work, or a destroy is under way, some step of the
  // pool itself is enabled.
  lemma NeverStuck(s: State)
    requires Inv(s) && Busy(s) && s.workers != [] && !s.main.Finished?
    ensures CanMove(s)
  {
    hide CanMove, OnceInv, CountInv, QueueInv, WakeInv;
    if !s.mutex.Free? {
      OwnerMoves(s);
    } else if j: nat :| j < |s.clients| && !s.clients[j].Idle? {
      Moves(s, Submit(j, 0));
    } else if i: nat :| i < |s.workers| && !s.workers[i].Waiting? && !s.workers[i].Exited? {
      WorkerMoves(s, i);
    } else if s.main.Serving? {
      if s.queue != [] {
        var i := AwakeWorker(s);
        WorkerMoves(s, i);
      }
    } else {
      Moves(s, Destroy);
    }
  }

  // ---------------------------------------------------------------- termination of a destroy

  // How many steps a worker still has before it exits, not counting the tasks it may yet take.
  function Rank(w: Worker): nat {
    match w
    case Exited => 0
    case AtExitUnlock => 1
    case AtCheck => 2
    case AtLock => 3
    case Woken => 3
    case Waiting => 4
    case AtStatsUnlock => 4
    case InStats => 5
    case AtStats => 6
    case Running(_) => 7
    case AtUnlock(_) => 8
  }

  function MainRank(s: State): nat {
    match s.main
    case Serving => |s.workers| + 6
    case Locking' => |s.workers| + 5
    case Setting => |s.workers| + 4
    case Broadcasting => |s.workers| + 3
    case Unlocking' => |s.workers| + 2
    case Joining(k) => if k <= |s.workers| then |s.workers| + 1 - k else 0
    case Finished => 0
  }

  function Measure(s: State): nat { 7 * |s.queue| + Sum(Rank, s.workers) + MainRank(s) }

  lemma WorkLowers(s: State, i: nat)
    requires WorkEnabled(s, i) && s.shutdown
    ensures var t := WorkStep(s, i);
            && t.workers == s.workers[i := t.workers[i]] && t.main == s.main
            && 7 * |t.queue| + Rank(t.workers[i]) < 7 * |s.queue| + Rank(s.workers[i])
  {
  }

  lemma DestroyLowers(s: State)
    requires DestroyEnabled(s) && s.shutdown && ShutdownInv(s) && ExitInv(s)
    ensures Measure(DestroyStep(s)) < Measure(s)
  {
    SumLowered(Rank, s.workers, WakeAll(s.workers));
    hide Rank, WakeAll;
  }

  // Once shutdown is set, every step, spurious wakeups included, lowers the measure: pool_destroy
  // returns after a bounded number of steps of whatever schedule.
  lemma DestroyTerminates(s: State, e: Event)
    requires Inv(s) && Enabled(s, e) && s.shutdown
    ensures Next(s, e).shutdown && Measure(Next(s, e)) < Measure(s)
  {
    hide MutexInv, StatsInv, QueueInv, OnceInv, CountInv, WakeInv;
    match e {
      case Work(i) =>
        WorkLowers(s, i);
        SumUpdate(Rank, s.workers, i, WorkStep(s, i).workers[i]);
        hide WorkStep, Rank, WorkEnabled;
      case Wakeup(i) => SumUpdate(Rank, s.workers, i, Woken);
      case Submit(j, w) => assert false;
      case Destroy => DestroyLowers(s);
    }
  }

  lemma {:induction false} DestroyBounded(s: State, es: seq<Event>)
    requires Inv(s) && s.shutdown && Runs(s, es)
    ensures |es| <= Measure(s)
    decreases |es|
  {
    hide Inv, Next, Enabled, Measure;
    if es != [] {
      InvKept(s, es[0]);
      DestroyTerminates(s, es[0]);
      DestroyBounded(Next(s, es[0]), es[1..]);
    }
  }

  // ---------------------------------------------------------------- how long work takes

  // The same for a pool that goes on serving: a worker with nothing to do comes to rest in the wait set.
  function ServeRank(w: Worker): nat { if w.Waiting? then 1 else Rank(w) }

  function ClientRank(c: Client): nat {
    match c
    case Idle => 0
    case Unlocking => 1
    case Signalling => 4
    case Appending => 12
    case Locking => 13
  }

  // Before the broadcast the destroyer may still wake every worker.
  function DestroyerRank(s: State): nat {
    var before := s.main.Serving? || s.main.Locking'? || s.main.Setting? || s.main.Broadcasting?;
    MainRank(s) + if before then 2 * |s.workers| else 0
  }

  // Steps the pool has left to do on its own.
  function ToDo(s: State): nat {
    7 * |s.queue| + Sum(ServeRank, s.workers) + Sum(ClientRank, s.clients) + DestroyerRank(s)
  }

  lemma WorkDone(s: State, i: nat)
    requires WorkEnabled(s, i)
    ensures var t := WorkStep(s, i);
            && t.workers == s.workers[i := t.workers[i]] && t.main == s.main && t.clients == s.clients
            && 7 * |t.queue| + ServeRank(t.workers[i]) < 7 * |s.queue| + ServeRank(s.workers[i])
  {
  }

  lemma SubmitDone(s: State, j: nat, w: nat)
    requires SubmitEnabled(s, j, w)
    ensures var t := SubmitStep(s, j, w);
            && t.clients == s.clients[j := t.clients[j]] && t.main == s.main
            && (t.workers == s.workers || (IsWaiting(s, w) && t.workers == s.workers[w := Woken]))
            && 7 * |t.queue| + ClientRank(t.clients[j]) + (if t.workers == s.workers then 0 else 2)
                 < 7 * |s.queue| + ClientRank(s.clients[j]) + (if s.clients[j].Idle? then 14 else 0)
  {
  }

  lemma {:induction false} WakingAll(ws: seq<Worker>)
    ensures Sum(ServeRank, WakeAll(ws)) <= Sum(ServeRank, ws) + 2 * |ws|
  {
    if ws != [] {
      WakingAll(ws[1..]);
    }
  }

  lemma DestroyDone(s: State)
    requires DestroyEnabled(s) && ExitInv(s)
    ensures ToDo(DestroyStep(s)) < ToDo(s)
  {
    hide ServeRank, ClientRank, WakeAll;
    WakingAll(s.workers);
  }

  function IsSpurious(e: Event): nat { if e.Wakeup? then 1 else 0 }

  function BeginsSubmit(s: State, e: Event): nat {
    if e.Submit? && e.j < |s.clients| && s.clients[e.j].Idle? then 1 else 0
  }

  // Every step lowers what is to do, but for a spurious wakeup and the beginning of a submit, which raise it
  // by 2 and by 13.
  lemma StepsCharged(s: State, e: Event)
    requires ExitInv(s) && Enabled(s, e)
    ensures ToDo(Next(s, e)) < ToDo(s) + 3 * IsSpurious(e) + 14 * BeginsSubmit(s, e)
    ensures Driven(s, e) ==> IsSpurious(e) == 0 && BeginsSubmit(s, e) == 0
  {
    match e {
      case Work(i) =>
        WorkDone(s, i);
        SumUpdate(ServeRank, s.workers, i, WorkStep(s, i).workers[i]);
        hide WorkStep, ServeRank, ClientRank, WorkEnabled;
      case Wakeup(i) =>
        SumUpdate(ServeRank, s.workers, i, Woken);
        hide ClientRank;
      case Submit(j, w) =>
        SubmitDone(s, j, w);
        SumUpdate(ClientRank, s.clients, j, SubmitStep(s, j, w).clients[j]);
        if IsWaiting(s, w) {
          SumUpdate(ServeRank, s.workers, w, Woken);
          assert ServeRank(s.workers[w]) == 1 && ServeRank(Woken) == 3;
        }
        hide SubmitStep, SubmitEnabled, ServeRank, ClientRank;
      case Destroy => DestroyDone(s);
    }
  }

  function Spurious(es: seq<Event>): nat { if es == [] then 0 else IsSpurious(es[0]) + Spurious(es[1..]) }

  function Begun(s: State, es: seq<Event>): nat
    requires Runs(s, es)
    decreases |es|
  {
    if es == [] then 0 else BeginsSubmit(s, es[0]) + Begun(Next(s, es[0]), es[1..])
  }

  lemma {:induction false} RunCharged(s: State, es: seq<Event>)
    requires Inv(s) && Runs(s, es)
    ensures |es| + ToDo(After(s, es)) <= ToDo(s) + 3 * Spurious(es) + 14 * Begun(s, es)
    decreases |es|
  {
    hide ToDo, Next, Enabled, BeginsSubmit, IsSpurious, Driven;
    hide MutexInv, StatsInv, QueueInv, OnceInv, CountInv, WakeInv, ShutdownInv, ExitInv;
    if es != [] {
      InvKept(s, es[0]);
      StepsCharged(s, es[0]);
      RunCharged(Next(s, es[0]), es[1..]);
    }
  }

  // No task waits long: in any run the steps taken are at most 14 for each submit begun, 3 for each spurious
  // wakeup, and 6 for each worker and for the destroy.
  lemma WorkBounded(s: State, es: seq<Event>)
    requires Initial(s) && Runs(s, es)
    ensures |es| <= 6 * |s.workers| + 6 + 3 * Spurious(es) + 14 * Begun(s, es)
  {
    hide ToDo, Initial, Inv, Runs, After, Spurious, Begun;
    InitialInv(s);
    InitialToDo(s);
    RunCharged(s, es);
  }

  lemma InitialToDo(s: State)
    requires Initial(s)
    ensures ToDo(s) == 6 * |s.workers| + 6
  {
    SumConstant(ServeRank, s.workers, 3);
    SumConstant(ClientRank, s.clients, 0);
  }

  // ---------------------------------------------------------------- every run

  lemma WorkersStay(s: State, e: Event)
    requires Enabled(s, e)
    ensures |Next(s, e).workers| == |s.workers|
  {
  }

  lemma {:induction false} WorkersStayAlways(s: State, es: seq<Event>)
    requires Runs(s, es)
    ensures |After(s, es).workers| == |s.workers|
    decreases |es|
  {
    hide Next, Enabled;
    if es != [] {
      WorkersStay(s, es[0]);
      WorkersStayAlways(Next(s, es[0]), es[1..]);
    }
  }

  // What holds after any run of a pool with at least one worker, spurious wakeups included.
  lemma PoolCorrect(s: State, es: seq<Event>)
    requires Initial(s) && s.workers != [] && Runs(s, es)
    ensures var t := After(s, es);
            && (forall k :: 0 <= k < |t.queue| ==> t.queue[k] == t.submitted - |t.queue| + k)
            && t.submitted == |t.queue| + Sum(Holding, t.workers) + Sum(Uncounted, t.workers) + t.completed
            && (forall n: Task :: multiset(t.executed)[n] <= if n < t.submitted - |t.queue| then 1 else 0)
            && (!SignalPending(t) ==>
                  |t.workers| - Sum(Waits, t.workers) >= |t.queue| || Sum(Waits, t.workers) == 0)
            && (t.main.Finished? ==>
                  t.queue == [] && t.completed == t.submitted && multiset(t.executed) == FirstTasks(t.submitted))
            && (Busy(t) && !t.main.Finished? ==> CanMove(t))
  {
    hide Busy, CanMove, SignalPending, FirstTasks, MutexInv, StatsInv, OnceInv, CountInv, WakeInv, ShutdownInv, ExitInv;
    InitialInv(s);
    InvAlways(s, es);
    WorkersStayAlways(s, es);
    var t := After(s, es);
    TasksConserved(t);
    NeverTwice(t);
    if !SignalPending(t) { NoLostWakeup(t); }
    if t.main.Finished? { DrainedWhenJoined(t); }
    if Busy(t) && !t.main.Finished? { NeverStuck(t); }
  }

  lemma RestIsDone(s: State)
    requires Inv(s) && s.workers != [] && !CanMove(s)
    ensures s.queue == [] && s.completed == s.submitted && multiset(s.executed) == FirstTasks(s.submitted)
  {
    hide MutexInv, StatsInv, QueueInv, OnceInv, CountInv, WakeInv, ShutdownInv, ExitInv, CanMove;
    if s.main.Finished? {
      DrainedWhenJoined(s);
    } else {
      if Busy(s) {
        NeverStuck(s);
      }
      RestingIsDone(s);
    }
  }

  lemma RestingIsDone(s: State)
    requires QueueInv(s) && CountInv(s) && OnceInv(s) && s.queue == []
    requires forall i :: 0 <= i < |s.workers| ==> s.workers[i].Waiting?
    ensures s.completed == s.submitted && multiset(s.executed) == FirstTasks(s.submitted)
  {
    SumZero(Uncounted, s.workers);
    SumZero(Holding, s.workers);
    HeldNone(s.workers);
    hide Held, FirstTasks;
  }

  // Once no new submit comes the pool comes to rest within the steps WorkBounded allows, and at rest the queue
  // is empty and every task submitted has run exactly once.
  lemma AtRestAllIsDone(s: State, es: seq<Event>)
    requires Initial(s) && s.workers != [] && Runs(s, es) && !CanMove(After(s, es))
    ensures var t := After(s, es);
            t.queue == [] && t.completed == t.submitted && multiset(t.executed) == FirstTasks(t.submitted)
  {
    hide Inv, Initial, CanMove, Runs, After, FirstTasks;
    InitialInv(s);
    InvAlways(s, es);
    WorkersStayAlways(s, es);
    RestIsDone(After(s, es));
  }
}

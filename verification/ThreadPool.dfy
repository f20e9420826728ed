// httplib's worker pool as steps on one mutex and one condition variable: any number of workers, any number
// of threads enqueueing or shutting down, every interleaving, and wake-ups that nobody asked for.
module ThreadPool {
  import opened Options
  import opened Sums

  type Job = nat

  // Asleep threads are in the condition variable's wait; Locking ones want the mutex, which Inside ones hold.
  datatype Worker = Locking | Inside | Asleep | Running(job: Job) | Exited

  // The two notifies happen after the mutex was given back.
  datatype Client =
    | Idle
    | EnqueueLocking(job: Job)
    | EnqueueInside(job: Job)
    | NotifyOne
    | ShutdownLocking
    | ShutdownInside
    | NotifyAll
    | Joining

  datatype Holder = ByWorker(w: nat) | ByClient(c: nat)

  // `accepted`, `started` and `executed` list the jobs put in the list, taken from it, and finished so far;
  // `closed` is how many were accepted before shutdown.
  datatype State = State(
    jobs: seq<Job>, shutdown: bool, mutex: Option<Holder>, limit: nat,
    workers: seq<Worker>, clients: seq<Client>,
    accepted: seq<Job>, started: seq<Job>, executed: seq<Job>, closed: nat)
  {
    function Work(w: nat, pc: Worker): State
      requires w < |workers|
    {
      this.(workers := workers[w := pc])
    }

    function Serve(c: nat, pc: Client): State
      requires c < |clients|
    {
      this.(clients := clients[c := pc])
    }
  }

  // `op` is what an idle client starts; `woken` is the worker that notify_one picks.
  datatype Op = Enqueue(job: Job) | Shutdown
  datatype Event = OfWorker(w: nat) | OfClient(c: nat, op: Op, woken: nat)

  predicate Enabled(s: State, e: Event) {
    match e
    case OfWorker(w) =>
      w < |s.workers| && !s.workers[w].Exited? && (s.workers[w].Locking? ==> s.mutex == None)
    case OfClient(c, _, woken) =>
      c < |s.clients| &&
      match s.clients[c]
      case EnqueueLocking(_) => s.mutex == None
      case ShutdownLocking => s.mutex == None
      case NotifyOne => (exists w | 0 <= w < |s.workers| :: s.workers[w].Asleep?) ==> woken < |s.workers| && s.workers[woken].Asleep?
      case Joining => forall pc <- s.workers :: pc.Exited?
      case _ => true
  }

  // With the mutex held: leave, sleep, or take the first job; each gives the mutex back.
  function WorkInside(s: State, w: nat): State
    requires w < |s.workers|
  {
    var s1 := s.(mutex := None);
    if s.jobs == [] then (if s.shutdown then s1.Work(w, Exited) else s1.Work(w, Asleep))
    else s1.(jobs := s.jobs[1..], started := s.started + [s.jobs[0]]).Work(w, Running(s.jobs[0]))
  }

  function WorkerStep(s: State, w: nat): State
    requires w < |s.workers|
  {
    match s.workers[w]
    case Locking => s.(mutex := Some(ByWorker(w))).Work(w, Inside)
    case Inside => WorkInside(s, w)
    case Asleep => s.Work(w, Locking)
    case Running(job) => s.(executed := s.executed + [job]).Work(w, Locking)
    case Exited => s
  }

  function Awake(pc: Worker): Worker { if pc.Asleep? then Locking else pc }

  function ClientStep(s: State, c: nat, op: Op, woken: nat): State
    requires c < |s.clients|
  {
    match s.clients[c]
    case Idle => s.Serve(c, if op.Enqueue? then EnqueueLocking(op.job) else ShutdownLocking)
    case EnqueueLocking(job) => s.(mutex := Some(ByClient(c))).Serve(c, EnqueueInside(job))
    case EnqueueInside(job) =>
      var s1 := s.(mutex := None);
      if s.limit > 0 && |s.jobs| >= s.limit then s1.Serve(c, Idle)
      else s1.(jobs := s.jobs + [job], accepted := s.accepted + [job]).Serve(c, NotifyOne)
    case NotifyOne =>
      (if woken < |s.workers| then s.Work(woken, Awake(s.workers[woken])) else s).Serve(c, Idle)
    case ShutdownLocking => s.(mutex := Some(ByClient(c))).Serve(c, ShutdownInside)
    case ShutdownInside =>
      s.(mutex := None, shutdown := true, closed := if s.shutdown then s.closed else |s.accepted|).Serve(c, NotifyAll)
    case NotifyAll =>
      s.(workers := seq(|s.workers|, w requires 0 <= w < |s.workers| => Awake(s.workers[w]))).Serve(c, Joining)
    case Joining => s.Serve(c, Idle)
  }

  function Step(s: State, e: Event): (s': State)
    requires Enabled(s, e)
  {
    match e
    case OfWorker(w) => WorkerStep(s, w)
    case OfClient(c, op, woken) => ClientStep(s, c, op, woken)
  }

  ghost predicate Init(s: State) {
    && s.jobs == s.accepted == s.started == s.executed == [] && !s.shutdown && s.mutex == None && s.closed == 0
    && (forall w | 0 <= w < |s.workers| :: s.workers[w].Locking?) && (forall c | 0 <= c < |s.clients| :: s.clients[c].Idle?)
  }

  // ---------------------------------------------------------------- invariant

  ghost predicate WorkerHolds(s: State, w: nat)
    requires w < |s.workers|
  {
    s.workers[w].Inside? <==> s.mutex == Some(ByWorker(w))
  }

  ghost predicate ClientHolds(s: State, c: nat)
    requires c < |s.clients|
  {
    s.clients[c].EnqueueInside? || s.clients[c].ShutdownInside? <==> s.mutex == Some(ByClient(c))
  }

  // Mutual exclusion.
  ghost predicate MutexOk(s: State) {
    && (s.mutex.Some? ==> match s.mutex.value case ByWorker(w) => w < |s.workers| case ByClient(c) => c < |s.clients|)
    && (forall w | 0 <= w < |s.workers| :: WorkerHolds(s, w))
    && (forall c | 0 <= c < |s.clients| :: ClientHolds(s, c))
  }

  ghost function RunningJob(job: Job): Worker -> int { (pc: Worker) => if pc.Running? && pc.job == job then 1 else 0 }

  // A job taken from the list is finished or being run, once.
  ghost predicate RunOnce(s: State, job: Job) {
    multiset(s.started)[job] == multiset(s.executed)[job] + Sum(s.workers, RunningJob(job))
  }

  ghost predicate NotifyPending(s: State) { exists c | 0 <= c < |s.clients| :: s.clients[c].NotifyOne? }
  ghost predicate NotifyAllPending(s: State) { exists c | 0 <= c < |s.clients| :: s.clients[c].NotifyAll? }
  ghost predicate SomeAwake(s: State) { exists w | 0 <= w < |s.workers| :: !s.workers[w].Asleep? }

  ghost predicate Inv(s: State) {
    && MutexOk(s)
    && s.accepted == s.started + s.jobs && s.closed <= |s.accepted|
    && (forall job :: RunOnce(s, job))
    && (s.limit > 0 ==> |s.jobs| <= s.limit)
    // No lost wake-up, and workers leave only once everything accepted before the shutdown was taken.
    && (s.jobs != [] && s.workers != [] ==> SomeAwake(s) || NotifyPending(s))
    && (s.shutdown && (exists w | 0 <= w < |s.workers| :: s.workers[w].Asleep?) ==> NotifyAllPending(s))
    && ((exists w | 0 <= w < |s.workers| :: s.workers[w].Exited?) ==> s.shutdown && |s.started| >= s.closed)
  }

  lemma WorkerMutex(s: State, w: nat)
    requires MutexOk(s) && Enabled(s, OfWorker(w))
    ensures MutexOk(WorkerStep(s, w))
  {
    var s' := WorkerStep(s, w);
    assert WorkerHolds(s, w);
    forall v | 0 <= v < |s'.workers| ensures WorkerHolds(s', v) { assert WorkerHolds(s, v); }
    forall c | 0 <= c < |s'.clients| ensures ClientHolds(s', c) { assert ClientHolds(s, c); }
  }

  // A worker starting the job it took, one finishing it, and the other steps.
  lemma StartRuns(s: State, s': State, w: nat, started: Job, job: Job)
    requires RunOnce(s, job) && w < |s.workers| && !s.workers[w].Running?
    requires s'.started == s.started + [started] && s'.executed == s.executed && s'.workers == s.workers[w := Running(started)]
    ensures RunOnce(s', job)
  {
    hide Sum;
    SumUpdate(s.workers, w, Running(started), RunningJob(job));
    CountOne(s.started, started, job);
  }

  lemma FinishRuns(s: State, s': State, w: nat, pc: Worker, job: Job)
    requires RunOnce(s, job) && w < |s.workers| && s.workers[w].Running? && !pc.Running?
    requires s'.started == s.started && s'.executed == s.executed + [s.workers[w].job] && s'.workers == s.workers[w := pc]
    ensures RunOnce(s', job)
  {
    hide Sum;
    SumUpdate(s.workers, w, pc, RunningJob(job));
    CountOne(s.executed, s.workers[w].job, job);
  }

  lemma OtherRuns(s: State, s': State, w: nat, pc: Worker, job: Job)
    requires RunOnce(s, job) && w < |s.workers| && !s.workers[w].Running? && !pc.Running?
    requires s'.started == s.started && s'.executed == s.executed && s'.workers == s.workers[w := pc]
    ensures RunOnce(s', job)
  {
    SumUpdate(s.workers, w, pc, RunningJob(job));
  }

  lemma WorkerRuns(s: State, w: nat, job: Job)
    requires RunOnce(s, job) && Enabled(s, OfWorker(w))
    ensures RunOnce(WorkerStep(s, w), job)
  {
    hide RunOnce;
    var s' := WorkerStep(s, w);
    if s.workers[w].Running? {
      FinishRuns(s, s', w, Locking, job);
    } else if s.workers[w].Inside? && s.jobs != [] {
      StartRuns(s, s', w, s.jobs[0], job);
    } else {
      OtherRuns(s, s', w, s'.workers[w], job);
    }
  }

  lemma CountOne(jobs: seq<Job>, added: Job, job: Job)
    ensures multiset(jobs + [added])[job] == multiset(jobs)[job] + if added == job then 1 else 0
  {
  }

  lemma WorkerPreserves(s: State, w: nat)
    requires Inv(s) && Enabled(s, OfWorker(w))
    ensures Inv(WorkerStep(s, w))
  {
    hide RunOnce, MutexOk;
    var s' := WorkerStep(s, w);
    WorkerMutex(s, w);
    forall job ensures RunOnce(s', job) { WorkerRuns(s, w, job); }
    assert s'.clients == s.clients;
    assert s'.jobs != [] ==> s.jobs != [];
    if s'.workers[w].Asleep? {
      assert s'.jobs == [] && !s'.shutdown;
    } else {
      assert SomeAwake(s');
    }
    assert forall v | 0 <= v < |s'.workers| && v != w :: s'.workers[v] == s.workers[v];
    assert NotifyAllPending(s') == NotifyAllPending(s);
  }

  lemma ClientMutex(s: State, c: nat, op: Op, woken: nat)
    requires MutexOk(s) && Enabled(s, OfClient(c, op, woken))
    ensures MutexOk(ClientStep(s, c, op, woken))
  {
    var s' := ClientStep(s, c, op, woken);
    assert ClientHolds(s, c);
    forall w | 0 <= w < |s'.workers| ensures WorkerHolds(s', w) { assert WorkerHolds(s, w); }
    forall d | 0 <= d < |s'.clients| ensures ClientHolds(s', d) { assert ClientHolds(s, d); }
  }

  lemma {:induction false} SameRunning(workers: seq<Worker>, workers': seq<Worker>, job: Job)
    requires |workers'| == |workers| && forall w | 0 <= w < |workers| :: workers'[w] == workers[w] || workers'[w] == Awake(workers[w])
    ensures Sum(workers', RunningJob(job)) == Sum(workers, RunningJob(job))
  {
    if workers != [] {
      forall w | 0 <= w < |workers[1..]| ensures workers'[1..][w] == workers[1..][w] || workers'[1..][w] == Awake(workers[1..][w]) {
        assert workers'[w + 1] == workers[w + 1] || workers'[w + 1] == Awake(workers[w + 1]);
      }
      SameRunning(workers[1..], workers'[1..], job);
    }
  }

  lemma ClientRuns(s: State, c: nat, op: Op, woken: nat)
    requires (forall job :: RunOnce(s, job)) && Enabled(s, OfClient(c, op, woken))
    ensures forall job :: RunOnce(ClientStep(s, c, op, woken), job)
  {
    var s' := ClientStep(s, c, op, woken);
    forall job ensures RunOnce(s', job) {
      assert RunOnce(s, job);
      SameRunning(s.workers, s'.workers, job);
    }
  }

  // Steps that wake nobody.
  lemma RequestPreserves(s: State, c: nat, op: Op, woken: nat)
    requires Inv(s) && Enabled(s, OfClient(c, op, woken)) && !s.clients[c].NotifyOne? && !s.clients[c].NotifyAll?
    ensures Inv(ClientStep(s, c, op, woken))
  {
    hide MutexOk, RunOnce;
    var s' := ClientStep(s, c, op, woken);
    ClientMutex(s, c, op, woken);
    ClientRuns(s, c, op, woken);
    assert s'.workers == s.workers && s'.clients == s.clients[c := s'.clients[c]];
    forall d | 0 <= d < |s.clients| && (s.clients[d].NotifyOne? || s.clients[d].NotifyAll?) ensures s'.clients[d] == s.clients[d] { }
    assert s'.clients[c].NotifyAll? || s'.shutdown == s.shutdown;
    assert s'.clients[c].NotifyOne? || s'.jobs == s.jobs;
  }

  lemma NotifyOnePreserves(s: State, c: nat, op: Op, woken: nat)
    requires Inv(s) && Enabled(s, OfClient(c, op, woken)) && s.clients[c].NotifyOne?
    ensures Inv(ClientStep(s, c, op, woken))
  {
    hide MutexOk, RunOnce;
    var s' := ClientStep(s, c, op, woken);
    ClientMutex(s, c, op, woken);
    ClientRuns(s, c, op, woken);
    if s.workers != [] {
      assert !s'.workers[if woken < |s.workers| then woken else 0].Asleep?;
    }
    forall d | 0 <= d < |s.clients| && s.clients[d].NotifyAll? ensures s'.clients[d] == s.clients[d] { }
    forall w | 0 <= w < |s.workers| && (s'.workers[w].Asleep? || s'.workers[w].Exited?) ensures s'.workers[w] == s.workers[w] { }
  }

  lemma NotifyAllPreserves(s: State, c: nat, op: Op, woken: nat)
    requires Inv(s) && Enabled(s, OfClient(c, op, woken)) && s.clients[c].NotifyAll?
    ensures Inv(ClientStep(s, c, op, woken))
  {
    hide MutexOk, RunOnce;
    var s' := ClientStep(s, c, op, woken);
    ClientMutex(s, c, op, woken);
    ClientRuns(s, c, op, woken);
    assert forall w | 0 <= w < |s'.workers| :: !s'.workers[w].Asleep?;
    if s.workers != [] { assert !s'.workers[0].Asleep?; }
    forall w | 0 <= w < |s.workers| && s'.workers[w].Exited? ensures s.workers[w].Exited? { }
  }

  lemma StepPreservesInv(s: State, e: Event)
    requires Inv(s) && Enabled(s, e)
    ensures Inv(Step(s, e))
  {
    match e
    case OfWorker(w) => WorkerPreserves(s, w);
    case OfClient(c, op, woken) =>
      if s.clients[c].NotifyOne? {
        NotifyOnePreserves(s, c, op, woken);
      } else if s.clients[c].NotifyAll? {
        NotifyAllPreserves(s, c, op, woken);
      } else {
        RequestPreserves(s, c, op, woken);
      }
  }

  // ---------------------------------------------------------------- every run

  ghost predicate Next(s: State, s': State) {
    exists e :: Enabled(s, e) && s' == Step(s, e)
  }

  ghost predicate Steps(run: seq<State>) {
    run != [] && forall i | 0 < i < |run| :: Next(run[i - 1], run[i])
  }

  ghost predicate Reachable(s: State) {
    exists run :: Steps(run) && Init(run[0]) && run[|run| - 1] == s
  }

  lemma InitInv(s: State)
    requires Init(s)
    ensures Inv(s)
  {
    forall job ensures RunOnce(s, job) { SumZero(s.workers, RunningJob(job)); }
  }

  lemma {:induction false} RunInv(run: seq<State>)
    requires Steps(run) && Init(run[0])
    ensures Inv(run[|run| - 1])
  {
    if |run| == 1 {
      InitInv(run[0]);
    } else {
      var prev := run[..|run| - 1];
      RunInv(prev);
      assert Next(prev[|prev| - 1], run[|run| - 1]);
      var e :| Enabled(prev[|prev| - 1], e) && run[|run| - 1] == Step(prev[|prev| - 1], e);
      StepPreservesInv(prev[|prev| - 1], e);
    }
  }

  lemma ReachableInv(s: State)
    requires Reachable(s)
    ensures Inv(s)
  {
    var run :| Steps(run) && Init(run[0]) && run[|run| - 1] == s;
    RunInv(run);
  }

  ghost predicate AllExited(s: State) { s.workers != [] && forall w | 0 <= w < |s.workers| :: s.workers[w].Exited? }

  // ---------------------------------------------------------------- what holds in every run

  // Once all workers of a pool that has any are gone, every job accepted before the shutdown, and perhaps
  // some accepted after it, has been run exactly once, and nothing else has.
  lemma ShutdownDrains(s: State)
    requires Reachable(s) && AllExited(s)
    ensures s.shutdown && s.closed <= |s.started| <= |s.accepted| && s.started == s.accepted[..|s.started|]
    ensures multiset(s.executed) == multiset(s.started)
  {
    ReachableInv(s);
    assert s.workers[0].Exited?;
    forall job ensures multiset(s.executed)[job] == multiset(s.started)[job] {
      assert RunOnce(s, job);
      SumZero(s.workers, RunningJob(job));
    }
  }

  // At any time the jobs finished and those being run are the ones taken from the list, in the order in
  // which they were accepted.
  lemma EachJobOnce(s: State, job: Job)
    requires Reachable(s)
    ensures s.accepted == s.started + s.jobs
    ensures multiset(s.started)[job] == multiset(s.executed)[job] + Sum(s.workers, RunningJob(job))
  {
    ReachableInv(s);
    assert RunOnce(s, job);
  }

  // Jobs never wait while all workers sleep with no notify on its way, and after a shutdown nobody sleeps on.
  lemma NoLostWakeUp(s: State)
    requires Reachable(s) && s.workers != []
    ensures s.jobs != [] ==> SomeAwake(s) || NotifyPending(s)
    ensures s.shutdown && !NotifyAllPending(s) ==> forall pc <- s.workers :: !pc.Asleep?
  {
    ReachableInv(s);
  }

  lemma LimitKept(s: State)
    requires Reachable(s) && s.limit > 0
    ensures |s.jobs| <= s.limit
  {
    ReachableInv(s);
  }

  // A step that brings the pool on: not a wake-up that nobody asked for, nor a new request.
  ghost predicate Useful(s: State, e: Event) {
    match e
    case OfWorker(w) => w < |s.workers| && !s.workers[w].Asleep?
    case OfClient(c, _, _) => c < |s.clients| && !s.clients[c].Idle?
  }

  // With something to do, a job or a shutdown, and a worker left to do it, some thread can go on.
  lemma NeverStuck(s: State) returns (e: Event)
    requires Reachable(s) && (s.jobs != [] || s.shutdown) && s.workers != [] && !AllExited(s)
    ensures Enabled(s, e) && Useful(s, e)
  {
    ReachableInv(s);
    if s.mutex.Some? {
      match s.mutex.value
      case ByWorker(w) =>
        assert WorkerHolds(s, w);
        e := OfWorker(w);
      case ByClient(c) =>
        assert ClientHolds(s, c);
        e := OfClient(c, Shutdown, 0);
    } else if w :| 0 <= w < |s.workers| && !s.workers[w].Asleep? && !s.workers[w].Exited? {
      e := OfWorker(w);
    } else {
      var w :| 0 <= w < |s.workers| && !s.workers[w].Exited?;
      assert s.workers[w].Asleep?;
      if s.shutdown {
        var c :| 0 <= c < |s.clients| && s.clients[c].NotifyAll?;
        e := OfClient(c, Shutdown, 0);
      } else {
        var c :| 0 <= c < |s.clients| && s.clients[c].NotifyOne?;
        e := OfClient(c, Shutdown, w);
      }
    }
  }

  // ---------------------------------------------------------------- jobs accepted too late

  lemma ExitedStep(s: State, e: Event)
    requires AllExited(s) && Enabled(s, e)
    ensures var s' := Step(s, e); AllExited(s') && s'.started == s.started && s'.executed == s.executed
  {
    match e
    case OfWorker(w) =>
    case OfClient(c, op, woken) =>
      var s' := Step(s, e);
      assert forall w | 0 <= w < |s.workers| :: s'.workers[w] == s.workers[w];
  }

  lemma {:induction false} NothingStartsAfterExit(run: seq<State>)
    requires Steps(run) && AllExited(run[0])
    ensures AllExited(run[|run| - 1]) && run[|run| - 1].started == run[0].started && run[|run| - 1].executed == run[0].executed
  {
    hide AllExited, Step;
    if |run| > 1 {
      var prev := run[..|run| - 1];
      NothingStartsAfterExit(prev);
      assert Next(prev[|prev| - 1], run[|run| - 1]);
      var e :| Enabled(prev[|prev| - 1], e) && run[|run| - 1] == Step(prev[|prev| - 1], e);
      ExitedStep(prev[|prev| - 1], e);
    }
  }

  // The step in which the last worker exits.
  lemma LastExit(s: State, e: Event)
    requires Inv(s) && Enabled(s, e) && !AllExited(s) && AllExited(Step(s, e))
    ensures Step(s, e).started == Step(s, e).accepted
  {
    var s' := Step(s, e);
    StepPreservesInv(s, e);
    match e
    case OfWorker(w) =>
      assert s'.workers[w].Exited?;
    case OfClient(c, op, woken) =>
      forall w | 0 <= w < |s.workers| ensures s.workers[w].Exited? {
        assert s'.workers[w].Exited?;
      }
      assert AllExited(s);
  }

  // Exactly the jobs accepted before the last worker exits are ever run, each once: run[k] is the state that the
  // last exit leads to.
  lemma {:induction false} RunIffAcceptedInTime(run: seq<State>) returns (k: nat)
    requires Steps(run) && Init(run[0]) && AllExited(run[|run| - 1])
    ensures 0 < k < |run| && AllExited(run[k]) && !AllExited(run[k - 1])
    ensures run[|run| - 1].started == run[k].accepted && multiset(run[|run| - 1].executed) == multiset(run[k].accepted)
  {
    hide AllExited, Step, Inv, Reachable, Init, Enabled;
    var n := |run| - 1;
    StartsWorking(run[0]);
    var prev := run[..n];
    assert Next(prev[n - 1], run[n]);
    var e :| Enabled(prev[n - 1], e) && run[n] == Step(prev[n - 1], e);
    if AllExited(prev[n - 1]) {
      k := RunIffAcceptedInTime(prev);
      ExitedStep(prev[n - 1], e);
    } else {
      k := n;
      RunInv(prev);
      LastExit(prev[n - 1], e);
      RunReaches(run);
      ShutdownDrains(run[n]);
    }
  }

  lemma RunReaches(run: seq<State>)
    requires Steps(run) && Init(run[0])
    ensures Reachable(run[|run| - 1])
  {
  }

  lemma StartsWorking(s: State)
    requires Init(s)
    ensures !AllExited(s)
  {
    if s.workers != [] { assert s.workers[0].Locking?; }
  }

  lemma OneMore(s: State, e: Event, s': State)
    requires Reachable(s) && Enabled(s, e) && Step(s, e) == s'
    ensures Reachable(s')
  {
    hide Step;
    var run :| Steps(run) && Init(run[0]) && run[|run| - 1] == s;
    var longer := run + [s'];
    assert Steps(longer) by {
      forall i | 0 < i < |longer| ensures Next(longer[i - 1], longer[i]) {
        if i < |run| { assert Next(run[i - 1], run[i]); }
      }
    }
    assert longer[|longer| - 1] == s';
  }

  // A pool of one worker with two clients and no job taken yet.
  function Small(jobs: seq<Job>, shutdown: bool, mutex: Option<Holder>, worker: Worker, client0: Client, client1: Client): State {
    State(jobs, shutdown, mutex, 0, [worker], [client0, client1], jobs, [], [], 0)
  }

  lemma SmallShutdown()
    ensures Reachable(Small([], true, None, Locking, Joining, Idle))
  {
    hide Reachable;
    var stop := OfClient(0, Shutdown, 0);
    InitReachable(Small([], false, None, Locking, Idle, Idle));
    OneMore(Small([], false, None, Locking, Idle, Idle), stop, Small([], false, None, Locking, ShutdownLocking, Idle));
    OneMore(Small([], false, None, Locking, ShutdownLocking, Idle), stop, Small([], false, Some(ByClient(0)), Locking, ShutdownInside, Idle));
    OneMore(Small([], false, Some(ByClient(0)), Locking, ShutdownInside, Idle), stop, Small([], true, None, Locking, NotifyAll, Idle));
    var s := Small([], true, None, Locking, NotifyAll, Idle);
    assert seq(|s.workers|, w requires 0 <= w < |s.workers| => Awake(s.workers[w])) == [Locking];
    OneMore(s, stop, Small([], true, None, Locking, Joining, Idle));
  }

  lemma InitReachable(s: State)
    requires Init(s)
    ensures Reachable(s)
  {
    assert Steps([s]);
  }

  lemma SmallExit()
    ensures Reachable(Small([], true, None, Exited, Joining, Idle))
  {
    hide Reachable;
    SmallShutdown();
    OneMore(Small([], true, None, Locking, Joining, Idle), OfWorker(0), Small([], true, Some(ByWorker(0)), Inside, Joining, Idle));
    OneMore(Small([], true, Some(ByWorker(0)), Inside, Joining, Idle), OfWorker(0), Small([], true, None, Exited, Joining, Idle));
  }

  // enqueue does not look at the shutdown flag: it accepts a job although every worker has left, and by
  // NothingStartsAfterExit that job is never run.
  lemma AcceptedButNeverRun(job: Job) returns (s: State)
    ensures Reachable(s) && AllExited(s) && s.accepted == s.jobs == [job] && s.started == []
    ensures s.clients == [Joining, Idle]
  {
    hide Reachable;
    SmallExit();
    var late := OfClient(1, Enqueue(job), 0);
    OneMore(Small([], true, None, Exited, Joining, Idle), late, Small([], true, None, Exited, Joining, EnqueueLocking(job)));
    OneMore(Small([], true, None, Exited, Joining, EnqueueLocking(job)), late,
            Small([], true, Some(ByClient(1)), Exited, Joining, EnqueueInside(job)));
    OneMore(Small([], true, Some(ByClient(1)), Exited, Joining, EnqueueInside(job)), late, Small([job], true, None, Exited, Joining, NotifyOne));
    OneMore(Small([job], true, None, Exited, Joining, NotifyOne), late, Small([job], true, None, Exited, Joining, Idle));
    s := Small([job], true, None, Exited, Joining, Idle);
  }

  // ---------------------------------------------------------------- what every enqueue answers

  // `started` counts the enqueues; `refused` lists the length of the job list at each refusal.
  datatype History = History(started: nat, refused: seq<nat>)

  function Record(s: State, h: History, e: Event): History
    requires Enabled(s, e)
  {
    match e
    case OfWorker(_) => h
    case OfClient(c, op, _) =>
      if s.clients[c].Idle? && op.Enqueue? then h.(started := h.started + 1)
      else if s.clients[c].EnqueueInside? && Step(s, e).accepted == s.accepted then h.(refused := h.refused + [|s.jobs|])
      else h
  }

  ghost function InEnqueue(): Client -> int { (pc: Client) => if pc.EnqueueLocking? || pc.EnqueueInside? then 1 else 0 }

  ghost predicate HistoryOk(s: State, h: History) {
    && h.started == |s.accepted| + |h.refused| + Sum(s.clients, InEnqueue())
    && (forall length <- h.refused :: 0 < s.limit <= length) && (s.limit == 0 ==> h.refused == [])
  }

  lemma RecordOk(s: State, h: History, e: Event)
    requires HistoryOk(s, h) && Enabled(s, e)
    ensures HistoryOk(Step(s, e), Record(s, h, e)) && Step(s, e).limit == s.limit
  {
    hide Sum;
    if e.OfClient? { SumUpdate(s.clients, e.c, Step(s, e).clients[e.c], InEnqueue()); }
  }

  ghost predicate RecordedNext(s: State, h: History, s': State, h': History) {
    exists e :: Enabled(s, e) && s' == Step(s, e) && h' == Record(s, h, e)
  }

  ghost predicate RecordedRun(run: seq<(State, History)>) {
    && run != [] && Init(run[0].0) && run[0].1 == History(0, [])
    && forall i | 0 < i < |run| :: RecordedNext(run[i - 1].0, run[i - 1].1, run[i].0, run[i].1)
  }

  // In every run every enqueue is under way, accepted, or refused with a limit that the list had reached; without a
  // limit none is refused.
  lemma {:induction false} EveryEnqueueAnswered(run: seq<(State, History)>)
    requires RecordedRun(run)
    ensures HistoryOk(run[|run| - 1].0, run[|run| - 1].1)
    ensures run[|run| - 1].0.limit == 0 ==> run[|run| - 1].1.refused == []
  {
    hide Step, Record, Enabled, Sum;
    if |run| > 1 {
      var prev := run[..|run| - 1];
      EveryEnqueueAnswered(prev);
      var (s, h) := prev[|prev| - 1];
      var (s', h') := run[|run| - 1];
      assert RecordedNext(s, h, s', h');
      var e :| Enabled(s, e) && s' == Step(s, e) && h' == Record(s, h, e);
      RecordOk(s, h, e);
    } else {
      forall pc <- run[0].0.clients ensures InEnqueue()(pc) == 0 {
        var c :| 0 <= c < |run[0].0.clients| && run[0].0.clients[c] == pc;
      }
      SumZero(run[0].0.clients, InEnqueue());
    }
  }

  // Each step takes its thread on.
  lemma NobodyIdles(s: State, e: Event)
    requires Enabled(s, e)
    ensures match e
            case OfWorker(w) => Step(s, e).workers[w] != s.workers[w]
            case OfClient(c, _, _) => Step(s, e).clients[c] != s.clients[c]
  {
  }
}

// moodycamel::spsc_sema::LightweightSemaphore: one waiting and one signalling thread, every interleaving.
module SpscSemaphore {

  datatype Mode = Try | Poll | Timed | Forever

  datatype Waiter =
    | WIdle
    | TryLoad(mode: Mode, spins: nat)
    | TryTake
    | SpinLoad(mode: Mode, spins: nat)
    | SpinTake
    | Decrement(mode: Mode)
    | Sleep(mode: Mode)
    | AddBack
    | TakeAgain
    | TryKernel

  datatype Signaller = SIdle | Signal(count: nat) | Post

  // `acquired` counts the waits that returned true.
  datatype State = State(
    count: int, kernel: nat, waiter: Waiter, signaller: Signaller, initial: nat, acquired: nat, signalled: nat)

  // `luck` decides whether a sleeper is woken by a post before its timeout.
  datatype Event = Wait(mode: Mode, spins: nat, luck: bool) | Give(count: nat)

  predicate Enabled(s: State, e: Event) {
    e.Wait? && s.waiter.Sleep? ==>
      if e.luck then s.kernel > 0 && !s.waiter.mode.Poll? else !s.waiter.mode.Forever?
  }

  function Acquire(s: State): State { s.(waiter := WIdle, acquired := s.acquired + 1) }

  function Step(s: State, e: Event): State
    requires Enabled(s, e)
  {
    match e
    case Give(n) => (
      match s.signaller
      case SIdle => s.(signaller := Signal(n))
      case Signal(count) =>
        s.(count := s.count + count, signalled := s.signalled + count, signaller := if s.count < 0 then Post else SIdle)
      case Post => s.(kernel := s.kernel + 1, signaller := SIdle)
    )
    case Wait(m, n, luck) =>
      match s.waiter
      case WIdle => s.(waiter := TryLoad(m, n))
      case TryLoad(mode, spins) =>
        s.(waiter := if s.count > 0 then TryTake else if mode.Try? then WIdle else SpinLoad(mode, spins))
      case TryTake => Acquire(s.(count := s.count - 1))
      case SpinLoad(mode, spins) =>
        s.(waiter := if spins == 0 then Decrement(mode) else if s.count > 0 then SpinTake else SpinLoad(mode, spins - 1))
      case SpinTake => Acquire(s.(count := s.count - 1))
      case Decrement(mode) =>
        var s1 := s.(count := s.count - 1);
        if s.count > 0 then Acquire(s1) else s1.(waiter := Sleep(mode))
      case Sleep(mode) =>
        if luck then Acquire(s.(kernel := s.kernel - 1)) else s.(waiter := AddBack)
      case AddBack =>
        s.(count := s.count + 1, waiter := if s.count < 0 then WIdle else TakeAgain)
      case TakeAgain =>
        s.(count := s.count - 1, waiter := if s.count > 0 then TryKernel else AddBack)
      case TryKernel =>
        if s.kernel > 0 then Acquire(s.(kernel := s.kernel - 1)) else s.(waiter := AddBack)
  }

  ghost predicate Init(s: State) {
    && s.count == s.initial && s.kernel == 0 && s.waiter.WIdle? && s.signaller.SIdle?
    && s.acquired == s.signalled == 0
  }

  // ---------------------------------------------------------------- invariant

  // The waiter has taken one off the count for a permit it does not have yet.
  predicate Claiming(w: Waiter) { w.Sleep? || w.AddBack? || w.TryKernel? }

  // From the first decrement to the end of the wait.
  predicate Slow(w: Waiter) { Claiming(w) || w.TakeAgain? }

  // Kernel posts made or about to be made.
  function Posts(s: State): nat { s.kernel + if s.signaller.Post? then 1 else 0 }

  // Permits put in are in the count, returned, or claimed by the waiter.
  ghost predicate Conserved(s: State) {
    s.initial + s.signalled == s.acquired + s.count + if Claiming(s.waiter) then 1 else 0
  }

  // There is a post exactly for a slow waiter that the signaller has seen.
  ghost predicate PostMatchesWaiter(s: State) {
    && s.count >= -1
    && (s.count == -1 ==> Slow(s.waiter) && Posts(s) == 0)
    && (s.count >= 0 ==> Posts(s) == if Slow(s.waiter) then 1 else 0)
  }

  ghost predicate Inv(s: State) {
    && Conserved(s)
    && PostMatchesWaiter(s)
    && (s.waiter.TryTake? || s.waiter.SpinTake? || s.waiter.TakeAgain? ==> s.count > 0)
    && (s.waiter.TryKernel? ==> s.count >= 0)
    && (s.waiter.SpinLoad? || s.waiter.Decrement? || s.waiter.Sleep? ==> !s.waiter.mode.Try?)
  }

  // signal(0) reaching its fetch_add while the waiter sleeps.
  predicate EmptySignal(s: State, e: Event) {
    e.Give? && s.signaller == Signal(0) && s.count < 0
  }

  // One step keeps the invariant exactly when it is not an empty signal to a sleeping waiter.
  lemma StepPreservesInv(s: State, e: Event)
    requires Inv(s) && Enabled(s, e)
    ensures Inv(Step(s, e)) <==> !EmptySignal(s, e)
  {
  }

  // ---------------------------------------------------------------- every run

  datatype Trace = Trace(states: seq<State>, events: seq<Event>)

  ghost predicate Run(r: Trace) {
    && |r.states| == |r.events| + 1 && Init(r.states[0])
    && forall i | 0 <= i < |r.events| :: Enabled(r.states[i], r.events[i]) && r.states[i + 1] == Step(r.states[i], r.events[i])
  }

  // The invariant holds throughout a run exactly when no signal(0) hits a sleeping waiter in it.
  lemma {:induction false} RunInv(r: Trace)
    requires Run(r)
    ensures (forall s <- r.states :: Inv(s)) <==> forall i | 0 <= i < |r.events| :: !EmptySignal(r.states[i], r.events[i])
    decreases |r.events|
  {
    var n := |r.events|;
    if n > 0 {
      var prev := Trace(r.states[..n], r.events[..n - 1]);
      RunInv(prev);
      var last := r.events[n - 1];
      assert r.states[n - 1] in prev.states;
      assert r.states == prev.states + [r.states[n]];
      assert forall i | 0 <= i < n - 1 :: r.events[i] == prev.events[i] && r.states[i] == prev.states[i];
      if Inv(r.states[n - 1]) { StepPreservesInv(r.states[n - 1], last); }
    }
  }

  ghost predicate Reachable(s: State) {
    exists r: Trace :: Run(r) && s in r.states && forall i | 0 <= i < |r.events| :: !EmptySignal(r.states[i], r.events[i])
  }

  // m_count never drops below -1, at most one kernel post is outstanding, and every wait that returned
  // true took exactly one permit: none is created or lost, timeouts and retries included.
  lemma OnePermitPerWait(s: State)
    requires Reachable(s)
    ensures s.count >= -1 && Posts(s) <= 1
    ensures s.acquired <= s.initial + s.signalled
    ensures s.waiter.WIdle? ==> s.kernel == 0 && s.acquired + s.count == s.initial + s.signalled
  {
    var r :| Run(r) && s in r.states && forall i | 0 <= i < |r.events| :: !EmptySignal(r.states[i], r.events[i]);
    RunInv(r);
  }

  // The retry loop goes round again only while the signaller is still about to post.
  lemma RetryWaitsForPost(s: State)
    requires Reachable(s) && s.waiter.TryKernel? && s.kernel == 0
    ensures s.signaller.Post?
  {
    var r :| Run(r) && s in r.states && forall i | 0 <= i < |r.events| :: !EmptySignal(r.states[i], r.events[i]);
    RunInv(r);
  }

  // signal(0) to a sleeping waiter posts the kernel semaphore all the same: the wait returns true though
  // every permit was already taken, and the count stays at -1 with nobody waiting.
  lemma EmptySignalGrantsNothing(s: State)
    requires Inv(s) && EmptySignal(s, Give(0)) && s.waiter.Sleep? && !s.waiter.mode.Poll?
    ensures s.acquired == s.initial + s.signalled
    ensures var posted := Step(Step(s, Give(0)), Give(0));
            var wake := Wait(Forever, 0, true);
            && Enabled(posted, wake)
            && Step(posted, wake) == s.(waiter := WIdle, signaller := SIdle, acquired := s.acquired + 1)
            && Step(posted, wake).acquired > s.initial + s.signalled
  {
    var sent := Step(s, Give(0));
    assert sent == s.(signaller := Post);
    assert Step(sent, Give(0)) == s.(signaller := SIdle, kernel := 1);
  }

  // A run that ends in s.
  ghost predicate RunTo(r: Trace, s: State) { Run(r) && r.states[|r.events|] == s }

  lemma OneMore(r: Trace, s: State, e: Event, s': State) returns (r': Trace)
    requires RunTo(r, s) && Enabled(s, e) && s' == Step(s, e)
    ensures RunTo(r', s')
  {
    hide Step, Enabled, Init;
    r' := Trace(r.states + [s'], r.events + [e]);
    forall i | 0 <= i < |r'.events| ensures Enabled(r'.states[i], r'.events[i]) && r'.states[i + 1] == Step(r'.states[i], r'.events[i]) {
      if i < |r.events| { assert r'.states[i] == r.states[i] && r'.events[i] == r.events[i]; }
    }
  }

  lemma StartRun(r: Trace, s: State)
    requires r == Trace([s], []) && Init(s)
    ensures RunTo(r, s)
  {
  }

  // A semaphore that no permit was ever put in.
  function Dry(count: int, kernel: nat, waiter: Waiter, signaller: Signaller, acquired: nat): State {
    State(count, kernel, waiter, signaller, 0, acquired, 0)
  }

  // From the start: a wait goes to sleep on an empty semaphore, an empty signal comes, the wait returns true.
  lemma EmptySignalRun() returns (r: Trace, s: State)
    ensures RunTo(r, s) && s.waiter.WIdle? && s.acquired == 1 && s.initial + s.signalled == 0 && s.count == -1
  {
    hide RunTo, Step, Enabled;
    r, s := SleepRun();
    SignalSteps();
    var s1 := Dry(-1, 0, Sleep(Forever), Signal(0), 0);
    var s2 := Dry(-1, 0, Sleep(Forever), Post, 0);
    var s3 := Dry(-1, 1, Sleep(Forever), SIdle, 0);
    r := OneMore(r, s, Give(0), s1);
    r := OneMore(r, s1, Give(0), s2);
    r := OneMore(r, s2, Give(0), s3);
    s := Dry(-1, 0, WIdle, SIdle, 1);
    r := OneMore(r, s3, Wait(Forever, 0, true), s);
  }

  lemma SignalSteps()
    ensures var s := Dry(-1, 0, Sleep(Forever), SIdle, 0); Enabled(s, Give(0)) && Step(s, Give(0)) == s.(signaller := Signal(0))
    ensures var s := Dry(-1, 0, Sleep(Forever), Signal(0), 0); Enabled(s, Give(0)) && Step(s, Give(0)) == s.(signaller := Post)
    ensures var s := Dry(-1, 0, Sleep(Forever), Post, 0); Enabled(s, Give(0)) && Step(s, Give(0)) == s.(signaller := SIdle, kernel := 1)
    ensures var s, wake := Dry(-1, 1, Sleep(Forever), SIdle, 0), Wait(Forever, 0, true);
            Enabled(s, wake) && Step(s, wake) == Dry(-1, 0, WIdle, SIdle, 1)
  {
  }

  lemma SleepRun() returns (r: Trace, s: State)
    ensures RunTo(r, s) && s == Dry(-1, 0, Sleep(Forever), SIdle, 0)
  {
    hide RunTo;
    var wait := Wait(Forever, 0, true);
    r := Trace([Dry(0, 0, WIdle, SIdle, 0)], []);
    StartRun(r, Dry(0, 0, WIdle, SIdle, 0));
    r := OneMore(r, Dry(0, 0, WIdle, SIdle, 0), wait, Dry(0, 0, TryLoad(Forever, 0), SIdle, 0));
    r := OneMore(r, Dry(0, 0, TryLoad(Forever, 0), SIdle, 0), wait, Dry(0, 0, SpinLoad(Forever, 0), SIdle, 0));
    r := OneMore(r, Dry(0, 0, SpinLoad(Forever, 0), SIdle, 0), wait, Dry(0, 0, Decrement(Forever), SIdle, 0));
    s := Dry(-1, 0, Sleep(Forever), SIdle, 0);
    r := OneMore(r, Dry(0, 0, Decrement(Forever), SIdle, 0), wait, s);
  }

  // ---------------------------------------------------------------- what every wait answers

  // `started` counts the waits, `given` the permits of all signals; `refused` lists the count left behind by each wait
  // that returned false.
  datatype History = History(started: nat, given: nat, refused: seq<int>)

  function Record(s: State, h: History, e: Event): History
    requires Enabled(s, e)
  {
    var s' := Step(s, e);
    match e
    case Give(n) => if s.signaller.SIdle? then h.(given := h.given + n) else h
    case Wait(_, _, _) =>
      if s.waiter.WIdle? then h.(started := h.started + 1)
      else if s'.waiter.WIdle? && s'.acquired == s.acquired then h.(refused := h.refused + [s'.count])
      else h
  }

  ghost predicate HistoryOk(s: State, h: History) {
    && h.started == s.acquired + |h.refused| + (if s.waiter.WIdle? then 0 else 1)
    && h.given == s.signalled + (if s.signaller.Signal? then s.signaller.count else 0)
    && forall left <- h.refused :: left <= 0
  }

  lemma RecordOk(s: State, h: History, e: Event)
    requires HistoryOk(s, h) && Enabled(s, e)
    ensures HistoryOk(Step(s, e), Record(s, h, e))
  {
  }

  ghost predicate RecordedNext(s: State, h: History, s': State, h': History) {
    exists e :: Enabled(s, e) && s' == Step(s, e) && h' == Record(s, h, e)
  }

  ghost predicate RecordedRun(run: seq<(State, History)>) {
    && run != [] && Init(run[0].0) && run[0].1 == History(0, 0, [])
    && forall i | 0 < i < |run| :: RecordedNext(run[i - 1].0, run[i - 1].1, run[i].0, run[i].1)
  }

  // In every run, with or without empty signals, every wait is answered or under way, every permit given is signalled
  // or about to be, and a wait that returned false left no permit free at that moment.
  lemma {:induction false} EveryWaitAnswered(run: seq<(State, History)>)
    requires RecordedRun(run)
    ensures HistoryOk(run[|run| - 1].0, run[|run| - 1].1)
  {
    hide Step, Record, Enabled;
    if |run| > 1 {
      var prev := run[..|run| - 1];
      EveryWaitAnswered(prev);
      var (s, h) := prev[|prev| - 1];
      var (s', h') := run[|run| - 1];
      assert RecordedNext(s, h, s', h');
      var e :| Enabled(s, e) && s' == Step(s, e) && h' == Record(s, h, e);
      RecordOk(s, h, e);
    }
  }

  // A wait of any kind that finds a permit and is not disturbed takes it and returns true.
  lemma LoneWait(s: State, mode: Mode, spins: nat)
    requires s.waiter.WIdle? && s.count > 0
    ensures var e := Wait(mode, spins, true); var s1 := Step(s, e);
            && Enabled(s1, e)
            && var s2 := Step(s1, e);
               Enabled(s2, e) && Step(s2, e) == s.(count := s.count - 1, acquired := s.acquired + 1)
  {
    var e := Wait(mode, spins, true);
    assert Step(s, e) == s.(waiter := TryLoad(mode, spins));
    assert Step(s.(waiter := TryLoad(mode, spins)), e) == s.(waiter := TryTake);
  }

  // Each step takes its operation on.
  lemma NobodyWaits(s: State, e: Event)
    requires Enabled(s, e)
    ensures if e.Wait? then Step(s, e).waiter != s.waiter else Step(s, e).signaller != s.signaller
  {
  }
}

// moodycamel::LightweightSemaphore: any number of waiting and signalling threads, every interleaving
// of the operations on m_count and on the kernel semaphore, which is a counter here.
module Semaphore {
  import opened Sums

  // tryWait and tryWaitMany; waits with zero, positive and negative timeout. The single-permit
  // operations are the cases want == 1 of the others.
  datatype Mode = Try | Poll | Timed | Forever

  datatype Pc =
    | Idle
    | TryLoad(mode: Mode, want: nat, got: nat, spins: nat)
    | TryCas(mode: Mode, want: nat, got: nat, spins: nat, expected: int)
    | SpinLoad(mode: Mode, want: nat, spins: nat)
    | SpinCas(mode: Mode, want: nat, spins: nat, expected: int)
    | Decrement(mode: Mode, want: nat)
    | Sleep(mode: Mode, want: nat)
    | Recheck(mode: Mode, want: nat)
    | TryKernel(mode: Mode, want: nat)
    | Undo(mode: Mode, want: nat, expected: int)
    | Signal(count: nat)
    | Post(left: nat)

  datatype Return = Return(mode: Mode, want: nat, got: nat)

  // `acquired` and `signalled` count permits taken and given so far; `results` lists the finished waits.
  datatype State = State(
    count: int, kernel: nat, threads: seq<Pc>,
    initial: nat, acquired: nat, signalled: nat, results: seq<Return>)
  {
    function At(t: nat, pc: Pc): State
      requires t < |threads|
    {
      this.(threads := threads[t := pc])
    }

    function Finish(t: nat, mode: Mode, want: nat, got: nat): State
      requires t < |threads|
    {
      At(t, Idle).(results := results + [Return(mode, want, got)])
    }
  }

  // What an idle thread starts. `luck` resolves the outcomes the code does not decide: a spurious
  // failure of a weak compare-and-swap, and which comes first, the timeout or a kernel post.
  datatype Event = Wait(t: nat, mode: Mode, want: nat, spins: nat, luck: bool) | Give(t: nat, count: nat)

  predicate Enabled(s: State, e: Event) {
    && e.t < |s.threads|
    && (e.Give? ==> s.threads[e.t].Idle?)
    && (s.threads[e.t].Sleep? ==>
          if e.luck then s.kernel > 0 && !s.threads[e.t].mode.Poll? else !s.threads[e.t].mode.Forever?)
  }

  function Remaining(expected: int, max: nat): int { if expected > max then expected - max else 0 }

  // tryWaitMany found no permit.
  function TryFailed(s: State, t: nat, mode: Mode, want: nat, got: nat, spins: nat): State
    requires t < |s.threads|
  {
    if mode.Try? || got > 0 || want == 0 then s.Finish(t, mode, want, got)
    else s.At(t, SpinLoad(mode, want, spins))
  }

  // The slow path has its first permit; the rest is whatever tryWaitMany finds.
  function GotOne(s: State, t: nat, mode: Mode, want: nat): State
    requires t < |s.threads|
  {
    var s1 := s.(acquired := s.acquired + 1);
    if want > 1 then s1.At(t, TryLoad(mode, want, 1, 0)) else s1.Finish(t, mode, want, 1)
  }

  function Step(s: State, e: Event): (s': State)
    requires Enabled(s, e)
    ensures |s'.threads| == |s.threads|
  {
    var t := e.t;
    match s.threads[t]
    case Idle =>
      if e.Give? then s.At(t, Signal(e.count)) else s.At(t, TryLoad(e.mode, e.want, 0, e.spins))
    case TryLoad(mode, want, got, spins) =>
      if s.count > 0 then s.At(t, TryCas(mode, want, got, spins, s.count))
      else TryFailed(s, t, mode, want, got, spins)
    case TryCas(mode, want, got, spins, expected) =>
      if s.count == expected && e.luck then
        var left := Remaining(expected, if want > got then want - got else 0);
        s.(count := left, acquired := s.acquired + Gain(expected, left)).Finish(t, mode, want, got + Gain(expected, left))
      else if s.count > 0 then s.At(t, TryCas(mode, want, got, spins, s.count))
      else TryFailed(s, t, mode, want, got, spins)
    case SpinLoad(mode, want, spins) =>
      if spins == 0 then s.At(t, Decrement(mode, want))
      else if s.count > 0 then s.At(t, SpinCas(mode, want, spins - 1, s.count))
      else s.At(t, SpinLoad(mode, want, spins - 1))
    case SpinCas(mode, want, spins, expected) =>
      if s.count == expected then
        var left := Remaining(expected, want);
        s.(count := left, acquired := s.acquired + Gain(expected, left)).Finish(t, mode, want, Gain(expected, left))
      else s.At(t, SpinLoad(mode, want, spins))
    case Decrement(mode, want) =>
      var s1 := s.(count := s.count - 1);
      if s.count > 0 then GotOne(s1, t, mode, want) else s1.At(t, Sleep(mode, want))
    case Sleep(mode, want) =>
      if e.luck then GotOne(s.(kernel := s.kernel - 1), t, mode, want) else s.At(t, Recheck(mode, want))
    case Recheck(mode, want) =>
      if s.count >= 0 then s.At(t, TryKernel(mode, want)) else s.At(t, Undo(mode, want, s.count))
    case TryKernel(mode, want) =>
      if s.kernel > 0 then GotOne(s.(kernel := s.kernel - 1), t, mode, want) else s.At(t, Recheck(mode, want))
    case Undo(mode, want, expected) =>
      if s.count == expected then s.(count := s.count + 1).Finish(t, mode, want, 0)
      else s.At(t, Recheck(mode, want))
    case Signal(count) =>
      var owed := if -s.count < count then -s.count else count;
      s.(count := s.count + count, signalled := s.signalled + count).At(t, if owed > 0 then Post(owed) else Idle)
    case Post(left) =>
      s.(kernel := s.kernel + 1).At(t, if left > 1 then Post(left - 1) else Idle)
  }

  // How many permits a compare-and-swap from `expected` to `left` took.
  function Gain(expected: int, left: int): (g: nat) { if expected > left then expected - left else 0 }

  ghost predicate Init(s: State) {
    && s.count == s.initial && s.kernel == 0
    && s.acquired == s.signalled == 0 && s.results == []
    && forall pc <- s.threads :: pc.Idle?
  }

  // ---------------------------------------------------------------- invariant

  // Threads that have decremented the count to claim a permit they do not have yet.
  ghost function Waiting(): Pc -> int {
    (pc: Pc) => if pc.Sleep? || pc.Recheck? || pc.TryKernel? || pc.Undo? then 1 else 0
  }

  // Kernel posts that signalling threads still have to make.
  ghost function Owed(): Pc -> int { (pc: Pc) => if pc.Post? then pc.left else 0 }

  ghost function InHand(): Pc -> int { (pc: Pc) => if pc.TryLoad? || pc.TryCas? then pc.got else 0 }

  ghost function Returned(): Return -> int { (r: Return) => r.got }

  ghost predicate ThreadOk(pc: Pc) {
    match pc
    case TryLoad(mode, want, got, _) => got <= want && (got > 0 ==> !mode.Try?)
    case TryCas(mode, want, got, _, expected) => got <= want && expected > 0 && (got > 0 ==> !mode.Try?)
    case SpinLoad(mode, want, _) => want > 0 && !mode.Try?
    case SpinCas(mode, want, _, expected) => want > 0 && expected > 0 && !mode.Try?
    case Decrement(mode, want) => want > 0 && !mode.Try?
    case Sleep(mode, want) => want > 0 && !mode.Try?
    case Recheck(mode, want) => want > 0 && !mode.Try? && !mode.Forever?
    case TryKernel(mode, want) => want > 0 && !mode.Try? && !mode.Forever?
    case Undo(mode, want, expected) => want > 0 && expected < 0 && !mode.Try? && !mode.Forever?
    case Post(left) => left > 0
    case _ => true
  }

  // A wait takes at most what it asked for; an untimed one that asked for something gets something.
  ghost predicate ReturnOk(r: Return) {
    r.got <= r.want && (r.mode.Forever? && r.want > 0 ==> r.got > 0)
  }

  ghost predicate Inv(s: State) {
    && (forall pc <- s.threads :: ThreadOk(pc))
    && (forall r <- s.results :: ReturnOk(r))
    && Sum(s.threads, Waiting()) == (if s.count < 0 then -s.count else 0) + s.kernel + Sum(s.threads, Owed())
    && s.initial + s.signalled == s.acquired + s.count + Sum(s.threads, Waiting())
    && s.acquired == Sum(s.results, Returned()) + Sum(s.threads, InHand())
  }

  lemma SumsChange(s: State, t: nat, pc: Pc)
    requires t < |s.threads|
    ensures forall f <- {Waiting(), Owed(), InHand()} ::
              Sum(s.threads[t := pc], f) == Sum(s.threads, f) - f(s.threads[t]) + f(pc)
  {
    SumUpdate(s.threads, t, pc, Waiting());
    SumUpdate(s.threads, t, pc, Owed());
    SumUpdate(s.threads, t, pc, InHand());
  }

  lemma StepFacts(s: State, e: Event)
    requires Inv(s) && Enabled(s, e)
    ensures ThreadOk(s.threads[e.t]) && Sum(s.threads, Owed()) >= 0
    ensures var s' := Step(s, e);
            && s'.threads == s.threads[e.t := s'.threads[e.t]]
            && (forall f <- {Waiting(), Owed(), InHand()} ::
                  Sum(s'.threads, f) == Sum(s.threads, f) - f(s.threads[e.t]) + f(s'.threads[e.t]))
    ensures forall r: Return :: Sum(s.results + [r], Returned()) == Sum(s.results, Returned()) + r.got
  {
    SumsChange(s, e.t, Step(s, e).threads[e.t]);
    forall pc <- s.threads ensures 0 <= Owed()(pc) { assert ThreadOk(pc); }
    SumNonNegative(s.threads, Owed());
    forall r: Return { SumAppend(s.results, r, Returned()); }
  }

  lemma LookPreserves(s: State, e: Event)
    requires Inv(s) && Enabled(s, e) && var pc := s.threads[e.t]; pc.SpinLoad? || pc.Recheck?
    ensures Inv(Step(s, e))
  {
    StepFacts(s, e);
  }

  lemma BeginPreserves(s: State, e: Event)
    requires Inv(s) && Enabled(s, e) && var pc := s.threads[e.t]; pc.Idle? || pc.TryLoad?
    ensures Inv(Step(s, e))
  {
    StepFacts(s, e);
  }

  lemma TryCasPreserves(s: State, e: Event)
    requires Inv(s) && Enabled(s, e) && s.threads[e.t].TryCas?
    ensures Inv(Step(s, e))
  {
    StepFacts(s, e);
  }

  lemma SpinCasPreserves(s: State, e: Event)
    requires Inv(s) && Enabled(s, e) && s.threads[e.t].SpinCas?
    ensures Inv(Step(s, e))
  {
    StepFacts(s, e);
  }

  lemma SlowPreserves(s: State, e: Event)
    requires Inv(s) && Enabled(s, e) && var pc := s.threads[e.t]; pc.Decrement? || pc.Sleep?
    ensures Inv(Step(s, e))
  {
    StepFacts(s, e);
  }

  lemma TimedOutPreserves(s: State, e: Event)
    requires Inv(s) && Enabled(s, e) && var pc := s.threads[e.t]; pc.TryKernel? || pc.Undo?
    ensures Inv(Step(s, e))
  {
    StepFacts(s, e);
  }

  lemma GivePreserves(s: State, e: Event)
    requires Inv(s) && Enabled(s, e) && var pc := s.threads[e.t]; pc.Signal? || pc.Post?
    ensures Inv(Step(s, e))
  {
    StepFacts(s, e);
  }

  lemma StepPreservesInv(s: State, e: Event)
    requires Inv(s) && Enabled(s, e)
    ensures Inv(Step(s, e))
  {
    var pc := s.threads[e.t];
    if pc.TryCas? {
      TryCasPreserves(s, e);
    } else if pc.SpinCas? {
      SpinCasPreserves(s, e);
    } else if pc.Decrement? || pc.Sleep? {
      SlowPreserves(s, e);
    } else if pc.TryKernel? || pc.Undo? {
      TimedOutPreserves(s, e);
    } else if pc.Signal? || pc.Post? {
      GivePreserves(s, e);
    } else if pc.SpinLoad? || pc.Recheck? {
      LookPreserves(s, e);
    } else {
      BeginPreserves(s, e);
    }
  }

  // ---------------------------------------------------------------- every run

  ghost predicate Next(s: State, s': State) {
    exists e :: Enabled(s, e) && s' == Step(s, e)
  }

  ghost predicate Run(run: seq<State>) {
    && run != [] && Init(run[0])
    && forall i | 0 < i < |run| :: Next(run[i - 1], run[i])
  }

  ghost predicate Reachable(s: State) {
    exists run :: Run(run) && run[|run| - 1] == s
  }

  lemma {:induction false} RunInv(run: seq<State>)
    requires Run(run)
    ensures Inv(run[|run| - 1])
  {
    if |run| == 1 {
      SumZero(run[0].threads, Waiting());
      SumZero(run[0].threads, Owed());
      SumZero(run[0].threads, InHand());
    } else {
      var prev := run[..|run| - 1];
      RunInv(prev);
      assert Next(prev[|prev| - 1], run[|run| - 1]);
      var e :| Enabled(prev[|prev| - 1], e) && run[|run| - 1] == Step(prev[|prev| - 1], e);
      StepPreservesInv(prev[|prev| - 1], e);
    }
  }

  lemma ReachableInv(s: State)
    requires Reachable(s)
    ensures Inv(s)
    ensures Sum(s.threads, Waiting()) >= 0 && Sum(s.threads, Owed()) >= 0 && Sum(s.threads, InHand()) >= 0
  {
    var run :| Run(run) && run[|run| - 1] == s;
    RunInv(run);
    forall pc <- s.threads ensures 0 <= Owed()(pc) && 0 <= InHand()(pc) { assert ThreadOk(pc); }
    SumNonNegative(s.threads, Waiting());
    SumNonNegative(s.threads, Owed());
    SumNonNegative(s.threads, InHand());
  }

  // Threads in the slow path: as many as the count is below zero, plus one per kernel post made or owed.
  lemma WaitersAccounted(s: State)
    requires Reachable(s)
    ensures Sum(s.threads, Waiting()) == (if s.count < 0 then -s.count else 0) + s.kernel + Sum(s.threads, Owed())
  {
    ReachableInv(s);
  }

  // Permits are conserved: what waits returned or hold is never more than was put in, and with every
  // operation finished the count is exactly what is left.
  lemma PermitsConserved(s: State)
    requires Reachable(s)
    ensures Sum(s.results, Returned()) <= s.acquired <= s.initial + s.signalled
    ensures (forall pc <- s.threads :: pc.Idle?) ==>
              && s.kernel == 0 && s.count >= 0
              && s.count == s.initial + s.signalled - Sum(s.results, Returned())
  {
    ReachableInv(s);
    if forall pc <- s.threads :: pc.Idle? {
      SumZero(s.threads, Waiting());
      SumZero(s.threads, Owed());
      SumZero(s.threads, InHand());
    }
  }

  // A timed-out waiter that sees a non-negative count has a kernel post made or in flight for it.
  lemma TimedOutWaiterHasPost(s: State, t: nat)
    requires Reachable(s) && t < |s.threads| && s.threads[t].Recheck? && s.count >= 0
    ensures s.kernel > 0 || exists u :: 0 <= u < |s.threads| && s.threads[u].Post? && s.threads[u].left > 0
  {
    ReachableInv(s);
    SumAtLeast(s.threads, t, Waiting());
    if s.kernel == 0 {
      var u := SumWitness(s.threads, Owed());
      assert s.threads[u].Post?;
    }
  }

  // Nobody is stuck: once no post is in flight, either no permit is free or every sleeper can be woken.
  lemma NoStuckWaiter(s: State)
    requires Reachable(s) && forall pc <- s.threads :: !pc.Post?
    ensures s.count < 0 || s.kernel == Sum(s.threads, Waiting())
    ensures s.count > 0 && s.kernel == 0 ==> forall pc <- s.threads :: !pc.Sleep? && !pc.Recheck? && !pc.TryKernel?
  {
    ReachableInv(s);
    SumZero(s.threads, Owed());
    forall t | 0 <= t < |s.threads| ensures Waiting()(s.threads[t]) <= Sum(s.threads, Waiting()) {
      SumAtLeast(s.threads, t, Waiting());
    }
  }

  // Every finished wait got at most what it asked for; an untimed wait got at least one permit exactly
  // when it asked for one or more.
  lemma WaitResults(s: State, r: Return)
    requires Reachable(s) && r in s.results
    ensures r.got <= r.want
    ensures r.mode.Forever? ==> (r.got > 0 <==> r.want > 0)
  {
    ReachableInv(s);
  }

  // waitMany(0) returns 0, against its own assertion that the result is positive.
  lemma WaitManyZeroGetsNothing(s: State)
    requires Init(s) && s.threads == [Idle] && s.initial == 0
    ensures var e := Wait(0, Forever, 0, 0, true);
            Step(Step(s, e), e).results == [Return(Forever, 0, 0)]
  {
  }

  // ---------------------------------------------------------------- what every wait answers

  // `started` counts the waits, `given` the permits of all signals; `left` lists the count each wait left behind.
  datatype History = History(started: nat, given: nat, left: seq<int>)

  function Record(s: State, h: History, e: Event): History
    requires Enabled(s, e)
  {
    var pc, s' := s.threads[e.t], Step(s, e);
    if pc.Idle? && e.Wait? then h.(started := h.started + 1)
    else if pc.Idle? then h.(given := h.given + e.count)
    else if |s'.results| > |s.results| then h.(left := h.left + [s'.count])
    else h
  }

  ghost function InWait(): Pc -> int { (pc: Pc) => if pc.Idle? || pc.Signal? || pc.Post? then 0 else 1 }

  ghost function InSignal(): Pc -> int { (pc: Pc) => if pc.Signal? then pc.count else 0 }

  // A wait that got less than it wanted left nothing.
  ghost predicate LeftOk(r: Return, left: int) { r.got < r.want ==> left <= 0 }

  ghost predicate HistoryOk(s: State, h: History) {
    && h.started == |s.results| + Sum(s.threads, InWait()) && h.given == s.signalled + Sum(s.threads, InSignal())
    && |h.left| == |s.results| && forall i | 0 <= i < |s.results| :: LeftOk(s.results[i], h.left[i])
  }

  // The step that ends a wait: it got what it wanted, or there is nothing left.
  lemma ShortWaitLeavesNothing(s: State, e: Event)
    requires Inv(s) && Enabled(s, e)
    ensures var s' := Step(s, e);
            s'.results == s.results || (exists r :: s'.results == s.results + [r] && LeftOk(r, s'.count))
  {
    assert ThreadOk(s.threads[e.t]);
    var s' := Step(s, e);
    if s'.results != s.results {
      assert s'.results == s.results + [s'.results[|s.results|]];
    }
  }

  lemma RecordOk(s: State, h: History, e: Event)
    requires Inv(s) && HistoryOk(s, h) && Enabled(s, e)
    ensures HistoryOk(Step(s, e), Record(s, h, e))
  {
    hide Sum, Inv;
    ShortWaitLeavesNothing(s, e);
    var pc, pc' := s.threads[e.t], Step(s, e).threads[e.t];
    SumUpdate(s.threads, e.t, pc', InWait());
    SumUpdate(s.threads, e.t, pc', InSignal());
  }

  ghost predicate RecordedNext(s: State, h: History, s': State, h': History) {
    exists e :: Enabled(s, e) && s' == Step(s, e) && h' == Record(s, h, e)
  }

  ghost predicate RecordedRun(run: seq<(State, History)>) {
    && run != [] && Init(run[0].0) && run[0].1 == History(0, 0, [])
    && forall i | 0 < i < |run| :: RecordedNext(run[i - 1].0, run[i - 1].1, run[i].0, run[i].1)
  }

  // In every run every wait under way or answered was started, every permit given is signalled or about to be, and a
  // wait that came back with less than it wanted, timed out or not, left no permit free at that moment.
  lemma {:induction false} EveryWaitAnswered(run: seq<(State, History)>)
    requires RecordedRun(run)
    ensures Inv(run[|run| - 1].0) && HistoryOk(run[|run| - 1].0, run[|run| - 1].1)
  {
    hide Step, Record, Enabled, Inv;
    if |run| > 1 {
      var prev := run[..|run| - 1];
      EveryWaitAnswered(prev);
      var (s, h) := prev[|prev| - 1];
      var (s', h') := run[|run| - 1];
      assert RecordedNext(s, h, s', h');
      var e :| Enabled(s, e) && s' == Step(s, e) && h' == Record(s, h, e);
      StepPreservesInv(s, e);
      RecordOk(s, h, e);
    } else {
      assert Run([run[0].0]);
      RunInv([run[0].0]);
      SumZero(run[0].0.threads, InWait());
      SumZero(run[0].0.threads, InSignal());
    }
  }

  // The lesser of the two.
  predicate Least(n: nat, a: int, b: int) { n <= a && n <= b && (n == a || n == b) }

  ghost function Lone(s: State, e: Event, steps: nat): (s': State)
    requires e.t < |s.threads|
    ensures |s'.threads| == |s.threads|
    decreases steps
  {
    if steps == 0 || !Enabled(s, e) then s else Lone(Step(s, e), e, steps - 1)
  }

  // With nobody else at work a wait of any kind gets what it wants or all there is.
  lemma LoneWait(s: State, e: Event)
    requires Reachable(s) && (forall pc <- s.threads :: pc.Idle?) && s.count > 0
    requires e.Wait? && e.t < |s.threads| && e.luck
    ensures var s' := Lone(s, e, 3); var n := s.count - s'.count;
            && n >= 0 && Least(n, e.want, s.count) && s'.results == s.results + [Return(e.mode, e.want, n)]
            && s'.threads == s.threads && s'.kernel == s.kernel
  {
    hide Reachable, Lone;
    var t := e.t;
    assert s.threads[t] in s.threads;
    var s1 := s.At(t, TryLoad(e.mode, e.want, 0, e.spins));
    var s2 := s.At(t, TryCas(e.mode, e.want, 0, e.spins, s.count));
    assert Step(s, e) == s1;
    assert Step(s1, e) == s2;
    LoneTwo(s1, e);
    LoneMore(s, e, 2);
    assert Step(s2, e).threads == s.threads;
  }

  lemma LoneMore(s: State, e: Event, n: nat)
    requires e.t < |s.threads| && Enabled(s, e)
    ensures Lone(s, e, n + 1) == Lone(Step(s, e), e, n)
  {
  }

  // Each step takes its operation on, but for a compare-and-swap that fails for no reason.
  lemma NobodyWaits(s: State, e: Event)
    requires Enabled(s, e) && (e.Wait? ==> e.luck)
    ensures Step(s, e).threads[e.t] != s.threads[e.t]
  {
  }

  // In any state a signal that is not disturbed ends, having posted once for each waiter it has a permit for.
  lemma SignalFinishes(s: State, t: nat)
    requires t < |s.threads| && s.threads[t].Signal?
    ensures var count := s.threads[t].count; var owed := if s.count >= 0 then 0 else if -s.count < count then -s.count else count;
            var s' := Lone(s, Wait(t, Try, 0, 0, true), 1 + owed);
            && s'.threads == s.threads[t := Idle] && s'.count == s.count + count && s'.kernel == s.kernel + owed
            && s'.signalled == s.signalled + count && s'.results == s.results
  {
    var e := Wait(t, Try, 0, 0, true);
    var count := s.threads[t].count;
    var owed := if s.count >= 0 then 0 else if -s.count < count then -s.count else count;
    var s1 := Step(s, e);
    assert Lone(s, e, 1 + owed) == Lone(s1, e, owed);
    if owed > 0 { PostsFinish(s1, t); }
  }

  lemma {:induction false} PostsFinish(s: State, t: nat)
    requires t < |s.threads| && s.threads[t].Post? && s.threads[t].left > 0
    ensures var left := s.threads[t].left;
            Lone(s, Wait(t, Try, 0, 0, true), left) == s.(kernel := s.kernel + left, threads := s.threads[t := Idle])
    decreases s.threads[t].left
  {
    var e, left := Wait(t, Try, 0, 0, true), s.threads[t].left;
    var s1 := Step(s, e);
    assert Lone(s, e, left) == Lone(s1, e, left - 1);
    if left > 1 { PostsFinish(s1, t); }
  }

  // A timed-out waiter that is not disturbed gives up if no permit is free ...
  lemma TimedOutGivesUp(s: State, t: nat)
    requires t < |s.threads| && s.threads[t].Recheck? && s.count < 0
    ensures var pc := s.threads[t]; var s' := Lone(s, Wait(t, Try, 0, 0, true), 2);
            && s'.count == s.count + 1 && s'.results == s.results + [Return(pc.mode, pc.want, 0)]
            && s'.threads == s.threads[t := Idle] && s'.kernel == s.kernel
  {
    hide Lone;
    var e, pc := Wait(t, Try, 0, 0, true), s.threads[t];
    assert Step(s, e) == s.At(t, Undo(pc.mode, pc.want, s.count));
    LoneTwo(s, e);
    assert Step(Step(s, e), e).threads == s.threads[t := Idle];
  }

  // ... and else takes the post made for it.
  lemma TimedOutTakesPost(s: State, t: nat)
    requires t < |s.threads| && s.threads[t].Recheck? && s.count >= 0 && s.kernel > 0
    ensures var pc := s.threads[t]; var s' := Lone(s, Wait(t, Try, 0, 0, true), 2);
            && s'.kernel == s.kernel - 1 && s'.acquired == s.acquired + 1
            && if pc.want > 1 then s'.threads[t] == TryLoad(pc.mode, pc.want, 1, 0)
               else s'.threads[t] == Idle && s'.results == s.results + [Return(pc.mode, pc.want, 1)]
  {
    hide Lone;
    var e, pc := Wait(t, Try, 0, 0, true), s.threads[t];
    assert Step(s, e) == s.At(t, TryKernel(pc.mode, pc.want));
    LoneTwo(s, e);
  }

  lemma LoneTwo(s: State, e: Event)
    requires e.t < |s.threads| && Enabled(s, e) && Enabled(Step(s, e), e)
    ensures Lone(s, e, 2) == Step(Step(s, e), e)
  {
    hide Step;
    assert Lone(s, e, 2) == Lone(Step(s, e), e, 1) == Lone(Step(Step(s, e), e), e, 0);
  }
}

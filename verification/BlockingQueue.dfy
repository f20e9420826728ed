// moodycamel::BlockingConcurrentQueue: any number of threads enqueueing and dequeueing, as the composition
// of an atomic inner first-in first-out queue with the semaphore of module Semaphore, whose atomic steps are
// taken one at a time inside the waits and signals.
module BlockingQueue {
  import opened Sums
  import S = Semaphore

  type Elem = int

  // Waiting and Signalling threads are inside a semaphore operation; `items` is what a dequeuer that was
  // granted `permits` has taken from the inner queue so far.
  datatype Pc =
    | Idle
    | Waiting(mode: S.Mode, max: nat)
    | Redeeming(mode: S.Mode, max: nat, permits: nat, items: seq<Elem>)
    | ToSignal(count: nat)
    | Signalling

  datatype Return = Return(mode: S.Mode, max: nat, permits: nat, items: seq<Elem>)

  // `enqueued` and `dequeued` list what the inner queue accepted and handed out so far.
  datatype State = State(
    sema: S.State, inner: seq<Elem>, threads: seq<Pc>,
    enqueued: seq<Elem>, dequeued: seq<Elem>, results: seq<Return>)
  {
    function At(t: nat, pc: Pc): State
      requires t < |threads|
    {
      this.(threads := threads[t := pc])
    }

    function Finish(t: nat, r: Return): State
      requires t < |threads|
    {
      At(t, Idle).(results := results + [r])
    }
  }

  // What an idle thread starts. The single-element operations are those with max == 1 and one element.
  // `luck` and `spins` are the semaphore's, `accepted` is whether the inner enqueue succeeds, and `found` is
  // how many elements an inner dequeue finds: it may miss elements that are there.
  datatype Event =
    | Dequeue(t: nat, mode: S.Mode, max: nat, spins: nat, luck: bool, found: nat)
    | Enqueue(t: nat, xs: seq<Elem>, accepted: bool, luck: bool, found: nat)

  // The semaphore's event for a thread inside one of its operations.
  function Sub(e: Event): S.Event {
    S.Wait(e.t, S.Try, 0, 0, e.luck)
  }

  predicate Enabled(s: State, e: Event) {
    && e.t < |s.threads| == |s.sema.threads|
    && match s.threads[e.t]
       case Idle => s.sema.threads[e.t].Idle?
       case Waiting(_, _) => !s.sema.threads[e.t].Idle? && S.Enabled(s.sema, Sub(e))
       case Redeeming(_, _, permits, items) => |items| <= permits && e.found <= permits - |items| && e.found <= |s.inner|
       case ToSignal(_) => s.sema.threads[e.t].Idle?
       case Signalling => !s.sema.threads[e.t].Idle? && S.Enabled(s.sema, Sub(e))
  }

  // The wait returned `got` permits.
  function Granted(s: State, t: nat, mode: S.Mode, max: nat, got: nat): State
    requires t < |s.threads|
  {
    if got == 0 then s.Finish(t, Return(mode, max, 0, [])) else s.At(t, Redeeming(mode, max, got, []))
  }

  function Step(s: State, e: Event): (s': State)
    requires Enabled(s, e)
    ensures |s'.threads| == |s.threads|
  {
    var t := e.t;
    match s.threads[t]
    case Idle =>
      (match e
       case Dequeue(_, mode, max, spins, luck, _) =>
         s.(sema := S.Step(s.sema, S.Wait(t, mode, max, spins, luck))).At(t, Waiting(mode, max))
       case Enqueue(_, xs, accepted, _, _) =>
         if accepted then s.(inner := s.inner + xs, enqueued := s.enqueued + xs).At(t, ToSignal(|xs|)) else s)
    case Waiting(mode, max) =>
      var sema := S.Step(s.sema, Sub(e));
      var s1 := s.(sema := sema);
      if sema.threads[t].Idle? && sema.results != [] then Granted(s1, t, mode, max, sema.results[|sema.results| - 1].got) else s1
    case Redeeming(mode, max, permits, items) =>
      var all := items + s.inner[..e.found];
      var s1 := s.(inner := s.inner[e.found..], dequeued := s.dequeued + s.inner[..e.found]);
      if |all| == permits then s1.Finish(t, Return(mode, max, permits, all))
      else s1.At(t, Redeeming(mode, max, permits, all))
    case ToSignal(count) =>
      s.(sema := S.Step(s.sema, S.Give(t, count))).At(t, Signalling)
    case Signalling =>
      var sema := S.Step(s.sema, Sub(e));
      var s1 := s.(sema := sema);
      if sema.threads[t].Idle? then s1.At(t, Idle) else s1
  }

  ghost predicate Init(s: State) {
    && S.Init(s.sema) && s.sema.initial == 0 && |s.sema.threads| == |s.threads|
    && s.inner == s.enqueued == s.dequeued == [] && s.results == []
    && forall pc <- s.threads :: pc.Idle?
  }

  // ---------------------------------------------------------------- invariant

  // Permits taken whose elements have not been, elements put in whose permits have not been.
  ghost function Unredeemed(): Pc -> int { (pc: Pc) => if pc.Redeeming? then pc.permits - |pc.items| else 0 }
  ghost function Unsignalled(): Pc -> int { (pc: Pc) => if pc.ToSignal? then pc.count else 0 }
  ghost function InSignal(): S.Pc -> int { (pc: S.Pc) => if pc.Signal? then pc.count else 0 }

  predicate InWait(pc: S.Pc, mode: S.Mode, max: nat) {
    match pc
    case TryLoad(m, w, _, _) => m == mode && w == max
    case TryCas(m, w, _, _, _) => m == mode && w == max
    case SpinLoad(m, w, _) => m == mode && w == max
    case SpinCas(m, w, _, _) => m == mode && w == max
    case Decrement(m, w) => m == mode && w == max
    case Sleep(m, w) => m == mode && w == max
    case Recheck(m, w) => m == mode && w == max
    case TryKernel(m, w) => m == mode && w == max
    case Undo(m, w, _) => m == mode && w == max
    case _ => false
  }

  ghost predicate ThreadOk(pc: Pc, inner: S.Pc) {
    match pc
    case Idle => inner.Idle?
    case Waiting(mode, max) => InWait(inner, mode, max)
    case Redeeming(mode, max, permits, items) => inner.Idle? && |items| < permits <= max
    case ToSignal(_) => inner.Idle?
    case Signalling => inner.Signal? || inner.Post?
  }

  ghost predicate ReturnOk(r: Return) {
    |r.items| == r.permits <= r.max && (r.mode.Forever? && r.max > 0 ==> r.permits > 0)
  }

  // How often x was returned by a finished dequeue, or is in the hands of one still under way.
  ghost function Given(x: Elem): Return -> int { (r: Return) => multiset(r.items)[x] }
  ghost function InHand(x: Elem): Pc -> int { (pc: Pc) => if pc.Redeeming? then multiset(pc.items)[x] else 0 }

  ghost predicate DeliveredOf(s: State, x: Elem) {
    multiset(s.dequeued)[x] == Sum(s.results, Given(x)) + Sum(s.threads, InHand(x))
  }

  ghost predicate Delivered(s: State) { forall x :: DeliveredOf(s, x) }

  ghost predicate Inv(s: State) {
    && S.Inv(s.sema) && s.sema.initial == 0 && |s.sema.threads| == |s.threads|
    && (forall t | 0 <= t < |s.threads| :: ThreadOk(s.threads[t], s.sema.threads[t]))
    && (forall r <- s.results :: ReturnOk(r))
    && s.enqueued == s.dequeued + s.inner && Delivered(s)
    && Sum(s.sema.results, S.Returned()) == |s.dequeued| + Sum(s.threads, Unredeemed())
    && |s.enqueued| == s.sema.signalled + Sum(s.threads, Unsignalled()) + Sum(s.sema.threads, InSignal())
  }

  // What one step of the semaphore does to a thread inside a wait, and to one inside a signal.
  lemma WaitStep(s: S.State, e: S.Event, mode: S.Mode, max: nat)
    requires S.Inv(s) && S.Enabled(s, e) && InWait(s.threads[e.t], mode, max)
    ensures var s' := S.Step(s, e); var pc := s'.threads[e.t];
            && s'.threads == s.threads[e.t := pc] && s'.signalled == s.signalled && s'.initial == s.initial
            && !s.threads[e.t].Signal? && !pc.Signal?
            && if pc.Idle? then |s'.results| == |s.results| + 1 && s'.results[..|s.results|] == s.results
                                && s'.results[|s.results|].mode == mode && s'.results[|s.results|].want == max
               else InWait(pc, mode, max) && s'.results == s.results
  {
  }

  lemma ResultOk(s: S.State, r: S.Return)
    requires S.Inv(s) && r in s.results
    ensures r.got <= r.want && (r.mode.Forever? && r.want > 0 ==> r.got > 0)
  {
  }

  lemma SignalStep(s: S.State, e: S.Event)
    requires S.Inv(s) && S.Enabled(s, e) && (s.threads[e.t].Signal? || s.threads[e.t].Post?)
    ensures var s' := S.Step(s, e); var pc := s'.threads[e.t];
            && s'.threads == s.threads[e.t := pc] && s'.results == s.results && s'.initial == s.initial
            && (pc.Idle? || pc.Post?)
            && s'.signalled == s.signalled + InSignal()(s.threads[e.t])
  {
  }

  // One thread's program counter changes, in the queue and in the semaphore.
  lemma SumsChange(s: State, t: nat, pc: Pc, inner: S.Pc)
    requires t < |s.threads| == |s.sema.threads|
    ensures Sum(s.threads[t := pc], Unredeemed()) == Sum(s.threads, Unredeemed()) - Unredeemed()(s.threads[t]) + Unredeemed()(pc)
    ensures Sum(s.threads[t := pc], Unsignalled()) == Sum(s.threads, Unsignalled()) - Unsignalled()(s.threads[t]) + Unsignalled()(pc)
    ensures Sum(s.sema.threads[t := inner], InSignal()) == Sum(s.sema.threads, InSignal()) - InSignal()(s.sema.threads[t]) + InSignal()(inner)
  {
    SumUpdate(s.threads, t, pc, Unredeemed());
    SumUpdate(s.threads, t, pc, Unsignalled());
    SumUpdate(s.sema.threads, t, inner, InSignal());
  }

  // Only an inner dequeue moves elements; the rest hands on what is held.
  lemma DeliveredKept(s: State, s': State, t: nat, pc: Pc, r: Return)
    requires Delivered(s) && t < |s.threads| && s'.threads == s.threads[t := pc] && s'.dequeued == s.dequeued
    requires !s.threads[t].Redeeming? && (pc.Redeeming? ==> pc.items == [])
    requires s'.results == s.results || (s'.results == s.results + [r] && r.items == [])
    ensures Delivered(s')
  {
    forall x ensures DeliveredOf(s', x) {
      assert DeliveredOf(s, x);
      SumUpdate(s.threads, t, pc, InHand(x));
      if s'.results != s.results { SumAppend(s.results, r, Given(x)); }
    }
  }

  lemma DeliveredMoved(s: State, s': State, t: nat, found: seq<Elem>, all: seq<Elem>, pc: Pc, r: Return)
    requires Delivered(s) && t < |s.threads| && s'.threads == s.threads[t := pc] && s'.dequeued == s.dequeued + found
    requires s.threads[t].Redeeming? && all == s.threads[t].items + found && r.items == all
    requires if pc.Redeeming? then pc.items == all && s'.results == s.results else s'.results == s.results + [r]
    ensures Delivered(s')
  {
    forall x ensures DeliveredOf(s', x) {
      assert DeliveredOf(s, x);
      SumUpdate(s.threads, t, pc, InHand(x));
      if s'.results != s.results { SumAppend(s.results, r, Given(x)); }
    }
  }

  lemma StartPreserves(s: State, e: Event)
    requires Inv(s) && Enabled(s, e) && (s.threads[e.t].Idle? || s.threads[e.t].ToSignal?)
    ensures Inv(Step(s, e))
  {
    hide S.Inv, Delivered, Sum;
    var s', t := Step(s, e), e.t;
    DeliveredKept(s, s', t, s'.threads[t], Return(S.Try, 0, 0, []));
    assert ThreadOk(s.threads[t], s.sema.threads[t]);
    SumsChange(s, t, s'.threads[t], s'.sema.threads[t]);
    assert s.threads[t := s.threads[t]] == s.threads;
    if s.threads[t].ToSignal? {
      S.StepPreservesInv(s.sema, S.Give(t, s.threads[t].count));
    } else if e.Dequeue? {
      S.StepPreservesInv(s.sema, S.Wait(t, e.mode, e.max, e.spins, e.luck));
    }
  }

  lemma WaitingPreserves(s: State, e: Event)
    requires Inv(s) && Enabled(s, e) && s.threads[e.t].Waiting?
    ensures Inv(Step(s, e))
  {
    hide S.Step, S.Inv, InWait, Sum, Delivered;
    var s', t, pc := Step(s, e), e.t, s.threads[e.t];
    assert ThreadOk(s.threads[t], s.sema.threads[t]);
    WaitStep(s.sema, Sub(e), pc.mode, pc.max);
    S.StepPreservesInv(s.sema, Sub(e));
    SumsChange(s, t, s'.threads[t], s'.sema.threads[t]);
    DeliveredKept(s, s', t, s'.threads[t], Return(pc.mode, pc.max, 0, []));
    assert s.threads[t := s.threads[t]] == s.threads;
    if s'.sema.threads[t].Idle? {
      var r := s'.sema.results[|s.sema.results|];
      ResultOk(s'.sema, r);
      assert s'.sema.results == s.sema.results + [r];
      SumAppend(s.sema.results, r, S.Returned());
    }
  }

  lemma SignallingPreserves(s: State, e: Event)
    requires Inv(s) && Enabled(s, e) && s.threads[e.t].Signalling?
    ensures Inv(Step(s, e))
  {
    hide S.Inv, S.Step, Delivered, Sum;
    var s', t := Step(s, e), e.t;
    DeliveredKept(s, s', t, s'.threads[t], Return(S.Try, 0, 0, []));
    assert ThreadOk(s.threads[t], s.sema.threads[t]);
    SignalStep(s.sema, Sub(e));
    S.StepPreservesInv(s.sema, Sub(e));
    SumsChange(s, t, s'.threads[t], s'.sema.threads[t]);
    assert s.threads[t := s.threads[t]] == s.threads;
  }

  lemma RedeemingDelivered(s: State, e: Event)
    requires Inv(s) && Enabled(s, e) && s.threads[e.t].Redeeming?
    ensures Delivered(Step(s, e))
  {
    hide S.Inv, S.Step, InWait, Sum, Delivered;
    var s', pc := Step(s, e), s.threads[e.t];
    var found := s.inner[..e.found];
    var all := pc.items + found;
    DeliveredMoved(s, s', e.t, found, all, s'.threads[e.t], Return(pc.mode, pc.max, pc.permits, all));
  }

  lemma RedeemingPreserves(s: State, e: Event)
    requires Inv(s) && Enabled(s, e) && s.threads[e.t].Redeeming?
    ensures Inv(Step(s, e))
  {
    hide S.Inv, S.Step, InWait, Sum, Delivered;
    var s', t := Step(s, e), e.t;
    RedeemingDelivered(s, e);
    assert ThreadOk(s.threads[t], s.sema.threads[t]);
    SumsChange(s, t, s'.threads[t], s'.sema.threads[t]);
    assert s.sema.threads[t := s.sema.threads[t]] == s.sema.threads;
    assert s.inner == s.inner[..e.found] + s.inner[e.found..];
  }

  lemma StepPreservesInv(s: State, e: Event)
    requires Inv(s) && Enabled(s, e)
    ensures Inv(Step(s, e))
  {
    hide Inv, Step;
    match s.threads[e.t]
    case Waiting(_, _) => WaitingPreserves(s, e);
    case Redeeming(_, _, _, _) => RedeemingPreserves(s, e);
    case Signalling => SignallingPreserves(s, e);
    case _ => StartPreserves(s, e);
  }

  // ---------------------------------------------------------------- every run

  ghost predicate Next(s: State, s': State) {
    exists e :: Enabled(s, e) && s' == Step(s, e)
  }

  ghost predicate Run(run: seq<State>) {
    && run != [] && Init(run[0])
    && forall i | 0 < i < |run| :: Next(run[i - 1], run[i])
  }

  ghost predicate Reachable(s: State) {
    exists run :: Run(run) && run[|run| - 1] == s
  }

  lemma InitInv(s: State)
    requires Init(s)
    ensures Inv(s)
  {
    assert S.Run([s.sema]);
    S.RunInv([s.sema]);
    SumZero(s.threads, Unredeemed());
    SumZero(s.threads, Unsignalled());
    SumZero(s.sema.threads, InSignal());
    forall x {
      SumZero(s.threads, InHand(x));
    }
    forall t | 0 <= t < |s.threads| ensures ThreadOk(s.threads[t], s.sema.threads[t]) {
      assert s.threads[t] in s.threads && s.sema.threads[t] in s.sema.threads;
    }
  }

  lemma {:induction false} RunInv(run: seq<State>)
    requires Run(run)
    ensures Inv(run[|run| - 1])
  {
    if |run| == 1 {
      InitInv(run[0]);
    } else {
      var prev := run[..|run| - 1];
      RunInv(prev);
      assert Next(prev[|prev| - 1], run[|run| - 1]);
      var e :| Enabled(prev[|prev| - 1], e) && run[|run| - 1] == Step(prev[|prev| - 1], e);
      StepPreservesInv(prev[|prev| - 1], e);
    }
  }

  // ---------------------------------------------------------------- what holds in every run

  lemma SumsNonNegative(s: State)
    requires Inv(s)
    ensures Sum(s.threads, Unredeemed()) >= 0 && Sum(s.threads, Unsignalled()) >= 0
    ensures Sum(s.sema.threads, InSignal()) >= 0 && Sum(s.sema.threads, S.InHand()) >= 0
    ensures Sum(s.sema.threads, S.Waiting()) >= 0 && Sum(s.sema.threads, S.Owed()) >= 0
    ensures forall t | 0 <= t < |s.threads| :: 0 <= Unredeemed()(s.threads[t]) <= Sum(s.threads, Unredeemed())
  {
    forall pc <- s.threads ensures 0 <= Unredeemed()(pc) {
      var t :| 0 <= t < |s.threads| && s.threads[t] == pc;
      assert ThreadOk(s.threads[t], s.sema.threads[t]);
    }
    forall pc <- s.sema.threads ensures 0 <= S.InHand()(pc) && 0 <= S.Owed()(pc) { assert S.ThreadOk(pc); }
    SumNonNegative(s.threads, Unredeemed());
    SumNonNegative(s.threads, Unsignalled());
    SumNonNegative(s.sema.threads, InSignal());
    SumNonNegative(s.sema.threads, S.InHand());
    SumNonNegative(s.sema.threads, S.Waiting());
    SumNonNegative(s.sema.threads, S.Owed());
    forall t | 0 <= t < |s.threads| ensures 0 <= Unredeemed()(s.threads[t]) <= Sum(s.threads, Unredeemed()) {
      SumAtLeast(s.threads, t, Unredeemed());
    }
  }

  // The elements in the inner queue are the free permits (those that waiters in the slow path have claimed
  // included), those taken by a wait still under way or not yet redeemed, and one for each element whose
  // signal is still to come; so they are at least the free permits plus the unredeemed ones.
  lemma ElementsCoverPermits(s: State)
    requires Reachable(s)
    ensures |s.inner| == s.sema.count + Sum(s.sema.threads, S.Waiting()) + Sum(s.sema.threads, S.InHand())
                         + Sum(s.threads, Unredeemed()) + Sum(s.threads, Unsignalled()) + Sum(s.sema.threads, InSignal())
    ensures |s.inner| >= (if s.sema.count > 0 then s.sema.count else 0) + Sum(s.threads, Unredeemed())
  {
    var run :| Run(run) && run[|run| - 1] == s;
    RunInv(run);
    SumsNonNegative(s);
  }

  // A dequeuer that was granted permits finds all the elements it still needs in the inner queue, whatever
  // the other threads do: an inner dequeue that misses none of them ends its retry loop.
  lemma RetryFinds(s: State, t: nat)
    requires Reachable(s) && t < |s.threads| && s.threads[t].Redeeming?
    ensures var pc := s.threads[t]; 0 < pc.permits - |pc.items| <= |s.inner|
  {
    var run :| Run(run) && run[|run| - 1] == s;
    RunInv(run);
    SumsNonNegative(s);
    ElementsCoverPermits(s);
    assert ThreadOk(s.threads[t], s.sema.threads[t]);
  }

  // A finished dequeue returns exactly as many elements as it was granted permits, never more than it asked
  // for, and at least one if it may wait for ever and asked for any.
  lemma DequeueReturnsPermits(s: State, r: Return)
    requires Reachable(s) && r in s.results
    ensures |r.items| == r.permits <= r.max
    ensures r.mode.Forever? && r.max > 0 ==> |r.items| > 0
  {
    var run :| Run(run) && run[|run| - 1] == s;
    RunInv(run);
  }

  // Every element that left the inner queue was returned by a finished dequeue, or is in the hands of one
  // still under way, exactly once.
  lemma ElementsDelivered(s: State, x: Elem)
    requires Reachable(s)
    ensures multiset(s.dequeued)[x] == Sum(s.results, Given(x)) + Sum(s.threads, InHand(x))
    ensures (forall pc <- s.threads :: !pc.Redeeming?) ==> multiset(s.dequeued)[x] == Sum(s.results, Given(x))
  {
    var run :| Run(run) && run[|run| - 1] == s;
    RunInv(run);
    assert DeliveredOf(s, x);
    if forall pc <- s.threads :: !pc.Redeeming? { SumZero(s.threads, InHand(x)); }
  }

  // Elements leave in the order in which they came and none is lost; with all operations finished the free
  // permits are exactly the elements held.
  lemma FifoAndQuiescent(s: State)
    requires Reachable(s)
    ensures s.enqueued == s.dequeued + s.inner
    ensures (forall pc <- s.threads :: pc.Idle?) ==> s.sema.count == |s.inner| && s.sema.kernel == 0
  {
    var run :| Run(run) && run[|run| - 1] == s;
    RunInv(run);
    if forall pc <- s.threads :: pc.Idle? {
      forall pc <- s.sema.threads ensures pc.Idle? {
        var t :| 0 <= t < |s.sema.threads| && s.sema.threads[t] == pc;
        assert ThreadOk(s.threads[t], s.sema.threads[t]) && s.threads[t] in s.threads;
      }
      SumZero(s.threads, Unredeemed());
      SumZero(s.threads, Unsignalled());
      SumZero(s.sema.threads, InSignal());
      SumZero(s.sema.threads, S.InHand());
      SumZero(s.sema.threads, S.Waiting());
      SumZero(s.sema.threads, S.Owed());
    }
  }

  // ---------------------------------------------------------------- what every operation answers

  // `started` counts the dequeues, `offered` joins what was given to enqueues that the inner queue accepted. `left` is
  // the semaphore's count at the end of each thread's last wait, `ends` the same for each finished dequeue.
  datatype History = History(started: nat, offered: seq<Elem>, left: seq<int>, ends: seq<int>)

  function Record(s: State, h: History, e: Event): (h': History)
    requires Enabled(s, e) && |h.left| == |s.threads|
    ensures |h'.left| == |h.left|
  {
    var pc, s' := s.threads[e.t], Step(s, e);
    var h1 :=
      if pc.Idle? && e.Dequeue? then h.(started := h.started + 1)
      else if pc.Idle? && e.accepted then h.(offered := h.offered + e.xs)
      else if |s'.sema.results| > |s.sema.results| then h.(left := h.left[e.t := s'.sema.count])
      else h;
    if |s'.results| > |s.results| then h1.(ends := h1.ends + [h1.left[e.t]]) else h1
  }

  ghost function InDequeue(): Pc -> int { (pc: Pc) => if pc.Waiting? || pc.Redeeming? then 1 else 0 }

  ghost predicate LeftOk(pc: Pc, left: int) { pc.Redeeming? && pc.permits < pc.max ==> left <= 0 }

  ghost predicate EndOk(r: Return, end: int) { |r.items| < r.max ==> end <= 0 }

  ghost predicate HistoryOk(s: State, h: History) {
    && h.started == |s.results| + Sum(s.threads, InDequeue()) && h.offered == s.enqueued
    && |h.left| == |s.threads| && (forall t | 0 <= t < |s.threads| :: LeftOk(s.threads[t], h.left[t]))
    && |h.ends| == |s.results| && forall i | 0 <= i < |s.results| :: EndOk(s.results[i], h.ends[i])
  }

  // The semaphore's part of a step inside a wait.
  lemma WaitLeaves(s: State, e: Event)
    requires Inv(s) && Enabled(s, e) && s.threads[e.t].Waiting?
    ensures var sema, pc := S.Step(s.sema, Sub(e)), s.threads[e.t];
            if sema.threads[e.t].Idle? then
              && |sema.results| == |s.sema.results| + 1
              && var r := sema.results[|s.sema.results|]; r.got <= r.want == pc.max && (r.got < pc.max ==> sema.count <= 0)
            else sema.results == s.sema.results
  {
    hide S.Step, S.Inv, InWait, Sum, Delivered;
    assert ThreadOk(s.threads[e.t], s.sema.threads[e.t]);
    WaitStep(s.sema, Sub(e), s.threads[e.t].mode, s.threads[e.t].max);
    S.ShortWaitLeavesNothing(s.sema, Sub(e));
    S.StepPreservesInv(s.sema, Sub(e));
    var sema := S.Step(s.sema, Sub(e));
    if sema.threads[e.t].Idle? { ResultOk(sema, sema.results[|s.sema.results|]); }
  }

  lemma SignalLeaves(s: State, e: Event)
    requires Inv(s) && Enabled(s, e) && !s.threads[e.t].Waiting?
    ensures Step(s, e).sema.results == s.sema.results
  {
    hide S.Inv, Sum, Delivered;
    assert ThreadOk(s.threads[e.t], s.sema.threads[e.t]);
  }

  lemma RecordOk(s: State, h: History, e: Event)
    requires Inv(s) && HistoryOk(s, h) && Enabled(s, e)
    ensures HistoryOk(Step(s, e), Record(s, h, e))
  {
    hide S.Step, Sum, InWait, Delivered, S.Inv;
    var s', h' := Step(s, e), Record(s, h, e);
    var pc, pc' := s.threads[e.t], s'.threads[e.t];
    assert ThreadOk(pc, s.sema.threads[e.t]) && LeftOk(pc, h.left[e.t]);
    if pc.Waiting? { WaitLeaves(s, e); } else { SignalLeaves(s, e); }
    SumUpdate(s.threads, e.t, pc', InDequeue());
    assert s.threads[e.t := pc] == s.threads;
    forall t | 0 <= t < |s.threads| ensures LeftOk(s'.threads[t], h'.left[t]) { assert LeftOk(s.threads[t], h.left[t]); }
  }

  ghost predicate RecordedNext(s: State, h: History, s': State, h': History) {
    |h.left| == |s.threads| && exists e :: Enabled(s, e) && s' == Step(s, e) && h' == Record(s, h, e)
  }

  ghost predicate RecordedRun(run: seq<(State, History)>) {
    && run != [] && Init(run[0].0) && run[0].1.started == 0 && run[0].1.offered == [] && run[0].1.ends == []
    && |run[0].1.left| == |run[0].0.threads|
    && forall i | 0 < i < |run| :: RecordedNext(run[i - 1].0, run[i - 1].1, run[i].0, run[i].1)
  }

  // In every run every dequeue is answered or under way, everything offered is enqueued in order, and a dequeue that
  // returned fewer elements than it asked for had left no permit free when its wait ended.
  lemma {:induction false} EveryDequeueAnswered(run: seq<(State, History)>)
    requires RecordedRun(run)
    ensures Inv(run[|run| - 1].0) && HistoryOk(run[|run| - 1].0, run[|run| - 1].1)
  {
    hide Step, Record, Enabled, Inv;
    if |run| > 1 {
      var prev := run[..|run| - 1];
      EveryDequeueAnswered(prev);
      var (s, h) := prev[|prev| - 1];
      var (s', h') := run[|run| - 1];
      assert RecordedNext(s, h, s', h');
      var e :| Enabled(s, e) && s' == Step(s, e) && h' == Record(s, h, e);
      StepPreservesInv(s, e);
      RecordOk(s, h, e);
    } else {
      var (s, h) := run[0];
      InitInv(s);
      SumZero(s.threads, InDequeue());
      forall t | 0 <= t < |s.threads| ensures LeftOk(s.threads[t], h.left[t]) { assert s.threads[t] in s.threads; }
    }
  }

  ghost predicate Leads(s: State, e: Event, s': State) { Enabled(s, e) && s' == Step(s, e) }

  // With nobody else at work a dequeue of any kind hands out what it asks for or all there is, in order, its inner
  // dequeue missing nothing.
  lemma LoneDequeue(s: State, t: nat, mode: S.Mode, max: nat) returns (n: nat, run: seq<State>)
    requires Reachable(s) && (forall pc <- s.threads :: pc.Idle?) && s.inner != [] && t < |s.threads| && max > 0
    ensures S.Least(n, max, |s.inner|) && |run| == 5 && run[0] == s
    ensures forall i | 0 <= i < 4 :: Leads(run[i], Dequeue(t, mode, max, 0, true, if i == 3 then n else 0), run[i + 1])
    ensures run[4].results == s.results + [Return(mode, max, n, s.inner[..n])]
    ensures run[4].inner == s.inner[n..] && run[4].threads == s.threads
  {
    hide Reachable, S.Inv;
    FifoAndQuiescent(s);
    SemaphoreIdle(s, t);
    n := if max < |s.inner| then max else |s.inner|;
    var e := Dequeue(t, mode, max, 0, true, 0);
    var s1 := Step(s, e);
    var s2 := Step(s1, e);
    var s3 := Step(s2, e);
    assert s3.threads[t] == Redeeming(mode, max, n, []);
    var last := Dequeue(t, mode, max, 0, true, n);
    assert [] + s.inner[..n] == s.inner[..n];
    var s4 := Step(s3, last);
    assert s4.threads == s.threads;
    run := [s, s1, s2, s3, s4];
  }

  lemma SemaphoreIdle(s: State, t: nat)
    requires Reachable(s) && t < |s.threads| && s.threads[t].Idle?
    ensures |s.sema.threads| == |s.threads| && s.sema.threads[t].Idle?
  {
    var run :| Run(run) && run[|run| - 1] == s;
    RunInv(run);
    assert ThreadOk(s.threads[t], s.sema.threads[t]);
  }

  // With nobody else at work an enqueue that the inner queue accepts puts its elements in order and gives their permits.
  lemma LoneEnqueue(s: State, t: nat, xs: seq<Elem>) returns (run: seq<State>)
    requires Reachable(s) && (forall pc <- s.threads :: pc.Idle?) && t < |s.threads|
    ensures |run| == 4 && run[0] == s && forall i | 0 <= i < 3 :: Leads(run[i], Enqueue(t, xs, true, true, 0), run[i + 1])
    ensures run[3].inner == s.inner + xs && run[3].threads == s.threads && run[3].sema.count == s.sema.count + |xs|
    ensures run[3].results == s.results
  {
    hide Reachable, S.Inv;
    FifoAndQuiescent(s);
    SemaphoreIdle(s, t);
    assert s.threads[t] in s.threads;
    var e := Enqueue(t, xs, true, true, 0);
    var s1 := Step(s, e);
    var s2 := Step(s1, e);
    assert s2.sema.threads[t] == S.Signal(|xs|);
    var s3 := Step(s2, e);
    assert s3.threads == s.threads;
    run := [s, s1, s2, s3];
  }

  // Each step takes its operation on, but for a compare-and-swap that fails for no reason, an inner dequeue that finds
  // nothing, and an inner enqueue that fails.
  lemma NobodyWaits(s: State, e: Event)
    requires Enabled(s, e) && e.luck
    requires s.threads[e.t].Redeeming? ==> e.found > 0
    requires s.threads[e.t].Idle? && e.Enqueue? ==> e.accepted
    requires s.threads[e.t].Waiting? || s.threads[e.t].Signalling? ==> !s.sema.threads[e.t].Idle?
    ensures Step(s, e) != s
  {
    var s', t := Step(s, e), e.t;
    match s.threads[t] {
      case Waiting(_, _) => S.NobodyWaits(s.sema, Sub(e));
      case Signalling => S.NobodyWaits(s.sema, Sub(e));
      case Redeeming(_, _, _, _) => assert |s'.inner| < |s.inner|;
      case _ => assert s'.threads[t] != s.threads[t];
    }
  }
}

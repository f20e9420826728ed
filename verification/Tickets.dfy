// Optimistic-ticket dequeue of a ConcurrentQueue producer: one producer publishing elements, any number
// of consumers, every interleaving of the atomic operations on the four counters. Counters are
// unbounded here; IndexArithmetic relates the comparisons to the wrapping ones of the source.
module Tickets {
  import opened Sums

  datatype Kind = Single | Bulk(max: nat)

  datatype Pc =
    | Idle
    | LoadTail(kind: Kind)
    | LoadOvercommit(kind: Kind, tail: nat)
    | LoadOptimistic(kind: Kind, tail: nat, over: nat)
    | TakeTicket(kind: Kind, desired: nat, over: nat)
    | ReloadTail(kind: Kind, desired: nat, over: nat, ticket: nat)
    | GiveBack(excess: nat, actual: nat)
    | Claim(actual: nat)

  // The elements a successful dequeue took: indices [first, first + count).
  datatype Range = Range(first: nat, count: nat)

  // `claims` lists the successful dequeues in the order of their headIndex increments.
  datatype State = State(tail: nat, head: nat, optimistic: nat, overcommit: nat, threads: seq<Pc>, claims: seq<Range>)
  {
    function At(t: nat, pc: Pc): State
      requires t < |threads|
    {
      this.(threads := threads[t := pc])
    }
  }

  datatype Event = Publish(count: nat) | Consume(t: nat, kind: Kind)

  predicate Enabled(s: State, e: Event) { e.Consume? ==> e.t < |s.threads| }

  function Min(a: int, b: int): int { if a < b then a else b }

  // The number of elements a consumer hopes for, from the first look at the counters.
  function Desired(kind: Kind, available: int): (d: nat)
    requires available > 0
  {
    match kind
    case Single => 1
    case Bulk(max) => Min(available, max)
  }

  function Step(s: State, e: Event): (s': State)
    requires Enabled(s, e)
    ensures |s'.threads| == |s.threads|
  {
    if e.Publish? then s.(tail := s.tail + e.count)
    else
      var t := e.t;
      match s.threads[t]
      case Idle => s.At(t, LoadTail(e.kind))
      case LoadTail(kind) => s.At(t, LoadOvercommit(kind, s.tail))
      case LoadOvercommit(kind, tail) => s.At(t, LoadOptimistic(kind, tail, s.overcommit))
      case LoadOptimistic(kind, tail, over) =>
        var available := tail - (s.optimistic - over);
        if available > 0 then s.At(t, TakeTicket(kind, Desired(kind, available), over)) else s.At(t, Idle)
      case TakeTicket(kind, desired, over) =>
        s.(optimistic := s.optimistic + desired).At(t, ReloadTail(kind, desired, over, s.optimistic))
      case ReloadTail(kind, desired, over, ticket) =>
        var available := s.tail - (ticket - over);
        if available <= 0 then s.At(t, GiveBack(desired, 0))
        else if available < desired then s.At(t, GiveBack(desired - available, available))
        else s.At(t, Claim(desired))
      case GiveBack(excess, actual) =>
        var s1 := s.(overcommit := s.overcommit + excess);
        if actual == 0 then s1.At(t, Idle) else s1.At(t, Claim(actual))
      case Claim(actual) =>
        s.(head := s.head + actual, claims := s.claims + [Range(s.head, actual)]).At(t, Idle)
  }

  ghost predicate Init(s: State) {
    && s.tail == s.head == s.optimistic == s.overcommit == 0
    && s.claims == []
    && forall pc <- s.threads :: pc.Idle?
  }

  // ---------------------------------------------------------------- the fate of every ticket slot

  // dequeueOptimisticCount hands out numbered slots; each becomes granted or failed when its consumer
  // reloads the tail.
  datatype Slot = Open | Granted | Failed

  ghost function CountTo(slots: seq<Slot>, kind: Slot, q: nat): nat
    requires q <= |slots|
  {
    if q == 0 then 0 else CountTo(slots, kind, q - 1) + if slots[q - 1] == kind then 1 else 0
  }

  // Decide the slots [lo, hi): granted below mid, failed from mid on.
  ghost function Settle(slots: seq<Slot>, lo: nat, mid: nat, hi: nat): seq<Slot> {
    seq(|slots|, i requires 0 <= i < |slots| => if lo <= i < mid then Granted else if mid <= i < hi then Failed else slots[i])
  }

  ghost function Opened(n: nat): seq<Slot> { seq(n, _ => Open) }

  ghost function Overlap(lo: nat, hi: nat, q: nat): nat {
    if q <= lo || hi <= lo then 0 else if q <= hi then q - lo else hi - lo
  }

  lemma {:induction false} SettleCounts(slots: seq<Slot>, lo: nat, mid: nat, hi: nat, q: nat)
    requires lo <= mid <= hi <= |slots| && q <= |slots|
    requires forall i | lo <= i < hi :: slots[i].Open?
    ensures var after := Settle(slots, lo, mid, hi);
            && CountTo(after, Granted, q) == CountTo(slots, Granted, q) + Overlap(lo, mid, q)
            && CountTo(after, Failed, q) == CountTo(slots, Failed, q) + Overlap(mid, hi, q)
            && CountTo(after, Open, q) == CountTo(slots, Open, q) - Overlap(lo, hi, q)
  {
    if q > 0 { SettleCounts(slots, lo, mid, hi, q - 1); }
  }

  lemma {:induction false} ExtendCounts(slots: seq<Slot>, n: nat, kind: Slot, q: nat)
    requires q <= |slots| + n
    ensures CountTo(slots + Opened(n), kind, q)
         == if q <= |slots| then CountTo(slots, kind, q)
            else CountTo(slots, kind, |slots|) + if kind.Open? then q - |slots| else 0
  {
    if q > 0 { ExtendCounts(slots, n, kind, q - 1); }
  }

  lemma {:induction false} CountsPartition(slots: seq<Slot>, q: nat)
    requires q <= |slots|
    ensures CountTo(slots, Open, q) + CountTo(slots, Granted, q) + CountTo(slots, Failed, q) == q
  {
    if q > 0 { CountsPartition(slots, q - 1); }
  }

  lemma {:induction false} CountMonotone(slots: seq<Slot>, kind: Slot, p: nat, q: nat)
    requires p <= q <= |slots|
    ensures CountTo(slots, kind, p) <= CountTo(slots, kind, q)
  {
    if p < q { CountMonotone(slots, kind, p, q - 1); }
  }

  // The key bound: a granted slot sits at most as many places beyond the tail as slots below it failed.
  ghost predicate GrantsBelow(slots: seq<Slot>, tail: nat) {
    forall q | 0 <= q < |slots| && slots[q].Granted? :: q + 1 - CountTo(slots, Failed, q) <= tail
  }

  lemma {:induction false} GrantsAtMostTail(slots: seq<Slot>, tail: nat, q: nat)
    requires q <= |slots| && GrantsBelow(slots, tail)
    ensures CountTo(slots, Granted, q) <= tail
  {
    if q > 0 {
      CountsPartition(slots, q);
      GrantsAtMostTail(slots, tail, q - 1);
    }
  }

  // ---------------------------------------------------------------- invariant

  ghost function Undecided(): Pc -> int { (pc: Pc) => if pc.ReloadTail? then pc.desired else 0 }

  ghost function ToGiveBack(): Pc -> int { (pc: Pc) => if pc.GiveBack? then pc.excess else 0 }

  ghost function ToClaim(): Pc -> int { (pc: Pc) => if pc.GiveBack? || pc.Claim? then pc.actual else 0 }

  ghost predicate ThreadOk(s: State, slots: seq<Slot>, pc: Pc)
    requires |slots| == s.optimistic
  {
    match pc
    case LoadOvercommit(_, tail) => tail <= s.tail
    case LoadOptimistic(_, tail, over) => tail <= s.tail && over <= CountTo(slots, Failed, s.optimistic)
    case TakeTicket(kind, desired, over) =>
      over <= CountTo(slots, Failed, s.optimistic) && (kind.Single? ==> desired == 1)
    case ReloadTail(kind, desired, over, ticket) =>
      && ticket + desired <= s.optimistic && (kind.Single? ==> desired == 1)
      && over <= CountTo(slots, Failed, ticket)
      && forall i | ticket <= i < ticket + desired :: slots[i].Open?
    case _ => true
  }

  ghost predicate Disjoint(a: Pc, b: Pc) {
    a.ReloadTail? && b.ReloadTail? ==> a.ticket + a.desired <= b.ticket || b.ticket + b.desired <= a.ticket
  }

  // Claims are consecutive ranges from 0 up to the head.
  ghost predicate Consecutive(claims: seq<Range>, head: nat) {
    if claims == [] then head == 0
    else
      var last := claims[|claims| - 1];
      head == last.first + last.count && Consecutive(claims[..|claims| - 1], last.first)
  }

  ghost predicate CountersOk(s: State, slots: seq<Slot>) {
    && |slots| == s.optimistic
    && s.overcommit + Sum(s.threads, ToGiveBack()) == CountTo(slots, Failed, |slots|)
    && s.head + Sum(s.threads, ToClaim()) == CountTo(slots, Granted, |slots|)
    && Sum(s.threads, Undecided()) == CountTo(slots, Open, |slots|)
  }

  ghost predicate ThreadsOk(s: State, slots: seq<Slot>)
    requires |slots| == s.optimistic
  {
    forall t | 0 <= t < |s.threads| :: ThreadOk(s, slots, s.threads[t])
  }

  ghost predicate AllDisjoint(threads: seq<Pc>) {
    forall t, u | 0 <= t < u < |threads| :: Disjoint(threads[t], threads[u])
  }

  ghost predicate Inv(s: State, slots: seq<Slot>) {
    && CountersOk(s, slots)
    && ThreadsOk(s, slots)
    && AllDisjoint(s.threads)
    && GrantsBelow(slots, s.tail)
    && Consecutive(s.claims, s.head)
  }

  ghost function StepSlots(s: State, slots: seq<Slot>, e: Event): seq<Slot>
    requires Enabled(s, e) && |slots| == s.optimistic
  {
    if e.Publish? then slots
    else
      match s.threads[e.t]
      case TakeTicket(_, desired, _) => slots + Opened(desired)
      case ReloadTail(_, desired, over, ticket) =>
        Settle(slots, ticket, GrantedEnd(s, s.threads[e.t]), ticket + desired)
      case _ => slots
  }

  lemma SumsChange(s: State, t: nat, pc: Pc)
    requires t < |s.threads|
    ensures forall f <- {ToGiveBack(), ToClaim(), Undecided()} ::
              Sum(s.threads[t := pc], f) == Sum(s.threads, f) - f(s.threads[t]) + f(pc)
  {
    SumUpdate(s.threads, t, pc, ToGiveBack());
    SumUpdate(s.threads, t, pc, ToClaim());
    SumUpdate(s.threads, t, pc, Undecided());
  }

  lemma DisjointKept(threads: seq<Pc>, t: nat, pc: Pc)
    requires t < |threads| && AllDisjoint(threads) && !pc.ReloadTail?
    ensures AllDisjoint(threads[t := pc])
  {
  }

  lemma ExtendCountsAll(slots: seq<Slot>, n: nat)
    ensures var longer := slots + Opened(n);
            forall kind, q | 0 <= q <= |longer| ::
              CountTo(longer, kind, q) == if q <= |slots| then CountTo(slots, kind, q)
                                          else CountTo(slots, kind, |slots|) + if kind.Open? then q - |slots| else 0
  {
    forall kind, q | 0 <= q <= |slots| + n { ExtendCounts(slots, n, kind, q); }
  }

  lemma TakeTicketKeepsThreads(s: State, slots: seq<Slot>, e: Event)
    requires Inv(s, slots) && e.Consume? && Enabled(s, e) && s.threads[e.t].TakeTicket?
    ensures var s', slots' := Step(s, e), StepSlots(s, slots, e);
            |slots'| == s'.optimistic && ThreadsOk(s', slots') && AllDisjoint(s'.threads)
  {
    var s', slots' := Step(s, e), StepSlots(s, slots, e);
    ExtendCountsAll(slots, s.threads[e.t].desired);
    forall t | 0 <= t < |s.threads| ensures ThreadOk(s', slots', s'.threads[t]) {
      assert ThreadOk(s, slots, s.threads[t]);
    }
  }

  lemma TakeTicketPreserves(s: State, slots: seq<Slot>, e: Event)
    requires Inv(s, slots) && e.Consume? && Enabled(s, e) && s.threads[e.t].TakeTicket?
    ensures Inv(Step(s, e), StepSlots(s, slots, e))
  {
    TakeTicketKeepsThreads(s, slots, e);
    SumsChange(s, e.t, Step(s, e).threads[e.t]);
    ExtendCountsAll(slots, s.threads[e.t].desired);
  }

  // Deciding a ticket grants its slots below `mid` and fails the rest.
  lemma SettleCountsAll(slots: seq<Slot>, lo: nat, mid: nat, hi: nat)
    requires lo <= mid <= hi <= |slots|
    requires forall i | lo <= i < hi :: slots[i].Open?
    ensures var after := Settle(slots, lo, mid, hi);
            forall q | 0 <= q <= |slots| ::
              && CountTo(after, Granted, q) == CountTo(slots, Granted, q) + Overlap(lo, mid, q)
              && CountTo(after, Failed, q) == CountTo(slots, Failed, q) + Overlap(mid, hi, q)
              && CountTo(after, Open, q) == CountTo(slots, Open, q) - Overlap(lo, hi, q)
  {
    forall q | 0 <= q <= |slots| { SettleCounts(slots, lo, mid, hi, q); }
  }

  lemma SettleKeepsGrantsBelow(slots: seq<Slot>, lo: nat, mid: nat, hi: nat, over: nat, tail: nat)
    requires lo <= mid <= hi <= |slots| && GrantsBelow(slots, tail)
    requires forall i | lo <= i < hi :: slots[i].Open?
    requires over <= CountTo(slots, Failed, lo) && (lo < mid ==> mid - over <= tail)
    ensures GrantsBelow(Settle(slots, lo, mid, hi), tail)
  {
    var after := Settle(slots, lo, mid, hi);
    SettleCountsAll(slots, lo, mid, hi);
    forall q | 0 <= q < |after| && after[q].Granted? ensures q + 1 - CountTo(after, Failed, q) <= tail {
      if lo <= q < mid { CountMonotone(slots, Failed, lo, q); }
    }
  }

  lemma SettleKeepsThread(s: State, s': State, slots: seq<Slot>, lo: nat, mid: nat, hi: nat, pc: Pc)
    requires |slots| == s.optimistic == s'.optimistic && s.tail <= s'.tail
    requires ThreadOk(s, slots, pc) && lo <= mid <= hi <= |slots|
    requires forall i | lo <= i < hi :: slots[i].Open?
    requires pc.ReloadTail? ==> pc.ticket + pc.desired <= lo || hi <= pc.ticket
    ensures ThreadOk(s', Settle(slots, lo, mid, hi), pc)
  {
    SettleCounts(slots, lo, mid, hi, s.optimistic);
    if pc.ReloadTail? { SettleCounts(slots, lo, mid, hi, pc.ticket); }
  }

  // The granted part of a ticket when its consumer reloads the tail.
  ghost function GrantedEnd(s: State, pc: Pc): nat
    requires pc.ReloadTail?
  {
    var available := s.tail - (pc.ticket - pc.over);
    pc.ticket + if available <= 0 then 0 else Min(available, pc.desired)
  }

  lemma ReloadTailKeepsThreads(s: State, slots: seq<Slot>, e: Event, t: nat)
    requires Inv(s, slots) && e.Consume? && Enabled(s, e) && s.threads[e.t].ReloadTail? && t < |s.threads|
    ensures var s', slots' := Step(s, e), StepSlots(s, slots, e);
            |slots'| == s'.optimistic && ThreadOk(s', slots', s'.threads[t])
  {
    var s' := Step(s, e);
    var pc := s.threads[e.t];
    assert ThreadOk(s, slots, pc) && ThreadOk(s, slots, s.threads[t]);
    if t != e.t {
      if t < e.t { assert Disjoint(s.threads[t], pc); } else { assert Disjoint(pc, s.threads[t]); }
      SettleKeepsThread(s, s', slots, pc.ticket, GrantedEnd(s, pc), pc.ticket + pc.desired, s.threads[t]);
    }
  }

  lemma ReloadTailSums(s: State, slots: seq<Slot>, e: Event)
    requires Inv(s, slots) && e.Consume? && Enabled(s, e) && s.threads[e.t].ReloadTail?
    ensures var s', slots' := Step(s, e), StepSlots(s, slots, e);
            && s'.optimistic == s.optimistic == |slots'|
            && s'.overcommit + Sum(s'.threads, ToGiveBack()) == CountTo(slots', Failed, |slots'|)
            && s'.head + Sum(s'.threads, ToClaim()) == CountTo(slots', Granted, |slots'|)
            && Sum(s'.threads, Undecided()) == CountTo(slots', Open, |slots'|)
  {
    hide Sum, CountTo;
    var pc := s.threads[e.t];
    assert ThreadOk(s, slots, pc);
    var pc' := Step(s, e).threads[e.t];
    var lo, mid, hi := pc.ticket, GrantedEnd(s, pc), pc.ticket + pc.desired;
    assert ToClaim()(pc') == mid - lo && ToGiveBack()(pc') == hi - mid && Undecided()(pc') == 0;
    assert ToClaim()(pc) == 0 && ToGiveBack()(pc) == 0 && Undecided()(pc) == hi - lo;
    SumsChange(s, e.t, pc');
    SettleCounts(slots, lo, mid, hi, |slots|);
    assert Overlap(lo, mid, |slots|) == mid - lo && Overlap(mid, hi, |slots|) == hi - mid;
  }

  lemma ReloadTailPreserves(s: State, slots: seq<Slot>, e: Event)
    requires Inv(s, slots) && e.Consume? && Enabled(s, e) && s.threads[e.t].ReloadTail?
    ensures Inv(Step(s, e), StepSlots(s, slots, e))
  {
    hide Sum, CountTo;
    var pc := s.threads[e.t];
    assert ThreadOk(s, slots, pc);
    ReloadTailSums(s, slots, e);
    SettleKeepsGrantsBelow(slots, pc.ticket, GrantedEnd(s, pc), pc.ticket + pc.desired, pc.over, s.tail);
    forall t | 0 <= t < |s.threads| { ReloadTailKeepsThreads(s, slots, e, t); }
    DisjointKept(s.threads, e.t, Step(s, e).threads[e.t]);
  }

  lemma PublishPreserves(s: State, slots: seq<Slot>, e: Event)
    requires Inv(s, slots) && e.Publish?
    ensures Inv(Step(s, e), slots)
  {
    var s' := Step(s, e);
    forall t | 0 <= t < |s.threads| ensures ThreadOk(s', slots, s'.threads[t]) {
      assert ThreadOk(s, slots, s.threads[t]);
    }
  }

  lemma LookPreserves(s: State, slots: seq<Slot>, e: Event)
    requires Inv(s, slots) && e.Consume? && Enabled(s, e)
    requires var pc := s.threads[e.t]; pc.Idle? || pc.LoadTail? || pc.LoadOvercommit? || pc.LoadOptimistic?
    ensures Inv(Step(s, e), slots)
  {
    var s' := Step(s, e);
    SumsChange(s, e.t, s'.threads[e.t]);
    SumNonNegativeGiveBack(s, slots);
    forall t | 0 <= t < |s.threads| ensures ThreadOk(s', slots, s'.threads[t]) {
      assert ThreadOk(s, slots, s.threads[t]);
    }
    DisjointKept(s.threads, e.t, s'.threads[e.t]);
  }

  lemma SumNonNegativeGiveBack(s: State, slots: seq<Slot>)
    requires Inv(s, slots)
    ensures Sum(s.threads, ToGiveBack()) >= 0
  {
    SumNonNegative(s.threads, ToGiveBack());
  }

  lemma CountersPreserve(s: State, slots: seq<Slot>, e: Event)
    requires Inv(s, slots) && e.Consume? && Enabled(s, e)
    requires s.threads[e.t].GiveBack? || s.threads[e.t].Claim?
    ensures Inv(Step(s, e), slots)
  {
    var s' := Step(s, e);
    SumsChange(s, e.t, s'.threads[e.t]);
    forall t | 0 <= t < |s.threads| ensures ThreadOk(s', slots, s'.threads[t]) {
      assert ThreadOk(s, slots, s.threads[t]);
    }
    DisjointKept(s.threads, e.t, s'.threads[e.t]);
    if s.threads[e.t].Claim? {
      assert s'.claims[..|s.claims|] == s.claims;
    }
  }

  lemma StepPreservesInv(s: State, slots: seq<Slot>, e: Event)
    requires Inv(s, slots) && Enabled(s, e)
    ensures Inv(Step(s, e), StepSlots(s, slots, e))
  {
    if e.Publish? {
      PublishPreserves(s, slots, e);
    } else if s.threads[e.t].TakeTicket? {
      TakeTicketPreserves(s, slots, e);
    } else if s.threads[e.t].ReloadTail? {
      ReloadTailPreserves(s, slots, e);
    } else if s.threads[e.t].GiveBack? || s.threads[e.t].Claim? {
      CountersPreserve(s, slots, e);
    } else {
      LookPreserves(s, slots, e);
    }
  }

  // ---------------------------------------------------------------- every run

  ghost predicate Run(run: seq<State>) {
    && run != [] && Init(run[0])
    && forall i | 0 < i < |run| :: Next(run[i - 1], run[i])
  }

  ghost predicate Next(s: State, s': State) {
    exists e :: Enabled(s, e) && s' == Step(s, e)
  }

  ghost predicate Reachable(s: State) {
    exists run :: Run(run) && run[|run| - 1] == s
  }

  lemma {:induction false} RunInv(run: seq<State>) returns (slots: seq<Slot>)
    requires Run(run)
    ensures Inv(run[|run| - 1], slots)
  {
    var last := run[|run| - 1];
    if |run| == 1 {
      slots := [];
      SumZero(last.threads, ToGiveBack());
      SumZero(last.threads, ToClaim());
      SumZero(last.threads, Undecided());
      assert forall t | 0 <= t < |last.threads| :: last.threads[t] in last.threads;
    } else {
      var prev := run[..|run| - 1];
      var slots0 := RunInv(prev);
      assert Next(prev[|prev| - 1], last);
      var e :| Enabled(prev[|prev| - 1], e) && last == Step(prev[|prev| - 1], e);
      StepPreservesInv(prev[|prev| - 1], slots0, e);
      slots := StepSlots(prev[|prev| - 1], slots0, e);
    }
  }

  // headIndex, together with the increments that granted consumers still owe it, never passes tailIndex.
  lemma HeadNeverPassesTail(s: State)
    requires Reachable(s)
    ensures 0 <= s.head <= s.head + Sum(s.threads, ToClaim()) <= s.tail
    ensures s.overcommit <= s.optimistic
  {
    var run :| Run(run) && run[|run| - 1] == s;
    var slots := RunInv(run);
    GrantsAtMostTail(slots, s.tail, |slots|);
    CountsPartition(slots, |slots|);
    SumNonNegative(s.threads, ToGiveBack());
    forall pc <- s.threads ensures 0 <= ToClaim()(pc) { assert ThreadOk(s, slots, pc); }
    SumNonNegative(s.threads, ToClaim());
  }

  // Every index below headIndex belongs to exactly one successful dequeue, and no other index does.
  lemma ClaimedExactlyOnce(s: State, index: nat)
    requires Reachable(s)
    ensures index < s.head <==> exists i :: 0 <= i < |s.claims| && InRange(s.claims[i], index)
    ensures forall i, j | 0 <= i < |s.claims| && 0 <= j < |s.claims| ::
              InRange(s.claims[i], index) && InRange(s.claims[j], index) ==> i == j
  {
    var run :| Run(run) && run[|run| - 1] == s;
    var slots := RunInv(run);
    ConsecutiveCovers(s.claims, s.head, index);
  }

  predicate InRange(r: Range, index: nat) { r.first <= index < r.first + r.count }

  lemma {:induction false} ConsecutiveCovers(claims: seq<Range>, head: nat, index: nat)
    requires Consecutive(claims, head)
    ensures index < head <==> exists i :: 0 <= i < |claims| && InRange(claims[i], index)
    ensures forall i, j | 0 <= i < |claims| && 0 <= j < |claims| ::
              InRange(claims[i], index) && InRange(claims[j], index) ==> i == j
  {
    if claims != [] {
      var n := |claims| - 1;
      var prev := claims[..n];
      ConsecutiveCovers(prev, claims[n].first, index);
      assert forall i | 0 <= i < n :: claims[i] == prev[i];
      if index < claims[n].first {
        var i :| 0 <= i < n && InRange(prev[i], index);
        assert InRange(claims[i], index);
      } else if index < head {
        assert InRange(claims[n], index);
      }
      forall i | 0 <= i < |claims| && InRange(claims[i], index) ensures index < head {
        if i < n { assert InRange(prev[i], index); }
      }
    }
  }

  // With no dequeue under way the effective dequeue count is exactly headIndex ...
  lemma QuiescentCounters(s: State)
    requires Reachable(s) && forall pc <- s.threads :: pc.Idle?
    ensures s.optimistic - s.overcommit == s.head
  {
    var run :| Run(run) && run[|run| - 1] == s;
    var slots := RunInv(run);
    SumZero(s.threads, ToGiveBack());
    SumZero(s.threads, ToClaim());
    SumZero(s.threads, Undecided());
    CountsPartition(slots, |slots|);
  }

  ghost function Solo(s: State, t: nat, kind: Kind, steps: nat): (s': State)
    requires t < |s.threads|
    ensures |s'.threads| == |s.threads|
  {
    if steps == 0 then s else Step(Solo(s, t, kind, steps - 1), Consume(t, kind))
  }

  // As many elements as there are, or as the consumer asked for, whichever is less.
  ghost predicate TakesAll(kind: Kind, available: int, count: int) {
    match kind
    case Single => count == 1 <= available
    case Bulk(max) => count <= max && count <= available && (count == max || count == available)
  }

  // ... so a consumer that then runs alone takes as many elements as there are and as it asked for,
  // starting at headIndex; if there are none it gives up, and no counter has changed.
  lemma SoloDequeue(s: State, t: nat, kind: Kind)
    requires Reachable(s) && t < |s.threads| && (forall pc <- s.threads :: pc.Idle?)
    ensures s.head <= s.tail
    ensures s.head == s.tail ==> Solo(s, t, kind, 4) == s
    ensures s.head < s.tail ==>
              var s' := Solo(s, t, kind, 7);
              var count := s'.head - s.head;
              && TakesAll(kind, s.tail - s.head, count) && count >= 0 && s'.claims == s.claims + [Range(s.head, count)]
              && s'.threads == s.threads && s'.tail == s.tail
  {
    hide Reachable, Step;
    QuiescentCounters(s);
    HeadNeverPassesTail(s);
    if s.head == s.tail { SoloFails(s, t, kind); } else { SoloSucceeds(s, t, kind); }
  }

  lemma SoloFails(s: State, t: nat, kind: Kind)
    requires t < |s.threads| && s.threads[t].Idle? && s.optimistic - s.overcommit == s.tail
    ensures Solo(s, t, kind, 4) == s
  {
    var s1 := Step(s, Consume(t, kind));
    var s2 := Step(s1, Consume(t, kind));
    var s3 := Step(s2, Consume(t, kind));
    assert s1 == Solo(s, t, kind, 1);
    assert s2 == Solo(s, t, kind, 2);
    assert s3 == Solo(s, t, kind, 3);
    assert Step(s3, Consume(t, kind)).threads == s.threads;
  }

  lemma SoloSucceeds(s: State, t: nat, kind: Kind)
    requires t < |s.threads| && s.threads[t].Idle? && s.optimistic - s.overcommit == s.head < s.tail
    ensures var s' := Solo(s, t, kind, 7);
            var count := Desired(kind, s.tail - s.head);
            && s'.head == s.head + count && s'.claims == s.claims + [Range(s.head, count)]
            && s'.threads == s.threads && s'.tail == s.tail
  {
    var s1 := Step(s, Consume(t, kind));
    var s2 := Step(s1, Consume(t, kind));
    var s3 := Step(s2, Consume(t, kind));
    var s4 := Step(s3, Consume(t, kind));
    var s5 := Step(s4, Consume(t, kind));
    var s6 := Step(s5, Consume(t, kind));
    var s7 := Step(s6, Consume(t, kind));
    assert s6.threads[t] == Claim(Desired(kind, s.tail - s.head));
    assert s7.threads == s.threads;
    assert s1 == Solo(s, t, kind, 1);
    assert s2 == Solo(s, t, kind, 2);
    assert s3 == Solo(s, t, kind, 3);
    assert s4 == Solo(s, t, kind, 4);
    assert s5 == Solo(s, t, kind, 5);
    assert s6 == Solo(s, t, kind, 6);
  }

  // ---------------------------------------------------------------- what every dequeue answers

  // A dequeue gave up on the counters it had looked at, or it took a ticket for `asked` of the `seen` elements and the
  // tail then left it `got` of them.
  datatype Outcome =
    | GaveUp(kind: Kind, tail: nat, over: nat, count: nat)
    | Decided(kind: Kind, seen: int, asked: nat, over: nat, ticket: nat, tail: nat, got: nat, excess: nat)

  // `seen` is what each thread took to be available, `started` counts the dequeues, `published` the elements.
  datatype History = History(seen: seq<int>, started: nat, published: nat, outcomes: seq<Outcome>)

  function GaveUpAt(s: State, pc: Pc): Outcome
    requires pc.LoadTail? || pc.LoadOvercommit? || pc.LoadOptimistic?
  {
    match pc
    case LoadTail(kind) => GaveUp(kind, s.tail, s.overcommit, s.optimistic)
    case LoadOvercommit(kind, tail) => GaveUp(kind, tail, s.overcommit, s.optimistic)
    case LoadOptimistic(kind, tail, over) => GaveUp(kind, tail, over, s.optimistic)
  }

  function Record(s: State, h: History, e: Event): (h': History)
    requires Enabled(s, e) && |h.seen| == |s.threads|
    ensures |h'.seen| == |h.seen|
  {
    if e.Publish? then h.(published := h.published + e.count)
    else
      var pc, pc' := s.threads[e.t], Step(s, e).threads[e.t];
      match pc
      case Idle => h.(started := h.started + 1)
      case LoadTail(_) => if pc'.Idle? then h.(outcomes := h.outcomes + [GaveUpAt(s, pc)]) else h
      case LoadOvercommit(_, _) => if pc'.Idle? then h.(outcomes := h.outcomes + [GaveUpAt(s, pc)]) else h
      case LoadOptimistic(_, tail, over) =>
        if pc'.Idle? then h.(outcomes := h.outcomes + [GaveUpAt(s, pc)])
        else h.(seen := h.seen[e.t := tail - (s.optimistic - over)])
      case ReloadTail(kind, desired, over, ticket) =>
        var got := if pc'.GiveBack? || pc'.Claim? then pc'.actual else 0;
        h.(outcomes := h.outcomes + [Decided(kind, h.seen[e.t], desired, over, ticket, s.tail, got, if pc'.GiveBack? then pc'.excess else 0)])
      case _ => h
  }

  // What a ticket does not get, the tail did not reach.
  ghost predicate OutcomeOk(o: Outcome) {
    match o
    case GaveUp(_, tail, over, count) => tail <= count - over
    case Decided(kind, seen, asked, over, ticket, tail, got, excess) =>
      && TakesAll(kind, seen, asked) && got + excess == asked
      && (got > 0 ==> ticket - over + got <= tail) && (excess > 0 ==> tail <= ticket - over + got)
  }

  ghost function Asking(): Pc -> int {
    (pc: Pc) => if pc.Idle? || pc.GiveBack? || pc.Claim? then 0 else 1
  }

  ghost function Got(): Outcome -> int { (o: Outcome) => if o.Decided? then o.got else 0 }
  ghost function Excess(): Outcome -> int { (o: Outcome) => if o.Decided? then o.excess else 0 }

  ghost predicate SeenOk(pc: Pc, seen: int) {
    pc.TakeTicket? || pc.ReloadTail? ==> TakesAll(pc.kind, seen, pc.desired)
  }

  ghost predicate HistoryOk(s: State, h: History) {
    && |h.seen| == |s.threads| && (forall t | 0 <= t < |s.threads| :: SeenOk(s.threads[t], h.seen[t]))
    && (forall o <- h.outcomes :: OutcomeOk(o))
    && h.started == |h.outcomes| + Sum(s.threads, Asking()) && h.published == s.tail
    && Sum(h.outcomes, Got()) == s.head + Sum(s.threads, ToClaim())
    && Sum(h.outcomes, Excess()) == s.overcommit + Sum(s.threads, ToGiveBack())
  }

  lemma RecordOk(s: State, h: History, e: Event)
    requires HistoryOk(s, h) && Enabled(s, e)
    ensures HistoryOk(Step(s, e), Record(s, h, e))
  {
    hide Sum;
    if e.Consume? {
      var s', h' := Step(s, e), Record(s, h, e);
      assert SeenOk(s.threads[e.t], h.seen[e.t]);
      SumsChange(s, e.t, s'.threads[e.t]);
      SumUpdate(s.threads, e.t, s'.threads[e.t], Asking());
      if |h'.outcomes| > |h.outcomes| {
        var o := h'.outcomes[|h.outcomes|];
        assert h'.outcomes == h.outcomes + [o];
        SumAppend(h.outcomes, o, Got());
        SumAppend(h.outcomes, o, Excess());
      }
      forall t | 0 <= t < |s.threads| ensures SeenOk(s'.threads[t], h'.seen[t]) {
        assert SeenOk(s.threads[t], h.seen[t]);
      }
    }
  }

  ghost predicate RecordedNext(s: State, h: History, s': State, h': History) {
    |h.seen| == |s.threads| && exists e :: Enabled(s, e) && s' == Step(s, e) && h' == Record(s, h, e)
  }

  ghost predicate RecordedRun(run: seq<(State, History)>) {
    && run != [] && Init(run[0].0) && |run[0].1.seen| == |run[0].0.threads| && run[0].1.started == run[0].1.published == 0 && run[0].1.outcomes == []
    && forall i | 0 < i < |run| :: RecordedNext(run[i - 1].0, run[i - 1].1, run[i].0, run[i].1)
  }

  // In every run every dequeue is answered, and answered right: it gives up only when the tickets not known to have
  // failed reach the tail it saw, a ticket asks for the lesser of what was seen and what was wanted, and it gets all
  // that the tail covers. All that was got is claimed, and all that was not is given back.
  lemma {:induction false} EveryDequeueAnswered(run: seq<(State, History)>)
    requires RecordedRun(run)
    ensures HistoryOk(run[|run| - 1].0, run[|run| - 1].1)
  {
    hide Step, Record, Enabled;
    if |run| > 1 {
      var prev := run[..|run| - 1];
      EveryDequeueAnswered(prev);
      var (s, h) := prev[|prev| - 1];
      var (s', h') := run[|run| - 1];
      assert RecordedNext(s, h, s', h');
      var e :| Enabled(s, e) && s' == Step(s, e) && h' == Record(s, h, e);
      RecordOk(s, h, e);
    } else {
      var (s, h) := run[0];
      SumZero(s.threads, Asking());
      SumZero(s.threads, ToClaim());
      SumZero(s.threads, ToGiveBack());
      forall t | 0 <= t < |s.threads| ensures SeenOk(s.threads[t], h.seen[t]) { assert s.threads[t] in s.threads; }
    }
  }

  // No consumer ever waits: each step takes its dequeue on.
  lemma NobodyWaits(s: State, t: nat, kind: Kind)
    requires t < |s.threads|
    ensures Step(s, Consume(t, kind)).threads[t] != s.threads[t]
  {
  }
}

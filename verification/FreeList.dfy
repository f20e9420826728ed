// The CAS free list of moodycamel::ConcurrentQueue: any number of threads, every interleaving
// of its atomic operations.
module FreeList {
  import opened Sums

  type Node = nat

  datatype Link = Null | To(node: Node)

  // freeListRefs is a 32-bit word: a 31-bit reference count and one flag bit.
  const SHOULD_BE_ON_FREELIST: nat := 0x8000_0000
  const WORD: nat := 0x1_0000_0000

  function Count(refs: nat): nat { refs % SHOULD_BE_ON_FREELIST }

  // What try_get still has to do when it called add_knowing_refcount_is_zero; add has nothing left.
  datatype Return = Done | Retry(head: Link)

  // One constructor per atomic operation a thread is about to perform.
  datatype Pc =
    | Idle
    | AddFetch(node: Node)
    | PushLoad(node: Node, ret: Return)
    | PushNext(node: Node, head: Link, ret: Return)
    | PushRefs(node: Node, head: Link, ret: Return)
    | PushCas(node: Node, head: Link, ret: Return)
    | PushUndo(node: Node, head: Link, ret: Return)
    | GetLoad
    | GetRefs(node: Node)
    | GetAcquire(node: Node, refs: nat)
    | GetNext(node: Node)
    | GetCas(node: Node, next: Link)
    | GetTaken(node: Node)
    | GetRelease(node: Node, head: Link)

  // `outside` holds the nodes in the hands of the free list's clients.
  datatype State = State(refs: seq<nat>, next: seq<Link>, head: Link, threads: seq<Pc>, outside: set<Node>)
  {
    function At(t: nat, pc: Pc): State
      requires t < |threads|
    {
      this.(threads := threads[t := pc])
    }
  }

  // The operation an idle thread starts; ignored while an operation is under way.
  datatype Call = Add(node: Node) | TryGet

  // ---------------------------------------------------------------- the algorithm

  // The loop head of try_get: an empty list ends the call.
  function Loop(head: Link): Pc { if head.Null? then Idle else GetRefs(head.node) }

  function Resume(ret: Return): Pc { if ret.Done? then Idle else Loop(ret.head) }

  predicate WellFormed(s: State, pc: Pc) {
    && |s.refs| == |s.next|
    && (!pc.Idle? && !pc.GetLoad? ==> pc.node < |s.refs|)
  }

  // Clients add only nodes they hold.
  predicate Enabled(s: State, t: nat, call: Call) {
    && t < |s.threads|
    && WellFormed(s, s.threads[t])
    && (s.threads[t].Idle? && call.Add? ==> call.node in s.outside && call.node < |s.refs|)
  }

  function Step(s: State, t: nat, call: Call): (s': State)
    requires Enabled(s, t, call)
    ensures |s'.refs| == |s.refs| == |s'.next| && |s'.threads| == |s.threads|
  {
    match s.threads[t]
    case Idle =>
      if call.TryGet? then s.At(t, GetLoad)
      else s.(outside := s.outside - {call.node}).At(t, AddFetch(call.node))
    case AddFetch(n) =>
      var s1 := s.(refs := s.refs[n := (s.refs[n] + SHOULD_BE_ON_FREELIST) % WORD]);
      if s.refs[n] == 0 then s1.At(t, PushLoad(n, Done)) else s1.At(t, Idle)
    case PushLoad(n, ret) =>
      s.At(t, PushNext(n, s.head, ret))
    case PushNext(n, h, ret) =>
      s.(next := s.next[n := h]).At(t, PushRefs(n, h, ret))
    case PushRefs(n, h, ret) =>
      s.(refs := s.refs[n := 1]).At(t, PushCas(n, h, ret))
    case PushCas(n, h, ret) =>
      if s.head == h then s.(head := To(n)).At(t, Resume(ret))
      else s.At(t, PushUndo(n, s.head, ret))
    case PushUndo(n, h, ret) =>
      var s1 := s.(refs := s.refs[n := (s.refs[n] + SHOULD_BE_ON_FREELIST - 1) % WORD]);
      if s.refs[n] == 1 then s1.At(t, PushNext(n, h, ret)) else s1.At(t, Resume(ret))
    case GetLoad =>
      s.At(t, Loop(s.head))
    case GetRefs(n) =>
      if Count(s.refs[n]) == 0 then s.At(t, GetLoad) else s.At(t, GetAcquire(n, s.refs[n]))
    case GetAcquire(n, refs) =>
      if s.refs[n] != refs then s.At(t, GetLoad)
      else s.(refs := s.refs[n := (refs + 1) % WORD]).At(t, GetNext(n))
    case GetNext(n) =>
      s.At(t, GetCas(n, s.next[n]))
    case GetCas(n, next) =>
      if s.head == To(n) then s.(head := next).At(t, GetTaken(n))
      else s.At(t, GetRelease(n, s.head))
    case GetTaken(n) =>
      s.(refs := s.refs[n := (s.refs[n] + WORD - 2) % WORD], outside := s.outside + {n}).At(t, Idle)
    case GetRelease(n, h) =>
      var s1 := s.(refs := s.refs[n := (s.refs[n] + WORD - 1) % WORD]);
      if s.refs[n] == SHOULD_BE_ON_FREELIST + 1 then s1.At(t, PushLoad(n, Retry(h)))
      else s1.At(t, Loop(h))
  }

  // Nodes start in the clients' hands; a thread holds at most two references, so the count never
  // reaches the flag bit.
  ghost predicate Init(s: State) {
    && |s.refs| == |s.next|
    && (forall n | 0 <= n < |s.refs| :: s.refs[n] == 0 && s.next[n].Null?)
    && s.head.Null?
    && (forall pc <- s.threads :: pc.Idle?)
    && (forall n: Node :: n in s.outside <==> n < |s.refs|)
    && 2 * |s.threads| + 1 < SHOULD_BE_ON_FREELIST
  }

  // ---------------------------------------------------------------- the protocol's bookkeeping

  // What a node is to the protocol. Waiting: added, but the last thread to let go of it must push it.
  datatype Status =
    | Outside
    | Adding(tid: nat)
    | Waiting
    | Pushing(tid: nat)
    | Publishing(tid: nat)
    | Listed
    | Popping(tid: nat)

  datatype Ghost = Ghost(status: seq<Status>, list: seq<Node>)

  // References thread-held on node n. A popper still carries the list's reference as well.
  ghost function Held(n: Node): Pc -> int {
    (pc: Pc) =>
      match pc
      case PushCas(m, _, _) => if m == n then 1 else 0
      case PushUndo(m, _, _) => if m == n then 1 else 0
      case GetNext(m) => if m == n then 1 else 0
      case GetCas(m, _) => if m == n then 1 else 0
      case GetRelease(m, _) => if m == n then 1 else 0
      case GetTaken(m) => if m == n then 2 else 0
      case _ => 0
  }

  // The status a program counter entitles its thread to.
  ghost function Claim(pc: Pc, t: nat): Status {
    match pc
    case AddFetch(_) => Adding(t)
    case PushLoad(_, _) => Pushing(t)
    case PushNext(_, _, _) => Pushing(t)
    case PushRefs(_, _, _) => Pushing(t)
    case PushCas(_, _, _) => Publishing(t)
    case PushUndo(_, _, _) => Publishing(t)
    case GetTaken(_) => Popping(t)
    case _ => Outside
  }

  ghost predicate Claimed(st: Status) { !(st.Outside? || st.Waiting? || st.Listed?) }

  ghost predicate ValidLink(s: State, l: Link) { l.To? ==> l.node < |s.refs| }

  ghost predicate ValidReturn(s: State, r: Return) { r.Retry? ==> ValidLink(s, r.head) }

  ghost predicate ThreadOk(s: State, g: Ghost, t: nat)
    requires t < |s.threads| && |s.refs| == |s.next| == |g.status|
  {
    var pc := s.threads[t];
    && WellFormed(s, pc)
    && (Claimed(Claim(pc, t)) ==> g.status[pc.node] == Claim(pc, t))
    && match pc {
         case PushLoad(n, ret) => ValidReturn(s, ret)
         case PushNext(n, h, ret) => ValidLink(s, h) && ValidReturn(s, ret)
         case PushRefs(n, h, ret) => ValidLink(s, h) && ValidReturn(s, ret) && s.next[n] == h
         case PushCas(n, h, ret) => ValidLink(s, h) && ValidReturn(s, ret) && s.next[n] == h
         case PushUndo(n, h, ret) => ValidLink(s, h) && ValidReturn(s, ret)
         case GetAcquire(n, refs) => Count(refs) != 0 && refs < WORD
         case GetCas(n, next) => ValidLink(s, next) && s.next[n] == next
         case GetRelease(n, h) => ValidLink(s, h)
         case _ => true
       }
  }

  // The freeListRefs word of a node, in terms of its status and the threads holding it.
  ghost function RefWord(st: Status, held: int): int {
    held
    + (if st.Listed? then 1 else 0)
    + (if st.Waiting? || st.Pushing? then SHOULD_BE_ON_FREELIST else 0)
  }

  ghost predicate NodeOk(s: State, g: Ghost, n: Node)
    requires n < |s.refs| == |g.status|
  {
    var held := Sum(s.threads, Held(n));
    var st := g.status[n];
    && s.refs[n] == RefWord(st, held)
    && (st.Pushing? ==> held == 0)
    && (st.Waiting? ==> held > 0)
    && (n in s.outside <==> st.Outside?)
    && (n in g.list <==> st.Listed?)
    && (Claimed(st) ==>
          && st.tid < |s.threads|
          && Claim(s.threads[st.tid], st.tid) == st
          && s.threads[st.tid].node == n)
  }

  // The chain of next pointers from `head` is exactly `list`, with no node twice.
  ghost predicate IsList(head: Link, next: seq<Link>, list: seq<Node>)
    decreases list
  {
    if list == [] then head.Null?
    else
      && head == To(list[0]) && list[0] < |next| && list[0] !in list[1..]
      && IsList(next[list[0]], next, list[1..])
  }

  ghost predicate Inv(s: State, g: Ghost) {
    && |s.refs| == |s.next| == |g.status|
    && 2 * |s.threads| + 1 < SHOULD_BE_ON_FREELIST
    && (forall n <- s.outside :: n < |s.refs|)
    && (forall t | 0 <= t < |s.threads| :: ThreadOk(s, g, t))
    && (forall n | 0 <= n < |s.refs| :: NodeOk(s, g, n) && ValidLink(s, s.next[n]))
    && IsList(s.head, s.next, g.list)
  }

  // How each step moves the bookkeeping along.
  ghost function StepGhost(s: State, g: Ghost, t: nat, call: Call): (g': Ghost)
    requires Enabled(s, t, call) && |g.status| == |s.refs| == |s.next|
    ensures |g'.status| == |g.status|
  {
    match s.threads[t]
    case Idle =>
      if call.TryGet? then g else g.(status := g.status[call.node := Adding(t)])
    case AddFetch(n) =>
      g.(status := g.status[n := if s.refs[n] == 0 then Pushing(t) else Waiting])
    case PushRefs(n, _, _) =>
      g.(status := g.status[n := Publishing(t)])
    case PushCas(n, h, _) =>
      if s.head == h then Ghost(g.status[n := Listed], [n] + g.list) else g
    case PushUndo(n, _, _) =>
      g.(status := g.status[n := if s.refs[n] == 1 then Pushing(t) else Waiting])
    case GetCas(n, _) =>
      if s.head == To(n) && g.list != [] then Ghost(g.status[n := Popping(t)], g.list[1..]) else g
    case GetTaken(n) =>
      g.(status := g.status[n := Outside])
    case GetRelease(n, _) =>
      if s.refs[n] == SHOULD_BE_ON_FREELIST + 1 then g.(status := g.status[n := Pushing(t)]) else g
    case _ => g
  }

  // ---------------------------------------------------------------- preservation

  lemma HeldBounds(s: State, n: Node)
    ensures 0 <= Sum(s.threads, Held(n)) <= 2 * |s.threads|
    ensures forall t | 0 <= t < |s.threads| :: 0 <= Held(n)(s.threads[t]) <= Sum(s.threads, Held(n))
  {
    SumNonNegative(s.threads, Held(n));
    SumUpper(s.threads, Held(n), 2);
    forall t | 0 <= t < |s.threads| ensures 0 <= Held(n)(s.threads[t]) <= Sum(s.threads, Held(n)) {
      SumAtLeast(s.threads, t, Held(n));
    }
  }

  // A reference is held on a node only between pushes, and the last holder of a waiting node is alone.
  lemma HolderFacts(s: State, g: Ghost, t: nat, n: Node)
    requires Inv(s, g) && t < |s.threads| && n < |s.refs| && Held(n)(s.threads[t]) > 0
    ensures !g.status[n].Pushing?
    ensures s.threads[t].GetRelease? && s.refs[n] == SHOULD_BE_ON_FREELIST + 1 ==> g.status[n].Waiting?
    ensures s.threads[t].PushUndo? && s.refs[n] == 1 ==> Sum(s.threads, Held(n)) == 1
    ensures s.threads[t].GetTaken? ==> s.refs[n] < SHOULD_BE_ON_FREELIST && s.refs[n] >= 2
  {
    HeldBounds(s, n);
    assert NodeOk(s, g, n) && ThreadOk(s, g, t);
  }

  // A node outside the list may be relinked.
  lemma {:induction false} ListRelink(head: Link, next: seq<Link>, list: seq<Node>, n: Node, h: Link)
    requires IsList(head, next, list) && n < |next| && n !in list
    ensures IsList(head, next[n := h], list)
    decreases list
  {
    if list != [] { ListRelink(next[list[0]], next, list[1..], n, h); }
  }

  // Only pushing a node rewrites its next pointer, and then nobody holds it.
  lemma ListPreserved(s: State, g: Ghost, t: nat, call: Call)
    requires Inv(s, g) && Enabled(s, t, call)
    ensures var s' := Step(s, t, call);
            IsList(s'.head, s'.next, StepGhost(s, g, t, call).list)
  {
    var pc := s.threads[t];
    assert ThreadOk(s, g, t);
    match pc
    case PushNext(n, h, ret) =>
      assert NodeOk(s, g, n);
      ListRelink(s.head, s.next, g.list, n, h);
    case PushCas(n, h, ret) =>
      assert NodeOk(s, g, n);
      assert ([n] + g.list)[1..] == g.list;
    case _ =>
  }

  // The node a step works on, if any.
  ghost function Target(s: State, t: nat, call: Call): Link
    requires t < |s.threads|
  {
    match s.threads[t]
    case Idle => if call.Add? then To(call.node) else Null
    case GetLoad => Null
    case pc => To(pc.node)
  }

  // A step leaves every node but its target alone.
  lemma Untouched(s: State, g: Ghost, t: nat, call: Call, n: Node)
    requires Inv(s, g) && Enabled(s, t, call) && n < |s.refs| && Target(s, t, call) != To(n)
    ensures var s', g' := Step(s, t, call), StepGhost(s, g, t, call);
            && s'.refs[n] == s.refs[n] && g'.status[n] == g.status[n]
            && (n in s'.outside <==> n in s.outside)
            && (n in g'.list <==> n in g.list)
            && s'.threads == s.threads[t := s'.threads[t]]
            && Held(n)(s.threads[t]) == Held(n)(s'.threads[t]) == 0
  {
    assert ThreadOk(s, g, t);
    assert g.list != [] ==> g.list == [g.list[0]] + g.list[1..];
  }

  lemma OtherNodesPreserved(s: State, g: Ghost, t: nat, call: Call, n: Node)
    requires Inv(s, g) && Enabled(s, t, call) && n < |s.refs| && Target(s, t, call) != To(n)
    ensures NodeOk(Step(s, t, call), StepGhost(s, g, t, call), n)
  {
    Untouched(s, g, t, call, n);
    SumUpdate(s.threads, t, Step(s, t, call).threads[t], Held(n));
    assert NodeOk(s, g, n);
  }

  lemma TargetAdd(s: State, g: Ghost, t: nat, call: Call, n: Node)
    requires Inv(s, g) && Enabled(s, t, call) && n < |s.refs| && Target(s, t, call) == To(n)
    requires s.threads[t].Idle? || s.threads[t].AddFetch?
    ensures NodeOk(Step(s, t, call), StepGhost(s, g, t, call), n)
  {
    var s' := Step(s, t, call);
    SumUpdate(s.threads, t, s'.threads[t], Held(n));
    HeldBounds(s, n);
    assert NodeOk(s, g, n) && ThreadOk(s, g, t);
  }

  lemma TargetPush(s: State, g: Ghost, t: nat, call: Call, n: Node)
    requires Inv(s, g) && Enabled(s, t, call) && n < |s.refs| && Target(s, t, call) == To(n)
    requires s.threads[t].PushLoad? || s.threads[t].PushNext? || s.threads[t].PushRefs? || s.threads[t].GetRefs?
    ensures NodeOk(Step(s, t, call), StepGhost(s, g, t, call), n)
  {
    var s' := Step(s, t, call);
    SumUpdate(s.threads, t, s'.threads[t], Held(n));
    HeldBounds(s, n);
    assert NodeOk(s, g, n) && ThreadOk(s, g, t);
  }

  lemma TargetPushCas(s: State, g: Ghost, t: nat, call: Call, n: Node)
    requires Inv(s, g) && Enabled(s, t, call) && n < |s.refs| && Target(s, t, call) == To(n)
    requires s.threads[t].PushCas?
    ensures NodeOk(Step(s, t, call), StepGhost(s, g, t, call), n)
  {
    var s' := Step(s, t, call);
    SumUpdate(s.threads, t, s'.threads[t], Held(n));
    HeldBounds(s, n);
    assert NodeOk(s, g, n) && ThreadOk(s, g, t);
  }

  lemma TargetPushUndo(s: State, g: Ghost, t: nat, call: Call, n: Node)
    requires Inv(s, g) && Enabled(s, t, call) && n < |s.refs| && Target(s, t, call) == To(n)
    requires s.threads[t].PushUndo?
    ensures NodeOk(Step(s, t, call), StepGhost(s, g, t, call), n)
  {
    var s' := Step(s, t, call);
    SumUpdate(s.threads, t, s'.threads[t], Held(n));
    HeldBounds(s, n);
    assert NodeOk(s, g, n) && ThreadOk(s, g, t);
    HolderFacts(s, g, t, n);
  }

  lemma TargetAcquire(s: State, g: Ghost, t: nat, call: Call, n: Node)
    requires Inv(s, g) && Enabled(s, t, call) && n < |s.refs| && Target(s, t, call) == To(n)
    requires s.threads[t].GetAcquire?
    ensures NodeOk(Step(s, t, call), StepGhost(s, g, t, call), n)
  {
    hide Sum;
    var s' := Step(s, t, call);
    SumUpdate(s.threads, t, s'.threads[t], Held(n));
    HeldBounds(s, n);
    assert NodeOk(s, g, n) && ThreadOk(s, g, t);
    assert (s.refs[n] + 1) % WORD == s.refs[n] + 1;
  }

  lemma TargetTake(s: State, g: Ghost, t: nat, call: Call, n: Node)
    requires Inv(s, g) && Enabled(s, t, call) && n < |s.refs| && Target(s, t, call) == To(n)
    requires s.threads[t].GetNext? || s.threads[t].GetCas?
    ensures NodeOk(Step(s, t, call), StepGhost(s, g, t, call), n)
  {
    var s' := Step(s, t, call);
    SumUpdate(s.threads, t, s'.threads[t], Held(n));
    HeldBounds(s, n);
    assert NodeOk(s, g, n) && ThreadOk(s, g, t);
    HolderFacts(s, g, t, n);
  }

  lemma TargetTaken(s: State, g: Ghost, t: nat, call: Call, n: Node)
    requires Inv(s, g) && Enabled(s, t, call) && n < |s.refs| && Target(s, t, call) == To(n)
    requires s.threads[t].GetTaken?
    ensures NodeOk(Step(s, t, call), StepGhost(s, g, t, call), n)
  {
    var s' := Step(s, t, call);
    SumUpdate(s.threads, t, s'.threads[t], Held(n));
    HeldBounds(s, n);
    assert NodeOk(s, g, n) && ThreadOk(s, g, t);
    HolderFacts(s, g, t, n);
    assert (s.refs[n] + WORD - 2) % WORD == s.refs[n] - 2;
  }

  lemma TargetRelease(s: State, g: Ghost, t: nat, call: Call, n: Node)
    requires Inv(s, g) && Enabled(s, t, call) && n < |s.refs| && Target(s, t, call) == To(n)
    requires s.threads[t].GetRelease?
    ensures NodeOk(Step(s, t, call), StepGhost(s, g, t, call), n)
  {
    var s' := Step(s, t, call);
    SumUpdate(s.threads, t, s'.threads[t], Held(n));
    HeldBounds(s, n);
    assert NodeOk(s, g, n) && ThreadOk(s, g, t);
    HolderFacts(s, g, t, n);
    assert (s.refs[n] + WORD - 1) % WORD == s.refs[n] - 1;
  }

  lemma TargetPreserved(s: State, g: Ghost, t: nat, call: Call, n: Node)
    requires Inv(s, g) && Enabled(s, t, call) && n < |s.refs| && Target(s, t, call) == To(n)
    ensures NodeOk(Step(s, t, call), StepGhost(s, g, t, call), n)
  {
    var pc := s.threads[t];
    if pc.Idle? || pc.AddFetch? {
      TargetAdd(s, g, t, call, n);
    } else if pc.PushCas? {
      TargetPushCas(s, g, t, call, n);
    } else if pc.PushUndo? {
      TargetPushUndo(s, g, t, call, n);
    } else if pc.GetAcquire? {
      TargetAcquire(s, g, t, call, n);
    } else if pc.GetNext? || pc.GetCas? {
      TargetTake(s, g, t, call, n);
    } else if pc.GetTaken? {
      TargetTaken(s, g, t, call, n);
    } else if pc.GetRelease? {
      TargetRelease(s, g, t, call, n);
    } else {
      TargetPush(s, g, t, call, n);
    }
  }

  // What a step may disturb: only a push rewrites a next pointer, and nobody's claim is taken away.
  lemma Effects(s: State, g: Ghost, t: nat, call: Call)
    requires Inv(s, g) && Enabled(s, t, call)
    ensures var s', g' := Step(s, t, call), StepGhost(s, g, t, call);
            forall m | 0 <= m < |s.refs| ::
              && (g'.status[m] != g.status[m] ==> !Claimed(g.status[m]) || g.status[m].tid == t)
              && (s'.next[m] != s.next[m] ==> s.threads[t].PushNext? && s.threads[t].node == m)
  {
    assert ThreadOk(s, g, t);
    match s.threads[t]
    case Idle =>
      if call.Add? { assert NodeOk(s, g, call.node); }
    case GetRelease(n, h) =>
      HolderFacts(s, g, t, n);
    case GetCas(n, next) =>
      if g.list != [] { assert g.list[0] in g.list && NodeOk(s, g, g.list[0]); }
    case _ =>
  }

  lemma OtherThreadPreserved(s: State, g: Ghost, t: nat, call: Call, u: nat)
    requires Inv(s, g) && Enabled(s, t, call) && u < |s.threads| && u != t
    ensures ThreadOk(Step(s, t, call), StepGhost(s, g, t, call), u)
  {
    Effects(s, g, t, call);
    assert ThreadOk(s, g, t) && ThreadOk(s, g, u);
    var pc := s.threads[u];
    assert Step(s, t, call).threads[u] == pc;
    if pc.GetCas? {
      HolderFacts(s, g, u, pc.node);
    }
  }

  lemma OwnPushPreserved(s: State, g: Ghost, t: nat, call: Call)
    requires Inv(s, g) && Enabled(s, t, call)
    requires var pc := s.threads[t];
             pc.Idle? || pc.AddFetch? || pc.PushLoad? || pc.PushNext? || pc.PushRefs? || pc.PushCas? || pc.PushUndo?
    ensures ThreadOk(Step(s, t, call), StepGhost(s, g, t, call), t)
  {
    assert ThreadOk(s, g, t);
    assert s.head.To? ==> s.head.node == g.list[0];
  }

  lemma OwnGetPreserved(s: State, g: Ghost, t: nat, call: Call)
    requires Inv(s, g) && Enabled(s, t, call)
    requires var pc := s.threads[t];
             pc.GetLoad? || pc.GetNext? || pc.GetCas? || pc.GetTaken? || pc.GetRelease?
    ensures ThreadOk(Step(s, t, call), StepGhost(s, g, t, call), t)
  {
    assert ThreadOk(s, g, t);
    assert s.head.To? ==> s.head.node == g.list[0];
  }

  lemma OwnAcquirePreserved(s: State, g: Ghost, t: nat, call: Call)
    requires Inv(s, g) && Enabled(s, t, call) && (s.threads[t].GetRefs? || s.threads[t].GetAcquire?)
    ensures ThreadOk(Step(s, t, call), StepGhost(s, g, t, call), t)
  {
    assert ThreadOk(s, g, t);
    HeldBounds(s, s.threads[t].node);
    assert NodeOk(s, g, s.threads[t].node);
  }

  lemma OwnThreadPreserved(s: State, g: Ghost, t: nat, call: Call)
    requires Inv(s, g) && Enabled(s, t, call)
    ensures ThreadOk(Step(s, t, call), StepGhost(s, g, t, call), t)
  {
    var pc := s.threads[t];
    if pc.GetRefs? || pc.GetAcquire? {
      OwnAcquirePreserved(s, g, t, call);
    } else if pc.GetLoad? || pc.GetNext? || pc.GetCas? || pc.GetTaken? || pc.GetRelease? {
      OwnGetPreserved(s, g, t, call);
    } else {
      OwnPushPreserved(s, g, t, call);
    }
  }

  lemma LinksPreserved(s: State, g: Ghost, t: nat, call: Call)
    requires Inv(s, g) && Enabled(s, t, call)
    ensures forall n | 0 <= n < |s.refs| :: ValidLink(s, Step(s, t, call).next[n])
    ensures forall n <- Step(s, t, call).outside :: n < |s.refs|
  {
    assert ThreadOk(s, g, t);
  }

  lemma StepPreservesInv(s: State, g: Ghost, t: nat, call: Call)
    requires Inv(s, g) && Enabled(s, t, call)
    ensures Inv(Step(s, t, call), StepGhost(s, g, t, call))
  {
    var s', g' := Step(s, t, call), StepGhost(s, g, t, call);
    ListPreserved(s, g, t, call);
    LinksPreserved(s, g, t, call);
    forall n | 0 <= n < |s.refs| ensures NodeOk(s', g', n) {
      if Target(s, t, call) == To(n) {
        TargetPreserved(s, g, t, call, n);
      } else {
        OtherNodesPreserved(s, g, t, call, n);
      }
    }
    forall u | 0 <= u < |s.threads| ensures ThreadOk(s', g', u) {
      if u == t {
        OwnThreadPreserved(s, g, t, call);
      } else {
        OtherThreadPreserved(s, g, t, call, u);
      }
    }
  }

  // ---------------------------------------------------------------- every run

  ghost predicate Next(s: State, s': State) {
    exists t: nat, call: Call :: Enabled(s, t, call) && s' == Step(s, t, call)
  }

  ghost predicate Run(run: seq<State>) {
    && run != [] && Init(run[0])
    && forall i | 0 < i < |run| :: Next(run[i - 1], run[i])
  }

  ghost predicate Reachable(s: State) {
    exists run :: Run(run) && run[|run| - 1] == s
  }

  lemma {:induction false} RunInv(run: seq<State>) returns (g: Ghost)
    requires Run(run)
    ensures Inv(run[|run| - 1], g)
  {
    var last := run[|run| - 1];
    if |run| == 1 {
      g := Ghost(seq(|last.refs|, _ => Outside), []);
      forall n | 0 <= n < |last.refs| ensures NodeOk(last, g, n) {
        SumZero(last.threads, Held(n));
      }
    } else {
      var prev := run[..|run| - 1];
      var g0 := RunInv(prev);
      var s := prev[|prev| - 1];
      assert Next(s, last);
      var t: nat, call: Call :| Enabled(s, t, call) && last == Step(s, t, call);
      StepPreservesInv(s, g0, t, call);
      g := StepGhost(s, g0, t, call);
    }
  }

  lemma ReachableInv(s: State) returns (g: Ghost)
    requires Reachable(s)
    ensures Inv(s, g)
  {
    var run :| Run(run) && run[|run| - 1] == s;
    g := RunInv(run);
  }

  ghost predicate Quiescent(s: State) { forall pc <- s.threads :: pc.Idle? }

  // The head always leads through a finite, duplicate-free chain, disjoint from the clients' nodes. When no
  // operation is under way that chain holds exactly the nodes that were added and not taken since.
  lemma NothingLost(s: State) returns (list: seq<Node>)
    requires Reachable(s)
    ensures IsList(s.head, s.next, list)
    ensures forall n <- list :: n !in s.outside
    ensures Quiescent(s) ==> forall n | 0 <= n < |s.refs| :: n in list <==> n !in s.outside
  {
    var g := ReachableInv(s);
    list := g.list;
    ListInRange(s.head, s.next, list);
    assert forall n <- list :: NodeOk(s, g, n);
    if Quiescent(s) {
      forall n | 0 <= n < |s.refs| ensures n in list <==> n !in s.outside {
        SumZero(s.threads, Held(n));
        assert NodeOk(s, g, n);
      }
    }
  }

  lemma {:induction false} ListInRange(head: Link, next: seq<Link>, list: seq<Node>)
    requires IsList(head, next, list)
    ensures forall n <- list :: n < |next|
    decreases list
  {
    if list != [] {
      ListInRange(next[list[0]], next, list[1..]);
      assert list == [list[0]] + list[1..];
    }
  }

  // A node that try_get is about to return has no owner: no client holds it, no other thread is
  // returning it, adding it or pushing it, and its flag bit is clear (the assertion in try_get).
  lemma TakenOnce(s: State, t: nat)
    requires Reachable(s) && t < |s.threads| && s.threads[t].GetTaken?
    ensures s.threads[t].node < |s.refs| && s.refs[s.threads[t].node] < SHOULD_BE_ON_FREELIST
    ensures s.threads[t].node !in s.outside
    ensures forall u | 0 <= u < |s.threads| && u != t && Claimed(Claim(s.threads[u], u)) ::
              s.threads[u].node != s.threads[t].node
  {
    var g := ReachableInv(s);
    assert ThreadOk(s, g, t);
    HolderFacts(s, g, t, s.threads[t].node);
    assert NodeOk(s, g, s.threads[t].node);
    forall u | 0 <= u < |s.threads| && u != t && Claimed(Claim(s.threads[u], u))
      ensures s.threads[u].node != s.threads[t].node
    {
      assert ThreadOk(s, g, u);
    }
  }

  // No ABA: while any thread holds a reference to a node, no step of any thread changes its next pointer...
  lemma NextIsFrozen(s: State, t: nat, call: Call, u: nat, n: Node)
    requires Reachable(s) && Enabled(s, t, call) && u < |s.threads| && n < |s.next|
    requires Held(n)(s.threads[u]) > 0
    ensures Step(s, t, call).next[n] == s.next[n]
  {
    var g := ReachableInv(s);
    Frozen(s, g, t, call, u, n);
  }

  lemma Frozen(s: State, g: Ghost, t: nat, call: Call, u: nat, n: Node)
    requires Inv(s, g) && Enabled(s, t, call) && u < |s.threads| && n < |s.next|
    requires Held(n)(s.threads[u]) > 0
    ensures Step(s, t, call).next[n] == s.next[n]
  {
    HolderFacts(s, g, u, n);
    assert ThreadOk(s, g, t);
  }

  // ... so the compare-and-swap of try_get, when it succeeds, removes exactly the head of the list.
  lemma PopRemovesHead(s: State, t: nat, call: Call, list: seq<Node>)
    requires Reachable(s) && Enabled(s, t, call) && IsList(s.head, s.next, list)
    requires s.threads[t].GetCas? && s.head == To(s.threads[t].node)
    ensures list != [] && list[0] == s.threads[t].node
    ensures var s' := Step(s, t, call); IsList(s'.head, s'.next, list[1..])
  {
    var g := ReachableInv(s);
    assert ThreadOk(s, g, t);
  }

  // The 32-bit word counts the list's reference and the threads' references, and never overflows into
  // the flag; the flag is set only on nodes that are neither listed nor a client's.
  lemma WordIsReferences(s: State, n: Node, list: seq<Node>)
    requires Reachable(s) && n < |s.refs| && IsList(s.head, s.next, list)
    ensures Count(s.refs[n]) == Sum(s.threads, Held(n)) + (if n in list then 1 else 0)
    ensures s.refs[n] == Count(s.refs[n]) || s.refs[n] == SHOULD_BE_ON_FREELIST + Count(s.refs[n])
    ensures s.refs[n] >= SHOULD_BE_ON_FREELIST ==> n !in list && n !in s.outside
  {
    hide Reachable, IsList, NodeOk, ThreadOk;
    var g := ReachableInv(s);
    ListUnique(s.head, s.next, list, g.list);
    HeldBounds(s, n);
    WordOf(s, g, n);
    CountOf(Sum(s.threads, Held(n)) + if n in list then 1 else 0);
  }

  lemma WordOf(s: State, g: Ghost, n: Node)
    requires Inv(s, g) && n < |s.refs|
    ensures var count := Sum(s.threads, Held(n)) + if n in g.list then 1 else 0;
            s.refs[n] == count || (s.refs[n] == SHOULD_BE_ON_FREELIST + count && n !in g.list && n !in s.outside)
  {
    assert NodeOk(s, g, n);
  }

  lemma CountOf(count: nat)
    requires count < SHOULD_BE_ON_FREELIST
    ensures Count(count) == count && Count(count + SHOULD_BE_ON_FREELIST) == count
  {
  }

  lemma {:induction false} ListUnique(head: Link, next: seq<Link>, a: seq<Node>, b: seq<Node>)
    requires IsList(head, next, a) && IsList(head, next, b)
    ensures a == b
    decreases a
  {
    if a != [] {
      ListUnique(next[a[0]], next, a[1..], b[1..]);
      assert a == [a[0]] + a[1..] && b == [b[0]] + b[1..];
    }
  }

  // ---------------------------------------------------------------- what try_get answers

  // `empty` says of each thread whether the list was empty when it last loaded the head, `misses` the same of each
  // try_get that ended without a node.
  datatype History = History(empty: seq<bool>, misses: seq<bool>)

  predicate InGet(pc: Pc) {
    match pc
    case Idle => false
    case AddFetch(_) => false
    case PushLoad(_, ret) => ret.Retry?
    case PushNext(_, _, ret) => ret.Retry?
    case PushRefs(_, _, ret) => ret.Retry?
    case PushCas(_, _, ret) => ret.Retry?
    case PushUndo(_, _, ret) => ret.Retry?
    case _ => true
  }

  function Record(s: State, h: History, t: nat, call: Call): (h': History)
    requires Enabled(s, t, call) && |h.empty| == |s.threads|
    ensures |h'.empty| == |h.empty|
  {
    var pc := s.threads[t];
    var loads := pc.GetLoad? || (pc.GetCas? && s.head != To(pc.node));
    var empty := if loads then h.empty[t := s.head.Null?] else h.empty;
    var missed := InGet(pc) && !pc.GetTaken? && Step(s, t, call).threads[t].Idle?;
    History(empty, if missed then h.misses + [empty[t]] else h.misses)
  }

  ghost predicate RecordedNext(s: State, h: History, s': State, h': History) {
    |h.empty| == |s.threads| && exists t: nat, call: Call :: Enabled(s, t, call) && s' == Step(s, t, call) && h' == Record(s, h, t, call)
  }

  ghost predicate RecordedRun(run: seq<(State, History)>) {
    && run != [] && Init(run[0].0) && |run[0].1.empty| == |run[0].0.threads| && run[0].1.misses == []
    && forall i | 0 < i < |run| :: RecordedNext(run[i - 1].0, run[i - 1].1, run[i].0, run[i].1)
  }

  // An empty list that a thread still has to act on was loaded as such.
  ghost predicate SawEmpty(pc: Pc, empty: bool) {
    match pc
    case PushLoad(_, ret) => ret == Retry(Null) ==> empty
    case PushNext(_, _, ret) => ret == Retry(Null) ==> empty
    case PushRefs(_, _, ret) => ret == Retry(Null) ==> empty
    case PushCas(_, _, ret) => ret == Retry(Null) ==> empty
    case PushUndo(_, _, ret) => ret == Retry(Null) ==> empty
    case GetRelease(_, head) => head.Null? ==> empty
    case _ => true
  }

  ghost predicate AllEmpty(h: History) { forall empty <- h.misses :: empty }

  ghost predicate HistoryOk(s: State, h: History) {
    && |h.empty| == |s.threads| && (forall t | 0 <= t < |s.threads| :: SawEmpty(s.threads[t], h.empty[t]))
    && AllEmpty(h)
  }

  lemma RecordOk(s: State, h: History, t: nat, call: Call)
    requires HistoryOk(s, h) && Enabled(s, t, call)
    ensures HistoryOk(Step(s, t, call), Record(s, h, t, call))
  {
    var s', h' := Step(s, t, call), Record(s, h, t, call);
    assert SawEmpty(s.threads[t], h.empty[t]);
    assert SawEmpty(s'.threads[t], h'.empty[t]);
    forall u | 0 <= u < |s'.threads| && u != t ensures SawEmpty(s'.threads[u], h'.empty[u]) {
      assert SawEmpty(s.threads[u], h.empty[u]);
      assert s'.threads[u] == s.threads[u] && h'.empty[u] == h.empty[u];
    }
  }

  // Every try_get that came back without a node had found the list empty when it last loaded the head, whatever the
  // other threads did.
  lemma {:induction false} MissesWereEmpty(run: seq<(State, History)>)
    requires RecordedRun(run)
    ensures AllEmpty(run[|run| - 1].1)
    ensures HistoryOk(run[|run| - 1].0, run[|run| - 1].1)
  {
    hide Step, Record, Enabled;
    if |run| > 1 {
      var prev := run[..|run| - 1];
      MissesWereEmpty(prev);
      var (s, h) := prev[|prev| - 1];
      var (s', h') := run[|run| - 1];
      assert RecordedNext(s, h, s', h');
      var t: nat, call: Call :| Enabled(s, t, call) && s' == Step(s, t, call) && h' == Record(s, h, t, call);
      RecordOk(s, h, t, call);
    } else {
      forall t | 0 <= t < |run[0].0.threads| ensures SawEmpty(run[0].0.threads[t], run[0].1.empty[t]) {
        assert run[0].0.threads[t] in run[0].0.threads;
      }
    }
  }

  // A thread that runs alone.
  ghost predicate Alone(s: State, t: nat, call: Call, n: nat, s': State)
    decreases n
  {
    if n == 0 then s' == s else Enabled(s, t, call) && Alone(Step(s, t, call), t, call, n - 1, s')
  }

  // With nobody else at work try_get hands out the first node of the list, if there is one.
  lemma LoneGet(s: State, t: nat, list: seq<Node>) returns (s': State)
    requires Reachable(s) && Quiescent(s) && t < |s.threads| && IsList(s.head, s.next, list)
    ensures Alone(s, t, TryGet, if list == [] then 2 else 7, s') && s'.threads == s.threads
    ensures if list == [] then s' == s else s'.outside == s.outside + {list[0]} && IsList(s'.head, s'.next, list[1..])
  {
    hide Reachable, Alone;
    QuiescentSizes(s);
    assert s.threads[t] in s.threads;
    ListHead(s.head, s.next, list);
    if list == [] {
      s' := LoneMiss(s, t);
    } else {
      WordIsReferences(s, list[0], list);
      SumZero(s.threads, Held(list[0]));
      s' := LoneHit(s, t, list[0]);
    }
  }

  lemma ListHead(head: Link, next: seq<Link>, list: seq<Node>)
    requires IsList(head, next, list)
    ensures if list == [] then head.Null?
            else head == To(list[0]) && list[0] < |next| && list[0] in list && IsList(next[list[0]], next, list[1..])
  {
  }

  lemma QuiescentSizes(s: State)
    requires Reachable(s) && Quiescent(s)
    ensures |s.refs| == |s.next| && forall n <- s.outside :: n < |s.refs| && s.refs[n] == 0
  {
    var g := ReachableInv(s);
    forall n <- s.outside ensures n < |s.refs| && s.refs[n] == 0 {
      assert NodeOk(s, g, n);
      SumZero(s.threads, Held(n));
    }
  }

  // With nobody else at work add puts the node in front of the list.
  lemma LoneAdd(s: State, t: nat, n: Node, list: seq<Node>) returns (s': State)
    requires Reachable(s) && Quiescent(s) && t < |s.threads| && n in s.outside && IsList(s.head, s.next, list)
    ensures Alone(s, t, Add(n), 6, s') && s'.threads == s.threads
    ensures s'.outside == s.outside - {n} && IsList(s'.head, s'.next, [n] + list)
  {
    hide Reachable, Alone;
    QuiescentSizes(s);
    assert s.threads[t] in s.threads;
    var a := NothingLost(s);
    ListUnique(s.head, s.next, a, list);
    s' := LonePush(s, t, n);
    ListRelink(s.head, s.next, list, n, s.head);
    assert ([n] + list)[1..] == list;
  }

  lemma LonePush(s: State, t: nat, n: Node) returns (s': State)
    requires t < |s.threads| && |s.refs| == |s.next| && s.threads[t].Idle? && n in s.outside && n < |s.refs| && s.refs[n] == 0
    ensures Alone(s, t, Add(n), 6, s') && s'.threads == s.threads
    ensures s'.outside == s.outside - {n} && s'.head == To(n) && s'.next == s.next[n := s.head]
  {
    hide Alone;
    var out := s.(outside := s.outside - {n});
    var s1 := out.At(t, AddFetch(n));
    var s2 := out.(refs := s.refs[n := SHOULD_BE_ON_FREELIST]).At(t, PushLoad(n, Done));
    var s3 := out.(refs := s.refs[n := SHOULD_BE_ON_FREELIST]).At(t, PushNext(n, s.head, Done));
    var s4 := s3.(next := s.next[n := s.head]).At(t, PushRefs(n, s.head, Done));
    var s5 := s4.(refs := s.refs[n := 1]).At(t, PushCas(n, s.head, Done));
    s' := Step(s5, t, Add(n));
    assert Step(s, t, Add(n)) == s1;
    assert Step(s1, t, Add(n)) == s2;
    assert Step(s2, t, Add(n)) == s3;
    assert Step(s3, t, Add(n)) == s4;
    assert Step(s4, t, Add(n)) == s5;
    assert s'.threads == s.threads;
    AloneOne(s5, t, Add(n), s');
    AloneMore(s4, t, Add(n), 1, s');
    AloneMore(s3, t, Add(n), 2, s');
    AloneMore(s2, t, Add(n), 3, s');
    AloneMore(s1, t, Add(n), 4, s');
    AloneMore(s, t, Add(n), 5, s');
  }

  lemma LoneMiss(s: State, t: nat) returns (s': State)
    requires t < |s.threads| && |s.refs| == |s.next| && s.threads[t].Idle? && s.head.Null?
    ensures Alone(s, t, TryGet, 2, s') && s' == s
  {
    var s1 := Step(s, t, TryGet);
    s' := Step(s1, t, TryGet);
    assert s'.threads == s.threads;
    AloneOne(s1, t, TryGet, s');
    AloneMore(s, t, TryGet, 1, s');
  }

  lemma AloneOne(s: State, t: nat, call: Call, s': State)
    requires Enabled(s, t, call) && s' == Step(s, t, call)
    ensures Alone(s, t, call, 1, s')
  {
    assert Alone(s', t, call, 0, s');
  }

  lemma AloneMore(s: State, t: nat, call: Call, n: nat, s': State)
    requires Enabled(s, t, call) && Alone(Step(s, t, call), t, call, n, s')
    ensures Alone(s, t, call, n + 1, s')
  {
  }

  lemma LoneHit(s: State, t: nat, n: Node) returns (s': State)
    requires t < |s.threads| && |s.refs| == |s.next| && s.threads[t].Idle? && s.head == To(n) && n < |s.refs| && s.refs[n] == 1
    ensures Alone(s, t, TryGet, 7, s') && s'.threads == s.threads
    ensures s'.outside == s.outside + {n} && s'.head == s.next[n] && s'.next == s.next
  {
    hide Alone;
    var s1 := s.At(t, GetLoad);
    var s2 := s.At(t, GetRefs(n));
    var s3 := s.At(t, GetAcquire(n, 1));
    var s4 := s.(refs := s.refs[n := 2]).At(t, GetNext(n));
    var s5 := s.(refs := s.refs[n := 2]).At(t, GetCas(n, s.next[n]));
    var s6 := s.(refs := s.refs[n := 2], head := s.next[n]).At(t, GetTaken(n));
    s' := Step(s6, t, TryGet);
    LoneSteps(s, t, n);
    assert s'.threads == s.threads;
    AloneOne(s6, t, TryGet, s');
    AloneMore(s5, t, TryGet, 1, s');
    AloneMore(s4, t, TryGet, 2, s');
    AloneMore(s3, t, TryGet, 3, s');
    AloneMore(s2, t, TryGet, 4, s');
    AloneMore(s1, t, TryGet, 5, s');
    AloneMore(s, t, TryGet, 6, s');
  }

  lemma LoneSteps(s: State, t: nat, n: Node)
    requires t < |s.threads| && |s.refs| == |s.next| && s.threads[t].Idle? && s.head == To(n) && n < |s.refs| && s.refs[n] == 1
    ensures Enabled(s, t, TryGet) && Step(s, t, TryGet) == s.At(t, GetLoad)
    ensures var s1 := s.At(t, GetLoad); Enabled(s1, t, TryGet) && Step(s1, t, TryGet) == s.At(t, GetRefs(n))
    ensures var s2 := s.At(t, GetRefs(n)); Enabled(s2, t, TryGet) && Step(s2, t, TryGet) == s.At(t, GetAcquire(n, 1))
    ensures var s3 := s.At(t, GetAcquire(n, 1));
            Enabled(s3, t, TryGet) && Step(s3, t, TryGet) == s.(refs := s.refs[n := 2]).At(t, GetNext(n))
    ensures var s4 := s.(refs := s.refs[n := 2]).At(t, GetNext(n));
            Enabled(s4, t, TryGet) && Step(s4, t, TryGet) == s.(refs := s.refs[n := 2]).At(t, GetCas(n, s.next[n]))
    ensures var s5 := s.(refs := s.refs[n := 2]).At(t, GetCas(n, s.next[n]));
            Enabled(s5, t, TryGet) && Step(s5, t, TryGet) == s.(refs := s.refs[n := 2], head := s.next[n]).At(t, GetTaken(n))
    ensures Enabled(s.(refs := s.refs[n := 2], head := s.next[n]).At(t, GetTaken(n)), t, TryGet)
  {
  }

  // No thread ever waits for another one: each step takes its operation on.
  lemma NobodyWaits(s: State, t: nat, call: Call)
    requires Enabled(s, t, call)
    ensures Step(s, t, call).threads[t] != s.threads[t]
  {
  }
}

// How a consumer of the implicit producer finds its block while the producer goes on: the loads of a lookup and the
// stores of the producer as interleaved steps. The producer inserts keys, grows the ring, and when memory runs out
// takes back what it inserted, in the order of the source; any number of consumers look up and empty blocks.
// Sequence positions stand for the pointers to rings and entries.
module ImplicitReads {
  import opened Options
  import opened Positions
  import BlockIndex

  type Entry = BlockIndex.Entry

  datatype Header = Header(slots: seq<nat>, tail: nat)

  // `want` blocks are still to be begun, this one included; `id` is the entry that insert_block_index_entry found. Undo
  // takes back numbers n to end - 1.
  datatype Producer =
    | Idle
    | Insert(want: nat)
    | StoreKey(want: nat, id: nat)
    | StoreTail(want: nat, id: nat)
    | Requisition(want: nat, id: nat)
    | StoreValue(want: nat, id: nat, block: nat)
    | RewindTail(id: nat)
    | ClearValue(id: nat)
    | Undo(n: int, end: int)
    | UndoTail(n: int, end: int)
    | Publish

  datatype Consumer =
    | Away
    | LoadIndex(i: nat)
    | LoadTail(i: nat, g: nat)
    | LoadKey(i: nat, g: nat, tail: nat)
    | LoadValue(i: nat, g: nat, tail: nat, base: nat)
    | Found(i: nat, id: nat, block: Option<nat>)

  // The last header is the current one; its tail is at number m, and top is the highest number m ever was. Elements
  // of blocks below `published` may be claimed. `held` are the blocks that are indexed and not yet emptied.
  datatype State = State(
    size: BlockSize, arena: seq<Entry>, headers: seq<Header>, m: int, top: int, published: int,
    held: BlockIndex.Blocks, producer: Producer, consumers: seq<Consumer>)
  {
    function Stop(c: nat, pc: Consumer): State
      requires c < |consumers|
    {
      this.(consumers := consumers[c := pc])
    }

    predicate Indexed() {
      headers != [] && headers[|headers| - 1].slots != []
    }

    function Current(): Header
      requires headers != []
    {
      headers[|headers| - 1]
    }

    function SetTail(tail: nat): State
      requires headers != []
    {
      this.(headers := headers[|headers| - 1 := Current().(tail := tail)])
    }

    // The slot behind the tail.
    function NewTail(): nat
      requires Indexed()
    {
      (Current().tail + 1) % |Current().slots|
    }
  }

  // `luck` says whether an allocation succeeds, `garbage` what an uninitialised value is; `last` that the consumer's
  // element is the last of its block.
  datatype Event = Produce(want: nat, luck: bool, block: nat, garbage: Option<nat>) | Consume(c: nat, i: nat, last: bool)

  ghost predicate Enabled(s: State, e: Event) {
    match e
    case Produce(want, _, _, _) => s.producer.Idle? ==> want >= 1
    case Consume(c, i, last) =>
      && c < |s.consumers|
      && (s.consumers[c].Away? ==> (i / s.size) as int in s.held && i / s.size < s.published)
      && (s.consumers[c].Found? && last ==>
            forall d | 0 <= d < |s.consumers| && d != c && !s.consumers[d].Away? :: s.consumers[d].i / s.size != s.consumers[c].i / s.size)
  }

  // new_block_index: the old entries in order, oldest first, then new ones.
  function Grown(s: State, garbage: Option<nat>): State
    requires s.Indexed()
  {
    var h := s.Current();
    var n := |h.slots|;
    s.(arena := s.arena + seq(n, _ => BlockIndex.Entry(BlockIndex.INVALID_BLOCK_BASE, garbage)),
       headers := s.headers + [Header(seq(2 * n, k requires 0 <= k < 2 * n =>
                                            if k < n then h.slots[(h.tail + 1 + k) % n] else |s.arena| + k - n), n - 1)])
  }

  predicate FreeEntry(e: Entry) { e.key == BlockIndex.INVALID_BLOCK_BASE || e.value == None }

  function InsertStep(s: State, want: nat, luck: bool, garbage: Option<nat>): State {
    if !s.Indexed() then s
    else
      var id := s.Current().slots[s.NewTail()];
      if id < |s.arena| && FreeEntry(s.arena[id]) then s.(producer := StoreKey(want, id))
      else if luck then
        var s1 := Grown(s, garbage);
        s1.(producer := StoreKey(want, if s1.Indexed() then s1.Current().slots[s1.NewTail()] else 0))
      else s.(producer := Undo(s.published, s.m + 1))
  }

  function SetEntry(s: State, id: nat, key: nat, value: Option<nat>): State {
    if id < |s.arena| then s.(arena := s.arena[id := BlockIndex.Entry(key, value)]) else s
  }

  function KeyOf(s: State, id: nat): nat { if id < |s.arena| then s.arena[id].key else 0 }
  function ValueOf(s: State, id: nat): Option<nat> { if id < |s.arena| then s.arena[id].value else None }

  // The producer's own lookup of number n, which nobody disturbs.
  function EntryFor(s: State, n: int): nat
    requires s.Indexed()
  {
    var h := s.Current();
    h.slots[(h.tail + (n - s.m)) % |h.slots|]
  }

  function ProducerStep(s: State, want: nat, luck: bool, block: nat, garbage: Option<nat>): State {
    match s.producer
    case Idle => s.(producer := Insert(want))
    case Insert(n) => InsertStep(s, n, luck, garbage)
    case StoreKey(n, id) =>
      SetEntry(s, id, if s.m + 1 >= 0 then Base(s.m + 1, s.size) else 0, ValueOf(s, id)).(producer := StoreTail(n, id))
    case StoreTail(n, id) =>
      if s.Indexed() then
        s.SetTail(s.NewTail()).(m := s.m + 1, top := if s.m == s.top then s.m + 1 else s.top, producer := Requisition(n, id))
      else s
    case Requisition(n, id) => s.(producer := if luck then StoreValue(n, id, block) else RewindTail(id))
    case StoreValue(n, id, b) =>
      SetEntry(s, id, KeyOf(s, id), Some(b)).(held := s.held[s.m := b], producer := if n <= 1 then Publish else Insert(n - 1))
    case RewindTail(id) =>
      if s.Indexed() then s.SetTail((s.Current().tail - 1) % |s.Current().slots|).(m := s.m - 1, producer := ClearValue(id)) else s
    case ClearValue(id) => SetEntry(s, id, KeyOf(s, id), None).(producer := Undo(s.published, s.m + 1))
    case Undo(n, end) =>
      if n >= end || !s.Indexed() then s.(producer := Idle)
      else SetEntry(s, EntryFor(s, n), KeyOf(s, EntryFor(s, n)), None).(held := s.held - {n}, producer := UndoTail(n, end))
    case UndoTail(n, end) =>
      if s.Indexed() then s.SetTail((s.Current().tail - 1) % |s.Current().slots|).(m := s.m - 1, producer := Undo(n + 1, end)) else s
    case Publish => s.(published := s.m + 1, producer := Idle)
  }

  // The entry at an index's distance from the tail, whose key is `base`.
  function IdAt(slots: seq<nat>, tail: nat, base: nat, index: nat, size: BlockSize): nat
    requires slots != []
  {
    slots[(tail + (StartOf(index, size) - base) / size) % |slots|]
  }

  function ConsumerStep(s: State, c: nat, i: nat, last: bool): State
    requires c < |s.consumers|
  {
    match s.consumers[c]
    case Away => s.Stop(c, LoadIndex(i))
    case LoadIndex(j) => if s.headers != [] then s.Stop(c, LoadTail(j, |s.headers| - 1)) else s
    case LoadTail(j, g) => if g < |s.headers| then s.Stop(c, LoadKey(j, g, s.headers[g].tail)) else s
    case LoadKey(j, g, tail) =>
      if g < |s.headers| && tail < |s.headers[g].slots| then s.Stop(c, LoadValue(j, g, tail, KeyOf(s, s.headers[g].slots[tail]))) else s
    case LoadValue(j, g, tail, base) =>
      if g < |s.headers| && s.headers[g].slots != [] then
        var id := IdAt(s.headers[g].slots, tail, base, j, s.size);
        s.Stop(c, Found(j, id, ValueOf(s, id)))
      else s
    case Found(j, id, _) =>
      if last then SetEntry(s, id, KeyOf(s, id), None).(held := s.held - {(j / s.size) as int}).Stop(c, Away) else s.Stop(c, Away)
  }

  function Step(s: State, e: Event): State
    requires e.Consume? ==> e.c < |s.consumers|
  {
    match e
    case Produce(want, luck, block, garbage) => ProducerStep(s, want, luck, block, garbage)
    case Consume(c, i, last) => ConsumerStep(s, c, i, last)
  }

  // The constructor's ring, of unused entries.
  ghost predicate Init(s: State) {
    && |s.headers| == 1 && s.arena != [] && s.headers[0] == Header(seq(|s.arena|, k => k), |s.arena| - 1)
    && (forall e <- s.arena :: e.key == BlockIndex.INVALID_BLOCK_BASE)
    && s.m == s.top == -1 && s.published == 0 && s.held == map[] && s.producer.Idle? && forall pc <- s.consumers :: pc.Away?
  }

  // ---------------------------------------------------------------- invariant

  // The number whose entry is not settled yet.
  function Pending(s: State): Option<int> {
    match s.producer
    case StoreTail(_, _) => Some(s.m + 1)
    case Requisition(_, _) => Some(s.m)
    case StoreValue(_, _, _) => Some(s.m)
    case RewindTail(_) => Some(s.m)
    case ClearValue(_) => Some(s.m + 1)
    case _ => None
  }

  // Where a ring has the entries of numbers, and up to which.
  datatype View = View(shift: int, top: int)

  // The rings' views, the last one's being (shift, s.top), and the number from which on keys are in place.
  datatype Ghost = Ghost(views: seq<View>, lo: int)

  ghost function IdOf(h: Header, shift: int, n: int): nat
    requires h.slots != []
  {
    h.slots[SlotOf(n, shift, |h.slots|)]
  }

  // The entry of number n, `settled` unless it is being written.
  ghost predicate EntryOk(e: Entry, size: nat, n: int, lo: int, held: BlockIndex.Blocks, settled: bool) {
    && (n >= lo ==> n >= 0 && e.key == Base(n, size))
    && (if n in held then e.value == Some(held[n]) else settled ==> FreeEntry(e))
  }

  ghost predicate SlotsOk(h: Header, count: nat) {
    && h.slots != [] && h.tail < |h.slots|
    && (forall k | 0 <= k < |h.slots| :: h.slots[k] < count)
    && (forall k, l | 0 <= k < l < |h.slots| :: h.slots[k] != h.slots[l])
  }

  ghost predicate Settled(s: State, shift: int, n: int)
    requires s.Indexed()
  {
    var cap := |s.Current().slots|;
    Pending(s).Some? ==> SlotOf(n, shift, cap) != SlotOf(Pending(s).value, shift, cap)
  }

  ghost predicate NumberOk(s: State, shift: int, lo: int, n: int)
    requires s.Indexed()
  {
    var id := IdOf(s.Current(), shift, n);
    id < |s.arena| && EntryOk(s.arena[id], s.size, n, lo, s.held, Settled(s, shift, n))
  }

  ghost predicate CurrentOk(s: State, shift: int, lo: int) {
    && s.Indexed() && SlotsOk(s.Current(), |s.arena|)
    && var cap := |s.Current().slots|;
       && s.Current().tail == SlotOf(s.m, shift, cap)
       && (forall n | s.top - cap < n <= s.top :: NumberOk(s, shift, lo, n))
       && s.top - cap < lo <= s.top + 1 && lo >= 0 && (s.producer.StoreTail? && s.m == s.top ==> s.top + 1 - cap < lo)
  }

  // Numbers from `published` on that are held, and where m is between them.
  ghost predicate ProducerOk(s: State, shift: int)
    requires s.Indexed()
  {
    var id := if Pending(s).Some? then Some(IdOf(s.Current(), shift, Pending(s).value)) else None;
    && s.published - 1 <= s.m <= s.top && s.published >= 0
    && match s.producer
       case Idle => s.m == s.published - 1 && NewHeld(s, s.published, s.published)
       case Insert(want) => NewHeld(s, s.published, s.m + 1)
       case StoreKey(want, i) =>
         && NewHeld(s, s.published, s.m + 1) && i == IdOf(s.Current(), shift, s.m + 1)
         && (s.m == s.top ==> s.top + 1 - |s.Current().slots| !in s.held)
       case StoreTail(want, i) =>
         && NewHeld(s, s.published, s.m + 1) && id == Some(i) && i < |s.arena| && s.arena[i].key == Base(s.m + 1, s.size)
       case Requisition(want, i) => NewHeld(s, s.published, s.m) && id == Some(i) && s.m >= s.published
       case StoreValue(want, i, block) => NewHeld(s, s.published, s.m) && id == Some(i) && s.m >= s.published
       case RewindTail(i) => NewHeld(s, s.published, s.m) && id == Some(i) && s.m >= s.published
       case ClearValue(i) => NewHeld(s, s.published, s.m + 1) && id == Some(i) && s.m < s.top
       case Undo(n, end) => NewHeld(s, n, end) && s.published <= n <= end <= s.top + 1 && s.m == end - 1 - (n - s.published)
       case UndoTail(n, end) => NewHeld(s, n + 1, end) && s.published <= n < end <= s.top + 1 && s.m == end - 1 - (n - s.published)
       case Publish => NewHeld(s, s.published, s.m + 1)
  }

  ghost predicate NewHeld(s: State, from: int, to: int) {
    from <= to && forall n | n >= s.published :: n in s.held <==> from <= n < to
  }

  // An old ring has the entries of the numbers that matter where the current one has them.
  ghost predicate Linked(s: State, shift: int, lo: int, h: Header, v: View)
    requires s.Indexed()
  {
    && h.slots != [] && v.top <= s.top
    && forall n | lo <= n <= v.top :: IdOf(h, v.shift, n) == IdOf(s.Current(), shift, n)
  }

  ghost predicate HeadersOk(s: State, g: Ghost)
    requires s.Indexed()
  {
    && |g.views| == |s.headers| && g.views != []
    && g.views[|g.views| - 1].top == s.top
    && forall k | 0 <= k < |g.views| ::
         && Linked(s, g.views[|g.views| - 1].shift, g.lo, s.headers[k], g.views[k])
         && (k < |g.views| - 1 ==> s.headers[k].tail == SlotOf(g.views[k].top, g.views[k].shift, |s.headers[k].slots|))
  }

  // A tail that may be old, but is not behind the block looked for.
  ghost predicate Seen(v: View, capacity: nat, b: int, tail: nat, t: int) {
    b <= t <= v.top && capacity > 0 && tail == SlotOf(t, v.shift, capacity)
  }

  ghost predicate ConsumerOk(s: State, g: Ghost, pc: Consumer)
    requires s.Indexed()
  {
    pc.Away? ||
    var b := (pc.i / s.size) as int;
    && b in s.held && b < s.published && g.views != []
    && (pc.Found? ==> pc.id == IdOf(s.Current(), g.views[|g.views| - 1].shift, b) && pc.block == Some(s.held[b]))
    && (pc.LoadTail? || pc.LoadKey? || pc.LoadValue? ==>
          && pc.g < |g.views| == |s.headers| && b <= g.views[pc.g].top
          && (pc.LoadKey? ==> exists t: int :: Seen(g.views[pc.g], |s.headers[pc.g].slots|, b, pc.tail, t))
          && (pc.LoadValue? ==> exists t: nat :: Seen(g.views[pc.g], |s.headers[pc.g].slots|, b, pc.tail, t) && pc.base == Base(t, s.size)))
  }

  ghost predicate ConsumersOk(s: State, g: Ghost)
    requires s.Indexed()
  {
    forall c | 0 <= c < |s.consumers| :: ConsumerOk(s, g, s.consumers[c])
  }

  ghost predicate HeldOk(s: State, lo: int) { lo <= s.published && forall n <- s.held :: lo <= n <= s.top }

  ghost predicate Inv(s: State, g: Ghost) {
    && g.views != [] && CurrentOk(s, g.views[|g.views| - 1].shift, g.lo) && HeldOk(s, g.lo)
    && ProducerOk(s, g.views[|g.views| - 1].shift) && HeadersOk(s, g) && ConsumersOk(s, g)
  }

  ghost function Last(g: Ghost): View
    requires g.views != []
  {
    g.views[|g.views| - 1]
  }

  ghost function StepGhost(s: State, g: Ghost, e: Event): Ghost
    requires g.views != [] && s.Indexed() && (e.Consume? ==> e.c < |s.consumers|)
  {
    var s', cap := Step(s, e), |s.Current().slots|;
    if e.Consume? then g
    else if |s'.headers| > |s.headers| then g.(views := g.views + [View(cap - 1 - s.top, s.top)])
    else if s.producer.StoreKey? then g.(lo := if s.m == s.top && g.lo < s.top + 2 - cap then s.top + 2 - cap else g.lo)
    else g.(views := g.views[|g.views| - 1 := Last(g).(top := s'.top)])
  }

  // ---------------------------------------------------------------- entries

  lemma IdsDiffer(h: Header, count: nat, shift: int, n: int, k: int)
    requires SlotsOk(h, count) && n != k && n < k + |h.slots| && k < n + |h.slots|
    ensures IdOf(h, shift, n) != IdOf(h, shift, k) && SlotOf(n, shift, |h.slots|) != SlotOf(k, shift, |h.slots|)
  {
    if n < k { SlotsDiffer(n, k, shift, |h.slots|); } else { SlotsDiffer(k, n, shift, |h.slots|); }
  }

  lemma IdBelow(h: Header, count: nat, shift: int, n: int)
    requires SlotsOk(h, count)
    ensures IdOf(h, shift, n) < count
  {
  }

  lemma EvenBase(n: nat, size: BlockSize)
    ensures Base(n, size) != BlockIndex.INVALID_BLOCK_BASE
  {
    if n > 0 { BaseNext(n - 1, size); }
  }

  // The slot behind the tail is that of the next number.
  lemma NewTailAt(s: State, shift: int)
    requires s.Indexed() && s.Current().tail == SlotOf(s.m, shift, |s.Current().slots|)
    ensures s.NewTail() == SlotOf(s.m + 1, shift, |s.Current().slots|)
    ensures (s.Current().tail - 1) % |s.Current().slots| == SlotOf(s.m - 1, shift, |s.Current().slots|)
  {
    FromSlot(s.m, 1, shift, |s.Current().slots|);
    FromSlot(s.m, -1, shift, |s.Current().slots|);
  }

  // Another entry than those of the numbers from lo on is written.
  lemma NumbersKept(s: State, s': State, shift: int, lo: int, lo': int, id: nat, n0: int)
    requires CurrentOk(s, shift, lo) && s'.size == s.size && s'.Indexed() && s'.Current().slots == s.Current().slots
    requires s'.Current().tail == SlotOf(s'.m, shift, |s.Current().slots|) && |s'.arena| == |s.arena|
    requires s'.top == s.top && lo <= lo' <= s.top + 1
    requires s'.producer.StoreTail? && s'.m == s.top ==> s.top + 1 - |s.Current().slots| < lo'
    requires s.top - |s.Current().slots| < n0 <= s.top && id == IdOf(s.Current(), shift, n0)
    requires forall k | 0 <= k < |s.arena| && k != id :: s'.arena[k] == s.arena[k]
    requires forall n | n != n0 && n <= s.top :: (n in s'.held <==> n in s.held) && (n in s.held ==> s'.held[n] == s.held[n])
    requires forall n | n != n0 && s.top - |s.Current().slots| < n <= s.top ::
               Settled(s', shift, n) ==>
                 Settled(s, shift, n) || n in s.held || FreeEntry(s.arena[IdOf(s.Current(), shift, n)])
    requires EntryOk(s'.arena[id], s.size, n0, lo', s'.held, Settled(s', shift, n0))
    ensures CurrentOk(s', shift, lo')
  {
    forall n | s'.top - |s'.Current().slots| < n <= s'.top ensures NumberOk(s', shift, lo', n) {
      assert NumberOk(s, shift, lo, n);
      if n != n0 { IdsDiffer(s.Current(), |s.arena|, shift, n, n0); }
    }
  }

  // Nothing a consumer needs has changed.
  lemma ConsumersStay(s: State, g: Ghost, s': State, g': Ghost)
    requires s.Indexed() && s'.Indexed() && g.views != [] && g'.views != [] && ConsumersOk(s, g) && s'.consumers == s.consumers
    requires s'.size == s.size && s'.published >= s.published && |g.views| == |s.headers| <= |s'.headers| == |g'.views|
    requires forall n | n in s.held && n < s.published ::
               && n in s'.held && s'.held[n] == s.held[n]
               && IdOf(s'.Current(), Last(g').shift, n) == IdOf(s.Current(), Last(g).shift, n)
    requires forall k | 0 <= k < |g.views| ::
               g'.views[k].shift == g.views[k].shift && g'.views[k].top >= g.views[k].top && |s'.headers[k].slots| == |s.headers[k].slots|
    ensures ConsumersOk(s', g')
  {
    forall c | 0 <= c < |s'.consumers| ensures ConsumerOk(s', g', s'.consumers[c]) {
      ConsumerStays(s, g, s', g', s.consumers[c]);
    }
  }

  lemma ConsumerStays(s: State, g: Ghost, s': State, g': Ghost, pc: Consumer)
    requires s.Indexed() && s'.Indexed() && g.views != [] && g'.views != [] && ConsumerOk(s, g, pc)
    requires s'.size == s.size && s'.published >= s.published && |g.views| == |s.headers| <= |s'.headers| == |g'.views|
    requires !pc.Away? ==>
               var n := (pc.i / s.size) as int;
               && n in s'.held && n in s.held && s'.held[n] == s.held[n]
               && IdOf(s'.Current(), Last(g').shift, n) == IdOf(s.Current(), Last(g).shift, n)
    requires forall k | 0 <= k < |g.views| ::
               g'.views[k].shift == g.views[k].shift && g'.views[k].top >= g.views[k].top && |s'.headers[k].slots| == |s.headers[k].slots|
    ensures ConsumerOk(s', g', pc)
  {
    hide IdOf;
    if pc.LoadKey? {
      var t :| Seen(g.views[pc.g], |s.headers[pc.g].slots|, (pc.i / s.size) as int, pc.tail, t);
      assert Seen(g'.views[pc.g], |s'.headers[pc.g].slots|, (pc.i / s.size) as int, pc.tail, t);
    } else if pc.LoadValue? {
      var t: nat :| Seen(g.views[pc.g], |s.headers[pc.g].slots|, (pc.i / s.size) as int, pc.tail, t) && pc.base == Base(t, s.size);
      assert Seen(g'.views[pc.g], |s'.headers[pc.g].slots|, (pc.i / s.size) as int, pc.tail, t);
    }
  }

  // The rings as they were, with the current one's tail or what is known of it changed.
  lemma HeadersStay(s: State, g: Ghost, s': State, g': Ghost)
    requires s.Indexed() && s'.Indexed() && HeadersOk(s, g) && |s'.headers| == |s.headers| && |g'.views| == |g.views|
    requires forall k | 0 <= k < |s.headers| :: s'.headers[k].slots == s.headers[k].slots
    requires forall k | 0 <= k < |s.headers| - 1 :: s'.headers[k] == s.headers[k] && g'.views[k] == g.views[k]
    requires Last(g').shift == Last(g).shift && Last(g').top == s'.top >= s.top && g'.lo >= g.lo
    ensures HeadersOk(s', g')
  {
    var last := |g.views| - 1;
    forall k | 0 <= k <= last ensures Linked(s', Last(g').shift, g'.lo, s'.headers[k], g'.views[k]) {
      assert Linked(s, g.views[last].shift, g.lo, s.headers[k], g.views[k]);
    }
  }

  // ---------------------------------------------------------------- the producer's steps

  // Steps that only move the producer on.
  lemma MovePreserves(s: State, g: Ghost, e: Event)
    requires Inv(s, g) && Enabled(s, e) && e.Produce?
    requires s.producer.Idle? || s.producer.Requisition? || s.producer.Publish? || (s.producer.Undo? && s.producer.n >= s.producer.end)
    ensures Inv(Step(s, e), StepGhost(s, g, e))
  {
    hide IdOf, NumberOk, Linked, ConsumerOk;
    var s', g' := Step(s, e), StepGhost(s, g, e);
    assert g'.views == g.views && g' == g;
    forall n | s.top - |s.Current().slots| < n <= s.top ensures NumberOk(s', Last(g).shift, g.lo, n) {
      assert NumberOk(s, Last(g).shift, g.lo, n);
      SameNumber(s, s', Last(g).shift, g.lo, n);
    }
    HeadersStay(s, g, s', g');
    ConsumersStay(s, g, s', g');
  }

  lemma SameNumber(s: State, s': State, shift: int, lo: int, n: int)
    requires s.Indexed() && NumberOk(s, shift, lo, n)
    requires s' == s.(producer := s'.producer, published := s'.published) && (Pending(s').Some? ==> Pending(s') == Pending(s))
    requires Pending(s).Some? ==> Pending(s').Some?
    ensures NumberOk(s', shift, lo, n)
  {
  }

  lemma NumberAt(s: State, g: Ghost, n: int)
    requires Inv(s, g) && g.lo <= n <= s.top
    ensures s.Indexed() && NumberOk(s, Last(g).shift, g.lo, n) && s.top - |s.Current().slots| < n
    ensures IdOf(s.Current(), Last(g).shift, n) < |s.arena|
  {
    assert NumberOk(s, Last(g).shift, g.lo, n);
  }

  lemma InsertFreePreserves(s: State, g: Ghost, e: Event)
    requires Inv(s, g) && Enabled(s, e) && e.Produce? && s.producer.Insert?
    requires FreeEntry(s.arena[s.Current().slots[s.NewTail()]])
    ensures Inv(Step(s, e), StepGhost(s, g, e))
  {
    hide Linked, ConsumerOk;
    var s', g', shift := Step(s, e), StepGhost(s, g, e), Last(g).shift;
    var n0 := s.top + 1 - |s.Current().slots|;
    NewTailAt(s, shift);
    IdBelow(s.Current(), |s.arena|, shift, s.m + 1);
    if s.m == s.top && n0 in s.held {
      NumberAt(s, g, n0);
      SameSlot(n0, shift, |s.Current().slots|);
      EvenBase(n0, s.size);
    }
    StillSame(s, g, s', g');
  }

  // Nothing but the producer's place changes, and no entry is being written.
  lemma StillSame(s: State, g: Ghost, s': State, g': Ghost)
    requires Inv(s, g) && s' == s.(producer := s'.producer) && g' == g && Pending(s).None? && Pending(s').None?
    ensures CurrentOk(s', Last(g).shift, g.lo) && HeldOk(s', g.lo) && HeadersOk(s', g') && ConsumersOk(s', g')
  {
    hide IdOf, NumberOk, Linked, ConsumerOk;
    forall n | s.top - |s.Current().slots| < n <= s.top ensures NumberOk(s', Last(g).shift, g.lo, n) {
      assert NumberOk(s, Last(g).shift, g.lo, n);
      SameNumber(s, s', Last(g).shift, g.lo, n);
    }
    HeadersStay(s, g, s', g');
    ConsumersStay(s, g, s', g');
  }

  lemma InsertFailPreserves(s: State, g: Ghost, e: Event)
    requires Inv(s, g) && Enabled(s, e) && e.Produce? && s.producer.Insert? && !e.luck
    requires !FreeEntry(s.arena[s.Current().slots[s.NewTail()]])
    ensures Inv(Step(s, e), StepGhost(s, g, e))
  {
    hide Linked, ConsumerOk;
    var s', g' := Step(s, e), StepGhost(s, g, e);
    NewTailAt(s, Last(g).shift);
    IdBelow(s.Current(), |s.arena|, Last(g).shift, s.m + 1);
    StillSame(s, g, s', g');
  }

  lemma KeyPreserves(s: State, g: Ghost, e: Event)
    requires Inv(s, g) && Enabled(s, e) && e.Produce? && s.producer.StoreKey?
    ensures Inv(Step(s, e), StepGhost(s, g, e))
  {
    hide IdOf, Linked, ConsumerOk;
    var s', g', shift := Step(s, e), StepGhost(s, g, e), Last(g).shift;
    var cap, id := |s.Current().slots|, s.producer.id;
    var n0 := if s.m == s.top then s.top + 1 - cap else s.m + 1;
    SlotAt(s.Current(), shift, n0);
    IdBelow(s.Current(), |s.arena|, shift, s.m + 1);
    assert s.published <= s.m ==> s.published in s.held;
    NumbersKept(s, s', shift, g.lo, g'.lo, id, n0);
    HeadersStay(s, g, s', g');
    ConsumersStay(s, g, s', g');
  }

  lemma SlotAt(h: Header, shift: int, n: int)
    requires h.slots != []
    ensures SlotOf(n + |h.slots|, shift, |h.slots|) == SlotOf(n, shift, |h.slots|)
    ensures IdOf(h, shift, n + |h.slots|) == IdOf(h, shift, n)
  {
    SameSlot(n, shift, |h.slots|);
  }

  lemma TailPreserves(s: State, g: Ghost, e: Event)
    requires Inv(s, g) && Enabled(s, e) && e.Produce? && s.producer.StoreTail?
    ensures Inv(Step(s, e), StepGhost(s, g, e))
  {
    hide Linked, ConsumerOk;
    var s', g', shift := Step(s, e), StepGhost(s, g, e), Last(g).shift;
    NewTailAt(s, shift);
    forall n | s'.top - |s'.Current().slots| < n <= s'.top ensures NumberOk(s', shift, g.lo, n) {
      if n <= s.top { assert NumberOk(s, shift, g.lo, n); }
    }
    HeadersStay(s, g, s', g');
    ConsumersStay(s, g, s', g');
  }

  lemma ValuePreserves(s: State, g: Ghost, e: Event)
    requires Inv(s, g) && Enabled(s, e) && e.Produce? && s.producer.StoreValue?
    ensures Inv(Step(s, e), StepGhost(s, g, e))
  {
    hide IdOf, Linked, ConsumerOk;
    var s', g', shift := Step(s, e), StepGhost(s, g, e), Last(g).shift;
    NumberAt(s, g, s.m);
    OthersSettled(s, g, s.m);
    NumbersKept(s, s', shift, g.lo, g.lo, s.producer.id, s.m);
    HeadersStay(s, g, s', g');
    ConsumersStay(s, g, s', g');
  }

  lemma OthersSettled(s: State, g: Ghost, n0: int)
    requires Inv(s, g) && Pending(s) == Some(n0) && g.lo <= n0 <= s.top
    ensures forall n | n != n0 && s.top - |s.Current().slots| < n <= s.top :: Settled(s, Last(g).shift, n)
  {
    NumberAt(s, g, n0);
    forall n | n != n0 && s.top - |s.Current().slots| < n <= s.top ensures Settled(s, Last(g).shift, n) {
      IdsDiffer(s.Current(), |s.arena|, Last(g).shift, n, n0);
    }
  }

  lemma RewindPreserves(s: State, g: Ghost, e: Event)
    requires Inv(s, g) && Enabled(s, e) && e.Produce? && (s.producer.RewindTail? || s.producer.UndoTail?)
    ensures Inv(Step(s, e), StepGhost(s, g, e))
  {
    hide Linked, ConsumerOk;
    var s', g', shift := Step(s, e), StepGhost(s, g, e), Last(g).shift;
    NewTailAt(s, shift);
    forall n | s'.top - |s'.Current().slots| < n <= s'.top ensures NumberOk(s', shift, g.lo, n) {
      assert NumberOk(s, shift, g.lo, n);
    }
    HeadersStay(s, g, s', g');
    ConsumersStay(s, g, s', g');
  }

  lemma ClearPreserves(s: State, g: Ghost, e: Event)
    requires Inv(s, g) && Enabled(s, e) && e.Produce? && s.producer.ClearValue?
    ensures Inv(Step(s, e), StepGhost(s, g, e))
  {
    hide IdOf, Linked, ConsumerOk;
    var s', g', shift := Step(s, e), StepGhost(s, g, e), Last(g).shift;
    NumberAt(s, g, s.m + 1);
    OthersSettled(s, g, s.m + 1);
    NumbersKept(s, s', shift, g.lo, g.lo, s.producer.id, s.m + 1);
    HeadersStay(s, g, s', g');
    ConsumersStay(s, g, s', g');
  }

  lemma UndoPreserves(s: State, g: Ghost, e: Event)
    requires Inv(s, g) && Enabled(s, e) && e.Produce? && s.producer.Undo? && s.producer.n < s.producer.end
    ensures Inv(Step(s, e), StepGhost(s, g, e))
  {
    hide Linked, ConsumerOk;
    var s', g', shift, n0 := Step(s, e), StepGhost(s, g, e), Last(g).shift, s.producer.n;
    FromSlot(s.m, n0 - s.m, shift, |s.Current().slots|);
    NumberAt(s, g, n0);
    NumbersKept(s, s', shift, g.lo, g.lo, EntryFor(s, n0), n0);
    HeadersStay(s, g, s', g');
    ConsumersStay(s, g, s', g');
  }

  // ---------------------------------------------------------------- growing

  ghost function AsIndex(arena: seq<Entry>, h: Header): BlockIndex.Index { BlockIndex.Index(arena, h.slots, h.tail) }

  lemma GrownAsIndex(s: State, garbage: Option<nat>)
    requires s.Indexed() && SlotsOk(s.Current(), |s.arena|)
    ensures var s' := Grown(s, garbage);
            && AsIndex(s.arena, s.Current()).WellFormed()
            && BlockIndex.Grown(AsIndex(s.arena, s.Current()), AsIndex(s'.arena, s'.Current()))
            && SlotsOk(s'.Current(), |s'.arena|)
  {
    hide Grown;
    var s' := Grown(s, garbage);
    IndexGrown(s, garbage);
    BlockIndex.GrownWellFormed(AsIndex(s.arena, s.Current()), AsIndex(s'.arena, s'.Current()));
  }

  lemma IndexGrown(s: State, garbage: Option<nat>)
    requires s.Indexed()
    ensures var s' := Grown(s, garbage);
            s'.headers != [] && BlockIndex.Grown(AsIndex(s.arena, s.Current()), AsIndex(s'.arena, s'.Current()))
  {
    var s' := Grown(s, garbage);
    assert s.arena <= s'.arena;
  }

  // Where the numbers are in the new ring.
  lemma GrownIds(s: State, garbage: Option<nat>, shift: int, n: int)
    requires s.Indexed() && SlotsOk(s.Current(), |s.arena|) && s.Current().tail == SlotOf(s.top, shift, |s.Current().slots|)
    requires s.top - 2 * |s.Current().slots| < n <= s.top
    ensures var s', cap := Grown(s, garbage), |s.Current().slots|;
            var id := IdOf(s'.Current(), cap - 1 - s.top, n);
            && id < |s'.arena|
            && if n <= s.top - cap then s'.arena[id].key == BlockIndex.INVALID_BLOCK_BASE
               else id == IdOf(s.Current(), shift, n) && id < |s.arena| && s'.arena[id] == s.arena[id]
  {
    var s', cap := Grown(s, garbage), |s.Current().slots|;
    GrownAsIndex(s, garbage);
    BlockIndex.GrownSlot(AsIndex(s.arena, s.Current()), AsIndex(s'.arena, s'.Current()), s.top + 1, n, shift);
    IdBelow(s.Current(), |s.arena|, shift, n);
    if n <= s.top - cap { assert s'.Current().slots[n + 3 * cap - (s.top + 1)] == |s.arena| + (n + 3 * cap - (s.top + 1)) - cap; }
  }

  lemma TailAfterGrowth(cap: nat, top: int)
    requires cap > 0
    ensures SlotOf(top, cap - 1 - top, 2 * cap) == cap - 1 && SlotOf(top + 1, cap - 1 - top, 2 * cap) == cap
  {
  }

  // Only the slot of the lowest number can be taken, so nothing has been rewound.
  lemma TakenMeansFull(s: State, g: Ghost)
    requires Inv(s, g) && s.producer.Insert? && s.NewTail() < |s.Current().slots|
    requires !FreeEntry(s.arena[IdOf(s.Current(), Last(g).shift, s.m + 1)])
    ensures s.m == s.top
  {
    if s.m < s.top { NumberAt(s, g, s.m + 1); }
  }

  lemma GrowPreserves(s: State, g: Ghost, e: Event)
    requires Inv(s, g) && Enabled(s, e) && e.Produce? && s.producer.Insert? && e.luck
    requires !FreeEntry(s.arena[s.Current().slots[s.NewTail()]])
    ensures Inv(Step(s, e), StepGhost(s, g, e))
  {
    hide IdOf, NumberOk, Grown, SlotsOk, Linked, ConsumerOk, CurrentOk, HeadersOk, ConsumersOk;
    InvParts(s, g);
    var s', g', shift, cap := Step(s, e), StepGhost(s, g, e), Last(g).shift, |s.Current().slots|;
    var shift' := cap - 1 - s.top;
    NewTailAt(s, shift);
    NewTailId(s, shift);
    TakenMeansFull(s, g);
    GrownShape(s, e.garbage);
    GrownCurrent(s, g, s', e.garbage);
    TailAfterGrowth(cap, s.top);
    NewTailId(s', shift');
    GrownHeaders(s, g, s', g', e.garbage);
    GrownConsumers(s, g, s', g', e.garbage);
  }

  lemma InvParts(s: State, g: Ghost)
    requires Inv(s, g)
    ensures s.Indexed() && SlotsOk(s.Current(), |s.arena|) && s.Current().tail == SlotOf(s.m, Last(g).shift, |s.Current().slots|)
    ensures |g.views| == |s.headers| && s.top - |s.Current().slots| < g.lo
  {
  }

  lemma GrownCurrent(s: State, g: Ghost, s': State, garbage: Option<nat>)
    requires Inv(s, g) && s.m == s.top && s.producer.Insert? && s' == Grown(s, garbage).(producer := s'.producer) && s'.producer.StoreKey?
    ensures CurrentOk(s', |s.Current().slots| - 1 - s.top, g.lo)
  {
    hide IdOf, NumberOk, Grown, SlotsOk;
    var shift', cap := |s.Current().slots| - 1 - s.top, |s.Current().slots|;
    GrownAsIndex(s, garbage);
    GrownShape(s, garbage);
    TailAfterGrowth(cap, s.top);
    forall n | s.top - 2 * cap < n <= s.top ensures NumberOk(s', shift', g.lo, n) {
      GrownNumber(s, g, s', garbage, n);
    }
  }

  lemma GrownConsumers(s: State, g: Ghost, s': State, g': Ghost, garbage: Option<nat>)
    requires Inv(s, g) && s.m == s.top && s' == Grown(s, garbage).(producer := s'.producer) && s'.Indexed()
    requires |s'.headers| == |s.headers| + 1 && s.headers <= s'.headers && s'.consumers == s.consumers
    requires g' == g.(views := g.views + [View(|s.Current().slots| - 1 - s.top, s.top)])
    ensures ConsumersOk(s', g')
  {
    hide IdOf, NumberOk, Grown, Linked, ConsumerOk;
    var shift', cap := |s.Current().slots| - 1 - s.top, |s.Current().slots|;
    GrownShape(s, garbage);
    forall n | n in s.held ensures IdOf(s'.Current(), shift', n) == IdOf(s.Current(), Last(g).shift, n) {
      GrownIds(s, garbage, Last(g).shift, n);
    }
    ConsumersStay(s, g, s', g');
  }

  lemma NewTailId(s: State, shift: int)
    requires s.Indexed() && s.NewTail() == SlotOf(s.m + 1, shift, |s.Current().slots|)
    ensures s.Current().slots[s.NewTail()] == IdOf(s.Current(), shift, s.m + 1)
  {
  }

  lemma GrownShape(s: State, garbage: Option<nat>)
    requires s.Indexed()
    ensures var s' := Grown(s, garbage);
            && s'.Indexed() && |s'.Current().slots| == 2 * |s.Current().slots| && s'.Current().tail == |s.Current().slots| - 1
            && s'.NewTail() == |s.Current().slots| && s' == s.(arena := s'.arena, headers := s.headers + [s'.Current()])
  {
    NewSlotsFirst(|s.Current().slots|);
  }

  lemma NewSlotsFirst(cap: nat)
    requires cap > 0
    ensures (cap - 1 + 1) % (2 * cap) == cap
  {
  }

  lemma GrownNumber(s: State, g: Ghost, s': State, garbage: Option<nat>, n: int)
    requires Inv(s, g) && s.m == s.top && s.producer.Insert? && s' == Grown(s, garbage).(producer := s'.producer) && s'.producer.StoreKey?
    requires s.top - 2 * |s.Current().slots| < n <= s.top && s'.Indexed()
    ensures NumberOk(s', |s.Current().slots| - 1 - s.top, g.lo, n)
  {
    GrownIds(s, garbage, Last(g).shift, n);
    if n > s.top - |s.Current().slots| { assert NumberOk(s, Last(g).shift, g.lo, n); }
  }

  lemma GrownHeaders(s: State, g: Ghost, s': State, g': Ghost, garbage: Option<nat>)
    requires Inv(s, g) && s.m == s.top && s' == Grown(s, garbage).(producer := s'.producer) && s'.Indexed()
    requires |s'.headers| == |s.headers| + 1 && s.headers <= s'.headers
    requires g' == g.(views := g.views + [View(|s.Current().slots| - 1 - s.top, s.top)])
    ensures HeadersOk(s', g')
  {
    hide Grown;
    var shift, shift' := Last(g).shift, |s.Current().slots| - 1 - s.top;
    forall k | 0 <= k < |g.views| ensures Linked(s', shift', g.lo, s'.headers[k], g'.views[k]) {
      assert Linked(s, g.views[|g.views| - 1].shift, g.lo, s.headers[k], g.views[k]);
      GrownShape(s, garbage);
      forall n | g.lo <= n <= g.views[k].top ensures IdOf(s.headers[k], g.views[k].shift, n) == IdOf(s'.Current(), shift', n) {
        GrownIds(s, garbage, shift, n);
      }
    }
    GrownShape(s, garbage);
    assert Linked(s', shift', g.lo, s'.headers[|g.views|], g'.views[|g.views|]);
  }

  // ---------------------------------------------------------------- the consumers' steps

  lemma TailLoaded(s: State, g: Ghost, b: int, k: nat)
    requires Inv(s, g) && k < |g.views| && b in s.held && b < s.published && b <= g.views[k].top
    ensures exists t: int :: Seen(g.views[k], |s.headers[k].slots|, b, s.headers[k].tail, t)
  {
    assert Linked(s, g.views[|g.views| - 1].shift, g.lo, s.headers[k], g.views[k]);
    var t := if k < |g.views| - 1 then g.views[k].top else s.m;
    assert Seen(g.views[k], |s.headers[k].slots|, b, s.headers[k].tail, t);
  }

  lemma KeyLoaded(s: State, g: Ghost, b: int, k: nat, tail: nat)
    requires Inv(s, g) && k < |g.views| && b in s.held && (exists t: int :: Seen(g.views[k], |s.headers[k].slots|, b, tail, t))
    ensures tail < |s.headers[k].slots|
    ensures exists t: nat ::
              Seen(g.views[k], |s.headers[k].slots|, b, tail, t) && KeyOf(s, s.headers[k].slots[tail]) == Base(t, s.size)
  {
    var t :| Seen(g.views[k], |s.headers[k].slots|, b, tail, t);
    assert Linked(s, g.views[|g.views| - 1].shift, g.lo, s.headers[k], g.views[k]);
    NumberAt(s, g, t);
    assert IdOf(s.headers[k], g.views[k].shift, t) == s.headers[k].slots[tail];
  }

  lemma ValueLoaded(s: State, g: Ghost, i: nat, k: nat, tail: nat, base: nat)
    requires Inv(s, g) && k < |g.views| && (i / s.size) as int in s.held && i / s.size <= g.views[k].top
    requires exists t: nat :: Seen(g.views[k], |s.headers[k].slots|, (i / s.size) as int, tail, t) && base == Base(t, s.size)
    ensures s.headers[k].slots != []
    ensures var slots, b := s.headers[k].slots, (i / s.size) as int;
            var id := IdAt(slots, tail, base, i, s.size);
            && id == IdOf(s.Current(), Last(g).shift, b) && KeyOf(s, id) == StartOf(i, s.size) && ValueOf(s, id) == Some(s.held[b])
  {
    hide IdAt, IdOf, CurrentOk, ProducerOk, ConsumersOk;
    InvParts(s, g);
    var h, b := s.headers[k], i / s.size;
    var t: nat :| Seen(g.views[k], |h.slots|, b as int, tail, t) && base == Base(t, s.size);
    assert Linked(s, g.views[|g.views| - 1].shift, g.lo, h, g.views[k]);
    IdAtDistance(h, g.views[k].shift, tail, base, t, i, s.size);
    NumberAt(s, g, b);
    HeldValue(s, g, i);
  }

  lemma IdAtDistance(h: Header, shift: int, tail: nat, base: nat, t: nat, i: nat, size: BlockSize)
    requires h.slots != [] && tail == SlotOf(t, shift, |h.slots|) && base == Base(t, size)
    ensures IdAt(h.slots, tail, base, i, size) == IdOf(h, shift, i / size)
  {
    hide Base, SlotOf;
    BaseOf(i / size, i, size);
    BaseDistance(i / size, t, size);
    FromSlot(t, i / size - t, shift, |h.slots|);
  }

  lemma HeldValue(s: State, g: Ghost, i: nat)
    requires Inv(s, g) && (i / s.size) as int in s.held
    ensures s.Indexed()
    ensures var b := (i / s.size) as int; var id := IdOf(s.Current(), Last(g).shift, b);
            KeyOf(s, id) == StartOf(i, s.size) && ValueOf(s, id) == Some(s.held[b])
  {
    hide IdOf;
    NumberAt(s, g, i / s.size);
    BaseOf(i / s.size, i, s.size);
  }

  lemma ReadPreserves(s: State, g: Ghost, e: Event)
    requires Inv(s, g) && Enabled(s, e) && e.Consume? && !(s.consumers[e.c].Found? && e.last)
    ensures Inv(Step(s, e), g)
  {
    hide IdOf, NumberOk, Linked, ConsumerOk, ConsumerStep;
    InvParts(s, g);
    var s' := Step(s, e);
    OnlyConsumer(s, g, e);
    forall n | s.top - |s.Current().slots| < n <= s.top ensures NumberOk(s', Last(g).shift, g.lo, n) {
      assert NumberOk(s, Last(g).shift, g.lo, n);
      SameEntry(s, s', Last(g).shift, g.lo, n);
    }
    HeadersStay(s, g, s', g);
    forall c | 0 <= c < |s'.consumers| ensures ConsumerOk(s', g, s'.consumers[c]) {
      ReadConsumer(s, g, e);
      if c != e.c {
        assert ConsumerOk(s, g, s.consumers[c]);
        SameConsumer(s, s', g, s.consumers[c]);
      }
    }
  }

  lemma SameConsumer(s: State, s': State, g: Ghost, pc: Consumer)
    requires s.Indexed() && ConsumerOk(s, g, pc) && s' == s.(consumers := s'.consumers)
    ensures ConsumerOk(s', g, pc)
  {
  }

  lemma OnlyConsumer(s: State, g: Ghost, e: Event)
    requires e.Consume? && e.c < |s.consumers| && !(s.consumers[e.c].Found? && e.last)
    ensures Step(s, e) == s.(consumers := Step(s, e).consumers) && |Step(s, e).consumers| == |s.consumers|
    ensures forall c | 0 <= c < |s.consumers| && c != e.c :: Step(s, e).consumers[c] == s.consumers[c]
  {
  }

  lemma ReadConsumer(s: State, g: Ghost, e: Event)
    requires Inv(s, g) && Enabled(s, e) && e.Consume? && !(s.consumers[e.c].Found? && e.last) && Step(s, e).Indexed()
    requires |Step(s, e).consumers| == |s.consumers|
    ensures ConsumerOk(Step(s, e), g, Step(s, e).consumers[e.c])
  {
    hide Inv, ConsumerOk, Step;
    var pc := s.consumers[e.c];
    if pc.LoadTail? {
      ReadTail(s, g, e);
    } else if pc.LoadKey? {
      ReadKey(s, g, e);
    } else if pc.LoadValue? {
      ReadValue(s, g, e);
    } else {
      ReadNothing(s, g, e);
    }
  }

  lemma ReadTail(s: State, g: Ghost, e: Event)
    requires Inv(s, g) && Enabled(s, e) && e.Consume? && !(s.consumers[e.c].Found? && e.last) && Step(s, e).Indexed()
    requires |Step(s, e).consumers| == |s.consumers|
    requires s.consumers[e.c].LoadTail?
    ensures ConsumerOk(Step(s, e), g, Step(s, e).consumers[e.c])
  {
    hide IdOf, NumberOk, Linked, KeyOf, ValueOf, CurrentOk, ProducerOk;
    InvParts(s, g);
    var pc := s.consumers[e.c];
    assert ConsumerOk(s, g, pc);
    TailLoaded(s, g, pc.i / s.size, pc.g);
  }

  lemma ReadKey(s: State, g: Ghost, e: Event)
    requires Inv(s, g) && Enabled(s, e) && e.Consume? && !(s.consumers[e.c].Found? && e.last) && Step(s, e).Indexed()
    requires |Step(s, e).consumers| == |s.consumers|
    requires s.consumers[e.c].LoadKey?
    ensures ConsumerOk(Step(s, e), g, Step(s, e).consumers[e.c])
  {
    hide IdOf, NumberOk, Linked, KeyOf, ValueOf, CurrentOk, ProducerOk;
    InvParts(s, g);
    var pc := s.consumers[e.c];
    assert ConsumerOk(s, g, pc);
    KeyLoaded(s, g, pc.i / s.size, pc.g, pc.tail);
  }

  lemma ReadValue(s: State, g: Ghost, e: Event)
    requires Inv(s, g) && Enabled(s, e) && e.Consume? && !(s.consumers[e.c].Found? && e.last) && Step(s, e).Indexed()
    requires |Step(s, e).consumers| == |s.consumers|
    requires s.consumers[e.c].LoadValue?
    ensures ConsumerOk(Step(s, e), g, Step(s, e).consumers[e.c])
  {
    hide IdOf, IdAt, NumberOk, Linked, KeyOf, ValueOf, CurrentOk, ProducerOk;
    InvParts(s, g);
    var pc := s.consumers[e.c];
    assert ConsumerOk(s, g, pc);
    ValueLoaded(s, g, pc.i, pc.g, pc.tail, pc.base);
  }

  lemma ReadNothing(s: State, g: Ghost, e: Event)
    requires Inv(s, g) && Enabled(s, e) && e.Consume? && !(s.consumers[e.c].Found? && e.last) && Step(s, e).Indexed()
    requires |Step(s, e).consumers| == |s.consumers|
    requires var pc := s.consumers[e.c]; pc.Away? || pc.LoadIndex? || pc.Found?
    ensures ConsumerOk(Step(s, e), g, Step(s, e).consumers[e.c])
  {
    hide IdOf, NumberOk, Linked, KeyOf, ValueOf, CurrentOk, ProducerOk;
    InvParts(s, g);
    var pc := s.consumers[e.c];
    assert ConsumerOk(s, g, pc);
  }

  lemma SameEntry(s: State, s': State, shift: int, lo: int, n: int)
    requires s.Indexed() && NumberOk(s, shift, lo, n) && s' == s.(consumers := s'.consumers)
    ensures NumberOk(s', shift, lo, n)
  {
  }

  lemma EmptyPreserves(s: State, g: Ghost, e: Event)
    requires Inv(s, g) && Enabled(s, e) && e.Consume? && s.consumers[e.c].Found? && e.last
    ensures Inv(Step(s, e), g)
  {
    hide IdOf, Linked, ConsumerOk, CurrentOk, ProducerOk, HeldOk, HeadersOk;
    InvParts(s, g);
    var s' := Step(s, e);
    EmptyCurrent(s, g, e);
    EmptyRest(s, g, e);
    forall c | 0 <= c < |s'.consumers| ensures ConsumerOk(s', g, s'.consumers[c]) {
      assert ConsumerOk(s, g, s.consumers[c]);
      EmptyConsumer(s, g, e, c);
    }
  }

  lemma EmptyCurrent(s: State, g: Ghost, e: Event)
    requires Inv(s, g) && Enabled(s, e) && e.Consume? && s.consumers[e.c].Found? && e.last
    ensures CurrentOk(Step(s, e), Last(g).shift, g.lo)
  {
    hide IdOf, Linked;
    var pc := s.consumers[e.c];
    assert ConsumerOk(s, g, pc);
    var b := (pc.i / s.size) as int;
    NumberAt(s, g, b);
    NumbersKept(s, Step(s, e), Last(g).shift, g.lo, g.lo, pc.id, b);
  }

  lemma EmptyRest(s: State, g: Ghost, e: Event)
    requires Inv(s, g) && Enabled(s, e) && e.Consume? && s.consumers[e.c].Found? && e.last
    ensures var s' := Step(s, e); s'.Indexed() && ProducerOk(s', Last(g).shift) && HeldOk(s', g.lo) && HeadersOk(s', g)
  {
    hide IdOf, Linked, NumberOk;
    assert ConsumerOk(s, g, s.consumers[e.c]);
    HeadersStay(s, g, Step(s, e), g);
  }

  lemma EmptyConsumer(s: State, g: Ghost, e: Event, c: nat)
    requires s.Indexed() && g.views != [] && |g.views| == |s.headers| && Enabled(s, e) && e.Consume? && s.consumers[e.c].Found? && e.last
    requires c < |s.consumers| && ConsumerOk(s, g, s.consumers[c])
    ensures Step(s, e).Indexed() && |Step(s, e).consumers| == |s.consumers| && ConsumerOk(Step(s, e), g, Step(s, e).consumers[c])
  {
    hide IdOf;
    if c != e.c { ConsumerStays(s, g, Step(s, e), g, s.consumers[c]); }
  }

  // ---------------------------------------------------------------- every run

  lemma StepPreservesInv(s: State, g: Ghost, e: Event)
    requires Inv(s, g) && Enabled(s, e)
    ensures Inv(Step(s, e), StepGhost(s, g, e))
  {
    hide CurrentOk, HeldOk, ProducerOk, HeadersOk, ConsumersOk;
    Shape(s, g);
    if e.Consume? {
      if s.consumers[e.c].Found? && e.last { EmptyPreserves(s, g, e); } else { ReadPreserves(s, g, e); }
    } else {
      match s.producer
      case Insert(_) =>
        if FreeEntry(s.arena[s.Current().slots[s.NewTail()]]) {
          InsertFreePreserves(s, g, e);
        } else if e.luck {
          GrowPreserves(s, g, e);
        } else {
          InsertFailPreserves(s, g, e);
        }
      case StoreKey(_, _) => KeyPreserves(s, g, e);
      case StoreTail(_, _) => TailPreserves(s, g, e);
      case StoreValue(_, _, _) => ValuePreserves(s, g, e);
      case RewindTail(_) => RewindPreserves(s, g, e);
      case UndoTail(_, _) => RewindPreserves(s, g, e);
      case ClearValue(_) => ClearPreserves(s, g, e);
      case Undo(n, end) => if n < end { UndoPreserves(s, g, e); } else { MovePreserves(s, g, e); }
      case _ => MovePreserves(s, g, e);
    }
  }

  lemma Shape(s: State, g: Ghost)
    requires Inv(s, g)
    ensures s.Indexed() && s.Current().slots[s.NewTail()] < |s.arena|
  {
  }

  ghost predicate Next(s: State, s': State) {
    exists e :: Enabled(s, e) && s' == Step(s, e)
  }

  ghost predicate Run(run: seq<State>) {
    run != [] && Init(run[0]) && forall i | 0 < i < |run| :: Next(run[i - 1], run[i])
  }

  ghost predicate Reachable(s: State) { exists run :: Run(run) && run[|run| - 1] == s }

  lemma InitInv(s: State)
    requires Init(s)
    ensures Inv(s, Ghost([View(0, -1)], 0))
  {
    var h, cap := s.headers[0], |s.arena|;
    assert SlotOf(-1, 0, cap) == cap - 1;
    forall c | 0 <= c < |s.consumers| ensures ConsumerOk(s, Ghost([View(0, -1)], 0), s.consumers[c]) {
      assert s.consumers[c] in s.consumers;
    }
  }

  lemma {:induction false} RunInv(run: seq<State>) returns (g: Ghost)
    requires Run(run)
    ensures Inv(run[|run| - 1], g)
  {
    hide Step, StepGhost, Inv;
    if |run| == 1 {
      g := Ghost([View(0, -1)], 0);
      InitInv(run[0]);
    } else {
      var prev := run[..|run| - 1];
      var before := RunInv(prev);
      var s := prev[|prev| - 1];
      assert Next(s, run[|run| - 1]);
      var e :| Enabled(s, e) && run[|run| - 1] == Step(s, e);
      InvShape(s, before);
      StepPreservesInv(s, before, e);
      g := StepGhost(s, before, e);
    }
  }

  lemma InvShape(s: State, g: Ghost)
    requires Inv(s, g)
    ensures g.views != [] && s.Indexed()
  {
  }

  // Whatever the producer stored between the loads of a lookup, insertions taken back and rings replaced included: the
  // entry found is the one of the index's block, and the block in it is the one that was put there.
  lemma FindsTheBlock(s: State, c: nat)
    requires Reachable(s) && c < |s.consumers| && s.consumers[c].Found?
    ensures var b := (s.consumers[c].i / s.size) as int;
            b in s.held && s.consumers[c].block == Some(s.held[b]) && KeyOf(s, s.consumers[c].id) == StartOf(s.consumers[c].i, s.size)
  {
    var run :| Run(run) && run[|run| - 1] == s;
    var g := RunInv(run);
    assert ConsumerOk(s, g, s.consumers[c]);
    NumberAt(s, g, s.consumers[c].i / s.size);
    BaseOf(s.consumers[c].i / s.size, s.consumers[c].i, s.size);
  }

  // The lookup's assertion: the key at the tail is that of a block, however old the tail that was loaded is.
  lemma TailHasKey(s: State, c: nat)
    requires Reachable(s) && c < |s.consumers| && s.consumers[c].LoadKey?
    ensures var pc := s.consumers[c];
            && pc.g < |s.headers| && pc.tail < |s.headers[pc.g].slots|
            && KeyOf(s, s.headers[pc.g].slots[pc.tail]) != BlockIndex.INVALID_BLOCK_BASE
  {
    var run :| Run(run) && run[|run| - 1] == s;
    var g := RunInv(run);
    var pc := s.consumers[c];
    assert ConsumerOk(s, g, pc);
    KeyLoaded(s, g, pc.i / s.size, pc.g, pc.tail);
    var t: nat :| Seen(g.views[pc.g], |s.headers[pc.g].slots|, (pc.i / s.size) as int, pc.tail, t)
                  && KeyOf(s, s.headers[pc.g].slots[pc.tail]) == Base(t, s.size);
    EvenBase(t, s.size);
  }

  // ---------------------------------------------------------------- what a thread alone achieves

  ghost function Go(s: State, e: Event, n: nat): State
    decreases n
  {
    if n == 0 || (e.Consume? && e.c >= |s.consumers|) then s else Go(Step(s, e), e, n - 1)
  }

  lemma ReachableInv(s: State) returns (g: Ghost)
    requires Reachable(s)
    ensures Inv(s, g)
  {
    var run :| Run(run) && run[|run| - 1] == s;
    g := RunInv(run);
  }

  // A lookup takes four loads, in any run, and then has the block of its index.
  lemma LookupFinishes(s: State, c: nat, i: nat)
    requires Reachable(s) && c < |s.consumers| && s.consumers[c] == LoadIndex(i)
    ensures var s' := Go(s, Consume(c, i, false), 4); var b := (i / s.size) as int;
            && b in s.held && |s'.consumers| == |s.consumers|
            && s'.consumers[c].Found? && s'.consumers[c].block == Some(s.held[b]) && s' == s.Stop(c, s'.consumers[c])
  {
    hide Reachable, CurrentOk, ProducerOk, HeadersOk, Linked, IdOf, KeyOf, ValueOf;
    var e := Consume(c, i, false);
    var g := ReachableInv(s);
    Shape(s, g);
    assert ConsumerOk(s, g, s.consumers[c]);
    var s1 := Step(s, e);
    ReadPreserves(s, g, e);
    var s2 := Step(s1, e);
    ReadPreserves(s1, g, e);
    LoadsInRange(s2, g, c);
    var s3 := Step(s2, e);
    ReadPreserves(s2, g, e);
    LoadsInRange(s3, g, c);
    var s4 := Step(s3, e);
    ReadPreserves(s3, g, e);
    assert ConsumerOk(s4, g, s4.consumers[c]);
    assert Go(s, e, 4) == Go(s1, e, 3) == Go(s2, e, 2) == Go(s3, e, 1) == Go(s4, e, 0);
    assert s4.consumers == s.consumers[c := s4.consumers[c]];
  }

  lemma LoadsInRange(s: State, g: Ghost, c: nat)
    requires Inv(s, g) && c < |s.consumers|
    ensures var pc := s.consumers[c];
            && (pc.LoadKey? ==> pc.g < |s.headers| && pc.tail < |s.headers[pc.g].slots|)
            && (pc.LoadValue? ==> pc.g < |s.headers| && s.headers[pc.g].slots != [])
  {
    hide CurrentOk, ProducerOk, KeyOf, ValueOf, IdOf;
    var pc := s.consumers[c];
    assert ConsumerOk(s, g, pc);
    if pc.LoadKey? {
      KeyLoaded(s, g, pc.i / s.size, pc.g, pc.tail);
    } else if pc.LoadValue? {
      ValueLoaded(s, g, pc.i, pc.g, pc.tail, pc.base);
    }
  }

  // One block of an enqueue for which memory suffices: indexed, and the next one begun or the end published.
  lemma BlockInserted(s: State, g: Ghost, e: Event) returns (g': Ghost)
    requires Inv(s, g) && e.Produce? && e.luck && s.producer.Insert? && s.producer.want >= 1
    ensures var s' := Go(s, e, 5);
            && Inv(s', g') && s'.m == s.m + 1 && s'.published == s.published && s'.held == s.held[s.m + 1 := e.block]
            && s'.producer == if s.producer.want == 1 then Publish else Insert(s.producer.want - 1)
  {
    hide Inv, Step;
    var s1, g1 := InsertionGoesOn(s, g, e);
    var s2, g2 := InsertionGoesOn(s1, g1, e);
    var s3, g3 := InsertionGoesOn(s2, g2, e);
    var s4, g4 := InsertionGoesOn(s3, g3, e);
    var s5;
    s5, g' := InsertionGoesOn(s4, g4, e);
    assert Go(s, e, 5) == Go(s1, e, 4) == Go(s2, e, 3) == Go(s3, e, 2) == Go(s4, e, 1) == Go(s5, e, 0);
  }

  lemma InsertionGoesOn(s: State, g: Ghost, e: Event) returns (s': State, g': Ghost)
    requires Inv(s, g) && e.Produce? && e.luck
    requires var p := s.producer; p.Insert? || p.StoreKey? || p.StoreTail? || p.Requisition? || p.StoreValue?
    ensures s' == Step(s, e) && Inv(s', g') && s'.published == s.published
    ensures s'.m == if s.producer.StoreTail? then s.m + 1 else s.m
    ensures s'.held == if s.producer.StoreValue? then s.held[s.m := s.producer.block] else s.held
    ensures match s.producer
            case Insert(n) => s'.producer.StoreKey? && s'.producer.want == n
            case StoreKey(n, _) => s'.producer.StoreTail? && s'.producer.want == n
            case StoreTail(n, _) => s'.producer.Requisition? && s'.producer.want == n
            case Requisition(n, _) => s'.producer.StoreValue? && s'.producer.want == n && s'.producer.block == e.block
            case StoreValue(n, _, _) => s'.producer == if n <= 1 then Publish else Insert(n - 1)
            case _ => true
  {
    hide CurrentOk, ProducerOk, HeadersOk, ConsumersOk, HeldOk, Grown;
    Shape(s, g);
    GrownKeeps(s, e.garbage);
    s', g' := Step(s, e), StepGhost(s, g, e);
    StepPreservesInv(s, g, e);
  }

  lemma GrownKeeps(s: State, garbage: Option<nat>)
    requires s.Indexed()
    ensures var s' := Grown(s, garbage);
            s'.m == s.m && s'.published == s.published && s'.held == s.held
  {
  }

  // An enqueue for which memory suffices begins all the blocks it wants, and publishes them together.
  lemma {:induction false} BlocksPublished(s: State, g: Ghost, e: Event)
    requires Inv(s, g) && e.Produce? && e.luck && s.producer.Insert? && s.producer.want >= 1
    ensures var n := s.producer.want; var s' := Go(s, e, 5 * n + 1);
            && s'.producer.Idle? && s'.published == s.m + n + 1
            && forall b | s.m < b <= s.m + n :: b in s'.held && s'.held[b] == e.block
    ensures var s' := Go(s, e, 5 * s.producer.want + 1); forall b | b in s.held && b <= s.m :: b in s'.held && s'.held[b] == s.held[b]
    decreases s.producer.want
  {
    hide Inv, Step, Go;
    var n := s.producer.want;
    var g' := BlockInserted(s, g, e);
    var s' := Go(s, e, 5);
    GoOn(s, e, 5, 5 * (n - 1) + 1);
    if n == 1 {
      PublishStep(s', e);
    } else {
      BlocksPublished(s', g', e);
    }
  }

  lemma PublishStep(s: State, e: Event)
    requires e.Produce? && s.producer.Publish?
    ensures Go(s, e, 1) == s.(published := s.m + 1, producer := Idle)
  {
    assert Go(s, e, 1) == Go(Step(s, e), e, 0);
  }

  lemma {:induction false} GoOn(s: State, e: Event, a: nat, b: nat)
    requires e.Produce?
    ensures Go(s, e, a + b) == Go(Go(s, e, a), e, b)
    decreases a
  {
    hide Step;
    if a > 0 { GoOn(Step(s, e), e, a - 1, b); }
  }

  // The same from the start of the enqueue.
  lemma EnqueuePublishes(s: State, e: Event)
    requires Reachable(s) && s.producer.Idle? && e.Produce? && e.luck && e.want >= 1
    ensures var s' := Go(s, e, 5 * e.want + 2);
            && s'.producer.Idle? && s'.published == s.published + e.want
            && (forall b | s.published <= b < s'.published :: b in s'.held && s'.held[b] == e.block)
            && forall b | b in s.held :: b in s'.held && s'.held[b] == s.held[b]
  {
    hide Reachable, Go;
    var g := ReachableInv(s);
    IdleAt(s, g);
    StepPreservesInv(s, g, e);
    BlocksPublished(Step(s, e), StepGhost(s, g, e), e);
    GoFirst(s, e, 5 * e.want + 1);
  }

  lemma IdleAt(s: State, g: Ghost)
    requires Inv(s, g) && s.producer.Idle?
    ensures s.Indexed() && s.m == s.published - 1 && forall b | b in s.held :: b <= s.m
  {
  }

  lemma GoFirst(s: State, e: Event, n: nat)
    requires e.Produce?
    ensures Go(s, e, n + 1) == Go(Step(s, e), e, n)
  {
  }
}

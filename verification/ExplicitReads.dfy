// How a consumer of the explicit producer finds its block while the producer goes on: the loads of a lookup and the
// stores of the producer as interleaved steps, any number of consumers, and index arrays that are replaced
// while they are being read. Sequence positions stand for the pointers to the arrays.
module ExplicitReads {
  import opened Positions

  datatype Entry = Entry(base: nat, block: nat)

  // A BlockIndexHeader; before the first block `front` is one below 0.
  datatype Header = Header(entries: seq<Entry>, front: int)

  datatype Producer = Idle | Requisition | StoreBase(block: nat) | StoreBlock(block: nat) | StoreFront(block: nat)

  // A consumer with a claimed index, from before it loads blockIndex until it has taken the element out.
  datatype Consumer =
    | Away
    | LoadIndex(i: nat)
    | LoadFront(i: nat, g: nat)
    | LoadBase(i: nat, g: nat, front: int)
    | LoadBlock(i: nat, g: nat, front: int, base: nat)
    | Found(i: nat, block: nat)

  // The last header is the one blockIndex points to. list[n] is the block that was given number n; those from `lo` on
  // make up the circular list.
  datatype State = State(
    size: BlockSize, headers: seq<Header>, indexSize: nat, slotsUsed: nat, prFront: nat,
    list: seq<nat>, lo: nat, producer: Producer, consumers: seq<Consumer>)
  {
    function Stop(c: nat, pc: Consumer): State
      requires c < |consumers|
    {
      this.(consumers := consumers[c := pc])
    }

    function Current(): Header
      requires headers != []
    {
      headers[|headers| - 1]
    }

    function Set(h: Header): State
      requires headers != []
    {
      this.(headers := headers[|headers| - 1 := h])
    }
  }

  // `reuse` tells whether the oldest block is found empty, `luck` whether an allocation succeeds, `block` is the
  // block that is requisitioned, `i` an index newly claimed.
  datatype Event = Produce(reuse: bool, luck: bool, block: nat) | Consume(c: nat, i: nat)

  // The oldest block is not found empty while a consumer is still busy with one of its elements, and an index is
  // not claimed before its block is in the list nor after it has left it.
  ghost predicate Enabled(s: State, e: Event) {
    match e
    case Produce(reuse, _, _) =>
      s.producer.Idle? && reuse ==> s.lo < |s.list| && forall pc <- s.consumers :: !pc.Away? ==> pc.i / s.size != s.lo
    case Consume(c, i) => c < |s.consumers| && (s.consumers[c].Away? ==> s.lo <= i / s.size < |s.list|)
  }

  // The used entries from the start on, oldest first.
  function Copied(h: Header, prFront: nat, slotsUsed: nat): seq<Entry> {
    seq(2 * |h.entries|, k requires 0 <= k =>
      if k < slotsUsed && |h.entries| > 0 then h.entries[(prFront - slotsUsed + k) % |h.entries|] else Entry(0, 0))
  }

  function Grown(s: State): State {
    var entries := if s.headers == [] then seq(2 * s.indexSize, _ => Entry(0, 0)) else Copied(s.Current(), s.prFront, s.slotsUsed);
    s.(headers := s.headers + [Header(entries, s.slotsUsed - 1)], indexSize := 2 * s.indexSize, prFront := s.slotsUsed)
  }

  function ProducerStep(s: State, reuse: bool, luck: bool, block: nat): State {
    match s.producer
    case Idle =>
      if reuse && s.lo < |s.list| then s.(lo := s.lo + 1, producer := StoreBase(s.list[s.lo]))
      else if s.headers == [] || s.slotsUsed == s.indexSize then (if luck then Grown(s).(producer := Requisition) else s)
      else s.(producer := Requisition)
    case Requisition =>
      if luck then s.(slotsUsed := s.slotsUsed + 1, producer := StoreBase(block)) else s.(producer := Idle)
    case StoreBase(b) =>
      if s.headers != [] && s.prFront < |s.Current().entries| then
        var h := s.Current();
        s.Set(h.(entries := h.entries[s.prFront := h.entries[s.prFront].(base := Base(|s.list|, s.size))])).(producer := StoreBlock(b))
      else s
    case StoreBlock(b) =>
      if s.headers != [] && s.prFront < |s.Current().entries| then
        var h := s.Current();
        s.Set(h.(entries := h.entries[s.prFront := h.entries[s.prFront].(block := b)])).(producer := StoreFront(b))
      else s
    case StoreFront(b) =>
      if s.headers != [] && s.indexSize > 0 then
        s.Set(s.Current().(front := s.prFront)).(prFront := (s.prFront + 1) % s.indexSize, list := s.list + [b], producer := Idle)
      else s
  }

  function ConsumerStep(s: State, c: nat, i: nat): State
    requires c < |s.consumers|
  {
    match s.consumers[c]
    case Away => s.Stop(c, LoadIndex(i))
    case LoadIndex(j) => if s.headers != [] then s.Stop(c, LoadFront(j, |s.headers| - 1)) else s
    case LoadFront(j, g) => if g < |s.headers| then s.Stop(c, LoadBase(j, g, s.headers[g].front)) else s
    case LoadBase(j, g, front) =>
      if g < |s.headers| && 0 <= front < |s.headers[g].entries| then s.Stop(c, LoadBlock(j, g, front, s.headers[g].entries[front].base))
      else s
    case LoadBlock(j, g, front, base) =>
      if g < |s.headers| && s.headers[g].entries != [] then
        var entries := s.headers[g].entries;
        var offset := (StartOf(j, s.size) - base) / s.size;
        s.Stop(c, Found(j, entries[(front + offset) % |entries|].block))
      else s
    case Found(_, _) => s.Stop(c, Away)
  }

  function Step(s: State, e: Event): State
    requires e.Consume? ==> e.c < |s.consumers|
  {
    match e
    case Produce(reuse, luck, block) => ProducerStep(s, reuse, luck, block)
    case Consume(c, i) => ConsumerStep(s, c, i)
  }

  // What the constructor leaves; its attempt to make the first index array is a step like later ones.
  ghost predicate Init(s: State) {
    && s.headers == [] && s.list == [] && s.lo == s.slotsUsed == s.prFront == 0 && s.indexSize > 0
    && s.producer.Idle? && forall pc <- s.consumers :: pc.Away?
  }

  // ---------------------------------------------------------------- invariant

  // What an array lists: blocks lo to top - 1, from the time it was current.
  datatype View = View(shift: int, lo: nat, top: nat)

  ghost predicate EntryAt(h: Header, v: View, list: seq<nat>, size: nat, n: nat) {
    && h.entries != [] && n < |list|
    && h.entries[SlotOf(n, v.shift, |h.entries|)] == Entry(Base(n, size), list[n])
  }

  ghost predicate HeaderOk(h: Header, v: View, list: seq<nat>, size: nat) {
    && h.entries != [] && v.lo <= v.top <= |list| && v.top - v.lo <= |h.entries|
    && (forall n | v.lo <= n < v.top :: EntryAt(h, v, list, size, n))
    && (v.lo < v.top ==> h.front == SlotOf(v.top - 1, v.shift, |h.entries|))
  }

  predicate Storing(p: Producer) { p.StoreBase? || p.StoreBlock? || p.StoreFront? }

  ghost predicate HeadersOk(s: State, views: seq<View>) {
    |views| == |s.headers| && forall g | 0 <= g < |views| :: HeaderOk(s.headers[g], views[g], s.list, s.size)
  }

  ghost predicate ProducerOk(s: State, views: seq<View>) {
    && s.lo <= |s.list| && s.slotsUsed == |s.list| - s.lo + (if Storing(s.producer) then 1 else 0) <= s.indexSize && s.indexSize > 0
    && (s.producer.Requisition? ==> s.slotsUsed < s.indexSize)
    && if s.headers == [] then s.list == [] && s.prFront == 0 && s.producer.Idle? && views == []
       else
         && |views| == |s.headers|
         && var h, v := s.Current(), views[|views| - 1];
            && v.lo == s.lo && v.top == |s.list| && |h.entries| == s.indexSize && s.prFront == SlotOf(|s.list|, v.shift, s.indexSize)
            && (s.producer.StoreBlock? ==> h.entries[s.prFront].base == Base(|s.list|, s.size))
            && (s.producer.StoreFront? ==> h.entries[s.prFront] == Entry(Base(|s.list|, s.size), s.producer.block))
  }

  // A value of `front` that may be old, but is not older than the block looked for.
  ghost predicate Seen(v: View, capacity: nat, b: nat, front: int, t: nat) {
    b <= t < v.top && capacity > 0 && front == SlotOf(t, v.shift, capacity)
  }

  ghost predicate ConsumerOk(s: State, views: seq<View>, pc: Consumer) {
    pc.Away? ||
    (&& s.lo <= pc.i / s.size < |s.list|
     && (pc.Found? ==> pc.block == s.list[pc.i / s.size])
     && (pc.LoadFront? || pc.LoadBase? || pc.LoadBlock? ==>
           && pc.g < |views| == |s.headers| && views[pc.g].lo <= pc.i / s.size < views[pc.g].top
           && (pc.LoadBase? ==> exists t: nat :: Seen(views[pc.g], |s.headers[pc.g].entries|, pc.i / s.size, pc.front, t))
           && (pc.LoadBlock? ==> exists t: nat ::
                 Seen(views[pc.g], |s.headers[pc.g].entries|, pc.i / s.size, pc.front, t) && pc.base == Base(t, s.size))))
  }

  ghost predicate ConsumersOk(s: State, views: seq<View>) {
    forall c | 0 <= c < |s.consumers| :: ConsumerOk(s, views, s.consumers[c])
  }

  ghost predicate Inv(s: State, views: seq<View>) { HeadersOk(s, views) && ProducerOk(s, views) && ConsumersOk(s, views) }

  ghost function StepViews(s: State, views: seq<View>, e: Event): seq<View>
    requires e.Consume? ==> e.c < |s.consumers|
  {
    if e.Consume? then views
    else
      var s' := Step(s, e);
      if |s'.headers| > |s.headers| then views + [View(0 - s.lo as int, s.lo, |s.list|)]
      else if views == [] then []
      else
        var last := |views| - 1;
        views[last := views[last].(lo := s'.lo, top := |s'.list|)]
  }

  // ---------------------------------------------------------------- the producer's steps

  // Consumers go on as before when nothing they may still read is taken away.
  lemma ConsumersStay(s: State, views: seq<View>, s': State, views': seq<View>)
    requires ConsumersOk(s, views) && s'.consumers == s.consumers && s'.size == s.size && |views| == |s.headers|
    requires s.list <= s'.list && |views'| == |s'.headers| >= |s.headers|
    requires forall pc <- s.consumers :: !pc.Away? ==> s'.lo <= pc.i / s.size
    requires forall g | 0 <= g < |s.headers| ::
               && |s'.headers[g].entries| == |s.headers[g].entries| && views'[g].shift == views[g].shift
               && views'[g].top >= views[g].top && (views'[g].lo == views[g].lo || views'[g].lo == s'.lo)
    ensures ConsumersOk(s', views')
  {
    forall c | 0 <= c < |s'.consumers| ensures ConsumerOk(s', views', s'.consumers[c]) {
      var pc := s.consumers[c];
      assert ConsumerOk(s, views, pc) && pc in s.consumers;
      if pc.LoadBase? {
        var t: nat :| Seen(views[pc.g], |s.headers[pc.g].entries|, pc.i / s.size, pc.front, t);
        assert Seen(views'[pc.g], |s'.headers[pc.g].entries|, pc.i / s.size, pc.front, t);
      } else if pc.LoadBlock? {
        var t: nat :| Seen(views[pc.g], |s.headers[pc.g].entries|, pc.i / s.size, pc.front, t) && pc.base == Base(t, s.size);
        assert Seen(views'[pc.g], |s'.headers[pc.g].entries|, pc.i / s.size, pc.front, t);
      }
    }
  }

  lemma ReusePreserves(s: State, views: seq<View>, e: Event)
    requires Inv(s, views) && Enabled(s, e) && e.Produce? && s.producer.Idle? && e.reuse && s.lo < |s.list|
    ensures Inv(Step(s, e), StepViews(s, views, e))
  {
    var s', views' := Step(s, e), StepViews(s, views, e);
    var last := |views| - 1;
    assert HeaderOk(s.headers[last], views[last], s.list, s.size);
    forall n: nat | views'[last].lo <= n < views'[last].top ensures EntryAt(s'.headers[last], views'[last], s'.list, s.size, n) {
      assert EntryAt(s.headers[last], views[last], s.list, s.size, n);
    }
    assert HeadersOk(s', views');
    forall pc <- s.consumers | !pc.Away? ensures s'.lo <= pc.i / s.size {
      var c :| 0 <= c < |s.consumers| && s.consumers[c] == pc;
      assert ConsumerOk(s, views, s.consumers[c]);
    }
    ConsumersStay(s, views, s', views');
  }

  // Every consumer's block is still in the list.
  lemma StillListed(s: State, views: seq<View>)
    requires ConsumersOk(s, views)
    ensures forall pc <- s.consumers :: !pc.Away? ==> s.lo <= pc.i / s.size
  {
    forall pc <- s.consumers | !pc.Away? ensures s.lo <= pc.i / s.size {
      var c :| 0 <= c < |s.consumers| && s.consumers[c] == pc;
      assert ConsumerOk(s, views, s.consumers[c]);
    }
  }

  // The new array lists the same blocks from its start on.
  lemma CopyOk(h: Header, v: View, list: seq<nat>, size: nat, prFront: nat)
    requires HeaderOk(h, v, list, size) && v.top == |list| && prFront == SlotOf(|list|, v.shift, |h.entries|)
    requires |list| - v.lo == |h.entries|
    ensures HeaderOk(Header(Copied(h, prFront, |h.entries|), |h.entries| - 1), View(0 - v.lo as int, v.lo, |list|), list, size)
    ensures |h.entries| == SlotOf(|list|, 0 - v.lo as int, 2 * |h.entries|)
  {
    var n, used := |h.entries|, |list| - v.lo;
    var h', v' := Header(Copied(h, prFront, n), n - 1), View(0 - v.lo as int, v.lo, |list|);
    forall m: nat | v.lo <= m < |list| ensures EntryAt(h', v', list, size, m) {
      assert EntryAt(h, v, list, size, m);
      InPlace(m, v.lo, 2 * n);
      FromSlot(|list|, m - |list|, v.shift, n);
      assert prFront - n + (m - v.lo) == prFront + (m - |list|);
    }
    InPlace(|list|, v.lo, 2 * n);
    InPlace(|list| - 1, v.lo, 2 * n);
  }

  lemma InPlace(m: nat, lo: nat, capacity: nat)
    requires lo <= m < lo + capacity
    ensures SlotOf(m, 0 - lo as int, capacity) == m - lo
  {
  }

  lemma GrowPreserves(s: State, views: seq<View>, e: Event)
    requires Inv(s, views) && Enabled(s, e) && e.Produce? && s.producer.Idle? && !e.reuse && e.luck
    requires s.headers == [] || s.slotsUsed == s.indexSize
    ensures Inv(Step(s, e), StepViews(s, views, e))
  {
    hide HeaderOk, Copied;
    var s', views' := Step(s, e), StepViews(s, views, e);
    var v := views'[|views|];
    if s.headers == [] {
      FirstHeader(s'.headers[0], s.list, s.size);
    } else {
      CopyOk(s.Current(), views[|views| - 1], s.list, s.size, s.prFront);
    }
    CopyLength(s);
    forall g | 0 <= g < |views'| ensures HeaderOk(s'.headers[g], views'[g], s'.list, s'.size) {
      if g < |views| { assert HeaderOk(s.headers[g], views[g], s.list, s.size); }
    }
    StillListed(s, views);
    ConsumersStay(s, views, s', views');
  }

  lemma CopyLength(s: State)
    ensures s.headers != [] ==> |Copied(s.Current(), s.prFront, s.slotsUsed)| == 2 * |s.Current().entries|
  {
  }

  lemma FirstHeader(h: Header, list: seq<nat>, size: nat)
    requires h.entries != [] && list == []
    ensures HeaderOk(h, View(0, 0, 0), list, size) && SlotOf(0, 0, |h.entries|) == 0
  {
  }

  // Writing the entry in front of those in use.
  lemma StorePreserves(s: State, views: seq<View>, e: Event)
    requires Inv(s, views) && Enabled(s, e) && e.Produce? && (s.producer.StoreBase? || s.producer.StoreBlock?)
    ensures Inv(Step(s, e), StepViews(s, views, e))
  {
    var s', views' := Step(s, e), StepViews(s, views, e);
    var last := |views| - 1;
    var h, v := s.headers[last], views[last];
    assert HeaderOk(h, v, s.list, s.size) && views' == views;
    forall n: nat | v.lo <= n < v.top ensures EntryAt(s'.headers[last], v, s.list, s.size, n) {
      assert EntryAt(h, v, s.list, s.size, n);
      SlotsDiffer(n, |s.list|, v.shift, |h.entries|);
    }
    assert HeaderOk(s'.headers[last], v, s'.list, s'.size);
    assert HeadersOk(s', views');
    StillListed(s, views);
    ConsumersStay(s, views, s', views');
  }

  lemma FrontPreserves(s: State, views: seq<View>, e: Event)
    requires Inv(s, views) && Enabled(s, e) && e.Produce? && s.producer.StoreFront?
    ensures Inv(Step(s, e), StepViews(s, views, e))
  {
    var s', views' := Step(s, e), StepViews(s, views, e);
    var last := |views| - 1;
    var h, v := s.headers[last], views[last];
    assert HeaderOk(h, v, s.list, s.size);
    forall g | 0 <= g < |views'| ensures HeaderOk(s'.headers[g], views'[g], s'.list, s'.size) {
      assert HeaderOk(s.headers[g], views[g], s.list, s.size);
      forall n: nat | views'[g].lo <= n < views'[g].top ensures EntryAt(s'.headers[g], views'[g], s'.list, s'.size, n) {
        if n < |s.list| { assert EntryAt(s.headers[g], views[g], s.list, s.size, n); }
      }
    }
    FromSlot(|s.list|, 1, v.shift, s.indexSize);
    StillListed(s, views);
    ConsumersStay(s, views, s', views');
  }

  // ---------------------------------------------------------------- the consumers' steps

  lemma ConsumerPreserves(s: State, views: seq<View>, e: Event)
    requires Inv(s, views) && Enabled(s, e) && e.Consume?
    ensures Inv(Step(s, e), views)
  {
    hide HeaderOk;
    var s' := Step(s, e);
    var pc := s.consumers[e.c];
    assert ConsumerOk(s, views, pc);
    if pc.LoadFront? {
      FrontLoaded(s, views, pc.i, pc.g);
    } else if pc.LoadBase? {
      BaseLoaded(s, views, pc.i, pc.g, pc.front);
    } else if pc.LoadBlock? {
      BlockLoaded(s, views, pc.i, pc.g, pc.front, pc.base);
    }
    forall c | 0 <= c < |s'.consumers| ensures ConsumerOk(s', views, s'.consumers[c]) {
      if c != e.c { assert ConsumerOk(s, views, s.consumers[c]); }
    }
  }

  lemma FrontLoaded(s: State, views: seq<View>, i: nat, g: nat)
    requires Inv(s, views) && g < |views| && views[g].lo <= i / s.size < views[g].top
    ensures Seen(views[g], |s.headers[g].entries|, i / s.size, s.headers[g].front, views[g].top - 1)
  {
    assert HeaderOk(s.headers[g], views[g], s.list, s.size);
  }

  lemma BaseLoaded(s: State, views: seq<View>, i: nat, g: nat, front: int)
    requires Inv(s, views) && g < |views| && views[g].lo <= i / s.size
    requires exists t: nat :: Seen(views[g], |s.headers[g].entries|, i / s.size, front, t)
    ensures 0 <= front < |s.headers[g].entries|
    ensures exists t: nat :: Seen(views[g], |s.headers[g].entries|, i / s.size, front, t)
                             && s.headers[g].entries[front].base == Base(t, s.size)
  {
    assert HeaderOk(s.headers[g], views[g], s.list, s.size);
    var t: nat :| Seen(views[g], |s.headers[g].entries|, i / s.size, front, t);
    assert EntryAt(s.headers[g], views[g], s.list, s.size, t);
  }

  lemma BlockLoaded(s: State, views: seq<View>, i: nat, g: nat, front: int, base: nat)
    requires Inv(s, views) && g < |views| && views[g].lo <= i / s.size < views[g].top
    requires exists t: nat :: Seen(views[g], |s.headers[g].entries|, i / s.size, front, t) && base == Base(t, s.size)
    ensures var entries := s.headers[g].entries;
            entries != [] && entries[(front + (StartOf(i, s.size) - base) / s.size) % |entries|].block == s.list[i / s.size]
  {
    var h, v, b := s.headers[g], views[g], i / s.size;
    assert HeaderOk(h, v, s.list, s.size);
    var t: nat :| Seen(v, |h.entries|, b, front, t) && base == Base(t, s.size);
    BaseOf(b, i, s.size);
    BaseDistance(b, t, s.size);
    FromSlot(t, b - t, v.shift, |h.entries|);
    assert EntryAt(h, v, s.list, s.size, b);
  }

  lemma StepPreservesInv(s: State, views: seq<View>, e: Event)
    requires Inv(s, views) && Enabled(s, e)
    ensures Inv(Step(s, e), StepViews(s, views, e))
  {
    hide HeaderOk, ConsumerOk;
    if e.Consume? {
      ConsumerPreserves(s, views, e);
    } else {
      match s.producer
      case Idle =>
        if e.reuse {
          ReusePreserves(s, views, e);
        } else if (s.headers == [] || s.slotsUsed == s.indexSize) && e.luck {
          GrowPreserves(s, views, e);
        } else {
          QuietPreserves(s, views, e);
        }
      case Requisition => QuietPreserves(s, views, e);
      case StoreFront(_) => FrontPreserves(s, views, e);
      case _ => StorePreserves(s, views, e);
    }
  }

  // Steps that change nothing a consumer reads.
  lemma QuietPreserves(s: State, views: seq<View>, e: Event)
    requires Inv(s, views) && Enabled(s, e) && e.Produce?
    requires s.producer.Requisition? || (s.producer.Idle? && !e.reuse && !((s.headers == [] || s.slotsUsed == s.indexSize) && e.luck))
    ensures Inv(Step(s, e), StepViews(s, views, e))
  {
    hide HeaderOk;
    var s', views' := Step(s, e), StepViews(s, views, e);
    assert views' == views && s'.headers == s.headers;
    StillListed(s, views);
    ConsumersStay(s, views, s', views');
  }

  // ---------------------------------------------------------------- every run

  ghost predicate Next(s: State, s': State) {
    exists e :: Enabled(s, e) && s' == Step(s, e)
  }

  ghost predicate Run(run: seq<State>) {
    run != [] && Init(run[0]) && forall i | 0 < i < |run| :: Next(run[i - 1], run[i])
  }

  ghost predicate Reachable(s: State) { exists run :: Run(run) && run[|run| - 1] == s }

  lemma {:induction false} RunInv(run: seq<State>) returns (views: seq<View>)
    requires Run(run)
    ensures Inv(run[|run| - 1], views)
  {
    hide Step, StepViews, Inv;
    if |run| == 1 {
      views := [];
      InitInv(run[0]);
    } else {
      var prev := run[..|run| - 1];
      var before := RunInv(prev);
      var s := prev[|prev| - 1];
      assert Next(s, run[|run| - 1]);
      var e :| Enabled(s, e) && run[|run| - 1] == Step(s, e);
      StepPreservesInv(s, before, e);
      views := StepViews(s, before, e);
    }
  }

  lemma InitInv(s: State)
    requires Init(s)
    ensures Inv(s, [])
  {
    forall c | 0 <= c < |s.consumers| ensures ConsumerOk(s, [], s.consumers[c]) { assert s.consumers[c] in s.consumers; }
  }

  // Whatever the producer stored between the loads of a lookup, and however often it replaced the array: the block
  // found is the one that was given the index's block number, and that block is still in the list.
  lemma FindsTheBlock(s: State, c: nat)
    requires Reachable(s) && c < |s.consumers| && s.consumers[c].Found?
    ensures var i := s.consumers[c].i;
            s.lo <= i / s.size < |s.list| && s.consumers[c].block == s.list[i / s.size]
  {
    var run :| Run(run) && run[|run| - 1] == s;
    var views := RunInv(run);
    assert ConsumerOk(s, views, s.consumers[c]);
  }

  // No lookup gets stuck: every load is of an array that exists, at a position that it has.
  lemma LookupsGoOn(s: State, c: nat, i: nat)
    requires Reachable(s) && c < |s.consumers|
    ensures ConsumerStep(s, c, i) != s
  {
    hide HeaderOk;
    var run :| Run(run) && run[|run| - 1] == s;
    var views := RunInv(run);
    var pc := s.consumers[c];
    assert ConsumerOk(s, views, pc);
    if pc.LoadBase? {
      BaseLoaded(s, views, pc.i, pc.g, pc.front);
    } else if pc.LoadBlock? {
      BlockLoaded(s, views, pc.i, pc.g, pc.front, pc.base);
    }
    assert ConsumerStep(s, c, i).consumers[c] != pc;
  }

  // ---------------------------------------------------------------- what a thread alone achieves

  ghost function Go(s: State, e: Event, n: nat): State
    decreases n
  {
    if n == 0 || (e.Consume? && e.c >= |s.consumers|) then s else Go(Step(s, e), e, n - 1)
  }

  lemma ReachableInv(s: State) returns (views: seq<View>)
    requires Reachable(s)
    ensures Inv(s, views)
  {
    var run :| Run(run) && run[|run| - 1] == s;
    views := RunInv(run);
  }

  // A lookup takes four loads, in any run, and then has the block of its index.
  lemma LookupFinishes(s: State, c: nat, i: nat)
    requires Reachable(s) && c < |s.consumers| && s.consumers[c] == LoadIndex(i)
    ensures i / s.size < |s.list| && Go(s, Consume(c, i), 4) == s.Stop(c, Found(i, s.list[i / s.size]))
  {
    hide Reachable, Inv, Step;
    var e := Consume(c, i);
    var views := ReachableInv(s);
    var s1 := NextLoad(s, views, c, i);
    var s2 := NextLoad(s1, views, c, i);
    var s3 := NextLoad(s2, views, c, i);
    var s4 := NextLoad(s3, views, c, i);
    FoundIs(s4, views, c);
    assert Go(s, e, 4) == Go(s1, e, 3) == Go(s2, e, 2) == Go(s3, e, 1) == Go(s4, e, 0);
    assert s4.consumers == s.consumers[c := s4.consumers[c]];
  }

  lemma FoundIs(s: State, views: seq<View>, c: nat)
    requires Inv(s, views) && c < |s.consumers| && s.consumers[c].Found?
    ensures var i := s.consumers[c].i; i / s.size < |s.list| && s.consumers[c].block == s.list[i / s.size]
  {
    assert ConsumerOk(s, views, s.consumers[c]);
  }

  lemma NextLoad(s: State, views: seq<View>, c: nat, i: nat) returns (s': State)
    requires Inv(s, views) && c < |s.consumers|
    requires var pc := s.consumers[c]; !pc.Away? && !pc.Found? && pc.i == i
    ensures s' == Step(s, Consume(c, i)) && Inv(s', views) && |s'.consumers| == |s.consumers| && s' == s.Stop(c, s'.consumers[c])
    ensures var pc, pc' := s.consumers[c], s'.consumers[c];
            && !pc'.Away? && pc'.i == i
            && match pc
               case LoadIndex(_) => pc'.LoadFront?
               case LoadFront(_, _) => pc'.LoadBase?
               case LoadBase(_, _, _) => pc'.LoadBlock?
               case _ => pc'.Found?
  {
    hide HeaderOk, ProducerOk;
    var pc := s.consumers[c];
    assert ConsumerOk(s, views, pc);
    NotEmpty(s, views, pc);
    if pc.LoadBase? {
      BaseLoaded(s, views, i, pc.g, pc.front);
    } else if pc.LoadBlock? {
      BlockLoaded(s, views, i, pc.g, pc.front, pc.base);
    }
    s' := Step(s, Consume(c, i));
    ConsumerPreserves(s, views, Consume(c, i));
  }

  lemma NotEmpty(s: State, views: seq<View>, pc: Consumer)
    requires Inv(s, views) && ConsumerOk(s, views, pc) && !pc.Away?
    ensures s.headers != []
  {
  }

  // A producer that may allocate and can adds its block to the list, growing the index first if need be.
  lemma BlockAdded(s: State, block: nat)
    requires Reachable(s) && s.producer.Idle?
    ensures var s' := Go(s, Produce(false, true, block), 5); s'.list == s.list + [block] && s'.producer.Idle? && s'.lo == s.lo
  {
    hide HeaderOk, ConsumersOk, Reachable, HeadersOk;
    var e := Produce(false, true, block);
    var views := ReachableInv(s);
    var s1, v1 := Step(s, e), StepViews(s, views, e);
    StepPreservesInv(s, views, e);
    var s2, v2 := Step(s1, e), StepViews(s1, v1, e);
    StepPreservesInv(s1, v1, e);
    var s3, v3 := Step(s2, e), StepViews(s2, v2, e);
    StepPreservesInv(s2, v2, e);
    var s4 := Step(s3, e);
    StepPreservesInv(s3, v3, e);
    assert Go(s, e, 5) == Go(s1, e, 4) == Go(s2, e, 3) == Go(s3, e, 2) == Go(s4, e, 1) == Go(Step(s4, e), e, 0);
  }

  // A consumer being done with the oldest block, it can be used again.
  lemma BlockReused(s: State)
    requires Reachable(s) && s.producer.Idle? && s.lo < |s.list| && Enabled(s, Produce(true, true, 0))
    ensures var s' := Go(s, Produce(true, true, 0), 4);
            s'.list == s.list + [s.list[s.lo]] && s'.producer.Idle? && s'.lo == s.lo + 1
  {
    hide HeaderOk, ConsumersOk, Reachable, HeadersOk;
    var e := Produce(true, true, 0);
    var views := ReachableInv(s);
    var s1, v1 := Step(s, e), StepViews(s, views, e);
    StepPreservesInv(s, views, e);
    var s2, v2 := Step(s1, e), StepViews(s1, v1, e);
    StepPreservesInv(s1, v1, e);
    var s3 := Step(s2, e);
    StepPreservesInv(s2, v2, e);
    assert Go(s, e, 4) == Go(s1, e, 3) == Go(s2, e, 2) == Go(s3, e, 1) == Go(Step(s3, e), e, 0);
  }
}

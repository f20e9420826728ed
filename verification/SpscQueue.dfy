// moodycamel::ReaderWriterQueue with its producer and its consumer running concurrently: every
// interleaving of the loads and stores of the shared variables. The element type is int.
module SpscQueue {

  type Elem = int

  // A circular buffer. The producer owns tail and localFront, the consumer front and localTail.
  datatype Block = Block(size: nat, front: nat, localTail: nat, tail: nat, localFront: nat, next: nat, data: seq<Elem>)

  // x & sizeMask for an index that ran at most once past the end of the buffer.
  function Wrap(x: nat, size: nat): nat { if x < size then x else x - size }

  datatype Producer =
    | PIdle
    | PStart(x: Elem, alloc: bool)
    | PLoadFront(x: Elem, alloc: bool)
    | PWrite(x: Elem)
    | PPublish(x: Elem)
    | PLoadFrontBlock(x: Elem, alloc: bool)
    | PLookAhead(x: Elem)
    | PWriteAhead(x: Elem)
    | PPublishAhead(x: Elem)
    | PAdvance(x: Elem)
    | PAllocate(x: Elem)
    | PLink(x: Elem, added: nat)
    | PAdvanceNew(x: Elem, added: nat)

  // `wasEmpty` remembers whether the whole queue was empty when the consumer loaded the tail.
  datatype Consumer =
    | CIdle
    | CStart
    | CLoadTail
    | CRead
    | CPublish(x: Elem)
    | CLoadTailBlock(wasEmpty: bool)
    | CReloadTail
    | CLoadNext
    | CLoadNextTail(nextBlock: nat)
    | CAdvance(nextBlock: nat)

  // `enqueued` and `dequeued` grow when the stores that publish an enqueue or a dequeue happen;
  // `misses` records wasEmpty for every dequeue that returned false.
  datatype State = State(
    blocks: seq<Block>, frontBlock: nat, tailBlock: nat, largest: nat, maxBlockSize: nat,
    producer: Producer, consumer: Consumer,
    enqueued: seq<Elem>, dequeued: seq<Elem>, misses: seq<bool>)
  {
    function With(b: nat, block: Block): State
      requires b < |blocks|
    {
      this.(blocks := blocks[b := block])
    }
  }

  // A producer or consumer step. `luck` decides whether malloc succeeds; `x` and `alloc` are the
  // arguments of an enqueue that starts.
  datatype Event = Produce(x: Elem, alloc: bool, luck: bool) | Consume

  predicate Enabled(s: State) {
    && s.frontBlock < |s.blocks| && s.tailBlock < |s.blocks|
    && (forall b <- s.blocks :: b.next < |s.blocks| && b.front < b.size && b.tail < b.size && |b.data| == b.size)
    && (s.producer.PLink? || s.producer.PAdvanceNew? ==> s.producer.added < |s.blocks|)
    && (s.consumer.CLoadNextTail? || s.consumer.CAdvance? ==> s.consumer.nextBlock < |s.blocks|)
  }

  // ---------------------------------------------------------------- inner_enqueue

  function ProducerStep(s: State, e: Event): State
    requires Enabled(s) && e.Produce?
  {
    var tb := s.blocks[s.tailBlock];
    var ahead := s.blocks[tb.next];
    var nextTail := Wrap(tb.tail + 1, tb.size);
    match s.producer
    case PIdle => s.(producer := PStart(e.x, e.alloc))
    case PStart(x, alloc) =>
      s.(producer := if nextTail != tb.localFront then PWrite(x) else PLoadFront(x, alloc))
    case PLoadFront(x, alloc) =>
      s.With(s.tailBlock, tb.(localFront := tb.front)).(
        producer := if nextTail != tb.front then PWrite(x) else PLoadFrontBlock(x, alloc))
    case PWrite(x) =>
      s.With(s.tailBlock, tb.(data := tb.data[tb.tail := x])).(producer := PPublish(x))
    case PPublish(x) =>
      s.With(s.tailBlock, tb.(tail := nextTail)).(producer := PIdle, enqueued := s.enqueued + [x])
    case PLoadFrontBlock(x, alloc) =>
      s.(producer := if tb.next != s.frontBlock then PLookAhead(x) else if alloc then PAllocate(x) else PIdle)
    case PLookAhead(x) =>
      s.With(tb.next, ahead.(localFront := ahead.front)).(producer := PWriteAhead(x))
    case PWriteAhead(x) =>
      s.With(tb.next, ahead.(data := ahead.data[ahead.tail := x])).(producer := PPublishAhead(x))
    case PPublishAhead(x) =>
      s.With(tb.next, ahead.(tail := Wrap(ahead.tail + 1, ahead.size))).(producer := PAdvance(x))
    case PAdvance(x) =>
      s.(tailBlock := tb.next, producer := PIdle, enqueued := s.enqueued + [x])
    case PAllocate(x) =>
      if !e.luck then s.(producer := PIdle)
      else
        var size := if s.largest >= s.maxBlockSize then s.largest else s.largest * 2;
        s.(blocks := s.blocks + [NewBlock(size, x, tb.next)], largest := size, producer := PLink(x, |s.blocks|))
    case PLink(x, added) =>
      s.With(s.tailBlock, tb.(next := added)).(producer := PAdvanceNew(x, added))
    case PAdvanceNew(x, added) =>
      s.(tailBlock := added, producer := PIdle, enqueued := s.enqueued + [x])
  }

  function NewBlock(size: nat, x: Elem, next: nat): Block {
    Block(size, 0, 1, 1, 0, next, seq(size, _ => x))
  }

  // ---------------------------------------------------------------- try_dequeue

  // `empty` tells whether the abstract queue is empty now; only `misses` depends on it.
  function ConsumerStep(s: State, empty: bool): State
    requires Enabled(s)
  {
    var fb := s.blocks[s.frontBlock];
    match s.consumer
    case CIdle => s.(consumer := CStart)
    case CStart =>
      s.(consumer := if fb.front != fb.localTail then CRead else CLoadTail)
    case CLoadTail =>
      s.With(s.frontBlock, fb.(localTail := fb.tail)).(
        consumer := if fb.front != fb.tail then CRead else CLoadTailBlock(empty))
    case CRead =>
      s.(consumer := CPublish(fb.data[fb.front]))
    case CPublish(x) =>
      s.With(s.frontBlock, fb.(front := Wrap(fb.front + 1, fb.size))).(
        consumer := CIdle, dequeued := s.dequeued + [x])
    case CLoadTailBlock(wasEmpty) =>
      if s.frontBlock != s.tailBlock then s.(consumer := CReloadTail)
      else s.(consumer := CIdle, misses := s.misses + [wasEmpty])
    case CReloadTail =>
      s.With(s.frontBlock, fb.(localTail := fb.tail)).(
        consumer := if fb.front != fb.tail then CRead else CLoadNext)
    case CLoadNext =>
      s.(consumer := CLoadNextTail(fb.next))
    case CLoadNextTail(nb) =>
      s.With(nb, s.blocks[nb].(localTail := s.blocks[nb].tail)).(consumer := CAdvance(nb))
    case CAdvance(nb) =>
      s.(frontBlock := nb, consumer := CRead)
  }

  function Step(s: State, e: Event): State
    requires Enabled(s)
  {
    if e.Produce? then ProducerStep(s, e) else ConsumerStep(s, s.enqueued == s.dequeued)
  }

  // ---------------------------------------------------------------- one block

  // A block's live elements, how many of them the consumer knows of, and how many dequeues the
  // producer has not noticed yet.
  datatype View = View(items: seq<Elem>, known: nat, stale: nat)

  ghost predicate BlockOk(b: Block, v: View) {
    && b.front < b.size && |b.data| == b.size
    && |v.items| + v.stale < b.size && v.known <= |v.items|
    && b.tail == Wrap(b.front + |v.items|, b.size)
    && b.localTail == Wrap(b.front + v.known, b.size)
    && b.localFront == Wrap(b.front + b.size - v.stale, b.size)
    && forall i | 0 <= i < |v.items| :: b.data[Wrap(b.front + i, b.size)] == v.items[i]
  }

  ghost predicate Full(b: Block, v: View) { |v.items| + 1 == b.size }

  // The producer's test for room is exact up to the dequeues it has not noticed.
  lemma RoomTest(b: Block, v: View)
    requires BlockOk(b, v)
    ensures Wrap(b.tail + 1, b.size) != b.localFront <==> |v.items| + v.stale + 1 < b.size
    ensures Wrap(b.tail + 1, b.size) != b.front <==> |v.items| + 1 < b.size
    ensures b.front == b.tail <==> v.items == []
    ensures b.front == b.localTail <==> v.known == 0
  {
  }

  lemma WriteOk(b: Block, v: View, x: Elem)
    requires BlockOk(b, v) && |v.items| + 1 < b.size
    ensures BlockOk(b.(data := b.data[b.tail := x]), v)
  {
  }

  lemma PublishOk(b: Block, v: View, x: Elem)
    requires BlockOk(b, v) && |v.items| + v.stale + 1 < b.size && b.data[b.tail] == x
    ensures BlockOk(b.(tail := Wrap(b.tail + 1, b.size)), v.(items := v.items + [x]))
  {
  }

  lemma TakeOk(b: Block, v: View)
    requires BlockOk(b, v) && v.known > 0
    ensures b.data[b.front] == v.items[0]
    ensures BlockOk(b.(front := Wrap(b.front + 1, b.size)), View(v.items[1..], v.known - 1, v.stale + 1))
  {
    var b' := b.(front := Wrap(b.front + 1, b.size));
    assert b.data[Wrap(b.front + 0, b.size)] == v.items[0];
    forall i | 0 <= i < |v.items| - 1 ensures b'.data[Wrap(b'.front + i, b.size)] == v.items[1..][i] {
      assert b.data[Wrap(b.front + (i + 1), b.size)] == v.items[i + 1];
    }
  }

  lemma NoticeOk(b: Block, v: View)
    requires BlockOk(b, v)
    ensures BlockOk(b.(localFront := b.front), v.(stale := 0))
    ensures BlockOk(b.(localTail := b.tail), v.(known := |v.items|))
  {
  }

  // ---------------------------------------------------------------- the ring of blocks

  // The blocks in next order from the front block; ring[k] is the tail block.
  datatype Ghost = Ghost(ring: seq<nat>, k: nat, views: seq<View>)

  function Succ(i: nat, n: nat): nat { if i + 1 >= n then 0 else i + 1 }

  ghost function Items(g: Ghost, i: nat): seq<Elem>
    requires i < |g.ring| && g.ring[i] < |g.views|
  {
    g.views[g.ring[i]].items
  }

  ghost predicate Linked(blocks: seq<Block>, ring: seq<nat>, i: nat)
    requires i < |ring| && ring[i] < |blocks|
  {
    blocks[ring[i]].next == ring[Succ(i, |ring|)]
  }

  ghost predicate RingOk(s: State, g: Ghost) {
    && g.k < |g.ring| && |g.views| == |s.blocks|
    && (forall i | 0 <= i < |g.ring| :: g.ring[i] < |s.blocks|)
    && (forall i | 0 <= i < |g.ring| :: Linked(s.blocks, g.ring, i))
    && (forall i, j | 0 <= i < j < |g.ring| :: g.ring[i] != g.ring[j])
    && s.frontBlock == g.ring[0] && s.tailBlock == g.ring[g.k]
  }

  ghost predicate BlocksOk(s: State, g: Ghost)
    requires |g.views| == |s.blocks|
  {
    && (forall b | 0 <= b < |s.blocks| :: BlockOk(s.blocks[b], g.views[b]) && s.blocks[b].size >= 2 && s.blocks[b].next < |s.blocks|)
    && s.largest >= 2
  }

  predicate Advancing(p: Producer) { p.PAdvance? || p.PAdvanceNew? }

  // Blocks strictly between front and tail are full, the tail block is not empty unless it is the
  // front block, and the blocks ahead of the tail are empty.
  ghost predicate ItemsOk(s: State, g: Ghost)
    requires RingOk(s, g)
  {
    && (forall i | 0 < i <= g.k :: Items(g, i) != [])
    && (forall i | 0 < i < g.k :: Full(s.blocks[g.ring[i]], g.views[g.ring[i]]))
    && (forall i | g.k < i < |g.ring| && !(i == g.k + 1 && Advancing(s.producer)) :: Items(g, i) == [])
  }

  ghost predicate TailFull(s: State, g: Ghost)
    requires RingOk(s, g)
  {
    g.k > 0 ==> Full(s.blocks[s.tailBlock], g.views[s.tailBlock])
  }

  ghost predicate HasRoom(b: Block, v: View) { |v.items| + v.stale + 1 < b.size }

  ghost predicate ProducerOk(s: State, g: Ghost)
    requires RingOk(s, g)
  {
    var tb, tv := s.blocks[s.tailBlock], g.views[s.tailBlock];
    var a := g.ring[Succ(g.k, |g.ring|)];
    var ahead, av := s.blocks[a], g.views[a];
    match s.producer
    case PWrite(x) => HasRoom(tb, tv)
    case PPublish(x) => HasRoom(tb, tv) && tb.tail < tb.size == |tb.data| && tb.data[tb.tail] == x
    case PLoadFrontBlock(x, alloc) => TailFull(s, g)
    case PLookAhead(x) => TailFull(s, g) && g.k + 1 < |g.ring|
    case PWriteAhead(x) => TailFull(s, g) && g.k + 1 < |g.ring| && av.stale == 0
    case PPublishAhead(x) =>
      && TailFull(s, g) && g.k + 1 < |g.ring| && av.stale == 0
      && ahead.tail < ahead.size == |ahead.data| && ahead.data[ahead.tail] == x
    case PAdvance(x) => TailFull(s, g) && g.k + 1 < |g.ring| && av.items == [x]
    case PAllocate(x) => TailFull(s, g)
    case PLink(x, b) =>
      && TailFull(s, g) && b < |s.blocks| && b !in g.ring
      && g.views[b].items == [x] && s.blocks[b].next == a
    case PAdvanceNew(x, b) => TailFull(s, g) && g.k + 1 < |g.ring| && av.items == [x] && a == b
    case _ => true
  }

  ghost predicate ConsumerOk(s: State, g: Ghost)
    requires RingOk(s, g)
  {
    var fv := g.views[s.frontBlock];
    match s.consumer
    case CRead => fv.known > 0
    case CPublish(x) => fv.known > 0 && |fv.items| > 0 && x == fv.items[0]
    case CLoadTailBlock(wasEmpty) => g.k == 0 ==> wasEmpty
    case CReloadTail => g.k > 0
    case CLoadNext => g.k > 0 && fv.items == []
    case CLoadNextTail(nb) => g.k > 0 && fv.items == [] && nb == g.ring[1]
    case CAdvance(nb) => g.k > 0 && fv.items == [] && nb == g.ring[1] && g.views[nb].known > 0
    case _ => true
  }

  ghost predicate InViews(ring: seq<nat>, views: seq<View>) {
    forall i | 0 <= i < |ring| :: ring[i] < |views|
  }

  ghost function Concat(ring: seq<nat>, views: seq<View>): seq<Elem>
    requires InViews(ring, views)
  {
    if ring == [] then [] else views[ring[0]].items + Concat(ring[1..], views)
  }

  ghost predicate ContentOk(s: State, g: Ghost)
    requires RingOk(s, g)
  {
    s.enqueued == s.dequeued + Concat(g.ring[..g.k + 1], g.views)
  }

  // Every block is in the ring, but for one the producer has allocated and not linked yet.
  ghost predicate RingComplete(s: State, g: Ghost) {
    |g.ring| + (if s.producer.PLink? then 1 else 0) == |s.blocks|
  }

  ghost predicate Inv(s: State, g: Ghost) {
    && RingComplete(s, g) && RingOk(s, g) && BlocksOk(s, g) && ItemsOk(s, g) && ProducerOk(s, g) && ConsumerOk(s, g) && ContentOk(s, g)
    && (forall w <- s.misses :: w) && s.maxBlockSize >= 2
  }

  ghost function StepGhost(s: State, g: Ghost, e: Event): Ghost
    requires Enabled(s) && RingOk(s, g)
  {
    var t, f, n := s.tailBlock, s.frontBlock, |g.ring|;
    var a := s.blocks[t].next;
    if e.Produce? then
      match s.producer
      case PLoadFront(_, _) => g.(views := g.views[t := g.views[t].(stale := 0)])
      case PPublish(x) => g.(views := g.views[t := g.views[t].(items := g.views[t].items + [x])])
      case PLookAhead(_) => g.(views := g.views[a := g.views[a].(stale := 0)])
      case PPublishAhead(x) => g.(views := g.views[a := g.views[a].(items := g.views[a].items + [x])])
      case PAdvance(_) => g.(k := Succ(g.k, n))
      case PAllocate(x) => if e.luck then g.(views := g.views + [View([x], 1, 0)]) else g
      case PLink(_, b) => g.(ring := g.ring[..g.k + 1] + [b] + g.ring[g.k + 1..])
      case PAdvanceNew(_, _) => g.(k := Succ(g.k, n))
      case _ => g
    else
      match s.consumer
      case CLoadTail => g.(views := g.views[f := g.views[f].(known := |g.views[f].items|)])
      case CReloadTail => g.(views := g.views[f := g.views[f].(known := |g.views[f].items|)])
      case CPublish(_) =>
        var v := g.views[f];
        if v.items == [] || v.known == 0 then g
        else g.(views := g.views[f := View(v.items[1..], v.known - 1, v.stale + 1)])
      case CLoadNextTail(nb) => g.(views := g.views[nb := g.views[nb].(known := |g.views[nb].items|)])
      case CAdvance(_) => if g.k == 0 then g else g.(ring := g.ring[1..] + [g.ring[0]], k := g.k - 1)
      case _ => g
  }

  // ---------------------------------------------------------------- contents of a run of blocks

  lemma {:induction false} ConcatFrame(ring: seq<nat>, views: seq<View>, views': seq<View>)
    requires InViews(ring, views) && InViews(ring, views')
    requires forall i | 0 <= i < |ring| :: views[ring[i]].items == views'[ring[i]].items
    ensures Concat(ring, views) == Concat(ring, views')
  {
    if ring != [] { ConcatFrame(ring[1..], views, views'); }
  }

  lemma {:induction false} ConcatSnoc(ring: seq<nat>, b: nat, views: seq<View>)
    requires InViews(ring, views) && b < |views|
    ensures Concat(ring + [b], views) == Concat(ring, views) + views[b].items
  {
    if ring != [] {
      assert (ring + [b])[1..] == ring[1..] + [b];
      ConcatSnoc(ring[1..], b, views);
    } else {
      assert (ring + [b])[1..] == [];
    }
  }

  // ---------------------------------------------------------------- preservation

  lemma EnabledByInv(s: State, g: Ghost)
    requires Inv(s, g)
    ensures Enabled(s)
  {
    forall b <- s.blocks ensures b.next < |s.blocks| && b.front < b.size && b.tail < b.size && |b.data| == b.size {
      var i :| 0 <= i < |s.blocks| && s.blocks[i] == b;
      assert BlockOk(s.blocks[i], g.views[i]);
    }
  }

  lemma TailNext(s: State, g: Ghost)
    requires RingOk(s, g)
    ensures s.blocks[s.tailBlock].next == g.ring[Succ(g.k, |g.ring|)]
    ensures s.blocks[s.frontBlock].next == g.ring[Succ(0, |g.ring|)]
    ensures Succ(g.k, |g.ring|) == 0 || g.ring[Succ(g.k, |g.ring|)] != s.frontBlock
  {
    assert Linked(s.blocks, g.ring, g.k) && Linked(s.blocks, g.ring, 0);
  }

  // The ring and the chain of next pointers are as before.
  ghost predicate SameRing(s: State, s': State, g: Ghost, g': Ghost) {
    && |s.blocks| <= |s'.blocks| == |g'.views|
    && (forall b | 0 <= b < |s.blocks| :: s'.blocks[b].next == s.blocks[b].next)
    && g'.ring == g.ring && g'.k == g.k
    && s'.frontBlock == s.frontBlock && s'.tailBlock == s.tailBlock
  }

  lemma RingKept(s: State, s': State, g: Ghost, g': Ghost)
    requires RingOk(s, g) && SameRing(s, s', g, g')
    ensures RingOk(s', g')
  {
    forall i | 0 <= i < |g.ring| ensures Linked(s'.blocks, g'.ring, i) { assert Linked(s.blocks, g.ring, i); }
  }

  // The live elements are as before.
  ghost predicate SameItems(s: State, s': State, g: Ghost, g': Ghost)
    requires |s.blocks| <= |g.views| && |s.blocks| <= |s'.blocks| <= |g'.views|
  {
    forall b | 0 <= b < |s.blocks| ::
      s'.blocks[b].size == s.blocks[b].size && g'.views[b].items == g.views[b].items
  }

  lemma ItemsKept(s: State, s': State, g: Ghost, g': Ghost)
    requires RingOk(s, g) && RingOk(s', g') && SameRing(s, s', g, g') && SameItems(s, s', g, g')
    requires Advancing(s'.producer) == Advancing(s.producer) && ItemsOk(s, g)
    ensures ItemsOk(s', g')
  {
    assert forall i | 0 <= i < |g.ring| :: Items(g', i) == Items(g, i);
  }

  lemma ContentKept(s: State, s': State, g: Ghost, g': Ghost)
    requires RingOk(s, g) && RingOk(s', g') && SameRing(s, s', g, g') && SameItems(s, s', g, g')
    requires s'.enqueued == s.enqueued && s'.dequeued == s.dequeued && ContentOk(s, g)
    ensures ContentOk(s', g')
  {
    ConcatFrame(g.ring[..g.k + 1], g.views, g'.views);
  }

  // One block and its view are replaced.
  lemma BlocksKept(s: State, s': State, g: Ghost, g': Ghost, b: nat)
    requires |g.views| == |s.blocks| == |s'.blocks| == |g'.views| && BlocksOk(s, g) && b < |s.blocks|
    requires s'.blocks == s.blocks[b := s'.blocks[b]] && g'.views == g.views[b := g'.views[b]]
    requires s'.blocks[b].size == s.blocks[b].size && s'.blocks[b].next < |s.blocks| && s'.largest == s.largest
    requires BlockOk(s'.blocks[b], g'.views[b])
    ensures BlocksOk(s', g')
  {
    hide BlockOk;
  }

  // Producer steps leave the consumer's side standing: the front block's view only grows.
  ghost predicate Behind(s: State, s': State, g: Ghost, g': Ghost)
    requires RingOk(s, g) && RingOk(s', g')
  {
    && s'.consumer == s.consumer && s'.frontBlock == s.frontBlock && g.k <= g'.k
    && (g.k > 0 ==> g'.ring[1] == g.ring[1])
    && g'.views[s.frontBlock].known == g.views[s.frontBlock].known
    && g.views[s.frontBlock].items <= g'.views[s.frontBlock].items
    && (g.k > 0 ==>
          && g'.views[s.frontBlock].items == g.views[s.frontBlock].items
          && g'.views[g.ring[1]].known == g.views[g.ring[1]].known)
  }

  lemma ConsumerStands(s: State, s': State, g: Ghost, g': Ghost)
    requires RingOk(s, g) && RingOk(s', g') && Behind(s, s', g, g') && ConsumerOk(s, g)
    ensures ConsumerOk(s', g')
  {
  }

  // A producer step that changes no live element.
  lemma QuietProducerStep(s: State, s': State, g: Ghost, g': Ghost)
    requires Inv(s, g) && SameRing(s, s', g, g') && |s.blocks| == |s'.blocks| && SameItems(s, s', g, g')
    requires Advancing(s'.producer) == Advancing(s.producer) && s'.consumer == s.consumer
    requires s'.enqueued == s.enqueued && s'.dequeued == s.dequeued
    requires forall b | 0 <= b < |s.blocks| :: g'.views[b].known == g.views[b].known
    ensures RingOk(s', g') && ItemsOk(s', g') && ContentOk(s', g') && ConsumerOk(s', g')
  {
    hide BlockOk, ItemsOk, ContentOk, ConsumerOk, ProducerOk;
    RingKept(s, s', g, g');
    ItemsKept(s, s', g, g');
    ContentKept(s, s', g, g');
    ConsumerStands(s, s', g, g');
  }

  lemma RoomTestAt(s: State, g: Ghost, b: nat)
    requires |g.views| == |s.blocks| && BlocksOk(s, g) && b < |s.blocks|
    ensures BlockOk(s.blocks[b], g.views[b])
    ensures var b, v := s.blocks[b], g.views[b];
            && (Wrap(b.tail + 1, b.size) != b.localFront <==> HasRoom(b, v))
            && (Wrap(b.tail + 1, b.size) != b.front <==> |v.items| + 1 < b.size)
            && (b.front == b.tail <==> v.items == [])
            && (b.front == b.localTail <==> v.known == 0)
  {
    RoomTest(s.blocks[b], g.views[b]);
  }

  lemma StartOwn(s: State, g: Ghost, e: Event)
    requires Inv(s, g) && Enabled(s) && e.Produce? && (s.producer.PIdle? || s.producer.PStart?)
    ensures var s', g' := Step(s, e), StepGhost(s, g, e);
            RingOk(s', g') && BlocksOk(s', g') && ProducerOk(s', g')
  {
    hide BlockOk, ItemsOk, ContentOk, ConsumerOk;
    var s', g' := Step(s, e), StepGhost(s, g, e);
    var t := s.tailBlock;
    RoomTestAt(s, g, t);
    RingKept(s, s', g, g');
  }

  lemma StartPreserves(s: State, g: Ghost, e: Event)
    requires Inv(s, g) && Enabled(s) && e.Produce? && (s.producer.PIdle? || s.producer.PStart?)
    ensures Inv(Step(s, e), StepGhost(s, g, e))
  {
    hide BlockOk, BlocksOk, ItemsOk, ContentOk, ConsumerOk, ProducerOk;
    var s', g' := Step(s, e), StepGhost(s, g, e);
    StartOwn(s, g, e);
    QuietProducerStep(s, s', g, g');
  }

  lemma LoadFrontBlockOwn(s: State, g: Ghost, e: Event)
    requires Inv(s, g) && Enabled(s) && e.Produce?
    requires s.producer.PLoadFrontBlock? || (s.producer.PAllocate? && !e.luck)
    ensures var s', g' := Step(s, e), StepGhost(s, g, e);
            RingOk(s', g') && BlocksOk(s', g') && ProducerOk(s', g')
  {
    hide BlockOk, ItemsOk, ContentOk, ConsumerOk;
    var s', g' := Step(s, e), StepGhost(s, g, e);
    TailNext(s, g);
    RingKept(s, s', g, g');
  }

  lemma LoadFrontBlockPreserves(s: State, g: Ghost, e: Event)
    requires Inv(s, g) && Enabled(s) && e.Produce?
    requires s.producer.PLoadFrontBlock? || (s.producer.PAllocate? && !e.luck)
    ensures Inv(Step(s, e), StepGhost(s, g, e))
  {
    hide BlockOk, BlocksOk, ItemsOk, ContentOk, ConsumerOk, ProducerOk;
    var s', g' := Step(s, e), StepGhost(s, g, e);
    LoadFrontBlockOwn(s, g, e);
    QuietProducerStep(s, s', g, g');
  }

  lemma LoadFrontOwn(s: State, g: Ghost, e: Event)
    requires Inv(s, g) && Enabled(s) && e.Produce? && s.producer.PLoadFront?
    ensures var s', g' := Step(s, e), StepGhost(s, g, e);
            RingOk(s', g') && BlocksOk(s', g') && ProducerOk(s', g')
  {
    hide BlockOk, ItemsOk, ContentOk, ConsumerOk;
    var s', g' := Step(s, e), StepGhost(s, g, e);
    var t := s.tailBlock;
    RoomTestAt(s, g, t);
    NoticeOk(s.blocks[t], g.views[t]);
    RingKept(s, s', g, g');
    BlocksKept(s, s', g, g', t);
  }

  lemma LoadFrontPreserves(s: State, g: Ghost, e: Event)
    requires Inv(s, g) && Enabled(s) && e.Produce? && s.producer.PLoadFront?
    ensures Inv(Step(s, e), StepGhost(s, g, e))
  {
    hide BlockOk, BlocksOk, ItemsOk, ContentOk, ConsumerOk, ProducerOk;
    var s', g' := Step(s, e), StepGhost(s, g, e);
    LoadFrontOwn(s, g, e);
    QuietProducerStep(s, s', g, g');
  }

  lemma WriteOwn(s: State, g: Ghost, e: Event)
    requires Inv(s, g) && Enabled(s) && e.Produce? && s.producer.PWrite?
    ensures var s', g' := Step(s, e), StepGhost(s, g, e);
            RingOk(s', g') && BlocksOk(s', g') && ProducerOk(s', g')
  {
    hide BlockOk, ItemsOk, ContentOk, ConsumerOk;
    var s', g' := Step(s, e), StepGhost(s, g, e);
    var t := s.tailBlock;
    RoomTestAt(s, g, t);
    WriteOk(s.blocks[t], g.views[t], s.producer.x);
    RingKept(s, s', g, g');
    BlocksKept(s, s', g, g', t);
  }

  lemma WritePreserves(s: State, g: Ghost, e: Event)
    requires Inv(s, g) && Enabled(s) && e.Produce? && s.producer.PWrite?
    ensures Inv(Step(s, e), StepGhost(s, g, e))
  {
    hide BlockOk, BlocksOk, ItemsOk, ContentOk, ConsumerOk, ProducerOk;
    var s', g' := Step(s, e), StepGhost(s, g, e);
    WriteOwn(s, g, e);
    QuietProducerStep(s, s', g, g');
  }

  lemma LookAheadOwn(s: State, g: Ghost, e: Event)
    requires Inv(s, g) && Enabled(s) && e.Produce? && s.producer.PLookAhead?
    ensures var s', g' := Step(s, e), StepGhost(s, g, e);
            RingOk(s', g') && BlocksOk(s', g') && ProducerOk(s', g')
  {
    hide BlockOk, ItemsOk, ContentOk, ConsumerOk;
    var s', g' := Step(s, e), StepGhost(s, g, e);
    var a := g.ring[g.k + 1];
    TailNext(s, g);
    RoomTestAt(s, g, a);
    NoticeOk(s.blocks[a], g.views[a]);
    RingKept(s, s', g, g');
    BlocksKept(s, s', g, g', a);
  }

  lemma LookAheadPreserves(s: State, g: Ghost, e: Event)
    requires Inv(s, g) && Enabled(s) && e.Produce? && s.producer.PLookAhead?
    ensures Inv(Step(s, e), StepGhost(s, g, e))
  {
    hide BlockOk, BlocksOk, ItemsOk, ContentOk, ConsumerOk, ProducerOk;
    var s', g' := Step(s, e), StepGhost(s, g, e);
    LookAheadOwn(s, g, e);
    TailNext(s, g);
    QuietProducerStep(s, s', g, g');
  }

  lemma WriteAheadOwn(s: State, g: Ghost, e: Event)
    requires Inv(s, g) && Enabled(s) && e.Produce? && s.producer.PWriteAhead?
    ensures var s', g' := Step(s, e), StepGhost(s, g, e);
            RingOk(s', g') && BlocksOk(s', g') && ProducerOk(s', g')
  {
    hide BlockOk, ContentOk, ConsumerOk;
    var s', g' := Step(s, e), StepGhost(s, g, e);
    var a := g.ring[g.k + 1];
    TailNext(s, g);
    assert Items(g, g.k + 1) == [];
    RoomTestAt(s, g, a);
    WriteOk(s.blocks[a], g.views[a], s.producer.x);
    RingKept(s, s', g, g');
    BlocksKept(s, s', g, g', a);
  }

  lemma WriteAheadPreserves(s: State, g: Ghost, e: Event)
    requires Inv(s, g) && Enabled(s) && e.Produce? && s.producer.PWriteAhead?
    ensures Inv(Step(s, e), StepGhost(s, g, e))
  {
    hide BlockOk, BlocksOk, ItemsOk, ContentOk, ConsumerOk, ProducerOk;
    var s', g' := Step(s, e), StepGhost(s, g, e);
    WriteAheadOwn(s, g, e);
    TailNext(s, g);
    QuietProducerStep(s, s', g, g');
  }

  lemma AppendToTail(g: Ghost, g': Ghost, x: Elem)
    requires g.k < |g.ring| && g'.ring == g.ring && g'.k == g.k && InViews(g.ring, g.views)
    requires forall i, j | 0 <= i < j < |g.ring| :: g.ring[i] != g.ring[j]
    requires |g'.views| == |g.views|
    requires g'.views == g.views[g.ring[g.k] := g'.views[g.ring[g.k]]]
    requires g'.views[g.ring[g.k]].items == g.views[g.ring[g.k]].items + [x]
    ensures Concat(g'.ring[..g.k + 1], g'.views) == Concat(g.ring[..g.k + 1], g.views) + [x]
  {
    var before, t := g.ring[..g.k], g.ring[g.k];
    assert g.ring[..g.k + 1] == before + [t];
    ConcatSnoc(before, t, g.views);
    ConcatSnoc(before, t, g'.views);
    ConcatFrame(before, g.views, g'.views);
  }

  lemma PublishItems(s: State, s': State, g: Ghost, g': Ghost, x: Elem)
    requires RingOk(s, g) && RingOk(s', g') && SameRing(s, s', g, g') && ItemsOk(s, g)
    requires !Advancing(s.producer) && !Advancing(s'.producer) && |s'.blocks| == |s.blocks|
    requires forall b | 0 <= b < |s.blocks| :: s'.blocks[b].size == s.blocks[b].size
    requires g'.views == g.views[s.tailBlock := g'.views[s.tailBlock]]
    requires g'.views[s.tailBlock].items == g.views[s.tailBlock].items + [x]
    ensures ItemsOk(s', g')
  {
    assert forall i | 0 <= i < |g.ring| && i != g.k :: Items(g', i) == Items(g, i);
    assert Items(g', g.k) == Items(g, g.k) + [x];
  }

  lemma PublishContent(s: State, s': State, g: Ghost, g': Ghost, x: Elem)
    requires RingOk(s, g) && RingOk(s', g') && SameRing(s, s', g, g') && ContentOk(s, g)
    requires |s'.blocks| == |s.blocks| && g'.views == g.views[s.tailBlock := g'.views[s.tailBlock]]
    requires g'.views[s.tailBlock].items == g.views[s.tailBlock].items + [x]
    requires s'.enqueued == s.enqueued + [x] && s'.dequeued == s.dequeued
    ensures ContentOk(s', g')
  {
    AppendToTail(g, g', x);
  }

  lemma PublishOwn(s: State, g: Ghost, e: Event)
    requires Inv(s, g) && Enabled(s) && e.Produce? && s.producer.PPublish?
    ensures var s', g' := Step(s, e), StepGhost(s, g, e);
            RingOk(s', g') && BlocksOk(s', g') && ProducerOk(s', g')
  {
    hide BlockOk, ItemsOk, ContentOk, ConsumerOk;
    var s', g' := Step(s, e), StepGhost(s, g, e);
    var t := s.tailBlock;
    RoomTestAt(s, g, t);
    PublishOk(s.blocks[t], g.views[t], s.producer.x);
    RingKept(s, s', g, g');
    BlocksKept(s, s', g, g', t);
  }

  lemma PublishPreserves(s: State, g: Ghost, e: Event)
    requires Inv(s, g) && Enabled(s) && e.Produce? && s.producer.PPublish?
    ensures Inv(Step(s, e), StepGhost(s, g, e))
  {
    hide BlockOk, BlocksOk, ItemsOk, ContentOk, ConsumerOk, ProducerOk;
    var s', g' := Step(s, e), StepGhost(s, g, e);
    PublishOwn(s, g, e);
    PublishItems(s, s', g, g', s.producer.x);
    PublishContent(s, s', g, g', s.producer.x);
    ConsumerStands(s, s', g, g');
  }

  lemma PublishAheadItems(s: State, s': State, g: Ghost, g': Ghost, a: nat)
    requires RingOk(s, g) && RingOk(s', g') && SameRing(s, s', g, g') && ItemsOk(s, g)
    requires g.k + 1 < |g.ring| && a == g.ring[g.k + 1]
    requires !Advancing(s.producer) && Advancing(s'.producer) && |s'.blocks| == |s.blocks|
    requires forall b | 0 <= b < |s.blocks| :: s'.blocks[b].size == s.blocks[b].size
    requires g'.views == g.views[a := g'.views[a]]
    ensures ItemsOk(s', g')
  {
    assert forall i | 0 <= i < |g.ring| && i != g.k + 1 :: Items(g', i) == Items(g, i);
  }

  lemma PublishAheadRing(s: State, g: Ghost)
    requires RingOk(s, g) && ProducerOk(s, g) && s.producer.PPublishAhead?
    ensures g.k + 1 < |g.ring| && s.blocks[s.tailBlock].next == g.ring[g.k + 1] != s.frontBlock
  {
    TailNext(s, g);
  }

  lemma PublishAheadOwn(s: State, g: Ghost, e: Event)
    requires Inv(s, g) && Enabled(s) && e.Produce? && s.producer.PPublishAhead?
    ensures var s', g' := Step(s, e), StepGhost(s, g, e);
            RingOk(s', g') && BlocksOk(s', g') && ProducerOk(s', g')
  {
    hide BlockOk, ContentOk, ConsumerOk;
    var s', g' := Step(s, e), StepGhost(s, g, e);
    var a := g.ring[g.k + 1];
    TailNext(s, g);
    assert Items(g, g.k + 1) == [];
    RoomTestAt(s, g, a);
    PublishOk(s.blocks[a], g.views[a], s.producer.x);
    RingKept(s, s', g, g');
    BlocksKept(s, s', g, g', a);
  }

  lemma PublishAheadPreserves(s: State, g: Ghost, e: Event)
    requires Inv(s, g) && Enabled(s) && e.Produce? && s.producer.PPublishAhead?
    ensures Inv(Step(s, e), StepGhost(s, g, e))
  {
    hide BlockOk, BlocksOk, ItemsOk, ContentOk, ConsumerOk, ProducerOk;
    var s', g' := Step(s, e), StepGhost(s, g, e);
    PublishAheadOwn(s, g, e);
    PublishAheadRing(s, g);
    var a := g.ring[g.k + 1];
    PublishAheadItems(s, s', g, g', a);
    PublishAheadContent(s, s', g, g', a);
    ConsumerStands(s, s', g, g');
  }

  lemma PublishAheadContent(s: State, s': State, g: Ghost, g': Ghost, a: nat)
    requires RingOk(s, g) && RingOk(s', g') && SameRing(s, s', g, g') && ContentOk(s, g)
    requires g.k + 1 < |g.ring| && a == g.ring[g.k + 1] && |s'.blocks| == |s.blocks|
    requires g'.views == g.views[a := g'.views[a]]
    requires s'.enqueued == s.enqueued && s'.dequeued == s.dequeued
    ensures ContentOk(s', g')
  {
    ConcatFrame(g.ring[..g.k + 1], g.views, g'.views);
  }

  lemma AdvanceRing(s: State, g: Ghost, s': State, g': Ghost)
    requires RingOk(s, g) && g.k + 1 < |g.ring|
    requires s'.blocks == s.blocks && g' == g.(k := g.k + 1) && s'.frontBlock == s.frontBlock
    requires s'.tailBlock == g.ring[g.k + 1]
    ensures RingOk(s', g')
  {
    assert forall i | 0 <= i < |g.ring| :: Linked(s'.blocks, g'.ring, i) == Linked(s.blocks, g.ring, i);
  }

  lemma AdvanceItems(s: State, g: Ghost, s': State, g': Ghost)
    requires RingOk(s, g) && g.k + 1 < |g.ring| && RingOk(s', g') && ItemsOk(s, g) && TailFull(s, g)
    requires s'.blocks == s.blocks && g' == g.(k := g.k + 1) && s'.producer.PIdle?
    requires Items(g, g.k + 1) != []
    ensures ItemsOk(s', g')
  {
    assert forall i | 0 <= i < |g.ring| :: Items(g', i) == Items(g, i);
  }

  lemma AdvancePreserves(s: State, g: Ghost, e: Event)
    requires Inv(s, g) && Enabled(s) && e.Produce? && Advancing(s.producer)
    ensures Inv(Step(s, e), StepGhost(s, g, e))
  {
    hide BlockOk, ItemsOk, ConsumerOk;
    var s', g' := Step(s, e), StepGhost(s, g, e);
    var a := g.ring[g.k + 1];
    TailNext(s, g);
    AdvanceRing(s, g, s', g');
    AdvanceItems(s, g, s', g');
    assert g.ring[..g.k + 2] == g.ring[..g.k + 1] + [a];
    ConcatSnoc(g.ring[..g.k + 1], a, g.views);
    ConsumerStands(s, s', g, g');
  }

  lemma NewBlockOk(size: nat, x: Elem, next: nat)
    requires size >= 2
    ensures BlockOk(NewBlock(size, x, next), View([x], 1, 0))
  {
  }

  lemma AllocatePreserves(s: State, g: Ghost, e: Event)
    requires Inv(s, g) && Enabled(s) && e.Produce? && s.producer.PAllocate? && e.luck
    ensures Inv(Step(s, e), StepGhost(s, g, e))
  {
    var s', g' := Step(s, e), StepGhost(s, g, e);
    var b := |s.blocks|;
    NewBlockOk(s'.largest, s.producer.x, s'.blocks[b].next);
    hide BlockOk, ItemsOk, ConsumerOk, ContentOk;
    TailNext(s, g);
    RingKept(s, s', g, g');
    ItemsKept(s, s', g, g');
    ContentKept(s, s', g, g');
    ConsumerStands(s, s', g, g');
    assert b !in g.ring;
  }

  // ring' is ring with b put in after position k.
  ghost predicate Inserted(ring: seq<nat>, k: nat, b: nat, ring': seq<nat>) {
    && k < |ring| && |ring'| == |ring| + 1
    && (forall i | 0 <= i <= k :: ring'[i] == ring[i])
    && ring'[k + 1] == b
    && (forall i | k + 1 < i < |ring'| :: ring'[i] == ring[i - 1])
  }

  lemma InsertedSeq(ring: seq<nat>, k: nat, b: nat)
    requires k < |ring|
    ensures Inserted(ring, k, b, ring[..k + 1] + [b] + ring[k + 1..])
  {
  }

  lemma InsertedDistinct(ring: seq<nat>, k: nat, b: nat, ring': seq<nat>)
    requires Inserted(ring, k, b, ring') && b !in ring
    requires forall i, j | 0 <= i < j < |ring| :: ring[i] != ring[j]
    ensures forall i, j | 0 <= i < j < |ring'| :: ring'[i] != ring'[j]
  {
    forall i, j | 0 <= i < j < |ring'| ensures ring'[i] != ring'[j] {
      var i0, j0 := if i <= k then i else i - 1, if j <= k then j else j - 1;
      if i != k + 1 { assert ring'[i] == ring[i0] && ring[i0] in ring; }
      if j != k + 1 { assert ring'[j] == ring[j0] && ring[j0] in ring; }
    }
  }

  lemma LinkRing(s: State, g: Ghost, s': State, g': Ghost, b: nat)
    requires RingOk(s, g) && b < |s.blocks| && b !in g.ring
    requires s.blocks[b].next == g.ring[Succ(g.k, |g.ring|)]
    requires s'.frontBlock == s.frontBlock && s'.tailBlock == s.tailBlock
    requires s'.blocks == s.blocks[s.tailBlock := s.blocks[s.tailBlock].(next := b)]
    requires g'.views == g.views && g'.k == g.k && Inserted(g.ring, g.k, b, g'.ring)
    ensures RingOk(s', g')
  {
    var n := |g.ring|;
    InsertedDistinct(g.ring, g.k, b, g'.ring);
    assert forall i | 0 <= i < n + 1 :: g'.ring[i] < |s.blocks|;
    forall i | 0 <= i < n + 1 ensures Linked(s'.blocks, g'.ring, i) {
      assert i != g.k ==> g'.ring[i] != g'.ring[g.k];
      if i < g.k {
        assert Linked(s.blocks, g.ring, i);
      } else if i > g.k + 1 {
        assert Linked(s.blocks, g.ring, i - 1) && g'.ring[i] == g.ring[i - 1];
      }
    }
  }

  lemma LinkItems(s: State, g: Ghost, s': State, g': Ghost, b: nat)
    requires RingOk(s, g) && RingOk(s', g') && ItemsOk(s, g)
    requires !Advancing(s.producer) && Advancing(s'.producer) && |s'.blocks| == |s.blocks|
    requires forall c | 0 <= c < |s.blocks| :: s'.blocks[c].size == s.blocks[c].size
    requires g'.views == g.views && g'.k == g.k && Inserted(g.ring, g.k, b, g'.ring)
    ensures ItemsOk(s', g')
  {
    forall i | g.k + 1 < i < |g'.ring| ensures Items(g', i) == [] {
      assert Items(g, i - 1) == [];
    }
    assert forall i | 0 <= i <= g.k :: g'.ring[i] == g.ring[i];
    assert forall i | 0 <= i <= g.k :: Items(g', i) == Items(g, i);
  }

  lemma LinkContent(s: State, g: Ghost, s': State, g': Ghost, b: nat)
    requires RingOk(s, g) && RingOk(s', g') && ContentOk(s, g)
    requires g'.views == g.views && g'.k == g.k && Inserted(g.ring, g.k, b, g'.ring)
    requires s'.enqueued == s.enqueued && s'.dequeued == s.dequeued
    ensures ContentOk(s', g')
  {
    assert g'.ring[..g.k + 1] == g.ring[..g.k + 1];
  }

  lemma RelinkBlocks(s: State, s': State, g: Ghost, g': Ghost, b: nat)
    requires |g.views| == |s.blocks| && g'.views == g.views && BlocksOk(s, g) && b < |s.blocks|
    requires |s'.blocks| == |s.blocks| && s'.blocks == s.blocks[b := s.blocks[b].(next := s'.blocks[b].next)]
    requires s'.blocks[b].next < |s.blocks| && s'.largest == s.largest
    ensures BlocksOk(s', g')
  {
    BlocksKept(s, s', g, g', b);
  }

  lemma LinkConsumer(s: State, g: Ghost, s': State, g': Ghost, b: nat)
    requires RingOk(s, g) && RingOk(s', g') && ConsumerOk(s, g)
    requires g'.views == g.views && g'.k == g.k && Inserted(g.ring, g.k, b, g'.ring)
    requires s'.consumer == s.consumer && s'.frontBlock == s.frontBlock
    ensures ConsumerOk(s', g')
  {
    ConsumerStands(s, s', g, g');
  }

  lemma LinkProducer(s: State, g: Ghost, s': State, g': Ghost, b: nat)
    requires RingOk(s, g) && RingOk(s', g') && ProducerOk(s, g) && s.producer.PLink? && b == s.producer.added
    requires g'.views == g.views && g'.k == g.k && Inserted(g.ring, g.k, b, g'.ring)
    requires s'.tailBlock == s.tailBlock && s'.producer == PAdvanceNew(s.producer.x, b)
    requires |s'.blocks| == |s.blocks| && s'.blocks[s.tailBlock].size == s.blocks[s.tailBlock].size
    ensures ProducerOk(s', g')
  {
  }

  lemma LinkOwn(s: State, g: Ghost, e: Event)
    requires Inv(s, g) && Enabled(s) && e.Produce? && s.producer.PLink?
    ensures var s', g' := Step(s, e), StepGhost(s, g, e);
            RingOk(s', g') && BlocksOk(s', g') && ProducerOk(s', g')
  {
    hide Inserted, BlockOk, ItemsOk, ContentOk, ConsumerOk;
    var s', g' := Step(s, e), StepGhost(s, g, e);
    var t, b := s.tailBlock, s.producer.added;
    TailNext(s, g);
    InsertedSeq(g.ring, g.k, b);
    LinkRing(s, g, s', g', b);
    RelinkBlocks(s, s', g, g', t);
    LinkProducer(s, g, s', g', b);
  }

  lemma LinkPreserves(s: State, g: Ghost, e: Event)
    requires Inv(s, g) && Enabled(s) && e.Produce? && s.producer.PLink?
    ensures Inv(Step(s, e), StepGhost(s, g, e))
  {
    hide Inserted, BlockOk, BlocksOk, ItemsOk, ContentOk, ConsumerOk, ProducerOk;
    var s', g' := Step(s, e), StepGhost(s, g, e);
    LinkOwn(s, g, e);
    var b := s.producer.added;
    InsertedSeq(g.ring, g.k, b);
    LinkItems(s, g, s', g', b);
    LinkContent(s, g, s', g', b);
    LinkConsumer(s, g, s', g', b);
  }

  // ---------------------------------------------------------------- consumer steps

  // Consumer steps leave the producer's side standing: only the front block changes, and there
  // every element taken is one more dequeue the producer has not noticed.
  ghost predicate Aside(s: State, s': State, g: Ghost, g': Ghost)
    requires RingOk(s, g) && RingOk(s', g')
  {
    && s'.producer == s.producer && |s'.blocks| == |s.blocks|
    && g'.ring == g.ring && g'.k == g.k && s'.tailBlock == s.tailBlock && s'.frontBlock == s.frontBlock
    && forall b | 0 <= b < |s.blocks| ::
         var a, a', v, v' := s.blocks[b], s'.blocks[b], g.views[b], g'.views[b];
         && a'.tail == a.tail && a'.data == a.data && a'.size == a.size && a'.next == a.next
         && |v'.items| + v'.stale == |v.items| + v.stale
         && (b != s.frontBlock ==> v'.items == v.items && v'.stale == v.stale)
  }

  lemma ProducerStands(s: State, s': State, g: Ghost, g': Ghost)
    requires RingOk(s, g) && RingOk(s', g') && Aside(s, s', g, g') && ProducerOk(s, g)
    ensures ProducerOk(s', g')
  {
    TailNext(s, g);
  }

  // A consumer step that takes no element.
  lemma QuietConsumerStep(s: State, s': State, g: Ghost, g': Ghost)
    requires Inv(s, g) && SameRing(s, s', g, g') && |s.blocks| == |s'.blocks| && SameItems(s, s', g, g')
    requires s'.producer == s.producer && s'.enqueued == s.enqueued && s'.dequeued == s.dequeued
    requires forall b | 0 <= b < |s.blocks| ::
               s'.blocks[b].tail == s.blocks[b].tail && s'.blocks[b].data == s.blocks[b].data
               && g'.views[b].stale == g.views[b].stale
    ensures RingOk(s', g') && ItemsOk(s', g') && ContentOk(s', g') && ProducerOk(s', g')
  {
    hide BlockOk, BlocksOk, ItemsOk, ContentOk, ConsumerOk, ProducerOk;
    RingKept(s, s', g, g');
    ItemsKept(s, s', g, g');
    ContentKept(s, s', g, g');
    ProducerStands(s, s', g, g');
  }

  lemma ConsumerLookOwn(s: State, g: Ghost, e: Event)
    requires Inv(s, g) && Enabled(s) && e.Consume?
    requires var c := s.consumer; c.CIdle? || c.CStart? || c.CRead?
    ensures var s', g' := Step(s, e), StepGhost(s, g, e);
            RingOk(s', g') && BlocksOk(s', g') && ConsumerOk(s', g')
  {
    hide BlockOk, ItemsOk, ContentOk, ProducerOk;
    var s', g' := Step(s, e), StepGhost(s, g, e);
    var f := s.frontBlock;
    RoomTestAt(s, g, f);
    if s.consumer.CRead? { TakeOk(s.blocks[f], g.views[f]); }
    RingKept(s, s', g, g');
  }

  lemma ConsumerLookPreserves(s: State, g: Ghost, e: Event)
    requires Inv(s, g) && Enabled(s) && e.Consume?
    requires var c := s.consumer; c.CIdle? || c.CStart? || c.CRead?
    ensures Inv(Step(s, e), StepGhost(s, g, e))
  {
    hide BlockOk, BlocksOk, ItemsOk, ContentOk, ConsumerOk, ProducerOk;
    var s', g' := Step(s, e), StepGhost(s, g, e);
    ConsumerLookOwn(s, g, e);
    QuietConsumerStep(s, s', g, g');
  }

  lemma MissWasEmpty(s: State, g: Ghost)
    requires RingOk(s, g) && ConsumerOk(s, g) && s.consumer.CLoadTailBlock? && s.frontBlock == s.tailBlock
    ensures s.consumer.wasEmpty
  {
    assert g.ring[0] == g.ring[g.k];
  }

  lemma ConsumerTurnOwn(s: State, g: Ghost, e: Event)
    requires Inv(s, g) && Enabled(s) && e.Consume? && (s.consumer.CLoadTailBlock? || s.consumer.CLoadNext?)
    ensures var s', g' := Step(s, e), StepGhost(s, g, e);
            RingOk(s', g') && BlocksOk(s', g') && ConsumerOk(s', g')
  {
    hide BlockOk, ItemsOk, ContentOk, ProducerOk;
    var s', g' := Step(s, e), StepGhost(s, g, e);
    TailNext(s, g);
    RingKept(s, s', g, g');
  }

  lemma ConsumerTurnPreserves(s: State, g: Ghost, e: Event)
    requires Inv(s, g) && Enabled(s) && e.Consume? && (s.consumer.CLoadTailBlock? || s.consumer.CLoadNext?)
    ensures Inv(Step(s, e), StepGhost(s, g, e))
  {
    hide BlockOk, BlocksOk, ItemsOk, ContentOk, ConsumerOk, ProducerOk;
    var s', g' := Step(s, e), StepGhost(s, g, e);
    ConsumerTurnOwn(s, g, e);
    if s.consumer.CLoadTailBlock? && s.frontBlock == s.tailBlock { MissWasEmpty(s, g); }
    QuietConsumerStep(s, s', g, g');
  }

  lemma OnlyBlockEmpty(s: State, g: Ghost)
    requires RingOk(s, g) && ContentOk(s, g) && g.k == 0 && g.views[s.frontBlock].items == []
    ensures s.enqueued == s.dequeued
  {
    assert g.ring[..1] == [] + [g.ring[0]];
    ConcatSnoc([], g.ring[0], g.views);
  }

  lemma ConsumerLoadOwn(s: State, g: Ghost, e: Event)
    requires Inv(s, g) && Enabled(s) && e.Consume? && (s.consumer.CLoadTail? || s.consumer.CReloadTail?)
    ensures var s', g' := Step(s, e), StepGhost(s, g, e);
            RingOk(s', g') && BlocksOk(s', g') && ConsumerOk(s', g')
  {
    hide BlockOk, ItemsOk, ProducerOk;
    var s', g' := Step(s, e), StepGhost(s, g, e);
    var f := s.frontBlock;
    RoomTestAt(s, g, f);
    NoticeOk(s.blocks[f], g.views[f]);
    if g.k == 0 && g.views[f].items == [] { OnlyBlockEmpty(s, g); }
    RingKept(s, s', g, g');
    BlocksKept(s, s', g, g', f);
  }

  lemma ConsumerLoadPreserves(s: State, g: Ghost, e: Event)
    requires Inv(s, g) && Enabled(s) && e.Consume? && (s.consumer.CLoadTail? || s.consumer.CReloadTail?)
    ensures Inv(Step(s, e), StepGhost(s, g, e))
  {
    hide BlockOk, BlocksOk, ItemsOk, ContentOk, ConsumerOk, ProducerOk;
    var s', g' := Step(s, e), StepGhost(s, g, e);
    ConsumerLoadOwn(s, g, e);
    QuietConsumerStep(s, s', g, g');
  }

  lemma ConsumerLoadNextOwn(s: State, g: Ghost, e: Event)
    requires Inv(s, g) && Enabled(s) && e.Consume? && s.consumer.CLoadNextTail?
    ensures var s', g' := Step(s, e), StepGhost(s, g, e);
            RingOk(s', g') && BlocksOk(s', g') && ConsumerOk(s', g')
  {
    hide BlockOk, ContentOk, ProducerOk;
    var s', g' := Step(s, e), StepGhost(s, g, e);
    var nb := s.consumer.nextBlock;
    assert Items(g, 1) != [];
    RoomTestAt(s, g, nb);
    NoticeOk(s.blocks[nb], g.views[nb]);
    RingKept(s, s', g, g');
    BlocksKept(s, s', g, g', nb);
  }

  lemma ConsumerLoadNextPreserves(s: State, g: Ghost, e: Event)
    requires Inv(s, g) && Enabled(s) && e.Consume? && s.consumer.CLoadNextTail?
    ensures Inv(Step(s, e), StepGhost(s, g, e))
  {
    hide BlockOk, BlocksOk, ItemsOk, ContentOk, ConsumerOk, ProducerOk;
    var s', g' := Step(s, e), StepGhost(s, g, e);
    ConsumerLoadNextOwn(s, g, e);
    QuietConsumerStep(s, s', g, g');
  }

  lemma TakeItems(s: State, s': State, g: Ghost, g': Ghost)
    requires RingOk(s, g) && RingOk(s', g') && SameRing(s, s', g, g') && ItemsOk(s, g)
    requires s'.producer == s.producer && |s'.blocks| == |s.blocks|
    requires forall b | 0 <= b < |s.blocks| :: s'.blocks[b].size == s.blocks[b].size
    requires g'.views == g.views[s.frontBlock := g'.views[s.frontBlock]]
    ensures ItemsOk(s', g')
  {
    assert forall i | 0 < i < |g.ring| :: Items(g', i) == Items(g, i);
  }

  lemma TakeFacts(s: State, g: Ghost, e: Event)
    requires RingOk(s, g) && ConsumerOk(s, g) && s.consumer.CPublish?
    ensures g.views[s.frontBlock].known > 0 && g.views[s.frontBlock].items != []
    ensures s.consumer.x == g.views[s.frontBlock].items[0]
  {
  }

  lemma ConsumerPublishOwn(s: State, g: Ghost, e: Event)
    requires Inv(s, g) && Enabled(s) && e.Consume? && s.consumer.CPublish?
    ensures var s', g' := Step(s, e), StepGhost(s, g, e);
            RingOk(s', g') && BlocksOk(s', g') && ConsumerOk(s', g')
  {
    hide BlockOk, ItemsOk, ContentOk, ProducerOk;
    var s', g' := Step(s, e), StepGhost(s, g, e);
    var f := s.frontBlock;
    RoomTestAt(s, g, f);
    TakeOk(s.blocks[f], g.views[f]);
    RingKept(s, s', g, g');
    BlocksKept(s, s', g, g', f);
  }

  lemma ConsumerPublishPreserves(s: State, g: Ghost, e: Event)
    requires Inv(s, g) && Enabled(s) && e.Consume? && s.consumer.CPublish?
    ensures Inv(Step(s, e), StepGhost(s, g, e))
  {
    hide BlockOk, BlocksOk, ItemsOk, ContentOk, ConsumerOk, ProducerOk;
    var s', g' := Step(s, e), StepGhost(s, g, e);
    ConsumerPublishOwn(s, g, e);
    TakeItems(s, s', g, g');
    TakeFacts(s, g, e);
    TakeContent(s, s', g, g');
    ProducerStands(s, s', g, g');
  }

  lemma TakeContent(s: State, s': State, g: Ghost, g': Ghost)
    requires RingOk(s, g) && RingOk(s', g') && SameRing(s, s', g, g') && ContentOk(s, g)
    requires |s'.blocks| == |s.blocks| && g'.views == g.views[s.frontBlock := g'.views[s.frontBlock]]
    requires var items := g.views[s.frontBlock].items;
             && items != [] && g'.views[s.frontBlock].items == items[1..]
             && s'.dequeued == s.dequeued + [items[0]] && s'.enqueued == s.enqueued
    ensures ContentOk(s', g')
  {
    var others := g.ring[..g.k + 1][1..];
    assert forall i | 0 <= i < |others| :: others[i] == g.ring[i + 1];
    ConcatFrame(others, g.views, g'.views);
    var items := g.views[s.frontBlock].items;
    assert items == [items[0]] + items[1..];
  }

  // The front block leaves the front of the ring and becomes its last, empty, block.
  lemma RotateRing(s: State, g: Ghost, s': State, g': Ghost)
    requires RingOk(s, g) && g.k > 0 && s'.blocks == s.blocks && s'.tailBlock == s.tailBlock
    requires g' == g.(ring := g.ring[1..] + [g.ring[0]], k := g.k - 1) && s'.frontBlock == g.ring[1]
    ensures RingOk(s', g')
    ensures forall i | 0 <= i < |g.ring| :: g'.ring[i] == g.ring[Succ(i, |g.ring|)]
  {
    var n := |g.ring|;
    assert forall i | 0 <= i < n :: g'.ring[i] == g.ring[Succ(i, n)];
    forall i | 0 <= i < n ensures Linked(s'.blocks, g'.ring, i) {
      assert Linked(s.blocks, g.ring, Succ(i, n));
    }
  }

  lemma RotateItems(s: State, g: Ghost, s': State, g': Ghost)
    requires RingOk(s, g) && RingOk(s', g') && ItemsOk(s, g) && g.k > 0 && Items(g, 0) == []
    requires s'.blocks == s.blocks && s'.producer == s.producer
    requires g'.views == g.views && g'.k == g.k - 1 && |g'.ring| == |g.ring|
    requires forall i | 0 <= i < |g.ring| :: g'.ring[i] == g.ring[Succ(i, |g.ring|)]
    ensures ItemsOk(s', g')
  {
    assert forall i | 0 <= i < |g.ring| :: Items(g', i) == Items(g, Succ(i, |g.ring|));
  }

  lemma RotateProducer(s: State, g: Ghost, s': State, g': Ghost)
    requires RingOk(s, g) && RingOk(s', g') && ProducerOk(s, g) && g.k > 0
    requires s'.blocks == s.blocks && s'.producer == s.producer && s'.tailBlock == s.tailBlock
    requires g'.views == g.views && g'.k == g.k - 1 && |g'.ring| == |g.ring|
    requires forall i | 0 <= i < |g.ring| :: g'.ring[i] == g.ring[Succ(i, |g.ring|)]
    ensures ProducerOk(s', g')
  {
    var n := |g.ring|;
    assert g'.ring[Succ(g'.k, n)] == g.ring[Succ(g.k, n)];
    if s.producer.PLink? {
      assert forall i | 0 <= i < n :: g'.ring[i] in g.ring;
    }
  }

  lemma ConsumerAdvancePreserves(s: State, g: Ghost, e: Event)
    requires Inv(s, g) && Enabled(s) && e.Consume? && s.consumer.CAdvance?
    ensures Inv(Step(s, e), StepGhost(s, g, e))
  {
    hide BlockOk, ItemsOk, ProducerOk;
    var s', g' := Step(s, e), StepGhost(s, g, e);
    RotateRing(s, g, s', g');
    RotateItems(s, g, s', g');
    RotateProducer(s, g, s', g');
    assert g'.ring[..g'.k + 1] == g.ring[..g.k + 1][1..];
  }

  lemma StepPreservesInv(s: State, g: Ghost, e: Event)
    requires Inv(s, g) && Enabled(s)
    ensures Inv(Step(s, e), StepGhost(s, g, e))
  {
    hide Inv, Step, StepGhost;
    if e.Produce? {
      match s.producer
      case PIdle => StartPreserves(s, g, e);
      case PStart(_, _) => StartPreserves(s, g, e);
      case PLoadFront(_, _) => LoadFrontPreserves(s, g, e);
      case PWrite(_) => WritePreserves(s, g, e);
      case PPublish(_) => PublishPreserves(s, g, e);
      case PLoadFrontBlock(_, _) => LoadFrontBlockPreserves(s, g, e);
      case PLookAhead(_) => LookAheadPreserves(s, g, e);
      case PWriteAhead(_) => WriteAheadPreserves(s, g, e);
      case PPublishAhead(_) => PublishAheadPreserves(s, g, e);
      case PAdvance(_) => AdvancePreserves(s, g, e);
      case PAllocate(_) =>
        if e.luck { AllocatePreserves(s, g, e); } else { LoadFrontBlockPreserves(s, g, e); }
      case PLink(_, _) => LinkPreserves(s, g, e);
      case PAdvanceNew(_, _) => AdvancePreserves(s, g, e);
    } else {
      match s.consumer
      case CIdle => ConsumerLookPreserves(s, g, e);
      case CStart => ConsumerLookPreserves(s, g, e);
      case CLoadTail => ConsumerLoadPreserves(s, g, e);
      case CRead => ConsumerLookPreserves(s, g, e);
      case CPublish(_) => ConsumerPublishPreserves(s, g, e);
      case CLoadTailBlock(_) => ConsumerTurnPreserves(s, g, e);
      case CReloadTail => ConsumerLoadPreserves(s, g, e);
      case CLoadNext => ConsumerTurnPreserves(s, g, e);
      case CLoadNextTail(_) => ConsumerLoadNextPreserves(s, g, e);
      case CAdvance(_) => ConsumerAdvancePreserves(s, g, e);
    }
  }

  // ---------------------------------------------------------------- every run

  // What the constructor leaves: a ring of empty blocks of one size, front and tail at the first.
  ghost predicate Init(s: State, size: nat) {
    && s.blocks != [] && size >= 1
    && (forall i | 0 <= i < |s.blocks| ::
          var b := s.blocks[i];
          b.front == b.localTail == b.tail == b.localFront == 0 && b.size == |b.data| == size && b.next == Succ(i, |s.blocks|))
    && s.frontBlock == s.tailBlock == 0 && s.largest == size && s.maxBlockSize >= 2
    && s.producer.PIdle? && s.consumer.CIdle? && s.enqueued == s.dequeued == [] && s.misses == []
  }

  ghost predicate Next(s: State, s': State) {
    Enabled(s) && exists e :: s' == Step(s, e)
  }

  ghost predicate Run(run: seq<State>, size: nat) {
    && run != [] && Init(run[0], size)
    && forall i | 0 < i < |run| :: Next(run[i - 1], run[i])
  }

  // The states of a queue whose blocks were built with at least two slots.
  ghost predicate Reachable(s: State) {
    exists run, size: nat :: size >= 2 && Run(run, size) && run[|run| - 1] == s
  }

  lemma InitInv(s: State, size: nat) returns (g: Ghost)
    requires Init(s, size) && size >= 2
    ensures Inv(s, g)
  {
    var n := |s.blocks|;
    g := Ghost(seq(n, i => i), 0, seq(n, _ => View([], 0, 0)));
    assert forall i | 0 <= i < n :: Linked(s.blocks, g.ring, i);
    OnlyBlockContent(g);
  }

  lemma OnlyBlockContent(g: Ghost)
    requires g.ring != [] && InViews(g.ring, g.views) && g.views[g.ring[0]].items == []
    ensures Concat(g.ring[..1], g.views) == []
  {
    assert g.ring[..1] == [] + [g.ring[0]];
    ConcatSnoc([], g.ring[0], g.views);
  }

  lemma {:induction false} RunInv(run: seq<State>, size: nat) returns (g: Ghost)
    requires Run(run, size) && size >= 2
    ensures Inv(run[|run| - 1], g)
  {
    hide Inv, Step, StepGhost, Init;
    if |run| == 1 {
      g := InitInv(run[0], size);
    } else {
      var prev := run[..|run| - 1];
      var g0 := RunInv(prev, size);
      var s := prev[|prev| - 1];
      assert Next(s, run[|run| - 1]);
      var e :| run[|run| - 1] == Step(s, e);
      InvRing(s, g0);
      StepPreservesInv(s, g0, e);
      g := StepGhost(s, g0, e);
    }
  }

  lemma InvRing(s: State, g: Ghost)
    requires Inv(s, g)
    ensures RingOk(s, g)
  {
  }

  lemma ReachableInv(s: State) returns (g: Ghost)
    requires Reachable(s)
    ensures Inv(s, g)
  {
    var run, size: nat :| size >= 2 && Run(run, size) && run[|run| - 1] == s;
    g := RunInv(run, size);
  }

  // No step gets stuck: the block pointers and indices every step uses are always in range.
  lemma AlwaysEnabled(s: State)
    requires Reachable(s)
    ensures Enabled(s)
  {
    var g := ReachableInv(s);
    EnabledByInv(s, g);
  }

  // Nothing is lost, repeated or reordered: at every moment of every run what was dequeued is a prefix
  // of what was enqueued, and a value on its way out is the next one.
  lemma Fifo(s: State)
    requires Reachable(s)
    ensures s.dequeued <= s.enqueued
    ensures s.consumer.CPublish? ==> |s.dequeued| < |s.enqueued| && s.consumer.x == s.enqueued[|s.dequeued|]
  {
    var g := ReachableInv(s);
  }

  // A dequeue that returned false found the whole queue empty at the moment it loaded the tail.
  lemma MissesWereEmpty(s: State)
    requires Reachable(s)
    ensures forall wasEmpty <- s.misses :: wasEmpty
  {
    var g := ReachableInv(s);
  }

  // The assertion of inner_enqueue: the block ahead that the producer moves to is empty.
  lemma BlockAheadIsEmpty(s: State)
    requires Reachable(s) && (s.producer.PLookAhead? || s.producer.PWriteAhead?)
    ensures s.tailBlock < |s.blocks|
    ensures var next := s.blocks[s.tailBlock].next;
            next < |s.blocks| && s.blocks[next].front == s.blocks[next].tail
  {
    var g := ReachableInv(s);
    AheadEmpty(s, g);
  }

  lemma AheadEmpty(s: State, g: Ghost)
    requires Inv(s, g) && (s.producer.PLookAhead? || s.producer.PWriteAhead?)
    ensures var next := s.blocks[s.tailBlock].next;
            next < |s.blocks| && s.blocks[next].front == s.blocks[next].tail
  {
    hide BlockOk;
    TailNext(s, g);
    assert Items(g, g.k + 1) == [];
    RoomTestAt(s, g, g.ring[g.k + 1]);
  }

  // The assertion of try_dequeue: the block the consumer moves to is not empty.
  lemma NextBlockIsNotEmpty(s: State)
    requires Reachable(s) && (s.consumer.CLoadNextTail? || s.consumer.CAdvance?)
    ensures var next := s.consumer.nextBlock;
            next < |s.blocks| && s.blocks[next].front != s.blocks[next].tail
  {
    var g := ReachableInv(s);
    NextNotEmpty(s, g);
  }

  lemma NextNotEmpty(s: State, g: Ghost)
    requires Inv(s, g) && (s.consumer.CLoadNextTail? || s.consumer.CAdvance?)
    ensures var next := s.consumer.nextBlock;
            next < |s.blocks| && s.blocks[next].front != s.blocks[next].tail
  {
    hide BlockOk;
    assert Items(g, 1) != [];
    RoomTestAt(s, g, g.ring[1]);
  }

  // ---------------------------------------------------------------- why two slots

  // The assertion of try_dequeue, where the consumer is about to make it.
  ghost predicate NextHolds(s: State) {
    s.consumer.CLoadNextTail? ==>
      && s.consumer.nextBlock < |s.blocks|
      && s.blocks[s.consumer.nextBlock].front != s.blocks[s.consumer.nextBlock].tail
  }

  ghost predicate Reaches(s: State, size: nat) {
    exists run :: Run(run, size) && run[|run| - 1] == s
  }

  // Up to n steps of one thread, all with the same arguments and luck.
  function After(s: State, e: Event, n: nat): State
    decreases n
  {
    if n == 0 || !Enabled(s) then s else After(Step(s, e), e, n - 1)
  }

  lemma {:induction false} ReachesAfter(s: State, size: nat, e: Event, n: nat)
    requires Reaches(s, size)
    ensures Reaches(After(s, e, n), size)
    decreases n
  {
    hide Init, Step;
    if n > 0 && Enabled(s) {
      var run :| Run(run, size) && run[|run| - 1] == s;
      var longer := run + [Step(s, e)];
      assert Run(longer, size) && longer[|longer| - 1] == Step(s, e);
      ReachesAfter(Step(s, e), size, e, n - 1);
    }
  }

  const ENQUEUE: Event := Produce(7, true, true)

  // A queue of one one-slot block, and the same queue after the calls of the run below.
  const Fresh: State :=
    State([Block(1, 0, 0, 0, 0, 0, [0])], 0, 0, 1, 2, PIdle, CIdle, [], [], [])
  const SecondBlock: State :=
    State([Block(1, 0, 0, 0, 0, 1, [0]), Block(2, 0, 1, 1, 0, 0, [7, 7])], 0, 1, 2, 2, PIdle, CIdle, [7], [], [])
  const MovedOn: State :=
    State([Block(1, 0, 0, 0, 0, 1, [0]), Block(2, 1, 1, 1, 0, 0, [7, 7])], 1, 1, 2, 2, PIdle, CIdle, [7], [7], [])
  const SecondFull: State :=
    State([Block(1, 0, 0, 0, 0, 1, [0]), Block(2, 1, 1, 0, 1, 0, [7, 7])], 1, 1, 2, 2, PIdle, CIdle, [7, 7], [7], [])
  const BackInFirst: State :=
    State([Block(1, 0, 0, 0, 0, 1, [7]), Block(2, 1, 1, 0, 1, 0, [7, 7])], 1, 0, 2, 2, PIdle, CIdle, [7, 7, 7], [7], [])
  const SecondEmptied: State :=
    State([Block(1, 0, 0, 0, 0, 1, [7]), Block(2, 0, 0, 0, 1, 0, [7, 7])], 1, 0, 2, 2, PIdle, CIdle, [7, 7, 7], [7, 7], [])
  const Failing: State :=
    State([Block(1, 0, 0, 0, 0, 1, [7]), Block(2, 0, 0, 0, 1, 0, [7, 7])], 1, 0, 2, 2, PIdle, CLoadNextTail(0), [7, 7, 7], [7, 7], [])

  lemma NoRoomInFirst()
    ensures After(Fresh, ENQUEUE, 4) == Fresh.(producer := PAllocate(7))
  {
    var s1 := Step(Fresh, ENQUEUE);
    assert Enabled(s1);
    var s2 := Step(s1, ENQUEUE);
    assert Enabled(s2);
    var s3 := Step(s2, ENQUEUE);
    assert Enabled(s3);
    var s4 := Step(s3, ENQUEUE);
    assert s4 == Fresh.(producer := PAllocate(7));
  }

  lemma AddSecond()
    ensures After(Fresh.(producer := PAllocate(7)), ENQUEUE, 3) == SecondBlock
  {
    assert NewBlock(2, 7, 0).data == [7, 7];
    var s1 := Step(Fresh.(producer := PAllocate(7)), ENQUEUE);
    assert Enabled(s1);
    var s2 := Step(s1, ENQUEUE);
    assert Enabled(s2);
    var s3 := Step(s2, ENQUEUE);
    assert s3 == SecondBlock;
  }

  lemma SeeSecond()
    ensures After(SecondBlock, Consume, 6) == SecondBlock.(consumer := CLoadNextTail(1))
  {
    var s1 := Step(SecondBlock, Consume);
    assert Enabled(s1);
    var s2 := Step(s1, Consume);
    assert Enabled(s2);
    var s3 := Step(s2, Consume);
    assert Enabled(s3);
    var s4 := Step(s3, Consume);
    assert Enabled(s4);
    var s5 := Step(s4, Consume);
    assert Enabled(s5);
    var s6 := Step(s5, Consume);
    assert s6 == SecondBlock.(consumer := CLoadNextTail(1));
  }

  lemma LeaveFirst()
    ensures After(SecondBlock.(consumer := CLoadNextTail(1)), Consume, 4) == MovedOn
  {
    var s1 := Step(SecondBlock.(consumer := CLoadNextTail(1)), Consume);
    assert Enabled(s1);
    var s2 := Step(s1, Consume);
    assert Enabled(s2);
    var s3 := Step(s2, Consume);
    assert Enabled(s3);
    var s4 := Step(s3, Consume);
    assert s4 == MovedOn;
  }

  lemma FillSecond()
    ensures After(MovedOn, ENQUEUE, 5) == SecondFull
  {
    assert [7, 7][1 := 7] == [7, 7];
    var s1 := Step(MovedOn, ENQUEUE);
    assert Enabled(s1);
    var s2 := Step(s1, ENQUEUE);
    assert Enabled(s2);
    var s3 := Step(s2, ENQUEUE);
    assert Enabled(s3);
    var s4 := Step(s3, ENQUEUE);
    assert Enabled(s4);
    var s5 := Step(s4, ENQUEUE);
    assert s5 == SecondFull;
  }

  lemma SeeFirst()
    ensures After(SecondFull, ENQUEUE, 4) == SecondFull.(producer := PLookAhead(7))
  {
    var s1 := Step(SecondFull, ENQUEUE);
    assert Enabled(s1);
    var s2 := Step(s1, ENQUEUE);
    assert Enabled(s2);
    var s3 := Step(s2, ENQUEUE);
    assert Enabled(s3);
    var s4 := Step(s3, ENQUEUE);
    assert s4 == SecondFull.(producer := PLookAhead(7));
  }

  lemma EnterFirst()
    ensures After(SecondFull.(producer := PLookAhead(7)), ENQUEUE, 4) == BackInFirst
  {
    assert [0][0 := 7] == [7];
    var s1 := Step(SecondFull.(producer := PLookAhead(7)), ENQUEUE);
    assert Enabled(s1);
    var s2 := Step(s1, ENQUEUE);
    assert Enabled(s2);
    var s3 := Step(s2, ENQUEUE);
    assert Enabled(s3);
    var s4 := Step(s3, ENQUEUE);
    assert s4 == BackInFirst;
  }

  lemma EmptySecond()
    ensures After(BackInFirst, Consume, 5) == SecondEmptied
  {
    var s1 := Step(BackInFirst, Consume);
    assert Enabled(s1);
    var s2 := Step(s1, Consume);
    assert Enabled(s2);
    var s3 := Step(s2, Consume);
    assert Enabled(s3);
    var s4 := Step(s3, Consume);
    assert Enabled(s4);
    var s5 := Step(s4, Consume);
    assert s5 == SecondEmptied;
  }

  lemma LookAtFirst()
    ensures After(SecondEmptied, Consume, 6) == Failing
  {
    var s1 := Step(SecondEmptied, Consume);
    assert Enabled(s1);
    var s2 := Step(s1, Consume);
    assert Enabled(s2);
    var s3 := Step(s2, Consume);
    assert Enabled(s3);
    var s4 := Step(s3, Consume);
    assert Enabled(s4);
    var s5 := Step(s4, Consume);
    assert Enabled(s5);
    var s6 := Step(s5, Consume);
    assert s6 == Failing;
  }

  // Three elements enqueued, and the dequeue of the third one finds a block that looks empty.
  lemma OneSlotRun()
    ensures Reaches(Failing, 1) && !NextHolds(Failing)
  {
    hide After;
    var run := [Fresh];
    assert Run(run, 1) && run[|run| - 1] == Fresh;
    NoRoomInFirst(); AddSecond(); SeeSecond(); LeaveFirst(); FillSecond(); SeeFirst(); EnterFirst(); EmptySecond(); LookAtFirst();
    ReachesAfter(Fresh, 1, ENQUEUE, 4);
    ReachesAfter(Fresh.(producer := PAllocate(7)), 1, ENQUEUE, 3);
    ReachesAfter(SecondBlock, 1, Consume, 6);
    ReachesAfter(SecondBlock.(consumer := CLoadNextTail(1)), 1, Consume, 4);
    ReachesAfter(MovedOn, 1, ENQUEUE, 5);
    ReachesAfter(SecondFull, 1, ENQUEUE, 4);
    ReachesAfter(SecondFull.(producer := PLookAhead(7)), 1, ENQUEUE, 4);
    ReachesAfter(BackInFirst, 1, Consume, 5);
    ReachesAfter(SecondEmptied, 1, Consume, 6);
  }

  // The assertion holds in every run exactly if the blocks the queue starts with have two slots or more; a
  // queue constructed for 0 elements starts with one block of one slot.
  lemma NeedsTwoSlots(size: nat)
    requires size >= 1
    ensures (forall s | Reaches(s, size) :: NextHolds(s)) <==> size >= 2
  {
    if size == 1 {
      OneSlotRun();
    } else {
      forall s | Reaches(s, size) ensures NextHolds(s) {
        if s.consumer.CLoadNextTail? { NextBlockIsNotEmpty(s); }
      }
    }
  }
}

// moodycamel::ReaderWriterQueue with its operations taken one at a time: a first-in first-out sequence,
// and room for as many elements as it was constructed for. Each operation is a run of the atomic steps
// of SpscQueue; blocks are referred to by their position in `blocks`.
module ReaderWriterQueue {
  import opened Options
  import opened SpscQueue
  import Words

  // ---------------------------------------------------------------- operations as runs of steps

  // Both threads idle.
  ghost predicate AtRest(s: State) { s.producer.PIdle? && s.consumer.CIdle? }

  lemma Do(s: State, g: Ghost, e: Event) returns (s': State, g': Ghost)
    requires Inv(s, g)
    ensures Enabled(s) && s' == Step(s, e) && RingOk(s, g) && g' == StepGhost(s, g, e) && Inv(s', g')
  {
    hide *;
    EnabledByInv(s, g);
    InvRing(s, g);
    StepPreservesInv(s, g, e);
    s', g' := Step(s, e), StepGhost(s, g, e);
  }

  // The tail of every successful dequeue: read the front element and move the front index on.
  lemma Take(s: State, g: Ghost) returns (s': State, g': Ghost)
    requires Inv(s, g) && s.consumer.CRead?
    ensures s.frontBlock < |s.blocks| && Inv(s', g')
    ensures var b := s.blocks[s.frontBlock];
            && b.front < |b.data|
            && s' == s.With(s.frontBlock, b.(front := Wrap(b.front + 1, b.size))).(
                       consumer := CIdle, dequeued := s.dequeued + [b.data[b.front]])
  {
    hide Inv, StepGhost, RingOk, ProducerStep;
    var s1, g1 := Do(s, g, Consume);
    s', g' := Do(s1, g1, Consume);
  }

  // The block ahead becomes the front block, then its front element is taken.
  lemma AdvanceFront(s: State, g: Ghost) returns (s': State, g': Ghost)
    requires Inv(s, g) && s.consumer.CLoadNext?
    ensures s.frontBlock < |s.blocks| && s.blocks[s.frontBlock].next < |s.blocks| && Inv(s', g')
    ensures var next := s.blocks[s.frontBlock].next; var b := s.blocks[next];
            && b.front < |b.data| && b.front != b.tail
            && s' == s.With(next, b.(localTail := b.tail, front := Wrap(b.front + 1, b.size))).(
                       frontBlock := next, consumer := CIdle, dequeued := s.dequeued + [b.data[b.front]])
  {
    hide Inv, StepGhost, RingOk, ProducerStep;
    var s1, g1 := Do(s, g, Consume);
    NextNotEmpty(s1, g1);
    var s2, g2 := Do(s1, g1, Consume);
    var s3, g3 := Do(s2, g2, Consume);
    s', g' := Take(s3, g3);
    var next := s1.consumer.nextBlock;
    assert s'.blocks == s.blocks[next := s'.blocks[next]];
  }

  // try_dequeue from a front block the consumer knows to hold something.
  lemma DequeueKnown(s: State, g: Ghost) returns (s': State, g': Ghost)
    requires Inv(s, g) && AtRest(s) && s.frontBlock < |s.blocks|
    requires var b := s.blocks[s.frontBlock]; b.front != b.localTail
    ensures Inv(s', g')
    ensures var b := s.blocks[s.frontBlock];
            && b.front < |b.data|
            && s' == s.With(s.frontBlock, b.(front := Wrap(b.front + 1, b.size))).(
                       dequeued := s.dequeued + [b.data[b.front]])
  {
    hide Inv, StepGhost, RingOk, ProducerStep;
    var s1, g1 := Do(s, g, Consume);
    var s2, g2 := Do(s1, g1, Consume);
    s', g' := Take(s2, g2);
  }

  // ... from a front block in which it finds something when it loads the tail.
  lemma DequeueLoaded(s: State, g: Ghost) returns (s': State, g': Ghost)
    requires Inv(s, g) && AtRest(s) && s.frontBlock < |s.blocks|
    requires var b := s.blocks[s.frontBlock]; b.front == b.localTail && b.front != b.tail
    ensures Inv(s', g')
    ensures var b := s.blocks[s.frontBlock];
            && b.front < |b.data|
            && s' == s.With(s.frontBlock, b.(localTail := b.tail, front := Wrap(b.front + 1, b.size))).(
                       dequeued := s.dequeued + [b.data[b.front]])
  {
    hide Inv, StepGhost, RingOk, ProducerStep;
    var s1, g1 := Do(s, g, Consume);
    var s2, g2 := Do(s1, g1, Consume);
    var s3, g3 := Do(s2, g2, Consume);
    s', g' := Take(s3, g3);
    assert s'.blocks == s.blocks[s.frontBlock := s'.blocks[s.frontBlock]];
  }

  // An empty front block: up to the second look at the tail, or the end if there is no other block.
  lemma LookAgain(s: State, g: Ghost) returns (s': State, g': Ghost)
    requires Inv(s, g) && AtRest(s) && s.frontBlock < |s.blocks| && s.misses == []
    requires var b := s.blocks[s.frontBlock]; b.front == b.localTail == b.tail
    ensures Inv(s', g')
    ensures if s.frontBlock != s.tailBlock then s' == s.(consumer := CLoadNext)
            else s' == s.(misses := [true]) && s.enqueued == s.dequeued
  {
    hide Inv, StepGhost, RingOk, ProducerStep;
    var s1, g1 := Do(s, g, Consume);
    var s2, g2 := Do(s1, g1, Consume);
    var s3, g3 := Do(s2, g2, Consume);
    assert s3 == s.(consumer := CLoadTailBlock(s.enqueued == s.dequeued));
    var s4, g4 := Do(s3, g3, Consume);
    if s.frontBlock != s.tailBlock {
      s', g' := Do(s4, g4, Consume);
    } else {
      MissesTrue(s4, g4);
      assert s4.misses == [s.enqueued == s.dequeued] && s4.misses[0] in s4.misses;
      s', g' := s4, g4;
    }
  }

  lemma MissesTrue(s: State, g: Ghost)
    requires Inv(s, g)
    ensures forall w <- s.misses :: w
  {
  }

  // Construct the element in the tail block and publish it.
  lemma Put(s: State, g: Ghost, alloc: bool, luck: bool) returns (s': State, g': Ghost)
    requires Inv(s, g) && s.producer.PWrite?
    ensures s.tailBlock < |s.blocks| && Inv(s', g')
    ensures var b, x := s.blocks[s.tailBlock], s.producer.x;
            && b.tail < |b.data|
            && s' == s.With(s.tailBlock, b.(data := b.data[b.tail := x], tail := Wrap(b.tail + 1, b.size))).(
                       producer := PIdle, enqueued := s.enqueued + [x])
  {
    hide Inv, StepGhost, RingOk, ConsumerStep;
    var e := Produce(s.producer.x, alloc, luck);
    var s1, g1 := Do(s, g, e);
    s', g' := Do(s1, g1, e);
    assert s'.blocks == s.blocks[s.tailBlock := s'.blocks[s.tailBlock]];
  }

  // inner_enqueue into a tail block with room, known or found by loading the front index.
  lemma EnqueueHere(s: State, g: Ghost, x: Elem, alloc: bool, luck: bool) returns (s': State, g': Ghost)
    requires Inv(s, g) && AtRest(s) && s.tailBlock < |s.blocks|
    requires var b := s.blocks[s.tailBlock];
             Wrap(b.tail + 1, b.size) != b.localFront || Wrap(b.tail + 1, b.size) != b.front
    ensures Inv(s', g')
    ensures var b := s.blocks[s.tailBlock];
            var next := Wrap(b.tail + 1, b.size);
            && b.tail < |b.data|
            && s' == s.With(s.tailBlock, b.(
                       data := b.data[b.tail := x], tail := next,
                       localFront := if next != b.localFront then b.localFront else b.front)).(
                       enqueued := s.enqueued + [x])
  {
    hide Inv, StepGhost, RingOk, ConsumerStep;
    var e := Produce(x, alloc, luck);
    var s1, g1 := Do(s, g, e);
    var s2, g2 := Do(s1, g1, e);
    if s2.producer.PWrite? {
      s', g' := Put(s2, g2, alloc, luck);
    } else {
      var s3, g3 := Do(s2, g2, e);
      s', g' := Put(s3, g3, alloc, luck);
    }
    assert s'.blocks == s.blocks[s.tailBlock := s'.blocks[s.tailBlock]];
  }

  // inner_enqueue with a full tail block, up to the test of the block ahead.
  lemma FindFull(s: State, g: Ghost, x: Elem, alloc: bool, luck: bool) returns (s': State, g': Ghost)
    requires Inv(s, g) && AtRest(s) && s.tailBlock < |s.blocks|
    requires var b := s.blocks[s.tailBlock]; Wrap(b.tail + 1, b.size) == b.localFront == b.front
    ensures Inv(s', g') && s.blocks[s.tailBlock].next < |s.blocks|
    ensures s' == s.(producer := if s.blocks[s.tailBlock].next != s.frontBlock then PLookAhead(x)
                                 else if alloc then PAllocate(x) else PIdle)
  {
    hide Inv, StepGhost, RingOk, ConsumerStep;
    var e := Produce(x, alloc, luck);
    var s1, g1 := Do(s, g, e);
    var s2, g2 := Do(s1, g1, e);
    var s3, g3 := Do(s2, g2, e);
    s', g' := Do(s3, g3, e);
  }

  lemma EnqueueAhead(s: State, g: Ghost, alloc: bool, luck: bool) returns (s': State, g': Ghost)
    requires Inv(s, g) && s.producer.PLookAhead?
    ensures s.tailBlock < |s.blocks| && s.blocks[s.tailBlock].next < |s.blocks| && Inv(s', g')
    ensures var next := s.blocks[s.tailBlock].next; var b, x := s.blocks[next], s.producer.x;
            && b.tail < |b.data| && b.front == b.tail
            && s' == s.With(next, b.(localFront := b.front, data := b.data[b.tail := x], tail := Wrap(b.tail + 1, b.size))).(
                       tailBlock := next, producer := PIdle, enqueued := s.enqueued + [x])
  {
    hide Inv, StepGhost, RingOk, ConsumerStep;
    AheadEmpty(s, g);
    var e := Produce(s.producer.x, alloc, luck);
    var s1, g1 := Do(s, g, e);
    var s2, g2 := Do(s1, g1, e);
    var s3, g3 := Do(s2, g2, e);
    s', g' := Do(s3, g3, e);
    var next := s.blocks[s.tailBlock].next;
    assert s'.blocks == s.blocks[next := s'.blocks[next]];
  }

  lemma EnqueueNew(s: State, g: Ghost) returns (s': State, g': Ghost)
    requires Inv(s, g) && s.producer.PAllocate?
    ensures s.tailBlock < |s.blocks| && Inv(s', g')
    ensures var t, n, x := s.blocks[s.tailBlock], |s.blocks|, s.producer.x;
            var size := if s.largest >= s.maxBlockSize then s.largest else s.largest * 2;
            s' == s.(blocks := s.blocks[s.tailBlock := t.(next := n)] + [NewBlock(size, x, t.next)],
                     tailBlock := n, largest := size, producer := PIdle, enqueued := s.enqueued + [x])
  {
    hide Inv, StepGhost, RingOk, ConsumerStep;
    var e := Produce(s.producer.x, true, true);
    var s1, g1 := Do(s, g, e);
    var s2, g2 := Do(s1, g1, e);
    s', g' := Do(s2, g2, e);
    assert s'.blocks == s.blocks[s.tailBlock := s'.blocks[s.tailBlock]] + [s1.blocks[|s.blocks|]];
  }

  // inner_enqueue with a full tail block, into the empty block ahead.
  lemma EnqueueOnward(s: State, g: Ghost, x: Elem, alloc: bool, luck: bool) returns (s': State, g': Ghost)
    requires Inv(s, g) && AtRest(s) && s.tailBlock < |s.blocks|
    requires var b := s.blocks[s.tailBlock]; Wrap(b.tail + 1, b.size) == b.localFront == b.front && b.next != s.frontBlock
    ensures s.blocks[s.tailBlock].next < |s.blocks| && Inv(s', g')
    ensures var next := s.blocks[s.tailBlock].next; var b := s.blocks[next];
            && b.tail < |b.data| && b.front == b.tail
            && s' == s.With(next, b.(localFront := b.front, data := b.data[b.tail := x], tail := Wrap(b.tail + 1, b.size))).(
                       tailBlock := next, enqueued := s.enqueued + [x])
  {
    hide Inv, Step;
    var s1, g1 := FindFull(s, g, x, alloc, luck);
    s', g' := EnqueueAhead(s1, g1, alloc, luck);
  }

  // ... into a new block put between the tail block and the front block.
  lemma EnqueueGrowing(s: State, g: Ghost, x: Elem) returns (s': State, g': Ghost)
    requires Inv(s, g) && AtRest(s) && s.tailBlock < |s.blocks|
    requires var b := s.blocks[s.tailBlock]; Wrap(b.tail + 1, b.size) == b.localFront == b.front && b.next == s.frontBlock
    ensures Inv(s', g')
    ensures var t, n := s.blocks[s.tailBlock], |s.blocks|;
            var size := if s.largest >= s.maxBlockSize then s.largest else s.largest * 2;
            s' == s.(blocks := s.blocks[s.tailBlock := t.(next := n)] + [NewBlock(size, x, t.next)],
                     tailBlock := n, largest := size, enqueued := s.enqueued + [x])
  {
    hide Inv, Step;
    var s1, g1 := FindFull(s, g, x, true, true);
    s', g' := EnqueueNew(s1, g1);
  }

  // ---------------------------------------------------------------- capacity

  // Block sizes never shrink, so with n blocks at least n - 1 of them, each but for the spare slot, can be
  // filled before try_enqueue fails.
  ghost predicate Roomy(s: State, capacity: nat, least: nat) {
    && least >= 2 && s.largest >= least
    && (forall b <- s.blocks :: b.size >= least)
    && capacity <= (if |s.blocks| <= 1 then 1 else |s.blocks| - 1) * (least - 1)
  }

  lemma {:induction false} ConcatLength(ring: seq<nat>, views: seq<View>, c: nat)
    requires InViews(ring, views) && forall i | 0 <= i < |ring| :: |views[ring[i]].items| >= c
    ensures |Concat(ring, views)| >= |ring| * c
  {
    if ring != [] { ConcatLength(ring[1..], views, c); }
  }

  // When the tail block is full and the block ahead is the front block, every block but the front one is
  // full.
  lemma NoRoomMeansFull(s: State, g: Ghost, capacity: nat, least: nat)
    requires Inv(s, g) && AtRest(s) && Roomy(s, capacity, least)
    requires var b := s.blocks[s.tailBlock]; Wrap(b.tail + 1, b.size) == b.front && b.next == s.frontBlock
    ensures |s.enqueued| - |s.dequeued| >= capacity
  {
    hide BlockOk;
    var n := |g.ring|;
    TailNext(s, g);
    RoomTestAt(s, g, s.tailBlock);
    assert g.ring[..n] == g.ring;
    if n == 1 {
      ConcatLength(g.ring, g.views, least - 1);
    } else {
      forall i | 1 <= i < n ensures |Items(g, i)| >= least - 1 {
        RoomTestAt(s, g, g.ring[i]);
      }
      ConcatLength(g.ring[1..], g.views, least - 1);
    }
  }

  lemma RoomyKept(s: State, s': State, b: nat, capacity: nat, least: nat)
    requires Roomy(s, capacity, least) && b < |s.blocks| == |s'.blocks| && s'.largest == s.largest
    requires s'.blocks == s.blocks[b := s'.blocks[b]] && s'.blocks[b].size == s.blocks[b].size
    ensures Roomy(s', capacity, least)
  {
    assert s.blocks[b] in s.blocks;
  }

  lemma RoomyGrows(s: State, s': State, t: nat, x: Elem, next: nat, capacity: nat, least: nat)
    requires Roomy(s, capacity, least) && t < |s.blocks| && s'.largest >= s.largest
    requires s'.blocks == s.blocks[t := s.blocks[t].(next := |s.blocks|)] + [NewBlock(s'.largest, x, next)]
    ensures Roomy(s', capacity, least)
  {
    assert s.blocks[t] in s.blocks;
    GrowProduct(|s.blocks|, least - 1);
  }

  lemma GrowProduct(n: nat, c: nat)
    requires n >= 1
    ensures (if n <= 1 then 1 else n - 1) * c <= n * c
  {
  }

  // Taking one more element leaves the rest.
  lemma OneLess(enqueued: seq<Elem>, dequeued: seq<Elem>, x: Elem)
    requires dequeued + [x] <= enqueued
    ensures enqueued[|dequeued|..] == [x] + enqueued[|dequeued| + 1..]
  {
    assert x == (dequeued + [x])[|dequeued|] == enqueued[|dequeued|];
  }

  lemma PrefixByInv(s: State, g: Ghost)
    requires Inv(s, g)
    ensures s.dequeued <= s.enqueued && Enabled(s)
  {
    EnabledByInv(s, g);
  }

  lemma FreshQueue(s: State, size: nat) returns (g: Ghost)
    requires s == State(s.blocks, 0, 0, s.largest, s.maxBlockSize, PIdle, CIdle, [], [], [])
    requires s.largest >= 2 && s.maxBlockSize >= 2 && s.blocks != []
    requires forall j | 0 <= j < |s.blocks| :: s.blocks[j] == EmptyBlock(s.largest, Succ(j, |s.blocks|))
    requires size <= (if |s.blocks| <= 1 then 1 else |s.blocks| - 1) * (s.largest - 1)
    ensures Inv(s, g) && Roomy(s, size, s.largest)
  {
    hide Inv;
    g := InitInv(s, s.largest);
  }

  // The tail block is in range and its last-but-one element is not the front one's place.
  lemma NoRoom(s: State, g: Ghost)
    requires Inv(s, g)
    ensures s.tailBlock < |s.blocks| && s.blocks[s.tailBlock].next < |s.blocks|
  {
    PrefixByInv(s, g);
  }

  // An operation that stops half way through its reading leaves the queue usable.
  lemma StopReading(s: State, g: Ghost)
    requires Inv(s, g)
    ensures Inv(s.(consumer := CIdle), g)
  {
    hide BlockOk;
    var s' := s.(consumer := CIdle);
    assert forall i | 0 <= i < |g.ring| :: Linked(s'.blocks, g.ring, i) == Linked(s.blocks, g.ring, i);
  }

  // Loading the tail of the front block.
  lemma LoadTail(s: State, g: Ghost) returns (g': Ghost)
    requires Inv(s, g) && AtRest(s) && s.frontBlock < |s.blocks|
    requires var b := s.blocks[s.frontBlock]; b.front == b.localTail
    ensures var b := s.blocks[s.frontBlock]; Inv(s.With(s.frontBlock, b.(localTail := b.tail)), g')
  {
    hide Inv, StepGhost, RingOk, ProducerStep;
    var s1, g1 := Do(s, g, Consume);
    var s2, g2 := Do(s1, g1, Consume);
    var s3, g3 := Do(s2, g2, Consume);
    StopReading(s3, g3);
    g' := g3;
  }

  // Dequeues that can be observed without being carried out: what the next one would return.
  lemma NextOut(s: State, g: Ghost) returns (x: Elem)
    requires Inv(s, g) && AtRest(s) && s.misses == []
    ensures s.dequeued <= s.enqueued && s.frontBlock < |s.blocks|
    ensures var b := s.blocks[s.frontBlock];
            if b.front != b.tail then
              b.front < |b.data| && x == b.data[b.front] && s.dequeued + [x] <= s.enqueued
            else if s.frontBlock != s.tailBlock then
              && b.next < |s.blocks|
              && var next := s.blocks[b.next];
                 next.front < |next.data| && next.front != next.tail && x == next.data[next.front] && s.dequeued + [x] <= s.enqueued
            else s.dequeued == s.enqueued
    ensures var b := s.blocks[s.frontBlock]; b.front == b.tail ==> b.localTail == b.tail
  {
    hide Inv, StepGhost, RingOk, Step;
    PrefixByInv(s, g);
    EmptyIsKnown(s, g);
    var b := s.blocks[s.frontBlock];
    var s', g';
    if b.front != b.localTail {
      s', g' := DequeueKnown(s, g);
      x := b.data[b.front];
    } else if b.front != b.tail {
      s', g' := DequeueLoaded(s, g);
      x := b.data[b.front];
    } else {
      s', g' := LookAgain(s, g);
      x := 0;
      if s.frontBlock != s.tailBlock {
        s', g' := AdvanceFront(s', g');
        x := s.blocks[b.next].data[s.blocks[b.next].front];
      }
    }
    PrefixByInv(s', g');
  }

  // Room by the shadow index is room indeed.
  lemma TailRoom(s: State, g: Ghost)
    requires Inv(s, g)
    ensures s.tailBlock < |s.blocks|
    ensures var b := s.blocks[s.tailBlock]; Wrap(b.tail + 1, b.size) != b.localFront ==> Wrap(b.tail + 1, b.size) != b.front
  {
    hide BlockOk;
    RoomTest(s.blocks[s.tailBlock], g.views[s.tailBlock]);
  }

  lemma EmptyIsKnown(s: State, g: Ghost)
    requires Inv(s, g)
    ensures s.frontBlock < |s.blocks|
    ensures var b := s.blocks[s.frontBlock]; b.front == b.tail ==> b.localTail == b.tail
  {
    hide BlockOk;
    EmptyKnown(s.blocks[s.frontBlock], g.views[s.frontBlock]);
  }

  lemma EmptyKnown(b: Block, v: View)
    requires BlockOk(b, v)
    ensures b.front == b.tail ==> b.localTail == b.tail
  {
    RoomTest(b, v);
  }

  class Queue {
    var blocks: seq<Block>
    var frontBlock: nat
    var tailBlock: nat
    var largestBlockSize: nat
    const maxBlockSize: nat

    // Everything enqueued and dequeued so far, the view of the blocks, and the promised capacity.
    ghost var enqueued: seq<Elem>
    ghost var dequeued: seq<Elem>
    ghost var g: Ghost
    ghost const capacity: nat
    ghost const least: nat

    ghost function Abs(): State
      reads this
    {
      State(blocks, frontBlock, tailBlock, largestBlockSize, maxBlockSize, PIdle, CIdle, enqueued, dequeued, [])
    }

    ghost predicate Valid()
      reads this
    {
      Inv(Abs(), g) && Roomy(Abs(), capacity, least)
    }

    ghost function Contents(): seq<Elem>
      reads this
      requires Valid()
    {
      PrefixByInv(Abs(), g);
      enqueued[|dequeued|..]
    }

    // Queue built for `size` elements; in the source it aborts when an allocation fails. Without a request, or when
    // the block size overflows, the only block has one slot or none, and the queue is of no use.
    constructor (size: nat, maxBlockSize: nat)
      requires size < Words.W && 2 <= maxBlockSize <= Words.W / 4
      ensures Valid() <==> 1 <= size < Words.W / 2
      ensures Valid() ==> Contents() == []
      ensures Valid() ==> Planned(size, maxBlockSize, |blocks|, largestBlockSize) && forall b <- blocks :: b.size == largestBlockSize
      ensures !Valid() ==> blocks == [EmptyBlock(if size == 0 then 1 else 0, 0)] && frontBlock == tailBlock == 0
      ensures capacity == size && this.maxBlockSize == maxBlockSize
    {
      hide Inv, Roomy;
      var count, largest := BlockPlan(size, maxBlockSize);
      ghost var fits := 1 <= size < Words.W / 2;
      var made: seq<Block> := [];
      for i := 0 to count
        invariant |made| == i
        invariant forall j | 0 <= j < i :: made[j] == EmptyBlock(largest, Succ(j, i))
      {
        // The new block closes the ring: the last one points to it, it points to the first.
        if i > 0 { made := made[i - 1 := made[i - 1].(next := i)]; }
        made := made + [EmptyBlock(largest, 0)];
      }
      ghost var s := State(made, 0, 0, largest, maxBlockSize, PIdle, CIdle, [], [], []);
      ghost var g0 := Ghost([], 0, []);
      if fits {
        g0 := FreshQueue(s, size);
      } else {
        TooFewSlots(s, g0);
      }
      blocks := made;
      frontBlock, tailBlock := 0, 0;
      largestBlockSize, this.maxBlockSize := largest, maxBlockSize;
      enqueued, dequeued := [], [];
      capacity, least := size, largest;
      g := g0;
    }

    // Also pop, which does the same without handing the element out.
    method TryDequeue() returns (result: Option<Elem>)
      requires Valid()
      modifies this
      ensures Valid()
      ensures old(Contents()) == [] ==> result == None && Contents() == []
      ensures old(Contents()) != [] ==> result == Some(old(Contents()[0])) && Contents() == old(Contents()[1..])
    {
      hide Inv, Roomy, Step;
      ghost var s, g0 := Abs(), g;
      ghost var out := NextOut(s, g0);
      var fb := frontBlock;
      var blockTail := blocks[fb].localTail;
      var blockFront := blocks[fb].front;
      if blockFront == blockTail {
        blocks := blocks[fb := blocks[fb].(localTail := blocks[fb].tail)];
        blockTail := blocks[fb].localTail;
      }
      ghost var s', g';
      if blockFront != blockTail {
        if s.blocks[fb].front != s.blocks[fb].localTail {
          s', g' := DequeueKnown(s, g0);
        } else {
          s', g' := DequeueLoaded(s, g0);
        }
        result := Some(blocks[fb].data[blockFront]);
        blocks := blocks[fb := blocks[fb].(front := Wrap(blockFront + 1, blocks[fb].size))];
        RoomyKept(s, s', fb, capacity, least);
      } else if fb != tailBlock {
        s', g' := LookAgain(s, g0);
        s', g' := AdvanceFront(s', g');
        blocks := blocks[fb := blocks[fb].(localTail := blocks[fb].tail)];
        var nextBlock := blocks[fb].next;
        var nextBlockFront := blocks[nextBlock].front;
        blocks := blocks[nextBlock := blocks[nextBlock].(localTail := blocks[nextBlock].tail)];
        assert nextBlockFront != blocks[nextBlock].localTail;
        frontBlock := nextBlock;
        result := Some(blocks[nextBlock].data[nextBlockFront]);
        blocks := blocks[nextBlock := blocks[nextBlock].(front := Wrap(nextBlockFront + 1, blocks[nextBlock].size))];
        RoomyKept(s, s', nextBlock, capacity, least);
      } else {
        assert Abs() == s;
        return None;
      }
      dequeued, g := dequeued + [result.value], g';
      assert Abs() == s';
      OneLess(s.enqueued, s.dequeued, result.value);
    }

    method Peek() returns (result: Option<Elem>)
      requires Valid()
      modifies this
      ensures Valid() && Contents() == old(Contents())
      ensures result == if Contents() == [] then None else Some(Contents()[0])
    {
      hide Inv, Roomy, Step;
      ghost var s, g0 := Abs(), g;
      ghost var out := NextOut(s, g0);
      var fb := frontBlock;
      var blockFront := blocks[fb].front;
      if blockFront == blocks[fb].localTail {
        g := LoadTail(s, g0);
        blocks := blocks[fb := blocks[fb].(localTail := blocks[fb].tail)];
        RoomyKept(s, Abs(), fb, capacity, least);
      }
      if blockFront != blocks[fb].localTail {
        result := Some(blocks[fb].data[blockFront]);
        OneLess(s.enqueued, s.dequeued, out);
      } else if fb != tailBlock {
        var nextBlock := blocks[fb].next;
        result := Some(blocks[nextBlock].data[blocks[nextBlock].front]);
        OneLess(s.enqueued, s.dequeued, out);
      } else {
        result := None;
      }
    }

    // With nobody else at work the size is exact.
    method SizeApprox() returns (result: nat)
      requires Valid()
      ensures result == |Contents()|
    {
      hide Inv, Roomy, Concat;
      ghost var s, i := Abs(), 0;
      HeldInRing(s, g);
      PrefixByInv(s, g);
      result := 0;
      var block := frontBlock;
      ghost var n := |g.ring|;
      BlockSize(s, g, 0);
      NoneBefore(g);
      while true
        invariant i < n == |g.ring| && block < |blocks| && block == g.ring[i]
        invariant InViews(g.ring[..i], g.views) && result == |Concat(g.ring[..i], g.views)|
        decreases n - i
      {
        BlockSize(s, g, i);
        result := result + Wrap(blocks[block].tail + blocks[block].size - blocks[block].front, blocks[block].size);
        block := blocks[block].next;
        i := i + 1;
        if block == frontBlock {
          assert g.ring[..n] == g.ring;
          return;
        }
        BlockSize(s, g, i);
      }
    }

    // try_enqueue when `alloc` is false, enqueue when it is true; `luck` is whether malloc succeeds.
    // The tail block is full and there is no free block ahead of it.
    predicate Crowded()
      reads this
    {
      tailBlock < |blocks| && var b := blocks[tailBlock]; Wrap(b.tail + 1, b.size) == b.front && b.next == frontBlock
    }

    method InnerEnqueue(x: Elem, alloc: bool, luck: bool) returns (ok: bool)
      requires Valid()
      modifies this
      ensures Valid()
      ensures ok <==> !old(Crowded()) || (alloc && luck)
      // Only then a block is added, twice as large as the largest up to the limit.
      ensures |blocks| == |old(blocks)| + if ok && old(Crowded()) then 1 else 0
      ensures largestBlockSize == if |blocks| > |old(blocks)| && old(largestBlockSize) < maxBlockSize then 2 * old(largestBlockSize)
                                  else old(largestBlockSize)
      ensures |blocks| > |old(blocks)| ==> blocks[|old(blocks)|].size == largestBlockSize
      ensures Contents() == if ok then old(Contents()) + [x] else old(Contents())
      ensures alloc && luck ==> ok
      ensures |old(Contents())| < capacity ==> ok
    {
      hide Inv, Roomy, Step;
      ghost var s, g0 := Abs(), g;
      PrefixByInv(s, g0);
      var tb := tailBlock;
      var blockTail := blocks[tb].tail;
      var nextBlockTail := Wrap(blockTail + 1, blocks[tb].size);
      var room := nextBlockTail != blocks[tb].localFront;
      if !room {
        blocks := blocks[tb := blocks[tb].(localFront := blocks[tb].front)];
        room := nextBlockTail != blocks[tb].localFront;
      }
      TailRoom(s, g0);
      if room {
        ghost var s';
        s', g := EnqueueHere(s, g0, x, alloc, luck);
        blocks := blocks[tb := blocks[tb].(data := blocks[tb].data[blockTail := x])];
        blocks := blocks[tb := blocks[tb].(tail := nextBlockTail)];
        RoomyKept(s, s', tb, capacity, least);
        assert blocks == s'.blocks;
        enqueued := enqueued + [x];
        ok := true;
      } else {
        assert blocks == s.blocks;
        ok := EnqueuePast(x, alloc, luck);
      }
    }

    // The rest of inner_enqueue, once the tail block is known to be full.
    method EnqueuePast(x: Elem, alloc: bool, luck: bool) returns (ok: bool)
      requires Valid() && TailFull()
      modifies this
      ensures Valid()
      ensures Contents() == if ok then old(Contents()) + [x] else old(Contents())
      ensures ok <==> !old(Crowded()) || (alloc && luck)
      ensures |blocks| == |old(blocks)| + if ok && old(Crowded()) then 1 else 0
      ensures largestBlockSize == if |blocks| > |old(blocks)| && old(largestBlockSize) < maxBlockSize then 2 * old(largestBlockSize)
                                  else old(largestBlockSize)
      ensures |blocks| > |old(blocks)| ==> blocks[|old(blocks)|].size == largestBlockSize
      ensures |old(Contents())| < capacity ==> ok
    {
      hide Inv, Roomy, Step;
      PrefixByInv(Abs(), g);
      if blocks[tailBlock].next != frontBlock {
        EnterNextBlock(x);
        ok := true;
      } else if alloc && luck {
        AddBlock(x);
        ok := true;
      } else {
        NoRoomMeansFull(Abs(), g, capacity, least);
        ok := false;
      }
    }

    ghost predicate TailFull()
      reads this
    {
      tailBlock < |blocks| && var b := blocks[tailBlock]; Wrap(b.tail + 1, b.size) == b.localFront == b.front
    }

    // The block ahead is empty and becomes the tail block.
    method EnterNextBlock(x: Elem)
      requires Valid() && TailFull() && blocks[tailBlock].next != frontBlock
      modifies this
      ensures Valid() && Contents() == old(Contents()) + [x]
      ensures |blocks| == |old(blocks)| && largestBlockSize == old(largestBlockSize)
    {
      hide Inv, Roomy, Step;
      ghost var s, g0, s' := Abs(), g, Abs();
      PrefixByInv(s, g0);
      NoRoom(s, g0);
      s', g := EnqueueOnward(s, g0, x, false, false);
      var next := blocks[tailBlock].next;
      var nextBlock := blocks[next];
      nextBlock := nextBlock.(localFront := nextBlock.front);
      assert nextBlock.front == nextBlock.tail;
      nextBlock := nextBlock.(data := nextBlock.data[nextBlock.tail := x]);
      nextBlock := nextBlock.(tail := Wrap(nextBlock.tail + 1, nextBlock.size));
      blocks := blocks[next := nextBlock];
      tailBlock := next;
      RoomyKept(s, s', next, capacity, least);
      enqueued := enqueued + [x];
      assert Abs() == s';
    }

    // A new block, twice as large as the last one up to the limit, goes between the tail and the front block.
    method AddBlock(x: Elem)
      requires Valid() && TailFull() && blocks[tailBlock].next == frontBlock
      modifies this
      ensures Valid() && Contents() == old(Contents()) + [x]
      ensures |blocks| == |old(blocks)| + 1 && blocks[|old(blocks)|].size == largestBlockSize
      ensures largestBlockSize == if old(largestBlockSize) < maxBlockSize then 2 * old(largestBlockSize) else old(largestBlockSize)
    {
      hide Inv, Roomy, Step;
      ghost var s, g0, s' := Abs(), g, Abs();
      PrefixByInv(s, g0);
      NoRoom(s, g0);
      s', g := EnqueueGrowing(s, g0, x);
      largestBlockSize := if largestBlockSize >= maxBlockSize then largestBlockSize else largestBlockSize * 2;
      var tb, added := tailBlock, |blocks|;
      blocks := blocks + [NewBlock(largestBlockSize, x, blocks[tb].next)];
      blocks := blocks[tb := blocks[tb].(next := added)];
      tailBlock := added;
      assert blocks == s'.blocks;
      RoomyGrows(s, s', tb, x, s.blocks[tb].next, capacity, least);
      enqueued := enqueued + [x];
    }
  }

  lemma {:induction false} ConcatSplit(a: seq<nat>, b: seq<nat>, views: seq<View>)
    requires InViews(a, views) && InViews(b, views) && InViews(a + b, views)
    ensures |Concat(a + b, views)| == |Concat(a, views)| + |Concat(b, views)|
  {
    if a == [] {
      assert a + b == b;
    } else {
      assert (a + b)[1..] == a[1..] + b;
      ConcatSplit(a[1..], b, views);
    }
  }

  lemma {:induction false} ConcatEmpty(ring: seq<nat>, views: seq<View>)
    requires InViews(ring, views) && forall i | 0 <= i < |ring| :: views[ring[i]].items == []
    ensures Concat(ring, views) == []
  {
    if ring != [] { ConcatEmpty(ring[1..], views); }
  }

  // The elements held are those of all blocks, the ones ahead of the tail being empty.
  lemma HeldInRing(s: State, g: Ghost)
    requires Inv(s, g) && AtRest(s)
    ensures g.ring != [] && InViews(g.ring, g.views) && |Concat(g.ring, g.views)| == |s.enqueued| - |s.dequeued|
  {
    hide BlockOk;
    var used, ahead := g.ring[..g.k + 1], g.ring[g.k + 1..];
    assert used + ahead == g.ring;
    forall i | 0 <= i < |ahead| ensures g.views[ahead[i]].items == [] { assert Items(g, g.k + 1 + i) == []; }
    ConcatEmpty(ahead, g.views);
    ConcatSplit(used, ahead, g.views);
  }

  lemma NoneBefore(g: Ghost)
    ensures InViews(g.ring[..0], g.views) && Concat(g.ring[..0], g.views) == []
  {
  }

  // One block's part of the size.
  lemma BlockSize(s: State, g: Ghost, i: nat)
    requires Inv(s, g) && i < |g.ring|
    ensures g.ring[i] < |s.blocks| == |g.views| && g.ring[i] < |g.views|
    ensures var b := s.blocks[g.ring[i]]; b.front < b.size && Wrap(b.tail + b.size - b.front, b.size) == |Items(g, i)|
    ensures s.blocks[g.ring[i]].next == g.ring[Succ(i, |g.ring|)] && g.ring[0] == s.frontBlock
    ensures i + 1 < |g.ring| ==> g.ring[Succ(i, |g.ring|)] != g.ring[0]
    ensures InViews(g.ring[..i], g.views) && InViews(g.ring[..i + 1], g.views)
    ensures |Concat(g.ring[..i + 1], g.views)| == |Concat(g.ring[..i], g.views)| + |Items(g, i)|
  {
    hide ProducerOk, ConsumerOk, ContentOk;
    assert Linked(s.blocks, g.ring, i);
    assert BlockOk(s.blocks[g.ring[i]], g.views[g.ring[i]]);
    assert g.ring[..i + 1] == g.ring[..i] + [g.ring[i]];
    assert [g.ring[i]][1..] == [];
    ConcatSplit(g.ring[..i], [g.ring[i]], g.views);
  }

  // One block of the least power of two with a spare slot, if twice the maximum is enough; else blocks of the maximum,
  // one more than are needed for the elements.
  ghost predicate Planned(size: nat, maxBlockSize: nat, count: nat, largest: nat) {
    exists least: nat :: PlannedFor(size, maxBlockSize, count, largest, least)
  }

  ghost predicate PlannedFor(size: nat, maxBlockSize: nat, count: nat, largest: nat, least: nat) {
    && Words.LeastPow2(size + 1, least)
    && if least <= 2 * maxBlockSize then count == 1 && largest == least
       else largest == maxBlockSize && count >= 2 && (count - 2) * (maxBlockSize - 1) < size <= (count - 1) * (maxBlockSize - 1)
  }

  // How many blocks of which size are made for `size` elements.
  method BlockPlan(size: nat, maxBlockSize: nat) returns (count: nat, largest: nat)
    requires size < Words.W && 2 <= maxBlockSize <= Words.W / 4
    ensures if 1 <= size < Words.W / 2 then
              && count >= 1 && largest >= 2 && size <= (if count <= 1 then 1 else count - 1) * (largest - 1)
              && Planned(size, maxBlockSize, count, largest)
            else count == 1 && largest == if size == 0 then 1 else 0
  {
    hide Words.LeastPow2, Words.Pow2;
    largest := Words.CeilToPow2((size + 1) % Words.W);
    BlockSizes(size, largest);
    ghost var least := largest;
    count := 1;
    if largest > maxBlockSize * 2 {
      var slots := (size + maxBlockSize * 2 - 3) % Words.W;
      NoOverflow(size, maxBlockSize);
      count := slots / (maxBlockSize - 1);
      largest := maxBlockSize;
    }
    if 1 <= size < Words.W / 2 {
      EnoughBlocks(size, maxBlockSize, largest, count);
      IsPlan(size, maxBlockSize, least, count, largest);
    }
  }

  lemma IsPlan(size: nat, maxBlockSize: nat, least: nat, count: nat, largest: nat)
    requires size >= 1 && maxBlockSize >= 2 && Words.LeastPow2(size + 1, least)
    requires if least <= maxBlockSize * 2 then count == 1 && largest == least
             else largest == maxBlockSize && count == (size + maxBlockSize * 2 - 3) / (maxBlockSize - 1)
    ensures Planned(size, maxBlockSize, count, largest)
  {
    hide Words.LeastPow2;
    if least > maxBlockSize * 2 { RoundedUp(size, maxBlockSize - 1, count); }
    assert PlannedFor(size, maxBlockSize, count, largest, least);
  }

  lemma RoundedUp(size: nat, k: nat, q: nat)
    requires size >= 1 && k >= 1 && q == (size + 2 * k - 1) / k
    ensures q >= 2 && (q - 2) * k < size <= (q - 1) * k
  {
    var n := size + 2 * k - 1;
    var p := k * q;
    assert n == p + n % k;
    assert (q - 2) * k == p - 2 * k && (q - 1) * k == p - k;
    if q < 2 { Products(k, q); }
  }

  lemma Products(k: nat, q: nat)
    requires q < 2
    ensures k * q <= k
  {
  }

  lemma NoOverflow(size: nat, maxBlockSize: nat)
    requires size < Words.W && 2 <= maxBlockSize <= Words.W / 4
    ensures size < Words.W / 2 ==> (size + maxBlockSize * 2 - 3) % Words.W == size + maxBlockSize * 2 - 3
  {
  }

  lemma BlockSizes(size: nat, largest: nat)
    requires size < Words.W
    requires var n := (size + 1) % Words.W;
             if 1 <= n <= Words.Pow2(63) then Words.LeastPow2(n, largest) else largest == 0
    ensures if size == 0 then largest == 1 else if size < Words.W / 2 then largest > size else largest == 0
  {
    Words.PowerOfWord();
    if size < Words.W / 2 {
      Words.LeastPow2IsLeast(size + 1, largest, 0);
      assert Words.Pow2(0) == 1;
    }
  }

  lemma TooFewSlots(s: State, g: Ghost)
    requires s.blocks != [] && s.blocks[0].size < 2
    ensures !Inv(s, g)
  {
  }

  // (initialBlockCount - 1) * (MAX_BLOCK_SIZE - 1) >= size
  lemma EnoughBlocks(size: nat, maxBlockSize: nat, largest: nat, count: nat)
    requires size >= 1 && maxBlockSize >= 2 && largest >= 2
    requires count == 1 ==> largest > size
    requires count != 1 ==> largest == maxBlockSize && count == (size + maxBlockSize * 2 - 3) / (maxBlockSize - 1)
    ensures count >= 1 && size <= (if count <= 1 then 1 else count - 1) * (largest - 1)
  {
  }

  function EmptyBlock(size: nat, next: nat): Block { Block(size, 0, 0, 0, 0, next, seq(size, _ => 0)) }
}

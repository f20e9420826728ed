// ConcurrentQueue's explicit producer, one item at a time: a first-in first-out sequence in a circular list
// of blocks, with a ring of index entries that lists the blocks in order. Producer calls are taken one at a
// time; between them any number of consumers may each have claimed an index, looked its block up, and not
// yet taken the element out. Indices are unbounded here (IndexArithmetic relates them to 64-bit words).
module ExplicitProducer {
  import opened Options
  import opened Positions
  import opened BlockPool
  import Words

  type Elem = int

  datatype Block = Block(elements: seq<Elem>, emptyFlags: seq<bool>, elementsCompletelyDequeued: nat, next: nat)
  datatype Entry = Entry(base: nat, block: nat)

  // ---------------------------------------------------------------- the circular list

  function Succ(i: nat, n: nat): nat { if i + 1 == n then 0 else i + 1 }

  ghost predicate LinkAt(blocks: seq<Block>, ring: seq<nat>, i: nat)
    requires i < |ring|
  {
    ring[i] < |blocks| && blocks[ring[i]].next == ring[Succ(i, |ring|)]
  }

  // From the oldest block to the tail block, each linked to the next and the last to the first.
  ghost predicate ListOk(blocks: seq<Block>, ring: seq<nat>) {
    && (forall i, j | 0 <= i < j < |ring| :: ring[i] != ring[j])
    && (forall i | 0 <= i < |ring| :: LinkAt(blocks, ring, i))
  }

  ghost function SetOf(ring: seq<nat>): set<nat> { set x | x in ring }

  // The oldest block becomes the newest.
  ghost function Rotated(ring: seq<nat>): seq<nat>
    requires ring != []
  {
    ring[1..] + [ring[0]]
  }

  lemma RotateOk(blocks: seq<Block>, blocks': seq<Block>, ring: seq<nat>)
    requires ListOk(blocks, ring) && ring != []
    requires |blocks'| == |blocks| && forall b | 0 <= b < |blocks| :: blocks'[b].next == blocks[b].next
    ensures ListOk(blocks', Rotated(ring)) && SetOf(Rotated(ring)) == SetOf(ring)
  {
    var n := |ring|;
    forall i | 0 <= i < n ensures LinkAt(blocks', Rotated(ring), i) {
      assert LinkAt(blocks, ring, Succ(i, n));
    }
    assert ring == [ring[0]] + ring[1..];
  }

  // A new block behind the tail block.
  lemma LinkNew(blocks: seq<Block>, blocks': seq<Block>, ring: seq<nat>, block: nat)
    requires ring != [] ==> ring[|ring| - 1] < |blocks|
    requires ListOk(blocks, ring) && block !in ring && |blocks| <= |blocks'| && block < |blocks'|
    requires forall b | 0 <= b < |blocks| && b != block && (ring != [] ==> b != ring[|ring| - 1]) :: blocks'[b].next == blocks[b].next
    requires if ring == [] then blocks'[block].next == block
             else blocks'[ring[|ring| - 1]].next == block && blocks'[block].next == ring[0]
    ensures ListOk(blocks', ring + [block]) && SetOf(ring + [block]) == SetOf(ring) + {block}
  {
    var n := |ring|;
    forall i | 0 <= i <= n ensures LinkAt(blocks', ring + [block], i) {
      if i < n { assert LinkAt(blocks, ring, i); }
    }
  }

  // ---------------------------------------------------------------- the ring index

  ghost predicate EntryOk(entries: seq<Entry>, size: nat, lo: nat, shift: int, ring: seq<nat>, b: int) {
    && |entries| > 0 && lo <= b < lo + |ring|
    && entries[SlotOf(b, shift, |entries|)] == Entry(Base(b, size), ring[b - lo])
  }

  // The last |ring| entries before `front` are those of blocks lo on, in order.
  ghost predicate IndexOk(entries: seq<Entry>, size: nat, front: nat, lo: nat, shift: int, ring: seq<nat>) {
    && |ring| <= |entries| && |entries| > 0
    && front == SlotOf(lo + |ring|, shift, |entries|)
    && (forall b | lo <= b < lo + |ring| :: EntryOk(entries, size, lo, shift, ring, b))
  }

  // Writing the entry of the new tail block, which is the oldest one reused or one more.
  lemma EntryAdded(entries: seq<Entry>, size: nat, front: nat, lo: nat, shift: int, ring: seq<nat>, lo': nat, ring': seq<nat>)
    requires IndexOk(entries, size, front, lo, shift, ring)
    requires if lo' == lo + 1 then ring != [] && ring' == Rotated(ring)
             else lo' == lo && |ring'| == |ring| + 1 && ring'[..|ring|] == ring && |ring| < |entries|
    ensures var end := lo + |ring|; var entries' := entries[front := Entry(Base(end, size), ring'[|ring'| - 1])];
            IndexOk(entries', size, (front + 1) % |entries|, lo', shift, ring')
  {
    var end, n := lo + |ring|, |entries|;
    var entries' := entries[front := Entry(Base(end, size), ring'[|ring'| - 1])];
    FromSlot(end, 1, shift, n);
    forall b | lo' <= b < lo' + |ring'| ensures EntryOk(entries', size, lo', shift, ring', b) {
      if b < end {
        assert EntryOk(entries, size, lo, shift, ring, b);
        SlotsDiffer(b, end, shift, n);
        if lo' == lo { assert ring'[..|ring|][b - lo] == ring[b - lo]; }
      }
    }
  }

  // The window of used entries moved to the start of a ring twice as long.
  lemma EntriesMoved(entries: seq<Entry>, entries': seq<Entry>, size: nat, front: nat, lo: nat, shift: int, ring: seq<nat>)
    requires IndexOk(entries, size, front, lo, shift, ring) && |entries'| == 2 * |entries|
    requires forall k | 0 <= k < |ring| :: entries'[k] == entries[SlotOf(k - |ring|, front, |entries|)]
    ensures IndexOk(entries', size, |ring|, lo, 0 - lo as int, ring)
  {
    hide SlotOf;
    var n, shift' := |ring|, 0 - lo as int;
    forall b | lo <= b < lo + n ensures EntryOk(entries', size, lo, shift', ring, b) {
      assert EntryOk(entries, size, lo, shift, ring, b);
      BackFrom(lo + n, b - lo - n, shift, |entries|);
      InPlace(lo, b - lo, |entries'|);
      assert entries'[b - lo] == entries[SlotOf(b - lo - n, front, |entries|)];
    }
    InPlace(lo, n, |entries'|);
  }

  lemma InPlace(lo: nat, k: nat, capacity: nat)
    requires k < capacity
    ensures SlotOf(lo + k, 0 - lo as int, capacity) == k
  {
    Words.RemainderUnique(k, capacity, 0, k);
  }

  lemma BackFrom(b: int, d: int, shift: int, capacity: nat)
    requires capacity > 0
    ensures SlotOf(d, SlotOf(b, shift, capacity), capacity) == SlotOf(b + d, shift, capacity)
  {
    FromSlot(b, d, shift, capacity);
  }

  lemma UsedSlots(entries: seq<Entry>, size: nat, front: nat, lo: nat, shift: int, ring: seq<nat>)
    requires IndexOk(entries, size, front, lo, shift, ring)
    ensures |ring| <= |entries| && front < |entries|
  {
  }

  lemma NoEntries(entries: seq<Entry>, size: nat, lo: nat)
    requires |entries| > 0
    ensures IndexOk(entries, size, 0, lo, 0 - lo as int, [])
  {
    InPlace(lo, 0, |entries|);
  }

  lemma CurrentAt(lo: nat, n: nat, capacity: nat)
    requires n < capacity
    ensures n > 0 ==> SlotOf(lo + n - 1, 0 - lo as int, capacity) == n - 1
  {
    if n > 0 { InPlace(lo, n - 1, capacity); }
  }

  lemma BaseZero(size: nat)
    ensures Base(0, size) == 0
  {
  }

  lemma BaseSum(b: nat, c: nat, size: nat)
    ensures Base(b + c, size) == Base(b, size) + Base(c, size)
  {
  }

  // Another of n blocks exceeds the limit exactly when they reach it; the test of the distance from tail to head
  // does not prevent that once all of the oldest block, number lo, is claimed.
  lemma LimitReached(lo: nat, n: nat, head: nat, size: BlockSize, limit: nat)
    requires limit % size == 0 && Base(n, size) <= limit
    ensures Base(n + 1, size) <= limit <==> Base(n, size) != limit
    ensures Base(n, size) == limit ==> (limit - size >= Base(lo + n, size) - head <==> Base(lo + 1, size) <= head)
  {
    assert Base(limit / size, size) == limit;
    BaseOrder(n + 1, limit / size, size);
    BaseOrder(limit / size, n, size);
    BaseSum(lo, n, size);
    BaseNext(lo, size);
  }

  // If it is all claimed and no consumer is under way, it is all finished.
  lemma ClaimedIsFinished(finished: set<nat>, lo: nat, head: nat, size: BlockSize)
    requires Base(lo + 1, size) <= head && forall i: nat | i < head :: i in finished
    ensures AllFinished(finished, size, lo)
  {
    forall i: nat | i / size == lo ensures i in finished { DivideBelow(i, size, lo + 1); }
  }

  function Blank(n: nat): seq<Entry> { seq(n, _ => Entry(0, 0)) }

  // The lookup of dequeue: from the current slot, by the signed distance in blocks.
  function BlockFor(entries: seq<Entry>, size: nat, current: nat, index: nat): nat
    requires current < |entries| && size > 0
  {
    var offset := (StartOf(index, size) - entries[current].base) / size;
    entries[(current + offset) % |entries|].block
  }

  lemma Found(entries: seq<Entry>, size: nat, front: nat, current: nat, lo: nat, shift: int, ring: seq<nat>, index: nat)
    requires IndexOk(entries, size, front, lo, shift, ring) && size > 0 && lo <= index / size < lo + |ring|
    requires current == SlotOf(lo + |ring| - 1, shift, |entries|)
    ensures BlockFor(entries, size, current, index) == ring[index / size - lo]
  {
    var b, last := index / size, lo + |ring| - 1;
    assert EntryOk(entries, size, lo, shift, ring, b) && EntryOk(entries, size, lo, shift, ring, last);
    BaseOf(b, index, size);
    BaseDistance(b, last, size);
    FromSlot(last, b - last, shift, |entries|);
  }

  // ---------------------------------------------------------------- what the blocks hold

  function FlagOf(b: Block, size: nat, i: nat): bool
    requires |b.emptyFlags| == size > 0
  {
    b.emptyFlags[size - 1 - i % size]
  }

  // A block marks which of its elements were dequeued, in flags (the last element's first) or in a count.
  ghost predicate MarksOk(b: Block, size: nat, threshold: nat, finished: set<nat>, n: nat)
    requires size > 0
  {
    if size <= threshold then |b.emptyFlags| == size && forall i: nat | i / size == n :: FlagOf(b, size, i) <==> i in finished
    else b.elementsCompletelyDequeued == |FinishedIn(finished, size, n)|
  }

  ghost predicate Marked(b: Block, size: nat, threshold: nat) {
    if size <= threshold then forall k | 0 <= k < |b.emptyFlags| :: b.emptyFlags[k] else b.elementsCompletelyDequeued == size
  }

  ghost predicate AllFinished(finished: set<nat>, size: nat, n: nat)
    requires size > 0
  {
    forall i: nat | i / size == n :: i in finished
  }

  lemma MarkedIsFinished(b: Block, size: nat, threshold: nat, finished: set<nat>, n: nat)
    requires size > 0 && MarksOk(b, size, threshold, finished, n) && Marked(b, size, threshold)
    ensures AllFinished(finished, size, n)
  {
    forall i: nat | i / size == n ensures i in finished {
      if size <= threshold {
        assert FlagOf(b, size, i);
      } else if i !in finished {
        RoomInBlock(finished, size, n, i);
      }
    }
  }

  lemma FinishedIsMarked(b: Block, size: nat, threshold: nat, finished: set<nat>, n: nat)
    requires size > 0 && MarksOk(b, size, threshold, finished, n) && AllFinished(finished, size, n)
    ensures Marked(b, size, threshold)
  {
    if size <= threshold {
      forall k | 0 <= k < |b.emptyFlags| ensures b.emptyFlags[k] {
        var i := Base(n, size) + (size - 1 - k);
        Position(i, n, size - 1 - k, size);
        assert FlagOf(b, size, i);
      }
    } else {
      forall i: nat | Base(n, size) <= i < Base(n, size) + size ensures i in FinishedIn(finished, size, n) {
        Position(i, n, i - Base(n, size), size);
      }
      AtLeastRange(FinishedIn(finished, size, n), Base(n, size), size);
      forall i <- FinishedIn(finished, size, n) ensures Base(n, size) <= i < Base(n, size) + size { BaseOf(n, i, size); }
      RangeSize(FinishedIn(finished, size, n), Base(n, size), size);
    }
  }

  lemma {:induction false} AtLeastRange(s: set<nat>, from: nat, n: nat)
    requires forall i: nat | from <= i < from + n :: i in s
    ensures |s| >= n
    decreases n
  {
    if n > 0 { AtLeastRange(s - {from}, from + 1, n - 1); }
  }

  // No flag set, or nothing counted.
  ghost predicate Reset(b: Block, size: nat, threshold: nat) {
    if size <= threshold then |b.emptyFlags| == size && forall k | 0 <= k < size :: !b.emptyFlags[k] else b.elementsCompletelyDequeued == 0
  }

  lemma ResetKept(b: Block, next: nat, size: nat, threshold: nat)
    requires Reset(b, size, threshold)
    ensures Reset(b.(next := next), size, threshold)
  {
  }

  lemma ResetMarks(b: Block, size: nat, threshold: nat, finished: set<nat>, n: nat)
    requires size > 0 && Reset(b, size, threshold) && forall i <- finished :: i / size < n
    ensures MarksOk(b, size, threshold, finished, n)
  {
    assert FinishedIn(finished, size, n) == {};
  }

  lemma SameMarks(b: Block, b': Block, size: nat, threshold: nat, finished: set<nat>, n: nat)
    requires size > 0 && b'.emptyFlags == b.emptyFlags && b'.elementsCompletelyDequeued == b.elementsCompletelyDequeued
    ensures MarksOk(b', size, threshold, finished, n) <==> MarksOk(b, size, threshold, finished, n)
  {
    if size <= threshold && |b.emptyFlags| == size {
      assert forall i: nat | i / size == n :: FlagOf(b', size, i) == FlagOf(b, size, i);
    }
  }

  ghost predicate BlockOk(blocks: seq<Block>, size: nat, threshold: nat, lo: nat, ring: seq<nat>, finished: set<nat>, k: nat)
    requires size > 0 && k < |ring|
  {
    ring[k] < |blocks| && |blocks[ring[k]].elements| == size && MarksOk(blocks[ring[k]], size, threshold, finished, lo + k)
  }

  ghost predicate ItemOk(blocks: seq<Block>, size: nat, lo: nat, ring: seq<nat>, items: seq<Elem>, i: nat)
    requires size > 0 && i < |items|
  {
    && lo <= i / size < lo + |ring| && ring[i / size - lo] < |blocks|
    && var b := blocks[ring[i / size - lo]]; i % size < |b.elements| && b.elements[i % size] == items[i]
  }

  // The list's blocks are numbers lo on and hold every element not yet taken out.
  ghost predicate DataOk(blocks: seq<Block>, size: nat, threshold: nat, lo: nat, ring: seq<nat>, items: seq<Elem>, finished: set<nat>) {
    && size >= 2
    && (forall k | 0 <= k < |ring| :: BlockOk(blocks, size, threshold, lo, ring, finished, k))
    && (forall i: nat | i < |items| && i !in finished :: ItemOk(blocks, size, lo, ring, items, i))
    && (forall i <- finished :: i < |items|)
  }

  lemma OldestReused(blocks: seq<Block>, blocks': seq<Block>, size: nat, threshold: nat, lo: nat, ring: seq<nat>,
                     items: seq<Elem>, finished: set<nat>)
    requires DataOk(blocks, size, threshold, lo, ring, items, finished) && ListOk(blocks, ring) && ring != []
    requires AllFinished(finished, size, lo) && forall i <- finished :: i / size < lo + |ring|
    requires |blocks'| == |blocks| && ring[0] < |blocks| && blocks' == blocks[ring[0] := blocks'[ring[0]]]
    requires Reset(blocks'[ring[0]], size, threshold) && |blocks'[ring[0]].elements| == size
    ensures DataOk(blocks', size, threshold, lo + 1, Rotated(ring), items, finished)
  {
    var n, ring' := |ring|, Rotated(ring);
    hide MarksOk, Reset;
    var lo' := lo + 1;
    forall k | 0 <= k < n ensures BlockOk(blocks', size, threshold, lo', ring', finished, k) {
      if k + 1 < n {
        assert ring'[k] == ring[k + 1] != ring[0];
        assert BlockOk(blocks, size, threshold, lo, ring, finished, k + 1);
      } else {
        ResetMarks(blocks'[ring[0]], size, threshold, finished, lo + n);
      }
    }
    forall i: nat | i < |items| && i !in finished ensures ItemOk(blocks', size, lo', ring', items, i) {
      assert ItemOk(blocks, size, lo, ring, items, i);
      assert i / size != lo;
      assert ring'[i / size - lo - 1] == ring[i / size - lo];
    }
  }

  lemma BlockAppended(blocks: seq<Block>, blocks': seq<Block>, size: nat, threshold: nat, lo: nat, ring: seq<nat>, items: seq<Elem>,
                      finished: set<nat>, block: nat)
    requires DataOk(blocks, size, threshold, lo, ring, items, finished)
    requires forall i <- finished :: i / size < lo + |ring|
    requires |blocks| <= |blocks'| && block < |blocks'| && block !in ring
    requires forall b | 0 <= b < |blocks| && b != block :: blocks'[b] == blocks[b].(next := blocks'[b].next)
    requires Reset(blocks'[block], size, threshold) && |blocks'[block].elements| == size
    ensures DataOk(blocks', size, threshold, lo, ring + [block], items, finished)
  {
    hide MarksOk, Reset;
    var n, ring' := |ring|, ring + [block];
    forall k | 0 <= k <= n ensures BlockOk(blocks', size, threshold, lo, ring', finished, k) {
      if k < n {
        assert BlockOk(blocks, size, threshold, lo, ring, finished, k);
        SameMarks(blocks[ring[k]], blocks'[ring[k]], size, threshold, finished, lo + k);
      } else {
        ResetMarks(blocks'[block], size, threshold, finished, lo + n);
      }
    }
    forall i: nat | i < |items| && i !in finished ensures ItemOk(blocks', size, lo, ring', items, i) {
      assert ItemOk(blocks, size, lo, ring, items, i);
    }
  }

  lemma ItemAdded(blocks: seq<Block>, size: nat, threshold: nat, lo: nat, ring: seq<nat>, items: seq<Elem>, finished: set<nat>, x: Elem)
    requires DataOk(blocks, size, threshold, lo, ring, items, finished) && ListOk(blocks, ring)
    requires lo <= |items| / size < lo + |ring|
    ensures var id := ring[|items| / size - lo];
            && id < |blocks| && |items| % size < |blocks[id].elements|
            && DataOk(blocks[id := blocks[id].(elements := blocks[id].elements[|items| % size := x])], size, threshold, lo, ring,
                      items + [x], finished)
  {
    hide MarksOk;
    var n := |items|;
    assert BlockOk(blocks, size, threshold, lo, ring, finished, n / size - lo);
    var id := ring[n / size - lo];
    var blocks' := blocks[id := blocks[id].(elements := blocks[id].elements[n % size := x])];
    forall k | 0 <= k < |ring| ensures BlockOk(blocks', size, threshold, lo, ring, finished, k) {
      assert BlockOk(blocks, size, threshold, lo, ring, finished, k);
      SameMarks(blocks[ring[k]], blocks'[ring[k]], size, threshold, finished, lo + k);
    }
    forall i: nat | i < n + 1 && i !in finished ensures ItemOk(blocks', size, lo, ring, items + [x], i) {
      if i < n {
        assert ItemOk(blocks, size, lo, ring, items, i);
        if i / size == n / size && i % size == n % size { SamePlace(i, n, size); }
      }
    }
  }

  // set_empty
  function MarkEmpty(b: Block, size: nat, threshold: nat, o: nat): Block
    requires o < size && (size <= threshold ==> |b.emptyFlags| == size)
  {
    if size <= threshold then b.(emptyFlags := b.emptyFlags[size - 1 - o := true])
    else b.(elementsCompletelyDequeued := b.elementsCompletelyDequeued + 1)
  }

  lemma MarkedOne(b: Block, size: nat, threshold: nat, finished: set<nat>, n: nat, i: nat)
    requires size > 0 && MarksOk(b, size, threshold, finished, n) && i / size == n && i !in finished
    ensures size <= threshold ==> |b.emptyFlags| == size && !FlagOf(b, size, i)
    ensures size > threshold ==> b.elementsCompletelyDequeued < size
    ensures MarksOk(MarkEmpty(b, size, threshold, i % size), size, threshold, finished + {i}, n)
  {
    if size <= threshold {
      var b' := MarkEmpty(b, size, threshold, i % size);
      forall j: nat | j / size == n ensures FlagOf(b', size, j) <==> j in finished + {i} {
        assert FlagOf(b, size, j) <==> j in finished;
        if j % size == i % size { SamePlace(i, j, size); }
      }
    } else {
      FinishOne(finished, size, i);
      RoomInBlock(finished, size, n, i);
    }
  }

  lemma UnmarkedOther(b: Block, size: nat, threshold: nat, finished: set<nat>, n: nat, i: nat)
    requires size > 0 && MarksOk(b, size, threshold, finished, n) && i / size != n && i !in finished
    ensures MarksOk(b, size, threshold, finished + {i}, n)
  {
    FinishOne(finished, size, i);
  }

  lemma ItemTaken(blocks: seq<Block>, size: nat, threshold: nat, lo: nat, ring: seq<nat>, items: seq<Elem>, finished: set<nat>, i: nat)
    requires DataOk(blocks, size, threshold, lo, ring, items, finished) && ListOk(blocks, ring) && i < |items| && i !in finished
    ensures ItemOk(blocks, size, lo, ring, items, i)
    ensures var id := ring[i / size - lo]; var b := blocks[id];
            && (size <= threshold ==> |b.emptyFlags| == size && !FlagOf(b, size, i))
            && (size > threshold ==> b.elementsCompletelyDequeued < size)
            && DataOk(blocks[id := MarkEmpty(b, size, threshold, i % size)], size, threshold, lo, ring, items, finished + {i})
  {
    hide MarksOk;
    assert ItemOk(blocks, size, lo, ring, items, i);
    var b := i / size;
    var id := ring[b - lo];
    assert BlockOk(blocks, size, threshold, lo, ring, finished, b - lo);
    MarkedOne(blocks[id], size, threshold, finished, b, i);
    var blocks' := blocks[id := MarkEmpty(blocks[id], size, threshold, i % size)];
    forall k | 0 <= k < |ring| ensures BlockOk(blocks', size, threshold, lo, ring, finished + {i}, k) {
      assert BlockOk(blocks, size, threshold, lo, ring, finished, k);
      if k != b - lo { UnmarkedOther(blocks[ring[k]], size, threshold, finished, lo + k, i); }
    }
    forall j: nat | j < |items| && j !in finished + {i} ensures ItemOk(blocks', size, lo, ring, items, j) {
      assert ItemOk(blocks, size, lo, ring, items, j);
    }
  }

  // What a consumer found for an index it claimed and has not finished.
  ghost predicate LocatedOk(located: map<nat, nat>, head: nat, size: nat, lo: nat, ring: seq<nat>, finished: set<nat>) {
    size > 0 && forall i <- located ::
      i < head && i !in finished && lo <= i / size < lo + |ring| && located[i] == ring[i / size - lo]
  }

  lemma ListAt(blocks: seq<Block>, ring: seq<nat>, i: nat)
    requires ListOk(blocks, ring) && i < |ring|
    ensures ring[i] < |blocks| && blocks[ring[i]].next == ring[Succ(i, |ring|)]
  {
    assert LinkAt(blocks, ring, i);
  }

  lemma RotatedShape(ring: seq<nat>)
    requires ring != []
    ensures Rotated(ring) != [] && |Rotated(ring)| == |ring| && Rotated(ring)[|ring| - 1] == ring[0]
  {
  }

  lemma FrontSlot(entries: seq<Entry>, size: nat, front: nat, lo: nat, shift: int, ring: seq<nat>)
    requires IndexOk(entries, size, front, lo, shift, ring)
    ensures front < |entries| && front == SlotOf(lo + |ring|, shift, |entries|)
  {
  }

  lemma LocatedRotated(located: map<nat, nat>, head: nat, size: nat, lo: nat, ring: seq<nat>, finished: set<nat>)
    requires LocatedOk(located, head, size, lo, ring, finished) && ring != [] && AllFinished(finished, size, lo)
    ensures LocatedOk(located, head, size, lo + 1, Rotated(ring), finished)
  {
    forall i <- located ensures i / size != lo { }
  }

  lemma BlockShape(blocks: seq<Block>, size: nat, flags: nat, b: nat)
    requires Shaped(blocks, size, flags) && b < |blocks|
    ensures |blocks[b].elements| == size && |blocks[b].emptyFlags| == flags
  {
  }

  lemma ShapeKept(blocks: seq<Block>, blocks': seq<Block>, size: nat, flags: nat, b: nat)
    requires Shaped(blocks, size, flags) && b < |blocks| == |blocks'| && blocks' == blocks[b := blocks'[b]]
    requires |blocks'[b].elements| == size && |blocks'[b].emptyFlags| == flags
    ensures Shaped(blocks', size, flags)
  {
  }

  lemma ShapesKept(blocks: seq<Block>, blocks': seq<Block>, size: nat, flags: nat, b: nat)
    requires Shaped(blocks, size, flags) && b < |blocks| == |blocks'|
    requires forall c | 0 <= c < |blocks| && c != b :: blocks'[c] == blocks[c].(next := blocks'[c].next)
    requires blocks'[b].elements == blocks[b].elements && |blocks'[b].emptyFlags| == flags
    ensures Shaped(blocks', size, flags)
  {
    forall x <- blocks' ensures |x.elements| == size && |x.emptyFlags| == flags {
      var c :| 0 <= c < |blocks'| && blocks'[c] == x;
      assert blocks[c] in blocks;
    }
  }

  ghost predicate Shaped(blocks: seq<Block>, size: nat, flags: nat) {
    forall b <- blocks :: |b.elements| == size && |b.emptyFlags| == flags
  }

  function FlagCount(size: nat, threshold: nat): nat { if size <= threshold then size else 1 }

  // The parent queue's blocks and what is known of those in the list: `ring` are block numbers lo and up, `items`
  // everything enqueued, `finished` the indices whose elements were taken out, `head` the first unclaimed one,
  // `located` the blocks that consumers have found.
  datatype Store = Store(
    blocks: seq<Block>, free: seq<nat>, size: nat, threshold: nat, lo: nat, ring: seq<nat>, items: seq<Elem>,
    finished: set<nat>, head: nat, located: map<nat, nat>, tailBlock: Option<nat>)
  {
    ghost predicate Ok() {
      && ListOk(blocks, ring) && DataOk(blocks, size, threshold, lo, ring, items, finished)
      && Partition(|blocks|, free, {}, SetOf(ring)) && Shaped(blocks, size, FlagCount(size, threshold))
      && head <= |items| && (forall i <- finished :: i < head)
      && LocatedOk(located, head, size, lo, ring, finished)
      && tailBlock == (if ring == [] then None else Some(ring[|ring| - 1]))
    }

    lemma Shape()
      requires Ok()
      ensures (ring == [] <==> tailBlock.None?) && Partition(|blocks|, free, {}, SetOf(ring))
      ensures size >= 2 && head <= |items| && (forall i <- finished :: i < head) && Shaped(blocks, size, FlagCount(size, threshold))
      ensures ring != [] ==>
                && tailBlock == Some(ring[|ring| - 1]) && ring[|ring| - 1] < |blocks| && blocks[ring[|ring| - 1]].next == ring[0]
                && ring[0] < |blocks| && MarksOk(blocks[ring[0]], size, threshold, finished, lo)
                && |blocks[ring[0]].elements| == size && |blocks[ring[0]].emptyFlags| == FlagCount(size, threshold)
    {
      if ring != [] {
        ListAt(blocks, ring, |ring| - 1);
        ListAt(blocks, ring, 0);
        assert BlockOk(blocks, size, threshold, lo, ring, finished, 0);
      }
    }

    lemma ReuseOk(blocks': seq<Block>)
      requires Ok() && ring != []
      requires AllFinished(finished, size, lo) && forall i <- finished :: i / size < lo + |ring|
      requires |blocks'| == |blocks| && ring[0] < |blocks| && blocks' == blocks[ring[0] := blocks'[ring[0]]]
      requires blocks'[ring[0]] == blocks[ring[0]].(emptyFlags := blocks'[ring[0]].emptyFlags,
                                                    elementsCompletelyDequeued := blocks'[ring[0]].elementsCompletelyDequeued)
      requires Reset(blocks'[ring[0]], size, threshold) && |blocks'[ring[0]].emptyFlags| == FlagCount(size, threshold)
      ensures this.(blocks := blocks', lo := lo + 1, ring := Rotated(ring), tailBlock := Some(ring[0])).Ok()
    {
      hide DataOk, ListOk, Partition, LocatedOk, AllFinished, Reset, Rotated, SetOf;
      BlockShape(blocks, size, FlagCount(size, threshold), ring[0]);
      OldestReused(blocks, blocks', size, threshold, lo, ring, items, finished);
      RotateOk(blocks, blocks', ring);
      LocatedRotated(located, head, size, lo, ring, finished);
      RotatedShape(ring);
    }

    lemma AppendOk(blocks': seq<Block>, free': seq<nat>, block: nat)
      requires Ok()
      requires forall i <- finished :: i / size < lo + |ring|
      requires Partition(|blocks'|, free', {}, SetOf(ring) + {block}) && block !in ring && |blocks| <= |blocks'| && block < |blocks'|
      requires forall b | 0 <= b < |blocks| && b != block :: blocks'[b] == blocks[b].(next := blocks'[b].next)
      requires forall b | 0 <= b < |blocks| && b != block && Some(b) != tailBlock :: blocks'[b].next == blocks[b].next
      requires if tailBlock.None? then blocks'[block].next == block
               else tailBlock.value < |blocks| && blocks'[tailBlock.value].next == block && blocks'[block].next == blocks[tailBlock.value].next
      requires Reset(blocks'[block], size, threshold) && Shaped(blocks', size, FlagCount(size, threshold))
      ensures this.(blocks := blocks', free := free', ring := ring + [block], tailBlock := Some(block)).Ok()
    {
      hide DataOk, Partition, Reset, Shaped, SetOf;
      Shape();
      BlockShape(blocks', size, FlagCount(size, threshold), block);
      LinkNew(blocks, blocks', ring, block);
      BlockAppended(blocks, blocks', size, threshold, lo, ring, items, finished, block);
    }

    lemma ConstructOk(x: Elem)
      requires Ok()
      requires ring != [] && size > 0 && |items| / size == lo + |ring| - 1
      ensures tailBlock.Some? && tailBlock.value < |blocks| && |items| % size < |blocks[tailBlock.value].elements|
      ensures var b := blocks[tailBlock.value];
              this.(blocks := blocks[tailBlock.value := b.(elements := b.elements[|items| % size := x])], items := items + [x]).Ok()
    {
      hide DataOk, Partition, LocatedOk;
      Shape();
      ItemAdded(blocks, size, threshold, lo, ring, items, finished, x);
      var b := blocks[tailBlock.value];
      var blocks' := blocks[tailBlock.value := b.(elements := b.elements[|items| % size := x])];
      forall i | 0 <= i < |ring| ensures LinkAt(blocks', ring, i) { assert LinkAt(blocks, ring, i); }
      ShapeKept(blocks, blocks', size, FlagCount(size, threshold), tailBlock.value);
    }

    // An element still to be taken out is in the block listed for it.
    lemma ItemAt(i: nat)
      requires Ok()
      requires size > 0 && i < |items| && i !in finished
      ensures lo <= i / size < lo + |ring|
      ensures i < head ==> this.(located := located[i := ring[i / size - lo]]).Ok()
    {
      hide ListOk, Partition, Shaped;
      assert ItemOk(blocks, size, lo, ring, items, i);
    }

    lemma TakenOk(i: nat)
      requires Ok() && i in located
      ensures size > 0 && i < |items| && located[i] < |blocks|
      ensures var b := blocks[located[i]];
              && i % size < |b.elements| && b.elements[i % size] == items[i]
              && (size <= threshold ==> |b.emptyFlags| == size && !FlagOf(b, size, i))
              && (size > threshold ==> b.elementsCompletelyDequeued < size)
              && this.(blocks := blocks[located[i] := MarkEmpty(b, size, threshold, i % size)], finished := finished + {i},
                       located := located - {i}).Ok()
    {
      hide DataOk, Partition;
      ItemTaken(blocks, size, threshold, lo, ring, items, finished, i);
      BlockShape(blocks, size, FlagCount(size, threshold), located[i]);
      var blocks' := blocks[located[i] := MarkEmpty(blocks[located[i]], size, threshold, i % size)];
      forall k | 0 <= k < |ring| ensures LinkAt(blocks', ring, k) { assert LinkAt(blocks, ring, k); }
      ShapeKept(blocks, blocks', size, FlagCount(size, threshold), located[i]);
    }
  }

  function Pool(n: nat, size: nat, flags: nat): seq<Block> {
    var block := Block(seq(size, _ => 0), seq(flags, _ => false), 0, 0);
    seq(n, _ => block)
  }

  lemma NothingYet(blocks: seq<Block>, free: seq<nat>, n: nat, size: BlockSize, threshold: nat)
    requires blocks == Pool(n, size, FlagCount(size, threshold)) && free == seq(n, i => i)
    ensures Store(blocks, free, size, threshold, 0, [], [], {}, 0, map[], None).Ok()
  {
    forall x | 0 <= x < n ensures x in free { assert free[x] == x; }
  }

  class Producer {
    const blockSize: BlockSize
    // None when sub-queues are not limited.
    const maxSubqueueSize: Option<nat>
    const emptyCounterThreshold: nat

    // The parent queue's blocks.
    var blocks: seq<Block>
    var free: seq<nat>

    // pr_blockIndexRaw is null while hasIndex is false; `current` is blockIndex->front.
    var hasIndex: bool
    var entries: seq<Entry>
    var slotsUsed: nat
    var indexSize: nat
    var front: nat
    var current: int

    var tailIndex: nat
    var headIndex: nat
    var tailBlock: Option<nat>

    // Everything enqueued, the indices whose elements were taken out, and the list's blocks from the oldest
    // on, which are block numbers `lo` and up.
    ghost var items: seq<Elem>
    ghost var finished: set<nat>
    ghost var ring: seq<nat>
    ghost var lo: nat
    ghost var shift: int
    ghost var located: map<nat, nat>

    // The parent queue has `pool` blocks to start with; the first index may fail to be allocated. Here and
    // below, no allocation fails if `memory` is set, and otherwise each may or may not.
    constructor (blockSize: BlockSize, maxSubqueueSize: Option<nat>, emptyCounterThreshold: nat, initialIndexSize: nat, pool: nat,
                 memory: bool)
      requires initialIndexSize > 1 && pool < Words.W && (maxSubqueueSize.Some? ==> maxSubqueueSize.value % blockSize == 0)
      ensures Valid() && Contents() == [] && items == []
      ensures this.blockSize == blockSize && this.maxSubqueueSize == maxSubqueueSize
      ensures ring == [] && lo == 0 && finished == {} && located == map[] && headIndex == 0
      ensures memory ==> IndexHasRoom()
    {
      hide IndexOk, Store.Ok, Base, Words.LeastPow2, Words.Pow2;
      this.blockSize, this.maxSubqueueSize, this.emptyCounterThreshold := blockSize, maxSubqueueSize, emptyCounterThreshold;
      blocks, free := Pool(pool, blockSize, FlagCount(blockSize, emptyCounterThreshold)), seq(pool, i => i);
      var poolBasedIndexSize := Words.CeilToPow2(pool);
      poolBasedIndexSize := poolBasedIndexSize / 2;
      indexSize := if poolBasedIndexSize > initialIndexSize / 2 then poolBasedIndexSize else initialIndexSize / 2;
      hasIndex, entries, slotsUsed, front, current := false, [], 0, 0, 0;
      tailIndex, headIndex, tailBlock := 0, 0, None;
      items, finished, ring, lo, shift, located := [], {}, [], 0, 0, map[];
      new;
      var ok := NewBlockIndex(memory);
      NothingYet(blocks, free, pool, blockSize, emptyCounterThreshold);
    }

    ghost predicate IndexReady()
      reads this`hasIndex, this`entries, this`slotsUsed, this`indexSize, this`front, this`current, this`ring, this`lo, this`shift
    {
      && indexSize > 0 && slotsUsed == |ring| && (ring == [] ==> lo == 0)
      && (if hasIndex then
            && |entries| == indexSize && IndexOk(entries, blockSize, front, lo, shift, ring)
            && (ring != [] ==> current == SlotOf(lo + |ring| - 1, shift, indexSize))
          else ring == [] && front == 0)
    }

    ghost function Now(): Store
      reads this`blocks, this`free, this`ring, this`lo, this`items, this`finished, this`headIndex, this`located, this`tailBlock
    {
      Store(blocks, free, blockSize, emptyCounterThreshold, lo, ring, items, finished, headIndex, located, tailBlock)
    }

    ghost predicate BlocksReady()
      reads this`blocks, this`free, this`ring, this`lo, this`items, this`finished, this`headIndex, this`located, this`tailBlock
    {
      Now().Ok()
    }

    ghost predicate Valid()
      reads this
    {
      && IndexReady() && BlocksReady()
      && headIndex <= tailIndex == |items| && Begun(tailIndex, blockSize) == lo + |ring|
      && (maxSubqueueSize.Some? ==> maxSubqueueSize.value % blockSize == 0)
    }

    // What has been enqueued and not been claimed by a consumer.
    ghost function Contents(): seq<Elem>
      reads this
      requires Valid()
    {
      items[headIndex..]
    }

    // ---------------------------------------------------------------- the block index

    predicate IndexHasRoom()
      reads this`hasIndex, this`slotsUsed, this`indexSize
    {
      hasIndex && slotsUsed < indexSize
    }

    method NewBlockIndex(memory: bool) returns (ok: bool)
      requires IndexReady()
      modifies this`hasIndex, this`entries, this`indexSize, this`front, this`current, this`shift
      ensures IndexReady() && (hasIndex == old(hasIndex) || ok)
      ensures (ok ==> IndexHasRoom()) && (memory ==> ok)
      ensures indexSize == if ok then 2 * old(indexSize) else old(indexSize)
    {
      hide IndexOk, SlotOf;
      var prevSize := indexSize;
      indexSize := indexSize * 2;
      var lucky: bool := *;
      if !memory && !lucky {
        indexSize := prevSize;
        return false;
      }
      var newEntries := Blank(indexSize);
      if slotsUsed != 0 {
        UsedSlots(entries, blockSize, front, lo, shift, ring);
        newEntries := MoveEntries(newEntries, prevSize);
        EntriesMoved(entries, newEntries, blockSize, front, lo, shift, ring);
        shift := 0 - lo as int;
      } else {
        NoEntries(newEntries, blockSize, lo);
        shift := 0 - lo as int;
      }
      CurrentAt(lo, |ring|, indexSize);
      current := slotsUsed - 1;
      front := slotsUsed;
      entries := newEntries;
      hasIndex := true;
      ok := true;
    }

    // The used entries copied to the start of the new array, oldest first.
    method MoveEntries(newEntries: seq<Entry>, prevSize: nat) returns (moved: seq<Entry>)
      requires 0 < slotsUsed <= prevSize == |entries| && |newEntries| == 2 * prevSize && front < prevSize
      ensures |moved| == |newEntries|
      ensures forall k | 0 <= k < slotsUsed :: moved[k] == entries[SlotOf(k - slotsUsed, front, prevSize)]
    {
      moved := newEntries;
      var i := (front - slotsUsed) % prevSize;
      var j: nat := 0;
      FromSlot(0 - slotsUsed as int, 0, front, prevSize);
      while true
        invariant 0 <= j < slotsUsed && |moved| == |newEntries| && i == SlotOf(j - slotsUsed, front, prevSize)
        invariant forall k | 0 <= k < j :: moved[k] == entries[SlotOf(k - slotsUsed, front, prevSize)]
        decreases slotsUsed - j
      {
        moved := moved[j := entries[i]];
        FromSlot(j - slotsUsed, 1, front, prevSize);
        i, j := (i + 1) % prevSize, j + 1;
        if j < slotsUsed { SlotsDiffer(j - slotsUsed, 0, front, prevSize); }
        Words.RemainderUnique(front, prevSize, 0, front);
        if i == front {
          return;
        }
      }
    }

    // ---------------------------------------------------------------- the blocks' marks

    method IsEmpty(block: nat, ghost n: nat) returns (empty: bool)
      requires block < |blocks| && MarksOk(blocks[block], blockSize, emptyCounterThreshold, finished, n)
      ensures empty <==> AllFinished(finished, blockSize, n)
    {
      if AllFinished(finished, blockSize, n) { FinishedIsMarked(blocks[block], blockSize, emptyCounterThreshold, finished, n); }
      if blockSize <= emptyCounterThreshold {
        empty := true;
        for i := 0 to blockSize
          invariant forall k | 0 <= k < i :: blocks[block].emptyFlags[k]
        {
          if !blocks[block].emptyFlags[i] {
            return false;
          }
        }
      } else {
        empty := blocks[block].elementsCompletelyDequeued == blockSize;
      }
      if empty { MarkedIsFinished(blocks[block], blockSize, emptyCounterThreshold, finished, n); }
    }

    method ResetEmpty(block: nat)
      requires block < |blocks| && |blocks[block].emptyFlags| == FlagCount(blockSize, emptyCounterThreshold)
      modifies this`blocks
      ensures |blocks| == |old(blocks)| && blocks == old(blocks)[block := blocks[block]]
      ensures blocks[block] == old(blocks)[block].(emptyFlags := blocks[block].emptyFlags,
                                                   elementsCompletelyDequeued := blocks[block].elementsCompletelyDequeued)
      ensures Reset(blocks[block], blockSize, emptyCounterThreshold) && |blocks[block].emptyFlags| == FlagCount(blockSize, emptyCounterThreshold)
    {
      if blockSize <= emptyCounterThreshold {
        for i := 0 to blockSize
          invariant |blocks| == |old(blocks)| && blocks == old(blocks)[block := blocks[block]]
          invariant blocks[block] == old(blocks)[block].(emptyFlags := blocks[block].emptyFlags)
          invariant |blocks[block].emptyFlags| == blockSize && forall k | 0 <= k < i :: !blocks[block].emptyFlags[k]
        {
          blocks := blocks[block := blocks[block].(emptyFlags := blocks[block].emptyFlags[i := false])];
        }
      } else {
        blocks := blocks[block := blocks[block].(elementsCompletelyDequeued := 0)];
      }
    }

    // ---------------------------------------------------------------- enqueueing

    method RequisitionBlock(canAlloc: bool, memory: bool) returns (result: Option<nat>)
      requires Partition(|blocks|, free, {}, SetOf(ring)) && Shaped(blocks, blockSize, FlagCount(blockSize, emptyCounterThreshold))
      modifies this`blocks, this`free
      ensures result.None? ==> blocks == old(blocks) && free == old(free)
      ensures if old(free) != [] then result.Some? else (canAlloc && memory ==> result.Some?) && (result.Some? ==> canAlloc)
      ensures result.Some? ==>
                && old(blocks) <= blocks && result.value < |blocks| && result.value !in ring
                && Partition(|blocks|, free, {}, SetOf(ring) + {result.value})
      ensures |blocks| == |old(blocks)| + if old(free) == [] && result.Some? then 1 else 0
      ensures Shaped(blocks, blockSize, FlagCount(blockSize, emptyCounterThreshold))
    {
      if free != [] {
        TakeFree(|blocks|, free, {}, SetOf(ring));
        assert forall x <- ring :: x in SetOf(ring);
        var block := free[|free| - 1];
        free := free[..|free| - 1];
        return Some(block);
      }
      var lucky: bool := *;
      if !canAlloc || !(memory || lucky) {
        return None;
      }
      assert forall x <- ring :: x in SetOf(ring);
      blocks := blocks + [Block(seq(blockSize, _ => 0), seq(FlagCount(blockSize, emptyCounterThreshold), _ => false), 0, 0)];
      result := Some(|blocks| - 1);
    }

    // The entry of the block that is the tail block from now on.
    method AddToIndex(base: nat, block: nat, ghost lo': nat, ghost ring': seq<nat>)
      requires |entries| == indexSize && IndexOk(entries, blockSize, front, lo, shift, ring) && base == Base(lo + |ring|, blockSize)
      requires if lo' == lo + 1 then ring != [] && ring' == Rotated(ring)
               else lo' == lo && |ring'| == |ring| + 1 && ring'[..|ring|] == ring && |ring| < |entries|
      requires ring'[|ring'| - 1] == block
      modifies this`entries, this`current, this`front
      ensures |entries| == indexSize && IndexOk(entries, blockSize, front, lo', shift, ring')
      ensures 0 < indexSize && current == SlotOf(lo' + |ring'| - 1, shift, indexSize)
    {
      hide IndexOk, Base, SlotOf;
      if ring != [] { RotatedShape(ring); }
      EntryAdded(entries, blockSize, front, lo, shift, ring, lo', ring');
      FrontSlot(entries, blockSize, front, lo, shift, ring);
      entries := entries[front := Entry(base, block)];
      current := front;
      front := (front + 1) % indexSize;
    }

    // The block ahead of the tail block, the oldest, is empty: it becomes the tail block.
    method ReuseBlock(currentTailIndex: nat)
      requires IndexReady() && BlocksReady() && ring != [] && hasIndex
      requires AllFinished(finished, blockSize, lo) && (forall i <- finished :: i / blockSize < lo + |ring|)
      requires currentTailIndex == Base(lo + |ring|, blockSize)
      modifies this`tailBlock, this`blocks, this`entries, this`current, this`front, this`ring, this`lo
      ensures IndexReady() && BlocksReady() && lo == old(lo) + 1 && ring == Rotated(old(ring))
    {
      hide IndexOk, Store.Ok, MarksOk, AllFinished, Base, Reset, SlotOf, Rotated, Shaped;
      Now().Shape();
      var next := blocks[tailBlock.value].next;
      ghost var ring' := Rotated(ring);
      ResetEmpty(next);
      old(Now()).ReuseOk(blocks);
      tailBlock := Some(next);
      RotatedShape(ring);
      AddToIndex(currentTailIndex, next, lo + 1, ring');
      lo, ring := lo + 1, ring';
    }

    // Put a block between the tail block and the oldest one.
    method LinkBlock(block: nat)
      requires block < |blocks| && (tailBlock.Some? ==> tailBlock.value < |blocks| && tailBlock.value != block)
      modifies this`blocks, this`tailBlock
      ensures |blocks| == |old(blocks)| && tailBlock == Some(block)
      ensures forall b | 0 <= b < |blocks| :: blocks[b] == old(blocks)[b].(next := blocks[b].next)
      ensures forall b | 0 <= b < |blocks| && b != block && Some(b) != old(tailBlock) :: blocks[b].next == old(blocks)[b].next
      ensures if old(tailBlock).None? then blocks[block].next == block
              else blocks[old(tailBlock).value].next == block && blocks[block].next == old(blocks)[old(tailBlock).value].next
    {
      if tailBlock.None? {
        blocks := blocks[block := blocks[block].(next := block)];
      } else {
        blocks := blocks[block := blocks[block].(next := blocks[tailBlock.value].next)];
        blocks := blocks[tailBlock.value := blocks[tailBlock.value].(next := block)];
      }
      tailBlock := Some(block);
    }

    method RoomInIndex(canAlloc: bool, memory: bool) returns (ok: bool)
      requires IndexReady()
      modifies this`hasIndex, this`entries, this`indexSize, this`front, this`current, this`shift
      ensures IndexReady() && (ok ==> IndexHasRoom())
      ensures if old(IndexHasRoom()) then ok else (canAlloc && memory ==> ok) && (ok ==> canAlloc)
      ensures indexSize == if ok && !old(IndexHasRoom()) then 2 * old(indexSize) else old(indexSize)
    {
      hide IndexOk, SlotOf;
      if hasIndex { UsedSlots(entries, blockSize, front, lo, shift, ring); }
      if !hasIndex || slotsUsed == indexSize {
        if !canAlloc {
          return false;
        }
        var grown := NewBlockIndex(memory);
        if !grown {
          return false;
        }
      }
      ok := true;
    }

    // There is a block to be had and room in the index for it, without allocating.
    predicate Spare()
      reads this`hasIndex, this`slotsUsed, this`indexSize, this`free
    {
      IndexHasRoom() && free != []
    }

    // A new block, and room in the index for it.
    method ExtendList(currentTailIndex: nat, canAlloc: bool, memory: bool) returns (ok: bool)
      requires IndexReady() && BlocksReady() && (forall i <- finished :: i / blockSize < lo + |ring|)
      requires currentTailIndex == Base(lo + |ring|, blockSize)
      modifies this`hasIndex, this`entries, this`indexSize, this`front, this`current, this`shift, this`slotsUsed,
               this`blocks, this`free, this`tailBlock, this`ring
      ensures IndexReady() && BlocksReady()
      ensures if ok then hasIndex && |ring| == |old(ring)| + 1 && ring[..|old(ring)|] == old(ring) else ring == old(ring)
      ensures if old(Spare()) then ok else (canAlloc && memory ==> ok) && (ok ==> canAlloc)
    {
      hide IndexReady, IndexHasRoom, Store.Ok, Base;
      var room := RoomInIndex(canAlloc, memory);
      if !room {
        return false;
      }
      var newBlock := NewTailBlock(canAlloc, memory);
      if newBlock.None? {
        return false;
      }
      AddNewEntry(currentTailIndex, newBlock.value);
      ok := true;
    }

    method AddNewEntry(currentTailIndex: nat, block: nat)
      requires IndexReady() && IndexHasRoom() && currentTailIndex == Base(lo + |ring|, blockSize)
      modifies this`entries, this`current, this`front, this`slotsUsed, this`ring
      ensures IndexReady() && hasIndex && ring == old(ring) + [block]
    {
      hide IndexOk, Base, SlotOf;
      ghost var ring' := ring + [block];
      slotsUsed := slotsUsed + 1;
      AddToIndex(currentTailIndex, block, lo, ring');
      ring := ring';
    }

    method NewTailBlock(canAlloc: bool, memory: bool) returns (newBlock: Option<nat>)
      requires BlocksReady() && (forall i <- finished :: i / blockSize < lo + |ring|)
      modifies this`blocks, this`free, this`tailBlock
      ensures newBlock.None? ==> BlocksReady()
      ensures if old(free) != [] then newBlock.Some? else (canAlloc && memory ==> newBlock.Some?) && (newBlock.Some? ==> canAlloc)
      ensures newBlock.Some? ==>
                Now().(ring := ring + [newBlock.value]).Ok()
    {
      hide Store.Ok, Partition, Shaped, MarksOk;
      Now().Shape();
      newBlock := RequisitionBlock(canAlloc, memory);
      if newBlock.Some? {
        PlaceBlock(newBlock.value, old(Now()));
      }
    }

    method PlaceBlock(block: nat, ghost before: Store)
      requires before.Ok() && before == Now().(blocks := before.blocks, free := before.free)
      requires forall i <- finished :: i / blockSize < lo + |ring|
      requires before.blocks <= blocks && block < |blocks| && block !in ring && Shaped(blocks, blockSize, FlagCount(blockSize, emptyCounterThreshold))
      requires Partition(|blocks|, free, {}, SetOf(ring) + {block})
      modifies this`blocks, this`tailBlock
      ensures Now().(ring := ring + [block]).Ok()
    {
      hide Store.Ok, Partition, Reset, Shaped, MarksOk, SetOf;
      before.Shape();
      BlockShape(blocks, blockSize, FlagCount(blockSize, emptyCounterThreshold), block);
      ResetEmpty(block);
      ghost var reset := blocks[block];
      LinkBlock(block);
      ResetKept(reset, blocks[block].next, blockSize, emptyCounterThreshold);
      ShapesKept(old(blocks), blocks, blockSize, FlagCount(blockSize, emptyCounterThreshold), block);
      before.AppendOk(blocks, free, block);
    }

    ghost predicate Reusable()
      reads this`ring, this`finished, this`lo
    {
      ring != [] && AllFinished(finished, blockSize, lo)
    }

    // No consumer is between claiming an index and finishing it.
    ghost predicate NoneUnderway()
      reads this`headIndex, this`finished
    {
      forall i: nat | i < headIndex :: i in finished
    }

    // The blocks in the list are no more than the limit allows.
    ghost predicate WithinLimit()
      reads this`ring
    {
      maxSubqueueSize.Some? ==> Base(|ring|, blockSize) <= maxSubqueueSize.value
    }

    // The next enqueue adds a block to a list that is already as long as the limit allows: its oldest block has all
    // been claimed, so that the distance from tail to head looks harmless, but is still being read.
    ghost predicate Surpassing()
      reads this`ring, this`lo, this`finished, this`headIndex, this`tailIndex
    {
      && tailIndex % blockSize == 0 && ring != [] && !AllFinished(finished, blockSize, lo)
      && maxSubqueueSize.Some? && Base(|ring|, blockSize) == maxSubqueueSize.value && Base(lo + 1, blockSize) <= headIndex
      && tailIndex + blockSize - headIndex < Words.W / 2
    }

    lemma LimitHolds()
      requires Valid() && WithinLimit() && maxSubqueueSize.Some?
      ensures |Contents()| <= maxSubqueueSize.value
    {
      hide IndexOk, Base, Store.Ok;
      NextPosition(tailIndex, blockSize);
      if headIndex < tailIndex {
        Now().Shape();
        assert headIndex !in finished;
        Now().ItemAt(headIndex);
        DivideBelow(headIndex, blockSize, lo);
        BaseSum(lo, |ring|, blockSize);
      }
    }

    function Full(currentTailIndex: nat): bool
      reads this`headIndex
    {
      || currentTailIndex + blockSize - headIndex >= Words.W / 2
      || (maxSubqueueSize.Some? &&
          (maxSubqueueSize.value == 0 || maxSubqueueSize.value - blockSize < currentTailIndex - headIndex))
    }

    lemma FullIs(currentTailIndex: nat)
      ensures var size := currentTailIndex + blockSize - headIndex;
              !Full(currentTailIndex) <==>
                size < 0x8000_0000_0000_0000 && (maxSubqueueSize.Some? ==> 0 < maxSubqueueSize.value && size <= maxSubqueueSize.value)
    {
    }

    // Start a new block: the oldest one if all its elements were taken out, else another one.
    method BeginBlock(currentTailIndex: nat, canAlloc: bool, memory: bool) returns (ok: bool)
      requires IndexReady() && BlocksReady() && currentTailIndex == |items| == Base(lo + |ring|, blockSize)
      modifies this`hasIndex, this`entries, this`indexSize, this`front, this`current, this`shift, this`slotsUsed,
               this`blocks, this`free, this`tailBlock, this`ring, this`lo
      ensures IndexReady() && BlocksReady()
      ensures !ok ==> ring == old(ring) && lo == old(lo)
      ensures if old(ring) != [] && old(AllFinished(finished, blockSize, lo)) then ok && |ring| == |old(ring)| && lo == old(lo) + 1
              else ok ==> |ring| == |old(ring)| + 1 && lo == old(lo) && !Full(currentTailIndex)
      ensures old(!Reusable()) && !Full(currentTailIndex) ==>
                if old(Spare()) then ok else (canAlloc && memory ==> ok) && (ok ==> canAlloc)
    {
      hide IndexOk, Store.Ok, Base, MarksOk, AllFinished, Partition, Shaped;
      Now().Shape();
      FinishedBefore(finished, blockSize, lo + |ring|, |items|);
      var reuse := false;
      if tailBlock.Some? {
        reuse := IsEmpty(blocks[tailBlock.value].next, lo);
      }
      if reuse {
        ReuseBlock(currentTailIndex);
        ok := true;
      } else {
        assert headIndex <= currentTailIndex;
        if Full(currentTailIndex) {
          return false;
        }
        ok := ExtendList(currentTailIndex, canAlloc, memory);
      }
    }

    // A tail block for the next element, when the last one is full; and the limit, if no consumer is under way.
    method StartBlock(canAlloc: bool, memory: bool) returns (ok: bool)
      requires Valid() && tailIndex % blockSize == 0
      modifies this`hasIndex, this`entries, this`indexSize, this`front, this`current, this`shift, this`slotsUsed,
               this`blocks, this`free, this`tailBlock, this`ring, this`lo
      ensures IndexReady() && BlocksReady()
      ensures memory || !canAlloc ==> (ok <==> old(Reusable()) || (!old(Full(tailIndex)) && (canAlloc || old(Spare()))))
      ensures ok ==> old(Reusable()) || !old(Full(tailIndex))
      ensures old(Reusable()) ==> ok
      ensures !ok ==> ring == old(ring) && lo == old(lo)
      ensures ok ==> ring != [] && tailIndex / blockSize == lo + |ring| - 1 && Begun(tailIndex + 1, blockSize) == lo + |ring|
      ensures ok ==> if old(Reusable()) then |ring| == |old(ring)| && lo == old(lo) + 1 else |ring| == |old(ring)| + 1 && lo == old(lo)
      ensures old(WithinLimit()) ==> (WithinLimit() <==> !(ok && old(Surpassing())))
      ensures old(WithinLimit() && Surpassing()) && ((canAlloc && memory) || old(Spare())) ==> ok
      ensures canAlloc && memory && !old(Reusable()) ==>
                var size := tailIndex + blockSize - headIndex;
                (ok <==> size < 0x8000_0000_0000_0000 && (maxSubqueueSize.Some? ==> 0 < maxSubqueueSize.value && size <= maxSubqueueSize.value))
    {
      hide IndexOk, Store.Ok, Base, Begun, AllFinished, Spare, SlotOf;
      FullIs(tailIndex);
      NextPosition(tailIndex, blockSize);
      if WithinLimit() && maxSubqueueSize.Some? { LimitReached(lo, |ring|, headIndex, blockSize, maxSubqueueSize.value); }
      BaseZero(blockSize);
      ok := BeginBlock(tailIndex, canAlloc, memory);
    }

    // Unless allocations fail, it succeeds exactly if the tail block has room, the oldest block can be used
    // again, or the limits admit another block and it is to be had.
    method Enqueue(x: Elem, canAlloc: bool, memory: bool) returns (ok: bool)
      requires Valid()
      modifies this`hasIndex, this`entries, this`indexSize, this`front, this`current, this`shift, this`slotsUsed,
               this`blocks, this`free, this`tailBlock, this`ring, this`lo, this`tailIndex, this`items
      ensures Valid()
      ensures if ok then items == old(items) + [x] && Contents() == old(Contents()) + [x] && tailIndex == old(tailIndex) + 1
              else items == old(items) && tailIndex == old(tailIndex) && ring == old(ring) && lo == old(lo)
      // Inside a block there is room; at the end of one the oldest block is used again if it is empty.
      ensures old(tailIndex) % blockSize != 0 ==> ok && |ring| == |old(ring)| && lo == old(lo)
      ensures ok && old(tailIndex) % blockSize == 0 ==>
                if old(Reusable()) then |ring| == |old(ring)| && lo == old(lo) + 1 else |ring| == |old(ring)| + 1 && lo == old(lo)
      ensures memory || !canAlloc ==>
                (ok <==> old(tailIndex) % blockSize != 0 || old(Reusable()) || (!old(Full(tailIndex)) && (canAlloc || old(Spare()))))
      ensures ok && old(tailIndex) % blockSize == 0 ==> old(Reusable()) || !old(Full(tailIndex))
      ensures old(Reusable()) ==> ok
      ensures canAlloc && memory && old(tailIndex) % blockSize == 0 && !old(Reusable()) ==>
                var size := old(tailIndex) + blockSize - old(headIndex);
                (ok <==> size < 0x8000_0000_0000_0000 && (maxSubqueueSize.Some? ==> 0 < maxSubqueueSize.value && size <= maxSubqueueSize.value))
      // The limit is kept but for one case, which does happen if another block is to be had.
      ensures old(WithinLimit()) ==> (WithinLimit() <==> !(ok && old(Surpassing())))
      ensures old(WithinLimit() && Surpassing()) && ((canAlloc && memory) || old(Spare())) ==> ok
      ensures old(WithinLimit() && NoneUnderway()) ==> WithinLimit()
    {
      hide IndexOk, Store.Ok, Base, Begun, AllFinished, Spare, SlotOf, Full, Reusable;
      var currentTailIndex := tailIndex;
      if NoneUnderway() && Surpassing() { ClaimedIsFinished(finished, lo, headIndex, blockSize); }
      NextPosition(currentTailIndex, blockSize);
      if currentTailIndex % blockSize == 0 {
        var begun := StartBlock(canAlloc, memory);
        if !begun {
          return false;
        }
      }
      Construct(currentTailIndex, x);
      tailIndex := currentTailIndex + 1;
      ok := true;
    }

    // Construct the next element in the tail block.
    method Construct(currentTailIndex: nat, x: Elem)
      requires BlocksReady() && ring != [] && currentTailIndex == |items| && currentTailIndex / blockSize == lo + |ring| - 1
      modifies this`blocks, this`items
      ensures BlocksReady() && items == old(items) + [x]
    {
      hide Store.Ok;
      Now().ConstructOk(x);
      var block := blocks[tailBlock.value];
      blocks := blocks[tailBlock.value := block.(elements := block.elements[currentTailIndex % blockSize := x])];
      items := items + [x];
    }

    // ---------------------------------------------------------------- dequeueing

    // The index a consumer's ticket entitles it to.
    method Claim() returns (i: nat)
      requires Valid() && headIndex < tailIndex
      modifies this`headIndex
      ensures Valid() && i == old(headIndex) && headIndex == i + 1
      ensures i !in finished && old(Contents()) == [items[i]] + Contents()
    {
      hide IndexOk, DataOk, ListOk, Partition, Shaped, Base;
      i := headIndex;
      headIndex := headIndex + 1;
    }

    // The block of an index, by its signed distance from the current slot of the ring.
    method Locate(i: nat) returns (block: nat)
      requires Valid() && i < headIndex && i !in finished
      modifies this`located
      ensures Valid() && located == old(located)[i := block]
    {
      hide IndexOk, Store.Ok, Begun, SlotOf, BlockFor;
      Now().ItemAt(i);
      Found(entries, blockSize, front, current, lo, shift, ring, i);
      block := BlockFor(entries, blockSize, current, i);
      located := located[i := block];
    }

    // Move the element out and mark its place empty.
    method TakeOut(i: nat, block: nat) returns (x: Elem)
      requires Valid() && i in located && located[i] == block
      modifies this`blocks, this`finished, this`located
      ensures Valid() && Contents() == old(Contents())
      ensures i < |items| && x == items[i] && finished == old(finished) + {i} && located == old(located) - {i}
    {
      hide IndexOk, Store.Ok, Begun, FlagOf;
      Now().TakenOk(i);
      x := blocks[block].elements[i % blockSize];
      blocks := blocks[block := MarkEmpty(blocks[block], blockSize, emptyCounterThreshold, i % blockSize)];
      finished, located := finished + {i}, located - {i};
    }

    // dequeue by a single consumer, to which its ticket gives an element exactly when there is one.
    method Dequeue() returns (result: Option<Elem>)
      requires Valid()
      modifies this`headIndex, this`located, this`blocks, this`finished
      ensures Valid()
      ensures old(Contents()) == [] ==> result == None && Contents() == []
      ensures old(Contents()) != [] ==> result == Some(old(Contents()[0])) && Contents() == old(Contents()[1..])
    {
      hide IndexReady, BlocksReady, Begun;
      if headIndex == tailIndex {
        return None;
      }
      var i := Claim();
      var block := Locate(i);
      var x := TakeOut(i, block);
      result := Some(x);
    }
  }

  // A consumer that has claimed the oldest element but not yet taken it out makes the limit ineffective: the
  // list grows past it, and afterwards empty blocks are used again without the limit being looked at. Here
  // four elements are held in a sub-queue limited to two.
  method LimitSurpassed() returns (queue: Producer)
    ensures queue.Valid() && queue.maxSubqueueSize == Some(2) && |queue.Contents()| == 4
  {
    hide IndexOk, Store.Ok;
    queue := new Producer(2, Some(2), 32, 32, 2, true);
    HoldOldest(queue);
    Overgrow(queue);
    Overfill(queue);
  }

  ghost predicate At(queue: Producer, blocks: nat, index: nat, finished: set<nat>)
    reads queue
  {
    && queue.Valid() && queue.blockSize == 2 && queue.maxSubqueueSize == Some(2) && queue.lo == 0
    && |queue.ring| == blocks && queue.headIndex == queue.tailIndex == index && queue.finished == finished
  }

  // A block filled and both its elements claimed, the second one also taken out.
  method HoldOldest(queue: Producer)
    requires At(queue, 0, 0, {})
    modifies queue
    ensures At(queue, 1, 2, {1})
  {
    hide Producer.Valid, Producer.Contents, AllFinished;
    var ok := queue.Enqueue(10, true, true);
    ok := queue.Enqueue(11, true, true);
    var i0 := queue.Claim();
    var i1 := queue.Claim();
    TakeNext(queue, i1);
  }

  // Two blocks in the list of a sub-queue limited to one block, both empty.
  method Overgrow(queue: Producer)
    requires At(queue, 1, 2, {1})
    modifies queue
    ensures At(queue, 2, 4, {0, 1, 2, 3})
  {
    hide Producer.Valid, Producer.Contents, AllFinished;
    NotAll(queue.finished);
    var ok := queue.Enqueue(12, true, true);
    ok := queue.Enqueue(13, true, true);
    TakeNext(queue, 0);
    var i2 := queue.Claim();
    TakeNext(queue, i2);
    var i3 := queue.Claim();
    TakeNext(queue, i3);
  }

  method TakeNext(queue: Producer, i: nat)
    requires queue.Valid() && i < queue.headIndex && i !in queue.finished
    modifies queue`located, queue`blocks, queue`finished
    ensures queue.Valid() && queue.finished == old(queue.finished) + {i}
  {
    var block := queue.Locate(i);
    var x := queue.TakeOut(i, block);
  }

  lemma NotAll(finished: set<nat>)
    requires 0 !in finished
    ensures !AllFinished(finished, 2, 0)
  {
    assert (0 as nat) / 2 == 0;
  }

  lemma FirstFour(finished: set<nat>, lo: nat)
    requires finished == {0, 1, 2, 3} && lo < 2
    ensures AllFinished(finished, 2, lo)
  {
  }

  lemma NothingHeld(queue: Producer)
    requires queue.Valid() && queue.headIndex == queue.tailIndex
    ensures queue.Contents() == []
  {
  }

  method Overfill(queue: Producer)
    requires At(queue, 2, 4, {0, 1, 2, 3})
    modifies queue
    ensures queue.Valid() && |queue.Contents()| == 4
  {
    hide Producer.Valid, Producer.Contents, AllFinished;
    NothingHeld(queue);
    FirstFour(queue.finished, 0);
    FirstFour(queue.finished, 1);
    var ok := queue.Enqueue(20, true, true);
    ok := queue.Enqueue(21, true, true);
    ok := queue.Enqueue(22, true, true);
    ok := queue.Enqueue(23, true, true);
  }
}

// ConcurrentQueue's implicit producer: a first-in first-out sequence kept in blocks that are found through
// the block index. Producer calls are taken one at a time; between them any number of consumers may each
// have claimed an index, looked its block up, and not yet taken the element out, so blocks empty in any
// order. Indices are unbounded here (IndexArithmetic relates them to 64-bit words).
module ImplicitProducer {
  import opened Options
  import opened BlockIndex
  import opened BlockPool
  import opened Positions
  import Words

  type Elem = int

  datatype Block = Block(elements: seq<Elem>, dequeued: nat, next: Option<nat>, dynamicallyAllocated: bool)

  // ---------------------------------------------------------------- blocks and what they hold

  ghost predicate Injective(held: Blocks) {
    forall b, c | b in held && c in held && b != c :: held[b] != held[c]
  }

  // Blocks 0 to end - 1 have been begun; `held` are those not yet completely dequeued.
  ghost predicate BlockOk(blocks: seq<Block>, size: nat, held: Blocks, finished: set<nat>, b: int)
    requires size > 0 && b in held
  {
    && held[b] < |blocks| && |blocks[held[b]].elements| == size
    && blocks[held[b]].dequeued == |FinishedIn(finished, size, b)| < size
  }

  ghost predicate ItemOk(blocks: seq<Block>, size: nat, held: Blocks, items: seq<Elem>, i: nat)
    requires size > 0 && i < |items|
  {
    && i / size in held && held[i / size] < |blocks| && |blocks[held[i / size]].elements| == size
    && blocks[held[i / size]].elements[i % size] == items[i]
  }

  ghost predicate DataOk(blocks: seq<Block>, size: nat, end: nat, held: Blocks, items: seq<Elem>, finished: set<nat>) {
    && size >= 2 && Injective(held)
    && (forall b <- held :: 0 <= b < end && BlockOk(blocks, size, held, finished, b))
    && (forall i: nat | i / size < end && i !in finished :: i / size in held)
    && (forall i: nat | i < |items| && i !in finished :: ItemOk(blocks, size, held, items, i))
    && (forall i <- finished :: i < |items|)
  }

  // ---------------------------------------------------------------- the steps of the data

  // A new block at the end.
  lemma BlockAdded(blocks: seq<Block>, size: nat, end: nat, held: Blocks, items: seq<Elem>, finished: set<nat>, block: nat)
    requires DataOk(blocks, size, end, held, items, finished)
    requires block < |blocks| && block !in held.Values && |blocks[block].elements| == size
    requires forall i <- finished :: i / size < end
    ensures DataOk(blocks[block := blocks[block].(dequeued := 0)], size, end + 1, held[end as int := block], items, finished)
  {
    var blocks', held' := blocks[block := blocks[block].(dequeued := 0)], held[end as int := block];
    assert forall b <- held :: held[b] in held.Values;
    assert FinishedIn(finished, size, end) == {};
    forall b <- held' ensures 0 <= b < end + 1 && BlockOk(blocks', size, held', finished, b) {
      if b != end { assert BlockOk(blocks, size, held, finished, b); }
    }
    forall i: nat | i < |items| && i !in finished ensures ItemOk(blocks', size, held', items, i) {
      assert ItemOk(blocks, size, held, items, i);
    }
  }

  // The last block taken away again.
  lemma BlockRemoved(blocks: seq<Block>, size: nat, end: nat, held: Blocks, items: seq<Elem>, finished: set<nat>)
    requires DataOk(blocks, size, end, held, items, finished) && end > 0
    requires forall i: nat | i < |items| :: i / size < end - 1
    ensures DataOk(blocks, size, end - 1, held - {end - 1}, items, finished)
  {
    var held' := held - {end - 1};
    forall b <- held' ensures 0 <= b < end - 1 && BlockOk(blocks, size, held', finished, b) {
      assert BlockOk(blocks, size, held, finished, b);
    }
    forall i: nat | i < |items| && i !in finished ensures ItemOk(blocks, size, held', items, i) {
      assert ItemOk(blocks, size, held, items, i);
    }
  }

  // An element constructed after the last one.
  lemma ItemAdded(blocks: seq<Block>, size: nat, end: nat, held: Blocks, items: seq<Elem>, finished: set<nat>, block: nat, x: Elem)
    requires DataOk(blocks, size, end, held, items, finished)
    requires |items| / size in held && held[|items| / size] == block
    ensures block < |blocks| && |items| % size < |blocks[block].elements|
    ensures DataOk(blocks[block := blocks[block].(elements := blocks[block].elements[|items| % size := x])],
                   size, end, held, items + [x], finished)
  {
    var n := |items|;
    assert BlockOk(blocks, size, held, finished, n / size);
    var blocks' := blocks[block := blocks[block].(elements := blocks[block].elements[n % size := x])];
    forall b <- held ensures BlockOk(blocks', size, held, finished, b) {
      assert BlockOk(blocks, size, held, finished, b);
    }
    forall i: nat | i < n + 1 && i !in finished ensures ItemOk(blocks', size, held, items + [x], i) {
      if i < n {
        assert ItemOk(blocks, size, held, items, i);
        if i / size == n / size && i % size == n % size { SamePlace(i, n, size); }
      }
    }
  }

  // An element taken out of a block: still held, or given up if it was the block's last.
  lemma ItemTaken(blocks: seq<Block>, size: nat, end: nat, held: Blocks, items: seq<Elem>, finished: set<nat>, i: nat)
    requires DataOk(blocks, size, end, held, items, finished) && i < |items| && i !in finished && i / size < end
    ensures i / size in held && held[i / size] < |blocks|
    ensures var id := held[i / size]; var n := blocks[id].dequeued + 1;
            && n == |FinishedIn(finished + {i}, size, i / size)| <= size
            && DataOk(blocks[id := blocks[id].(dequeued := n)], size, end,
                      if n == size then held - {i / size} else held, items, finished + {i})
  {
    var b := i / size;
    var id := held[b];
    assert BlockOk(blocks, size, held, finished, b);
    RoomInBlock(finished, size, b, i);
    FinishOne(finished, size, i);
    var n := blocks[id].dequeued + 1;
    var blocks', finished' := blocks[id := blocks[id].(dequeued := n)], finished + {i};
    var held' := if n == size then held - {b} else held;
    forall c <- held' ensures BlockOk(blocks', size, held', finished', c) {
      assert BlockOk(blocks, size, held, finished, c);
    }
    forall j: nat | j / size < end && j !in finished' ensures j / size in held' {
      if j / size == b { RoomInBlock(finished', size, b, j); }
    }
    forall j: nat | j < |items| && j !in finished' ensures ItemOk(blocks', size, held', items, j) {
      assert ItemOk(blocks, size, held, items, j);
      if j / size == b { RoomInBlock(finished', size, b, j); }
    }
  }

  lemma BlocksExtended(blocks: seq<Block>, blocks': seq<Block>, size: nat, end: nat, held: Blocks, items: seq<Elem>, finished: set<nat>)
    requires DataOk(blocks, size, end, held, items, finished) && blocks <= blocks'
    ensures DataOk(blocks', size, end, held, items, finished)
  {
    forall b <- held ensures BlockOk(blocks', size, held, finished, b) { assert BlockOk(blocks, size, held, finished, b); }
    forall i: nat | i < |items| && i !in finished ensures ItemOk(blocks', size, held, items, i) {
      assert ItemOk(blocks, size, held, items, i);
    }
  }

  ghost predicate Sizes(blocks: seq<Block>, size: nat) { forall b <- blocks :: |b.elements| == size }

  // The producer kept these pointers for an index claimed but not yet finished.
  ghost predicate LocatedOk(located: map<nat, (nat, nat)>, head: nat, ix: Index, size: nat, shift: int, held: Blocks, finished: set<nat>) {
    size > 0 && forall i <- located ::
      && i < head && i !in finished && i / size in held && ix.WellFormed()
      && located[i] == (EntryId(ix, i / size, shift), held[i / size])
  }

  lemma LocatedKept(located: map<nat, (nat, nat)>, head: nat, ix: Index, ix': Index, size: nat, shift: int, shift': int,
                    held: Blocks, held': Blocks, finished: set<nat>)
    requires LocatedOk(located, head, ix, size, shift, held, finished) && SameEntries(ix, shift, ix', shift', held)
    requires forall b <- held :: b in held' && held'[b] == held[b]
    ensures LocatedOk(located, head, ix', size, shift', held', finished)
  {
  }

  // A requisitioned block stored in the entry waiting for it.
  lemma BlockStored(blocks: seq<Block>, blocks': seq<Block>, size: nat, end: nat, held: Blocks, items: seq<Elem>, finished: set<nat>,
                    free: seq<nat>, destroyed: set<nat>, ix: Index, lo: int, shift: int, id: nat, block: nat)
    requires DataOk(blocks, size, end, held, items, finished) && blocks <= blocks' && Sizes(blocks', size)
    requires forall i <- finished :: i / size < end
    requires block < |blocks'| && block !in held.Values
    requires Partition(|blocks'|, free, destroyed, held.Values + {block})
    requires Pending(ix, size, end, lo, shift, held, id)
    ensures var blocks'' := blocks'[block := blocks'[block].(dequeued := 0)]; var held' := held[end as int := block];
            && DataOk(blocks'', size, end + 1, held', items, finished) && Sizes(blocks'', size)
            && Partition(|blocks''|, free, destroyed, held'.Values)
            && end as int !in held
            && IndexOk(ix.Set(id, ix.entries[id].(value := Some(block))), size, end + 1, end, lo, shift, held')
  {
    hide IndexOk, Pending;
    BlocksExtended(blocks, blocks', size, end, held, items, finished);
    BlockAdded(blocks', size, end, held, items, finished, block);
    FillOk(ix, size, end, lo, shift, held, id, block);
    ValuesAdded(held, end, block);
  }

  lemma ValuesAdded(held: Blocks, b: int, block: nat)
    requires b !in held
    ensures held[b := block].Values == held.Values + {block}
  {
    var held' := held[b := block];
    forall c <- held ensures held[c] in held'.Values {
      assert c in held' && held'[c] == held[c];
    }
    assert b in held' && held'[b] == block;
  }

  lemma NotYetHeld(blocks: seq<Block>, size: nat, end: nat, held: Blocks, items: seq<Elem>, finished: set<nat>)
    requires DataOk(blocks, size, end, held, items, finished)
    ensures end as int !in held
  {
  }

  lemma BlockFilled(ix: Index, size: nat, end: int, m: int, lo: int, shift: int, held: Blocks, b: int)
    requires IndexOk(ix, size, end, m, lo, shift, held) && b in held
    ensures ix.WellFormed()
    ensures var id := EntryId(ix, b, shift);
            IndexOk(ix.Set(id, ix.entries[id].(value := None)), size, end, m, lo, shift, held - {b})
  {
    var id := EntryId(ix, b, shift);
    assert SlotOk(ix, size, b, lo, shift, held);
    EntrySet(ix, size, end, m, lo, shift, held, b, ix.entries[id].(value := None), held - {b});
  }

  lemma ValueRemoved(held: Blocks, b: int)
    requires b in held && Injective(held)
    ensures (held - {b}).Values == held.Values - {held[b]}
  {
    var held' := held - {b};
    forall c <- held' ensures held'[c] in held.Values - {held[b]} {
      assert c in held && held[c] in held.Values;
    }
    forall c <- held | c != b ensures held[c] in held'.Values {
      assert c in held' && held'[c] == held[c];
    }
  }

  lemma LocatedTaken(located: map<nat, (nat, nat)>, head: nat, ix: Index, ix': Index, size: nat, shift: int, end: int, held: Blocks, held': Blocks,
                     finished: set<nat>, i: nat)
    requires LocatedOk(located, head, ix, size, shift, held, finished)
    requires ix.WellFormed() && ix'.WellFormed() && ix'.slots == ix.slots
    requires forall b <- held :: b < end
    requires forall b <- held' :: b in held && held'[b] == held[b]
    requires forall j: nat | j / size < end && j !in finished + {i} :: j / size in held'
    ensures LocatedOk(located - {i}, head, ix', size, shift, held', finished + {i})
  {
    var located' := located - {i};
    forall j <- located'
      ensures j < head && j !in finished + {i} && j / size in held'
      ensures located'[j] == (EntryId(ix', j / size, shift), held'[j / size])
    {
      assert j in located;
    }
  }

  lemma TakenKeeps(blocks: seq<Block>, block: nat, n: nat, located: map<nat, (nat, nat)>, head: nat, ix: Index, ix': Index, size: nat, shift: int,
                   end: nat, held: Blocks, held': Blocks, items: seq<Elem>, finished: set<nat>, i: nat)
    requires LocatedOk(located, head, ix, size, shift, held, finished) && ix.WellFormed() && ix'.WellFormed() && ix'.slots == ix.slots
    requires Sizes(blocks, size) && block < |blocks|
    requires DataOk(blocks[block := blocks[block].(dequeued := n)], size, end, held', items, finished + {i})
    requires forall b <- held :: b < end
    requires forall b <- held' :: b in held && held'[b] == held[b]
    ensures LocatedOk(located - {i}, head, ix', size, shift, held', finished + {i})
    ensures Sizes(blocks[block := blocks[block].(dequeued := n)], size)
  {
    hide LocatedOk;
    HeldUpTo(blocks[block := blocks[block].(dequeued := n)], size, end, held', items, finished + {i});
    LocatedTaken(located, head, ix, ix', size, shift, end, held, held', finished, i);
  }

  lemma HeldUpTo(blocks: seq<Block>, size: nat, end: nat, held: Blocks, items: seq<Elem>, finished: set<nat>)
    requires DataOk(blocks, size, end, held, items, finished)
    ensures Injective(held) && forall b <- held :: b < end
    ensures forall j: nat | j / size < end && j !in finished :: j / size in held
  {
  }

  // ---------------------------------------------------------------- the chain of new blocks

  // Rounding down to a block's first index, also below zero.
  function Floor(x: int, size: BlockSize): int { x - x % size }

  // Where the last of `end` blocks starts.
  ghost function LastBase(end: int, size: BlockSize): int { (end - 1) * size }

  lemma LastBaseNext(end: nat, size: BlockSize)
    ensures LastBase(end, size) + size == Base(end, size) == LastBase(end + 1, size)
  {
  }

  lemma FloorBefore(tail: nat, size: BlockSize)
    ensures Floor(tail - 1, size) == LastBase(Begun(tail, size), size)
  {
    var q, r := tail / size, tail % size;
    assert tail == size * q + r;
    if r == 0 {
      assert size * (q - 1) == size * q - size;
      Words.RemainderUnique(tail - 1, size, q - 1, size - 1);
    } else {
      Words.RemainderUnique(tail - 1, size, q, r - 1);
    }
  }

  ghost predicate LinkAt(blocks: seq<Block>, held: Blocks, b: int) {
    b in held && b + 1 in held && held[b] < |blocks| && blocks[held[b]].next == Some(held[b + 1])
  }

  // Blocks `from` to end - 1 linked in order; those from `start` on are new.
  ghost predicate Linked(blocks: seq<Block>, held: Blocks, from: int, start: int, end: int, first: Option<nat>) {
    && from <= start <= end
    && (forall b | from <= b < end - 1 :: LinkAt(blocks, held, b))
    && (if start == end then first == None
        else end - 1 in held && held[end - 1] < |blocks| && blocks[held[end - 1]].next == None
             && start in held && first == Some(held[start]))
  }

  lemma LinkNew(blocks: seq<Block>, blocks': seq<Block>, held: Blocks, from: int, start: int, end: int, first: Option<nat>, block: nat)
    requires Linked(blocks, held, from, start, end, first) && start <= from + 1
    requires Injective(held) && forall b | from <= b < end :: b in held && held[b] < |blocks|
    requires end !in held && block !in held.Values && block < |blocks'| && |blocks| <= |blocks'|
    requires forall i | 0 <= i < |blocks| && i != block && (end - 1 >= from ==> i != held[end - 1]) :: blocks'[i].next == blocks[i].next
    requires end - 1 >= from ==> blocks'[held[end - 1]].next == Some(block)
    requires blocks'[block].next == None
    ensures Linked(blocks', held[end := block], from, start, end + 1, if first == None then Some(block) else first)
  {
    var held' := held[end := block];
    forall b | from <= b < end ensures LinkAt(blocks', held', b) {
      assert held[b] in held.Values;
      if b < end - 1 { assert LinkAt(blocks, held, b); }
    }
  }

  lemma FirstOfNew(blocks: seq<Block>, held: Blocks, from: int, start: int, end: int, first: Option<nat>)
    requires Linked(blocks, held, from, start, end, first)
    ensures start <= end && (first.Some? <==> end > start)
  {
  }

  ghost function Without(held: Blocks, from: int, to: int): Blocks {
    map b | b in held && !(from <= b < to) :: held[b]
  }

  ghost function BlockAt(held: Blocks, b: int, end: int): Option<nat> {
    if b < end && b in held then Some(held[b]) else None
  }

  lemma WithoutAdded(held: Blocks, start: int, end: int, block: nat)
    requires start <= end && end !in held
    ensures Without(held[end := block], start, end + 1) == Without(held, start, end)
  {
  }

  lemma WithoutAt(held: Blocks, from: int, to: int, b: int)
    requires b in held && to <= b
    ensures b in Without(held, from, to) && Without(held, from, to)[b] == held[b]
  {
  }

  lemma BelowKept(held: Blocks, start: int, end: int)
    ensures forall b <- held | b < start :: b in Without(held, start, end) && Without(held, start, end)[b] == held[b]
  {
  }

  lemma NoneLeft(held: Blocks, start: int, end: int)
    requires forall b <- held :: b < end
    ensures forall b <- Without(held, start, end) :: b < start
  {
  }

  lemma WithoutNext(held: Blocks, from: int, to: int)
    requires from <= to
    ensures Without(held, from, to + 1) == Without(held, from, to) - {to}
    ensures Without(held, from, from) == held
  {
  }

  lemma {:induction false} BlocksRemoved(blocks: seq<Block>, size: nat, start: nat, end: nat, held: Blocks, items: seq<Elem>, finished: set<nat>)
    requires DataOk(blocks, size, end, held, items, finished) && start <= end
    requires forall i: nat | i < |items| :: i / size < start
    ensures DataOk(blocks, size, start, Without(held, start, end), items, finished)
    decreases end
  {
    if start == end {
      assert Without(held, start, end) == held;
    } else {
      BlockRemoved(blocks, size, end, held, items, finished);
      BlocksRemoved(blocks, size, start, end - 1, held - {end - 1}, items, finished);
      assert Without(held - {end - 1}, start, end - 1) == Without(held, start, end);
    }
  }

  lemma LocatedBelow(located: map<nat, (nat, nat)>, head: nat, ix: Index, ix': Index, size: nat, shift: int, start: int,
                     held: Blocks, before: Blocks, finished: set<nat>)
    requires LocatedOk(located, head, ix, size, shift, held, finished)
    requires ix'.WellFormed() && ix'.slots == ix.slots
    requires forall i: nat | i < head :: i / size < start
    requires forall b <- held | b < start :: b in before && before[b] == held[b]
    ensures LocatedOk(located, head, ix', size, shift, before, finished)
  {
  }

  lemma LinkedAt(blocks: seq<Block>, held: Blocks, from: int, start: int, end: int, first: Option<nat>, b: int)
    requires Linked(blocks, held, from, start, end, first) && start <= b < end
    ensures b in held && held[b] < |blocks|
    ensures first == Some(held[start])
    ensures if b + 1 < end then b + 1 in held && blocks[held[b]].next == Some(held[b + 1]) else blocks[held[b]].next == None
  {
    if b + 1 < end { assert LinkAt(blocks, held, b); }
    if start + 1 < end { assert LinkAt(blocks, held, start); }
  }

  lemma LinkedIn(blocks: seq<Block>, held: Blocks, from: int, start: int, end: int, first: Option<nat>)
    requires Linked(blocks, held, from, start, end, first) && start < end
    ensures start in held && first == Some(held[start]) && forall b | start <= b < end :: b in held
  {
    forall b | start <= b < end ensures b in held { LinkedAt(blocks, held, from, start, end, first, b); }
  }

  // How far the last block's start is from the target says how many blocks are still to be begun.
  lemma BlocksToGo(end: nat, target: nat, size: BlockSize)
    ensures LastBase(target, size) - LastBase(end, size) == (target - end) * size
    ensures LastBase(target, size) > LastBase(end, size) <==> target > end
    ensures end <= target ==> Base(end, size) <= Base(target, size)
  {
    if target > end { Words.MulAtLeast(size, target - end); }
    if end > target { Words.MulAtLeast(size, end - target); }
  }

  lemma LinkedKept(blocks: seq<Block>, blocks': seq<Block>, held: Blocks, from: int, start: int, end: int, first: Option<nat>)
    requires Linked(blocks, held, from, start, end, first)
    requires |blocks'| == |blocks| && forall b | 0 <= b < |blocks| :: blocks'[b].next == blocks[b].next
    ensures Linked(blocks', held, from, start, end, first)
  {
    forall b | from <= b < end - 1 ensures LinkAt(blocks', held, b) { assert LinkAt(blocks, held, b); }
  }

  // Where constructing the elements from `cur` on stops: the end of cur's block, or the new tail in it.
  lemma StopAt(cur: nat, newTail: nat, size: BlockSize)
    requires cur < newTail
    ensures Floor(cur, size) + size == Base(cur / size + 1, size)
    ensures newTail <= Base(cur / size + 1, size) ==> Begun(newTail, size) == cur / size + 1
    ensures newTail > Base(cur / size + 1, size) ==> Begun(newTail, size) > cur / size + 1
    ensures Base(cur / size + 1, size) / size == cur / size + 1 && cur < Base(cur / size + 1, size)
  {
    var b := cur / size;
    assert cur == Base(b, size) + cur % size;
    BaseNext(b, size);
    Position(Base(b + 1, size), b + 1, 0, size);
    NextPosition(newTail, size);
    DivideBelow(newTail, size, b + 1);
    BaseOrder(Begun(newTail, size), b + 1, size);
    BegunMonotone(cur + 1, newTail, size);
    NextPosition(cur, size);
  }

  lemma FloorBelow(cur: nat, size: BlockSize)
    ensures Floor(cur, size) <= cur < Floor(cur, size) + size
  {
  }

  // A block before the last leads to the next one and is not the last.
  lemma MoreToCome(blocks: seq<Block>, held: Blocks, from: int, start: int, end: int, first: Option<nat>, b: int)
    requires Linked(blocks, held, from, start, end, first) && Injective(held) && from <= b < end - 1 && start <= from + 1
    ensures b in held && held[b] < |blocks| && blocks[held[b]].next == BlockAt(held, b + 1, end)
    ensures BlockAt(held, b + 1, end).Some? && BlockAt(held, end - 1, end).Some? && BlockAt(held, end - 1, end) != Some(held[b])
  {
    assert LinkAt(blocks, held, b);
  }

  function Pool(n: nat, size: BlockSize): seq<Block> {
    var elements := seq(size, _ => 0);
    seq(n, _ => Block(elements, 0, None, false))
  }

  lemma NothingYet(blocks: seq<Block>, free: seq<nat>, n: nat, size: BlockSize)
    requires blocks == Pool(n, size) && free == seq(n, i => i)
    ensures DataOk(blocks, size, 0, map[], [], {}) && Sizes(blocks, size)
    ensures var none: Blocks := map[]; Partition(n, free, {}, none.Values) && |blocks| == n
  {
    forall x | 0 <= x < n ensures x in free { assert free[x] == x; }
  }

  lemma NextSet(blocks: seq<Block>, k: nat, next: Option<nat>, size: nat, end: nat, held: Blocks, items: seq<Elem>, finished: set<nat>)
    requires DataOk(blocks, size, end, held, items, finished) && Sizes(blocks, size) && k < |blocks|
    ensures var blocks' := blocks[k := blocks[k].(next := next)];
            DataOk(blocks', size, end, held, items, finished) && Sizes(blocks', size)
  {
    var blocks' := blocks[k := blocks[k].(next := next)];
    forall b <- held ensures BlockOk(blocks', size, held, finished, b) { assert BlockOk(blocks, size, held, finished, b); }
    forall i: nat | i < |items| && i !in finished ensures ItemOk(blocks', size, held, items, i) {
      assert ItemOk(blocks, size, held, items, i);
    }
  }

  class Producer {
    const blockSize: BlockSize
    // None when sub-queues are not limited.
    const maxSubqueueSize: Option<nat>
    const recycleAllocatedBlocks: bool

    // The parent queue's blocks.
    var blocks: seq<Block>
    var free: seq<nat>
    ghost var destroyed: set<nat>

    // blockIndex is null while hasIndex is false.
    var hasIndex: bool
    var index: Index
    var nextBlockIndexCapacity: nat

    var tailIndex: nat
    var headIndex: nat
    var tailBlock: Option<nat>

    // Everything enqueued, the indices whose elements were taken out, and the blocks of the block numbers
    // that are not completely dequeued.
    ghost var items: seq<Elem>
    ghost var finished: set<nat>
    ghost var held: Blocks
    ghost var lo: int
    ghost var shift: int
    // The entry and block a consumer has found for an index it claimed.
    ghost var located: map<nat, (nat, nat)>

    // The parent queue has `pool` blocks to start with; the first index may fail to be allocated. Here and
    // below, no allocation fails if `memory` is set, and otherwise each may or may not.
    constructor (blockSize: BlockSize, maxSubqueueSize: Option<nat>, recycleAllocatedBlocks: bool, initialIndexSize: nat, pool: nat,
                 memory: bool)
      requires initialIndexSize > 0 && (maxSubqueueSize.Some? ==> maxSubqueueSize.value % blockSize == 0)
      ensures Valid() && Contents() == [] && items == []
      ensures this.blockSize == blockSize && this.maxSubqueueSize == maxSubqueueSize
      ensures memory ==> hasIndex
    {
      hide IndexOk, DataOk, Partition, Sizes, Base;
      this.blockSize, this.maxSubqueueSize, this.recycleAllocatedBlocks := blockSize, maxSubqueueSize, recycleAllocatedBlocks;
      blocks, free, destroyed := Pool(pool, blockSize), seq(pool, i => i), {};
      hasIndex, index, nextBlockIndexCapacity := false, Index([], [], 0), initialIndexSize;
      tailIndex, headIndex, tailBlock := 0, 0, None;
      items, finished, held, lo, shift, located := [], {}, map[], 0, 0, map[];
      new;
      var ok := NewBlockIndex(memory);
      if ok { FirstOk(index, blockSize); }
      NothingYet(blocks, free, pool, blockSize);
    }

    // ---------------------------------------------------------------- the block index

    ghost predicate IndexReady(end: int, m: int)
      reads this`index, this`hasIndex, this`nextBlockIndexCapacity, this`held, this`lo, this`shift
    {
      && (if hasIndex then
            IndexOk(index, blockSize, end, m, lo, shift, held) && nextBlockIndexCapacity == 2 * index.Capacity()
          else
            index == Index([], [], 0) && nextBlockIndexCapacity > 0 && held == map[] && end == 0)
    }

    method NewBlockIndex(memory: bool) returns (ok: bool)
      requires if hasIndex then index.WellFormed() && nextBlockIndexCapacity == 2 * index.Capacity()
               else index == Index([], [], 0) && nextBlockIndexCapacity > 0
      modifies this`index, this`hasIndex, this`nextBlockIndexCapacity
      ensures memory ==> ok
      ensures !ok ==> index == old(index) && hasIndex == old(hasIndex) && nextBlockIndexCapacity == old(nextBlockIndexCapacity)
      ensures ok ==> hasIndex && nextBlockIndexCapacity == 2 * index.Capacity()
      ensures ok && old(hasIndex) ==> Grown(old(index), index)
      ensures ok && !old(hasIndex) ==>
                && index.WellFormed() && index.tail == index.Capacity() - 1
                && forall e <- index.entries :: e.key == INVALID_BLOCK_BASE
    {
      var lucky: bool := *;
      if !memory && !lucky {
        return false;
      }
      var slots: seq<nat> := [];
      if hasIndex {
        slots := UnrolledSlots();
      }
      var prevCapacity := |slots|;
      var entryCount := if hasIndex then prevCapacity else nextBlockIndexCapacity;
      var entries := index.entries;
      for i := 0 to entryCount
        invariant |entries| == |index.entries| + i && index.entries <= entries
        invariant |slots| == prevCapacity + i
        invariant hasIndex ==> forall j | 0 <= j < prevCapacity :: slots[j] == index.slots[(index.tail + 1 + j) % prevCapacity]
        invariant forall j | prevCapacity <= j < |slots| :: slots[j] == |index.entries| + j - prevCapacity
        invariant forall j | |index.entries| <= j < |entries| :: entries[j].key == INVALID_BLOCK_BASE
      {
        var uninitialised: Option<nat> := *;
        slots := slots + [|entries|];
        entries := entries + [Entry(INVALID_BLOCK_BASE, uninitialised)];
      }
      Words.RemainderUnique(prevCapacity - 1, nextBlockIndexCapacity, if prevCapacity == 0 then -1 else 0,
                            if prevCapacity == 0 then nextBlockIndexCapacity - 1 else prevCapacity - 1);
      index := Index(entries, slots, (prevCapacity - 1) % nextBlockIndexCapacity);
      nextBlockIndexCapacity := nextBlockIndexCapacity * 2;
      hasIndex := true;
      ok := true;
    }

    // The slots of the old ring, from the one after the tail round to the tail.
    method UnrolledSlots() returns (slots: seq<nat>)
      requires index.WellFormed()
      ensures |slots| == |index.slots|
      ensures forall j | 0 <= j < |slots| :: slots[j] == index.slots[(index.tail + 1 + j) % |index.slots|]
    {
      var n, prevTail := |index.slots|, index.tail;
      var prevPos := (prevTail + 1) % n;
      slots := [index.slots[prevPos]];
      Words.RemainderUnique(prevTail, n, 0, prevTail);
      while prevPos != prevTail
        invariant 1 <= |slots| <= n && prevPos == (prevTail + |slots|) % n
        invariant forall j | 0 <= j < |slots| :: slots[j] == index.slots[(prevTail + 1 + j) % n]
        decreases n - |slots|
      {
        if |slots| == n { Multiples(prevTail, 1, n); }
        FromSlot(|slots|, 1, prevTail, n);
        assert SlotOf(|slots|, prevTail, n) == prevPos && SlotOf(|slots| + 1, prevTail, n) == (prevTail + |slots| + 1) % n;
        prevPos := (prevPos + 1) % n;
        slots := slots + [index.slots[prevPos]];
      }
      if |slots| < n {
        SlotsDiffer(0, |slots|, prevTail, n);
      }
    }

    // The slot after the tail is unused or emptied.
    ghost predicate IndexHasRoom()
      reads this`index, this`hasIndex
    {
      && hasIndex && index.WellFormed()
      && var entry := index.entries[index.slots[NextTail(index)]];
         entry.key == INVALID_BLOCK_BASE || entry.value == None
    }

    // A slot after the tail for block number b. Entries in use keep their places in the arena.
    method InsertBlockIndexEntry(canAlloc: bool, memory: bool, blockStartIndex: nat, ghost b: nat) returns (ok: bool, id: nat)
      requires IndexReady(b, b - 1) && blockStartIndex == Base(b, blockSize)
      modifies this`index, this`nextBlockIndexCapacity, this`lo, this`shift, this`hasIndex
      ensures hasIndex == old(hasIndex)
      ensures if old(IndexHasRoom()) then ok else (hasIndex && canAlloc && memory ==> ok) && (ok ==> canAlloc)
      ensures index.Capacity() == if ok && !old(IndexHasRoom()) then 2 * old(index.Capacity()) else old(index.Capacity())
      ensures !ok ==> index == old(index) && nextBlockIndexCapacity == old(nextBlockIndexCapacity) && lo == old(lo) && shift == old(shift)
      ensures ok ==> hasIndex && Pending(index, blockSize, b, lo, shift, held, id) && nextBlockIndexCapacity == 2 * index.Capacity()
      ensures ok ==> SameEntries(old(index), old(shift), index, shift, held)
    {
      hide IndexOk, Pending, SameEntries, NextTail;
      if !hasIndex {
        return false, 0;
      }
      IndexShape(index, blockSize, b, b - 1, lo, shift, held);
      var newTail := NextTail(index);
      id := index.slots[newTail];
      if index.entries[id].key != INVALID_BLOCK_BASE && index.entries[id].value != None {
        if !canAlloc {
          return false, id;
        }
        var grown := GrowBlockIndex(memory, b);
        if !grown {
          return false, id;
        }
        IndexShape(index, blockSize, b, b - 1, lo, shift, held);
        newTail := NextTail(index);
        id := index.slots[newTail];
        assert index.entries[id].key == INVALID_BLOCK_BASE;
      }
      InsertOk(index, blockSize, b, lo, shift, held);
      InsertKeeps(old(index), old(shift), index, shift, held, blockStartIndex);
      if b - index.Capacity() == lo {
        lo := lo + 1;
      }
      index := index.Set(id, index.entries[id].(key := blockStartIndex)).(tail := newTail);
      ok := true;
    }

    // new_block_index, when there is an index already.
    method GrowBlockIndex(memory: bool, ghost b: nat) returns (ok: bool)
      requires hasIndex && IndexReady(b, b - 1)
      modifies this`index, this`nextBlockIndexCapacity, this`shift, this`hasIndex
      ensures hasIndex && IndexReady(b, b - 1) && (memory ==> ok)
      ensures !ok ==> index == old(index) && nextBlockIndexCapacity == old(nextBlockIndexCapacity) && shift == old(shift)
      ensures ok ==> SameEntries(old(index), old(shift), index, shift, held)
      ensures ok ==> index.WellFormed() && index.entries[index.slots[NextTail(index)]].key == INVALID_BLOCK_BASE
      ensures ok ==> index.Capacity() == 2 * old(index.Capacity())
    {
      hide IndexOk, Grown, SameEntries;
      IndexShape(index, blockSize, b, b - 1, lo, shift, held);
      ok := NewBlockIndex(memory);
      if ok {
        GrowOk(old(index), index, blockSize, b, lo, shift, held);
        shift := old(index).Capacity() - b;
        IndexShape(index, blockSize, b, b - 1, lo, shift, held);
      }
    }

    method RewindBlockIndexTail()
      requires index.slots != []
      modifies this`index
      ensures index == Rewound(old(index))
    {
      index := index.(tail := (index.tail - 1) % |index.slots|);
    }

    // The entry of an index, by its distance from the tail; `end` and `m` as in IndexOk.
    method GetBlockIndexEntryForIndex(i: nat, ghost end: int, ghost m: int, ghost h: Blocks) returns (id: nat)
      requires hasIndex && IndexOk(index, blockSize, end, m, lo, shift, h)
      requires lo <= i / blockSize < end && lo <= m
      ensures index.WellFormed() && id == EntryId(index, i / blockSize, shift)
      ensures index.entries[id].key == StartOf(i, blockSize)
      ensures index.entries[id].value == if i / blockSize in h then Some(h[i / blockSize]) else None
    {
      Found(index, blockSize, end, m, lo, shift, h, i);
      id := index.slots[IndexFor(index, blockSize, i)];
    }

    // ---------------------------------------------------------------- the parent's blocks

    method RequisitionBlock(canAlloc: bool, memory: bool, ghost owned: set<nat>) returns (result: Option<nat>)
      requires Partition(|blocks|, free, destroyed, owned) && Sizes(blocks, blockSize)
      modifies this`blocks, this`free
      ensures result.None? ==> blocks == old(blocks) && free == old(free)
      ensures if old(free) != [] then result.Some? else (canAlloc && memory ==> result.Some?) && (result.Some? ==> canAlloc)
      ensures result.Some? ==>
                && old(blocks) <= blocks && result.value < |blocks| && result.value !in owned
                && Partition(|blocks|, free, destroyed, owned + {result.value})
      // An allocated block only when none is free.
      ensures |blocks| == |old(blocks)| + if old(free) == [] && result.Some? then 1 else 0
      ensures |blocks| > |old(blocks)| ==> blocks[|old(blocks)|].dynamicallyAllocated
      ensures Sizes(blocks, blockSize)
    {
      if free != [] {
        TakeFree(|blocks|, free, destroyed, owned);
        var block := free[|free| - 1];
        free := free[..|free| - 1];
        return Some(block);
      }
      var lucky: bool := *;
      if !canAlloc || !(memory || lucky) {
        return None;
      }
      blocks := blocks + [Block(seq(blockSize, _ => 0), 0, None, true)];
      result := Some(|blocks| - 1);
    }

    method AddBlockToFreeList(block: nat, ghost owned: set<nat>)
      requires Partition(|blocks|, free, destroyed, owned) && block in owned
      modifies this`free, this`destroyed
      ensures Partition(|blocks|, free, destroyed, owned - {block}) && (block in free || block in destroyed)
      ensures block in destroyed <==> !recycleAllocatedBlocks && blocks[block].dynamicallyAllocated
    {
      if !recycleAllocatedBlocks && blocks[block].dynamicallyAllocated {
        destroyed := destroyed + {block};
      } else {
        free := free + [block];
      }
    }

    // ---------------------------------------------------------------- enqueueing

    // The first `end` blocks begun.
    ghost predicate Ready(end: nat)
      reads this`index, this`hasIndex, this`nextBlockIndexCapacity, this`blocks, this`free, this`destroyed, this`headIndex,
            this`items, this`finished, this`held, this`lo, this`shift, this`located
    {
      && IndexReady(end, end - 1)
      && DataOk(blocks, blockSize, end, held, items, finished)
      && Partition(|blocks|, free, destroyed, held.Values) && Sizes(blocks, blockSize)
      && headIndex <= |items| && (forall i <- finished :: i < headIndex)
      && LocatedOk(located, headIndex, index, blockSize, shift, held, finished)
      && (maxSubqueueSize.Some? ==> maxSubqueueSize.value % blockSize == 0)
      && (maxSubqueueSize.Some? && end > 0 ==> Base(end, blockSize) <= headIndex + maxSubqueueSize.value)
    }

    function Full(currentTailIndex: nat): bool
      reads this`headIndex
    {
      || currentTailIndex + blockSize - headIndex >= Words.W / 2
      || (maxSubqueueSize.Some? &&
          (maxSubqueueSize.value == 0 || maxSubqueueSize.value - blockSize < currentTailIndex - headIndex))
    }

    // There is a block to be had and room in the index for it, without allocating.
    ghost predicate Spare()
      reads this`index, this`hasIndex, this`free
    {
      IndexHasRoom() && free != []
    }

    // What has been admitted stays within the limit.
    lemma RoomForBlock(currentTailIndex: nat, end: nat)
      requires currentTailIndex == Base(end, blockSize)
      ensures !Full(currentTailIndex) && maxSubqueueSize.Some? ==> Base(end + 1, blockSize) <= headIndex + maxSubqueueSize.value
    {
      BaseNext(end, blockSize);
    }

    lemma FullIs(currentTailIndex: nat)
      ensures var size := currentTailIndex + blockSize - headIndex;
              !Full(currentTailIndex) <==>
                size < 0x8000_0000_0000_0000 && (maxSubqueueSize.Some? ==> 0 < maxSubqueueSize.value && size <= maxSubqueueSize.value)
    {
    }

    // Start the next block: an index entry, a block, and the block's place in the entry, or nothing at all.
    method BeginBlock(currentTailIndex: nat, canAlloc: bool, memory: bool, ghost end: nat) returns (result: Option<nat>)
      requires Ready(end) && currentTailIndex == Base(end, blockSize) && |items| <= currentTailIndex
      modifies this`index, this`nextBlockIndexCapacity, this`lo, this`shift, this`hasIndex, this`blocks, this`free, this`held
      ensures hasIndex == old(hasIndex)
      ensures result.Some? ==> hasIndex && !Full(currentTailIndex) && (canAlloc || old(Spare()))
      ensures hasIndex && !Full(currentTailIndex) && ((canAlloc && memory) || old(Spare())) ==> result.Some?
      ensures result.None? ==> Ready(end) && held == old(held) && blocks == old(blocks)
      ensures result.Some? ==>
                && Ready(end + 1) && end as int !in old(held) && held == old(held)[end as int := result.value]
                && result.value !in old(held).Values && result.value < |blocks|
                && |old(blocks)| <= |blocks| && forall b | 0 <= b < |old(blocks)| && b != result.value :: blocks[b] == old(blocks)[b]
    {
      hide IndexOk, Pending, SameEntries, DataOk, Partition, Sizes, LocatedOk, Full, Base, IndexHasRoom;
      RoomForBlock(currentTailIndex, end);
      if Full(currentTailIndex) {
        return None;
      }
      FinishedBefore(finished, blockSize, end, |items|);
      var inserted, id := InsertBlockIndexEntry(canAlloc, memory, currentTailIndex, end);
      if inserted {
        result := FillEntry(canAlloc, memory, id, end, old(index), old(shift));
      } else {
        result := None;
      }
    }

    // A block for the entry that was inserted, or the entry taken back. `before` is the index as it was.
    method FillEntry(canAlloc: bool, memory: bool, id: nat, ghost end: nat, ghost before: Index, ghost shiftBefore: int) returns (result: Option<nat>)
      requires hasIndex && Pending(index, blockSize, end, lo, shift, held, id) && nextBlockIndexCapacity == 2 * index.Capacity()
      requires DataOk(blocks, blockSize, end, held, items, finished) && Partition(|blocks|, free, destroyed, held.Values) && Sizes(blocks, blockSize)
      requires headIndex <= |items| && (forall i <- finished :: i < headIndex && i / blockSize < end)
      requires maxSubqueueSize.Some? ==> maxSubqueueSize.value % blockSize == 0 && Base(end + 1, blockSize) <= headIndex + maxSubqueueSize.value
      requires maxSubqueueSize.Some? && end > 0 ==> Base(end, blockSize) <= headIndex + maxSubqueueSize.value
      requires LocatedOk(located, headIndex, before, blockSize, shiftBefore, held, finished) && SameEntries(before, shiftBefore, index, shift, held)
      modifies this`index, this`blocks, this`free, this`held
      ensures if old(free) != [] then result.Some? else (canAlloc && memory ==> result.Some?) && (result.Some? ==> canAlloc)
      ensures result.None? ==> Ready(end) && held == old(held) && blocks == old(blocks)
      ensures result.Some? ==>
                && Ready(end + 1) && end as int !in old(held) && held == old(held)[end as int := result.value]
                && result.value !in old(held).Values && result.value < |blocks|
                && |old(blocks)| <= |blocks| && forall b | 0 <= b < |old(blocks)| && b != result.value :: blocks[b] == old(blocks)[b]
    {
      hide IndexOk, Pending, SameEntries, DataOk, Partition, Sizes, LocatedOk, Base;
      PendingShape(index, blockSize, end, lo, shift, held, id);
      result := RequisitionBlock(canAlloc, memory, held.Values);
      if result.None? {
        NotYetHeld(blocks, blockSize, end, held, items, finished);
        AbandonOk(index, blockSize, end, lo, shift, held, id);
        RewindBlockIndexTail();
        index := index.Set(id, index.entries[id].(value := None));
      } else {
        BlockStored(old(blocks), blocks, blockSize, end, held, items, finished, free, destroyed, index, lo, shift, id, result.value);
        blocks := blocks[result.value := blocks[result.value].(dequeued := 0)];
        index := index.Set(id, index.entries[id].(value := Some(result.value)));
        held := held[end as int := result.value];
      }
      KeptSlots(before, shiftBefore, old(index), index, shift, old(held));
      LocatedKept(located, headIndex, before, index, blockSize, shiftBefore, shift, old(held), held, finished);
    }

    ghost predicate Valid()
      reads this
    {
      && Ready(Begun(tailIndex, blockSize)) && headIndex <= tailIndex == |items|
      && (tailIndex % blockSize != 0 ==> tailIndex / blockSize in held && tailBlock == Some(held[tailIndex / blockSize]))
    }

    // What has been enqueued and not been claimed by a consumer.
    ghost function Contents(): seq<Elem>
      reads this
      requires Valid()
    {
      items[headIndex..]
    }

    // Unless allocations fail, it succeeds exactly if the tail block has room, or the producer has an index, the
    // limits admit another block, and it is to be had.
    method Enqueue(x: Elem, canAlloc: bool, memory: bool) returns (ok: bool)
      requires Valid()
      modifies this`index, this`nextBlockIndexCapacity, this`lo, this`shift, this`hasIndex, this`blocks, this`free, this`held,
               this`tailBlock, this`tailIndex, this`items
      ensures Valid()
      ensures memory || !canAlloc ==>
                (ok <==> old(tailIndex) % blockSize != 0 || (hasIndex && !old(Full(tailIndex)) && (canAlloc || old(Spare()))))
      ensures ok && old(tailIndex) % blockSize == 0 ==> !old(Full(tailIndex))
      // The limits: half the range of an index, and the size asked for.
      ensures canAlloc && memory && hasIndex && old(tailIndex) % blockSize == 0 ==>
                var size := old(tailIndex) + blockSize - old(headIndex);
                (ok <==> size < 0x8000_0000_0000_0000 && (maxSubqueueSize.Some? ==> 0 < maxSubqueueSize.value && size <= maxSubqueueSize.value))
      ensures hasIndex == old(hasIndex)
      ensures ok ==> items == old(items) + [x] && Contents() == old(Contents()) + [x]
      ensures !ok ==> items == old(items) && held == old(held)
    {
      hide Ready, Full;
      FullIs(tailIndex);
      var currentTailIndex := tailIndex;
      NextPosition(currentTailIndex, blockSize);
      ghost var end := Begun(currentTailIndex, blockSize);
      if currentTailIndex % blockSize == 0 {
        var newBlock := BeginBlock(currentTailIndex, canAlloc, memory, end);
        if newBlock.None? {
          return false;
        }
        tailBlock := newBlock;
      }
      Construct(currentTailIndex, x, Begun(currentTailIndex + 1, blockSize));
      tailIndex := currentTailIndex + 1;
      ok := true;
    }

    // A limited sub-queue never holds more than its limit.
    lemma WithinLimit()
      requires Valid() && maxSubqueueSize.Some?
      ensures |Contents()| <= maxSubqueueSize.value
    {
      hide IndexOk, DataOk, Partition, LocatedOk, Base;
      NextPosition(tailIndex, blockSize);
    }

    // Construct the next element in the tail block.
    method Construct(currentTailIndex: nat, x: Elem, ghost end: nat)
      requires Ready(end) && currentTailIndex == |items|
      requires currentTailIndex / blockSize in held && tailBlock == Some(held[currentTailIndex / blockSize])
      modifies this`blocks, this`items
      ensures Ready(end) && items == old(items) + [x] && |blocks| == |old(blocks)|
      ensures forall b | 0 <= b < |blocks| :: blocks[b].next == old(blocks)[b].next
    {
      hide IndexOk, DataOk, Partition;
      ItemAdded(blocks, blockSize, end, held, items, finished, tailBlock.value, x);
      var block := blocks[tailBlock.value];
      blocks := blocks[tailBlock.value := block.(elements := block.elements[currentTailIndex % blockSize := x])];
      items := items + [x];
    }

    // ---------------------------------------------------------------- dequeueing

    // The index a consumer's ticket entitles it to.
    method Claim() returns (i: nat)
      requires Valid() && headIndex < tailIndex
      modifies this`headIndex
      ensures Valid() && i == old(headIndex) && headIndex == i + 1
      ensures i !in finished && old(Contents()) == [items[i]] + Contents()
    {
      hide IndexOk, DataOk, Partition, Base;
      i := headIndex;
      headIndex := headIndex + 1;
    }

    method Locate(i: nat) returns (id: nat, block: nat)
      requires Valid() && i < headIndex && i !in finished
      modifies this`located
      ensures Valid() && located == old(located)[i := (id, block)]
      ensures id < |index.entries| && index.entries[id] == Entry(StartOf(i, blockSize), Some(block))
    {
      hide IndexOk, DataOk, Partition, Base, Begun;
      ghost var end := Begun(tailIndex, blockSize);
      HeldAt(end, i);
      id := GetBlockIndexEntryForIndex(i, end, end - 1, held);
      block := index.entries[id].value.value;
      located := located[i := (id, block)];
    }

    lemma HeldAt(end: nat, i: nat)
      requires Ready(end) && i < |items| && i !in finished
      ensures hasIndex && IndexOk(index, blockSize, end, end - 1, lo, shift, held) && index.WellFormed()
      ensures i / blockSize in held && lo <= i / blockSize < end && Injective(held) && forall b <- held :: b < end
      ensures ItemOk(blocks, blockSize, held, items, i)
    {
      assert ItemOk(blocks, blockSize, held, items, i);
    }

    // The block is no longer the producer's: it is free again or, if it is not to be recycled, destroyed.
    ghost predicate GivenBack(b: int, block: nat, before: Blocks)
      reads this`held, this`free, this`destroyed
    {
      held == before - {b} && (block in free || block in destroyed)
    }

    // Move the element out of the block found for it; the block is given back with its last element.
    method TakeOut(i: nat, id: nat, block: nat) returns (x: Elem)
      requires Valid() && i in located && located[i] == (id, block)
      modifies this`index, this`blocks, this`free, this`destroyed, this`held, this`finished, this`located
      ensures Valid() && Contents() == old(Contents())
      ensures i < |items| && x == items[i] && finished == old(finished) + {i} && located == old(located) - {i}
      ensures if |FinishedIn(finished, blockSize, i / blockSize)| == blockSize then GivenBack(i / blockSize, block, old(held))
              else held == old(held) && free == old(free) && destroyed == old(destroyed)
    {
      hide Ready, GivenBack;
      ghost var end := Begun(tailIndex, blockSize);
      x := Taken(i, id, block, end);
      LastBlockKept(end);
    }

    lemma LastBlockKept(end: nat)
      requires Ready(end) && end == Begun(tailIndex, blockSize) && tailIndex == |items|
      ensures tailIndex % blockSize != 0 ==> tailIndex / blockSize in held
    {
      hide IndexOk, Partition, LocatedOk;
      NextPosition(tailIndex, blockSize);
      assert tailIndex !in finished;
      HeldUpTo(blocks, blockSize, end, held, items, finished);
    }

    // What holds of an index a consumer has looked up.
    lemma LocatedAt(end: nat, i: nat)
      requires Ready(end) && i in located
      ensures hasIndex && IndexOk(index, blockSize, end, end - 1, lo, shift, held) && index.WellFormed()
      ensures i < headIndex <= |items| && i !in finished && i / blockSize in held && i / blockSize < end && Injective(held)
      ensures forall b <- held :: b < end
      ensures located[i] == (EntryId(index, i / blockSize, shift), held[i / blockSize])
      ensures held[i / blockSize] in held.Values && held[i / blockSize] < |blocks|
      ensures var b := blocks[held[i / blockSize]]; i % blockSize < |b.elements| && b.elements[i % blockSize] == items[i]
    {
      hide IndexOk, Partition, Base;
      HeldAt(end, i);
    }

    method Taken(i: nat, id: nat, block: nat, ghost end: nat) returns (x: Elem)
      requires Ready(end) && i in located && located[i] == (id, block)
      modifies this`index, this`blocks, this`free, this`destroyed, this`held, this`finished, this`located
      ensures Ready(end)
      ensures i < |items| && x == items[i] && finished == old(finished) + {i} && located == old(located) - {i}
      ensures forall b <- held :: b in old(held) && held[b] == old(held)[b]
      ensures if |FinishedIn(finished, blockSize, i / blockSize)| == blockSize then GivenBack(i / blockSize, block, old(held))
              else held == old(held) && free == old(free) && destroyed == old(destroyed)
    {
      hide IndexOk, Partition, DataOk, Base, LocatedOk, Sizes, Injective;
      LocatedAt(end, i);
      ItemTaken(blocks, blockSize, end, held, items, finished, i);
      x := blocks[block].elements[i % blockSize];
      assert blocks[block].dequeued < blockSize;
      var n := blocks[block].dequeued + 1;
      assert n == |FinishedIn(finished + {i}, blockSize, i / blockSize)|;
      blocks := blocks[block := blocks[block].(dequeued := n)];
      if n == blockSize {
        BlockFilled(index, blockSize, end, end - 1, lo, shift, held, i / blockSize);
        index := index.Set(id, index.entries[id].(value := None));
        AddBlockToFreeList(block, held.Values);
        ValueRemoved(held, i / blockSize);
        held := held - {i / blockSize};
      }
      TakenKeeps(old(blocks), block, n, located, headIndex, old(index), index, blockSize, shift, end, old(held), held, items, finished, i);
      finished, located := finished + {i}, located - {i};
    }

    // ---------------------------------------------------------------- enqueueing many

    // One more block, linked behind the previous one if there is one.
    method ReserveOne(currentTailIndex: nat, midBlock: bool, first: Option<nat>, canAlloc: bool, memory: bool,
                      ghost start: nat, ghost end: nat)
      returns (newBlock: Option<nat>)
      requires Ready(end) && currentTailIndex == Base(end, blockSize) && |items| <= currentTailIndex
      requires Linked(blocks, held, if midBlock then start - 1 else start, start, end, first)
      requires forall b | (if midBlock then start - 1 else start) <= b < end :: b in held
      requires midBlock || end > start ==> end - 1 in held && tailBlock == Some(held[end - 1])
      modifies this`index, this`nextBlockIndexCapacity, this`lo, this`shift, this`hasIndex, this`blocks, this`free,
               this`held, this`tailBlock
      ensures hasIndex == old(hasIndex) && (newBlock.Some? ==> hasIndex && !Full(currentTailIndex))
      ensures hasIndex && !Full(currentTailIndex) && canAlloc && memory ==> newBlock.Some?
      ensures newBlock.None? ==>
                && Ready(end) && held == old(held) && tailBlock == old(tailBlock)
                && Linked(blocks, held, if midBlock then start - 1 else start, start, end, first)
      ensures newBlock.Some? ==>
                && Ready(end + 1) && end as int !in old(held) && held == old(held)[end as int := newBlock.value] && tailBlock == newBlock
                && Linked(blocks, held, if midBlock then start - 1 else start, start, end + 1, if first.None? then newBlock else first)
    {
      hide IndexReady, DataOk, Partition, LocatedOk, Sizes, Linked, LinkAt, Base;
      ghost var from := if midBlock then start - 1 else start;
      HeldBlocks(end);
      FirstOfNew(blocks, held, from, start, end, first);
      newBlock := BeginBlock(currentTailIndex, canAlloc, memory, end);
      if newBlock.Some? {
        SetNext(newBlock.value, None, end + 1);
        if midBlock || first.Some? {
          assert tailBlock.value == old(held)[end - 1] && tailBlock.value in old(held).Values;
          SetNext(tailBlock.value, newBlock, end + 1);
        }
        LinkNew(old(blocks), blocks, old(held), from, start, end, first, newBlock.value);
        tailBlock := newBlock;
      }
    }

    method SetNext(block: nat, next: Option<nat>, ghost end: nat)
      requires Ready(end) && block < |blocks|
      modifies this`blocks
      ensures Ready(end) && |blocks| == |old(blocks)| && blocks[block].next == next
      ensures forall b | 0 <= b < |blocks| && b != block :: blocks[b] == old(blocks)[b]
    {
      hide IndexReady, DataOk, Partition, LocatedOk, Sizes;
      NextSet(blocks, block, next, blockSize, end, held, items, finished);
      blocks := blocks[block := blocks[block].(next := next)];
    }

    lemma HeldBlocks(end: nat)
      requires Ready(end)
      ensures Injective(held) && forall b <- held :: 0 <= b < end && held[b] < |blocks| && held[b] in held.Values
    {
      hide IndexReady, Partition, LocatedOk, Sizes;
      forall b <- held ensures held[b] < |blocks| { assert BlockOk(blocks, blockSize, held, finished, b); }
    }

    // One entry's block forgotten and the index's tail rewound by one.
    method UnindexBlock(currentTailIndex: nat, ghost b: nat, ghost end: int, ghost m: int, ghost h: Blocks) returns (ghost block: nat)
      requires hasIndex && IndexOk(index, blockSize, end, m, lo, shift, h) && lo <= m
      requires b in h && currentTailIndex == Base(b, blockSize)
      modifies this`index
      ensures IndexOk(index, blockSize, end, m - 1, lo, shift, h - {b})
      ensures index.WellFormed() && index.slots == old(index).slots
    {
      hide IndexOk, Rewound;
      IndexShape(index, blockSize, end, m, lo, shift, h);
      Position(currentTailIndex, b, 0, blockSize);
      var id := GetBlockIndexEntryForIndex(currentTailIndex, end, m, h);
      BlockFilled(index, blockSize, end, m, lo, shift, h, b);
      index := index.Set(id, index.entries[id].(value := None));
      RewindOk(index, blockSize, end, m, lo, shift, h - {b});
      RewoundShape(index);
      RewindBlockIndexTail();
      block := h[b];
    }

    // Take the new blocks out of the index again, first to last.
    method UnindexBlocks(startTailIndex: nat, first: nat, ghost from: int, ghost start: nat, ghost end: nat)
      requires hasIndex && IndexOk(index, blockSize, end, end - 1, lo, shift, held)
      requires start == Begun(startTailIndex, blockSize) && start < end && Linked(blocks, held, from, start, end, Some(first))
      modifies this`index
      ensures IndexOk(index, blockSize, start, start - 1, lo, shift, Without(held, start, end))
      ensures index.WellFormed() && index.slots == old(index).slots
    {
      hide IndexOk, Linked, Rewound, Without, Begun, LastBase, Floor, Base;
      IndexShape(index, blockSize, end, end - 1, lo, shift, held);
      LinkedIn(blocks, held, from, start, end, Some(first));
      FloorBefore(startTailIndex, blockSize);
      WithoutNext(held, start, start);
      var currentTailIndex := Floor(startTailIndex - 1, blockSize);
      var block: Option<nat> := Some(first);
      ghost var j := start;
      while block.Some?
        invariant start <= j <= end && IndexOk(index, blockSize, end, end - 1 - (j - start), lo, shift, Without(held, start, j))
        invariant block == BlockAt(held, j, end)
        invariant currentTailIndex == LastBase(j, blockSize) && index.slots == old(index).slots && index.WellFormed()
        decreases end - j
      {
        LinkedAt(blocks, held, from, start, end, Some(first), j);
        WithoutAt(held, start, j, j);
        WithoutNext(held, start, j);
        LastBaseNext(j, blockSize);
        currentTailIndex := currentTailIndex + blockSize;
        var gone := UnindexBlock(currentTailIndex, j, end, end - 1 - (j - start), Without(held, start, j));
        block, j := blocks[block.value].next, j + 1;
      }
      NoneLeft(held, start, end);
      Forget(index, blockSize, end, start, lo, shift, Without(held, start, end));
    }

    method AddBlocksToFreeList(first: nat, ghost from: int, ghost start: nat, ghost end: nat)
      requires Partition(|blocks|, free, destroyed, held.Values) && Injective(held)
      requires start < end && Linked(blocks, held, from, start, end, Some(first))
      modifies this`free, this`destroyed
      ensures Partition(|blocks|, free, destroyed, Without(held, start, end).Values)
    {
      hide Partition, Linked;
      LinkedIn(blocks, held, from, start, end, Some(first));
      WithoutNext(held, start, start);
      var block: Option<nat> := Some(first);
      ghost var j := start;
      while block.Some?
        invariant start <= j <= end && Partition(|blocks|, free, destroyed, Without(held, start, j).Values)
        invariant block == BlockAt(held, j, end)
        decreases end - j
      {
        LinkedAt(blocks, held, from, start, end, Some(first), j);
        var next := blocks[block.value].next;
        WithoutNext(held, start, j);
        ValueRemoved(Without(held, start, j), j);
        assert j in Without(held, start, j) && Without(held, start, j)[j] == block.value;
        AddBlockToFreeList(block.value, Without(held, start, j).Values);
        block, j := next, j + 1;
      }
    }

    // Give everything back.
    method Undo(startTailIndex: nat, startBlock: Option<nat>, first: Option<nat>, ghost from: int, ghost start: nat, ghost end: nat)
      requires Ready(end) && startTailIndex == |items| && start == Begun(startTailIndex, blockSize) && start <= end
      requires Linked(blocks, held, from, start, end, first)
      modifies this`index, this`free, this`destroyed, this`held, this`tailBlock
      ensures Ready(start) && held == Without(old(held), start, end) && tailBlock == startBlock
    {
      hide IndexOk, DataOk, Partition, LocatedOk, Sizes, Linked, Without, Begun, Base;
      tailBlock := startBlock;
      FirstOfNew(blocks, held, from, start, end, first);
      WithoutNext(held, start, start);
      if first.Some? {
        LinkedIn(blocks, held, from, start, end, first);
        HeldBlocks(end);
        ItemsBelow(|items|, blockSize);
        BlocksToGo(start, end, blockSize);
        UnindexBlocks(startTailIndex, first.value, from, start, end);
        AddBlocksToFreeList(first.value, from, start, end);
        BlocksRemoved(blocks, blockSize, start, end, held, items, finished);
        BelowKept(held, start, end);
        LocatedBelow(located, headIndex, old(index), index, blockSize, shift, start, held, Without(held, start, end), finished);
        held := Without(held, start, end);
      }
    }

    // No further block is needed for that many elements, or there is an index and the limits admit the last one.
    ghost predicate Admitted(count: nat)
      reads this`hasIndex, this`tailIndex, this`headIndex
    {
      var start, target := Begun(tailIndex, blockSize), Begun(tailIndex + count, blockSize);
      start < target ==> hasIndex && !Full(Base(target - 1, blockSize))
    }

    // Allocate all the blocks the elements need, linked to one another, or give everything back.
    method Reserve(count: nat, canAlloc: bool, memory: bool) returns (ok: bool, firstAllocatedBlock: Option<nat>, endBlock: Option<nat>)
      requires Valid()
      modifies this`index, this`nextBlockIndexCapacity, this`lo, this`shift, this`hasIndex, this`blocks, this`free, this`destroyed,
               this`held, this`tailBlock
      ensures !ok ==> Valid() && held == old(held) && tailBlock == old(tailBlock)
      ensures ok ==> ReservedFor(count, old(tailBlock), firstAllocatedBlock, endBlock)
      ensures hasIndex == old(hasIndex) && (ok ==> Admitted(count)) && (canAlloc && memory && Admitted(count) ==> ok)
    {
      hide Ready, Linked, Without, Begun, Base, LastBase, Floor;
      var startTailIndex, startBlock := tailIndex, tailBlock;
      firstAllocatedBlock, endBlock := None, tailBlock;
      var blockBaseDiff := Floor(startTailIndex + count - 1, blockSize) - Floor(startTailIndex - 1, blockSize);
      var currentTailIndex := Floor(startTailIndex - 1, blockSize);
      FloorBefore(startTailIndex, blockSize);
      FloorBefore(startTailIndex + count, blockSize);
      var midBlock := startTailIndex % blockSize != 0;
      ghost var start, target := Begun(startTailIndex, blockSize), Begun(startTailIndex + count, blockSize);
      ghost var from := if midBlock then start as int - 1 else start;
      ghost var end := start;
      StartOk(start, from);
      BegunMonotone(startTailIndex, startTailIndex + count, blockSize);
      while blockBaseDiff > 0
        invariant start <= end && Ready(end) && Linked(blocks, held, from, start, end, firstAllocatedBlock)
        invariant blockBaseDiff == LastBase(target, blockSize) - LastBase(end, blockSize) && end <= target
        invariant currentTailIndex == LastBase(end, blockSize)
        invariant forall b | from <= b < end :: b in held
        invariant Without(held, start, end) == old(held)
        invariant tailBlock == endBlock && endBlock == if end > start then BlockAt(held, end - 1, end) else startBlock
        invariant midBlock ==> startBlock == BlockAt(held, start as int - 1, start)
        invariant tailIndex == |items| && hasIndex == old(hasIndex)
        invariant start < end ==> hasIndex && !Full(Base(end - 1, blockSize))
        decreases blockBaseDiff
      {
        BlocksToGo(end, target, blockSize);
        BlocksToGo(end + 1, target, blockSize);
        BlocksToGo(start, end, blockSize);
        LastBaseNext(end, blockSize);
        blockBaseDiff := blockBaseDiff - blockSize;
        currentTailIndex := currentTailIndex + blockSize;
        ghost var before := held;
        var newBlock := ReserveOne(currentTailIndex, midBlock, firstAllocatedBlock, canAlloc, memory, start, end);
        if newBlock.None? {
          BlocksToGo(end, target - 1, blockSize);
          Undo(startTailIndex, startBlock, firstAllocatedBlock, from, start, end);
          return false, None, None;
        }
        WithoutAdded(before, start, end, newBlock.value);
        endBlock := newBlock;
        firstAllocatedBlock := if firstAllocatedBlock.None? then newBlock else firstAllocatedBlock;
        end := end + 1;
      }
      BlocksToGo(end, target, blockSize);
      ok := true;
    }

    lemma StartOk(start: nat, from: int)
      requires Valid() && start == Begun(tailIndex, blockSize)
      requires from == if tailIndex % blockSize != 0 then start - 1 else start
      ensures Linked(blocks, held, from, start, start, None) && (forall b | from <= b < start :: b in held)
      ensures tailIndex % blockSize != 0 ==> tailBlock == BlockAt(held, start - 1, start)
      ensures Without(held, start, start) == held && tailIndex == |items| && tailIndex <= Base(start, blockSize)
    {
      NextPosition(tailIndex, blockSize);
    }

    ghost predicate ReservedFor(count: nat, startBlock: Option<nat>, first: Option<nat>, endBlock: Option<nat>)
      reads this
    {
      var start, end := Begun(tailIndex, blockSize), Begun(tailIndex + count, blockSize);
      var from := if tailIndex % blockSize != 0 then start - 1 else start;
      && Ready(end) && tailIndex == |items| && Linked(blocks, held, from, start, end, first)
      && (tailIndex % blockSize != 0 ==> start - 1 in held && startBlock == Some(held[start - 1]))
      && endBlock == if end > start then BlockAt(held, end - 1, end) else startBlock
    }

    // Construct the elements that go into the tail block.
    method FillBlock(xs: seq<Elem>, startTailIndex: nat, currentTailIndex: nat, stopIndex: nat, ghost end: nat)
      requires Ready(end) && startTailIndex <= currentTailIndex == |items| && currentTailIndex <= stopIndex <= startTailIndex + |xs|
      requires currentTailIndex < stopIndex ==>
                 && stopIndex <= Base(currentTailIndex / blockSize + 1, blockSize)
                 && tailBlock.Some? && tailBlock == BlockAt(held, currentTailIndex / blockSize, end)
      modifies this`blocks, this`items
      ensures Ready(end) && items == old(items) + xs[currentTailIndex - startTailIndex..stopIndex - startTailIndex]
      ensures |blocks| == |old(blocks)| && forall b | 0 <= b < |blocks| :: blocks[b].next == old(blocks)[b].next
    {
      hide Ready, Base;
      var i := currentTailIndex;
      while i != stopIndex
        invariant currentTailIndex <= i <= stopIndex && Ready(end) && |items| == i
        invariant items == old(items) + xs[currentTailIndex - startTailIndex..i - startTailIndex]
        invariant |blocks| == |old(blocks)| && forall b | 0 <= b < |blocks| :: blocks[b].next == old(blocks)[b].next
        decreases stopIndex - i
      {
        SameBlock(currentTailIndex, i, stopIndex, blockSize);
        Construct(i, xs[i - startTailIndex], end);
        i := i + 1;
      }
    }

    // Construct all elements, one block at a time.
    method Fill(xs: seq<Elem>, startBlock: Option<nat>, firstAllocatedBlock: Option<nat>, endBlock: Option<nat>)
      requires ReservedFor(|xs|, startBlock, firstAllocatedBlock, endBlock)
      modifies this`tailBlock, this`blocks, this`items
      ensures Ready(Begun(tailIndex + |xs|, blockSize)) && items == old(items) + xs
      ensures tailBlock == endBlock
    {
      hide Ready, Base, Begun, Linked, Floor, Injective;
      var startTailIndex, newTailIndex := tailIndex, tailIndex + |xs|;
      var currentTailIndex := startTailIndex;
      ghost var start, end := Begun(tailIndex, blockSize), Begun(newTailIndex, blockSize);
      ghost var from := if tailIndex % blockSize != 0 then start as int - 1 else start;
      FirstOfNew(blocks, held, from, start, end, firstAllocatedBlock);
      HeldBlocks(end);
      NextPosition(startTailIndex, blockSize);
      if end > start { LinkedIn(blocks, held, from, start, end, firstAllocatedBlock); }
      if |xs| > 0 { StopAt(currentTailIndex, newTailIndex, blockSize); }
      tailBlock := startBlock;
      if startTailIndex % blockSize == 0 && firstAllocatedBlock.Some? {
        tailBlock := firstAllocatedBlock;
      }
      while true
        invariant startTailIndex <= currentTailIndex == |items| && currentTailIndex <= newTailIndex
        invariant items == old(items) + xs[..currentTailIndex - startTailIndex]
        invariant Ready(end) && Linked(blocks, held, from, start, end, firstAllocatedBlock)
        invariant currentTailIndex < newTailIndex ==>
                    && tailBlock.Some? && tailBlock == BlockAt(held, currentTailIndex / blockSize, end)
                    && from <= currentTailIndex / blockSize < end
        invariant currentTailIndex == newTailIndex ==> tailBlock == endBlock
        decreases newTailIndex - currentTailIndex
      {
        FloorBelow(currentTailIndex, blockSize);
        if currentTailIndex < newTailIndex { StopAt(currentTailIndex, newTailIndex, blockSize); }
        var stopIndex := Floor(currentTailIndex, blockSize) + blockSize;
        if newTailIndex < stopIndex {
          stopIndex := newTailIndex;
        }
        ghost var b, blocksBefore := currentTailIndex / blockSize, blocks;
        FillBlock(xs, startTailIndex, currentTailIndex, stopIndex, end);
        LinkedKept(blocksBefore, blocks, held, from, start, end, firstAllocatedBlock);
        ghost var last := currentTailIndex == newTailIndex || newTailIndex <= Base(b + 1, blockSize);
        if !last { MoreToCome(blocks, held, from, start, end, firstAllocatedBlock, b); }
        currentTailIndex := stopIndex;
        assert tailBlock == endBlock <==> last;
        if tailBlock == endBlock {
          assert currentTailIndex == newTailIndex;
          return;
        }
        tailBlock := blocks[tailBlock.value].next;
      }
    }

    // Where the tail is after a bulk enqueue.
    lemma TailAt(count: nat, startBlock: Option<nat>, first: Option<nat>, endBlock: Option<nat>)
      requires ReservedFor(count, startBlock, first, endBlock)
      ensures var tail := tailIndex + count;
              tail % blockSize != 0 ==> tail / blockSize in held && endBlock == Some(held[tail / blockSize])
    {
      hide Ready, Linked, Base;
      var start, end := Begun(tailIndex, blockSize), Begun(tailIndex + count, blockSize);
      var from := if tailIndex % blockSize != 0 then start as int - 1 else start;
      NextPosition(tailIndex, blockSize);
      NextPosition(tailIndex + count, blockSize);
      BegunMonotone(tailIndex, tailIndex + count, blockSize);
      if end > start {
        LinkedIn(blocks, held, from, start, end, first);
      } else if count > 0 {
        BegunMonotone(tailIndex + 1, tailIndex + count, blockSize);
      }
    }

    // All of the elements, or nothing changes: not the contents, nor what any index is looked up to.
    method EnqueueBulk(xs: seq<Elem>, canAlloc: bool, memory: bool) returns (ok: bool)
      requires Valid()
      modifies this`index, this`nextBlockIndexCapacity, this`lo, this`shift, this`hasIndex, this`blocks, this`free, this`destroyed,
               this`held, this`tailBlock, this`tailIndex, this`items
      ensures Valid()
      ensures hasIndex == old(hasIndex) && (ok ==> old(Admitted(|xs|))) && (canAlloc && memory && old(Admitted(|xs|)) ==> ok)
      // The same limits, for the start of the last block that is needed.
      ensures canAlloc && memory && hasIndex ==>
                (ok <==>
                   || |xs| == 0
                   || var end := old(tailIndex) + |xs| - 1; var start := end - end % blockSize;
                      || start < old(tailIndex)
                      || var size := start + blockSize - old(headIndex);
                         size < 0x8000_0000_0000_0000 && (maxSubqueueSize.Some? ==> 0 < maxSubqueueSize.value && size <= maxSubqueueSize.value))
      ensures ok ==> items == old(items) + xs && Contents() == old(Contents()) + xs
      ensures !ok ==> items == old(items) && held == old(held) && tailIndex == old(tailIndex) && tailBlock == old(tailBlock)
    {
      hide Ready, Begun, Full;
      if |xs| > 0 {
        LastStart(tailIndex, |xs|, blockSize);
        FullIs(tailIndex + |xs| - 1 - (tailIndex + |xs| - 1) % blockSize);
      }
      var first, endBlock;
      var startBlock := tailBlock;
      ok, first, endBlock := Reserve(|xs|, canAlloc, memory);
      if ok {
        TailAt(|xs|, startBlock, first, endBlock);
        Fill(xs, startBlock, first, endBlock);
        tailIndex := tailIndex + |xs|;
      }
    }

    // dequeue by a single consumer, to which its ticket gives an element exactly when there is one.
    method Dequeue() returns (result: Option<Elem>)
      requires Valid()
      modifies this`headIndex, this`located, this`index, this`blocks, this`free, this`destroyed, this`held, this`finished
      ensures Valid()
      ensures old(Contents()) == [] ==> result == None && Contents() == []
      ensures old(Contents()) != [] ==> result == Some(old(Contents()[0])) && Contents() == old(Contents()[1..])
    {
      hide Ready, Begun;
      if headIndex == tailIndex {
        return None;
      }
      var i := Claim();
      var id, block := Locate(i);
      var x := TakeOut(i, id, block);
      result := Some(x);
    }
  }
}

// Where an index is: the block it belongs to and its place there, and the slot of a ring in which a block's
// entry is kept. Block number b holds the indices from b * size to (b + 1) * size - 1.
module Positions {
  import Words

  type BlockSize = n: nat | n >= 2 witness 2

  // ---------------------------------------------------------------- block numbers

  function Base(b: nat, size: nat): nat { b * size }

  // The first index of an index's block.
  function StartOf(index: nat, size: nat): nat
    requires size > 0
  {
    index - index % size
  }

  // The number of blocks begun when `tail` elements have been enqueued.
  ghost function Begun(tail: nat, size: nat): nat
    requires size > 0
  {
    if tail % size == 0 then tail / size else tail / size + 1
  }

  lemma Position(i: nat, b: nat, o: nat, size: nat)
    requires size > 0 && o < size && i == Base(b, size) + o
    ensures i / size == b && i % size == o
  {
    Words.RemainderUnique(i, size, b, o);
  }

  lemma BaseNext(q: nat, size: nat)
    ensures Base(q + 1, size) == Base(q, size) + size
  {
  }

  lemma MultiplyMonotone(a: nat, b: nat, c: nat)
    requires b <= c
    ensures a * b <= a * c
  {
  }

  lemma DivideBelow(i: nat, size: nat, b: nat)
    requires size > 0
    ensures i < Base(b, size) <==> i / size < b
  {
    assert i == size * (i / size) + i % size;
    if i / size < b { MultiplyMonotone(size, i / size + 1, b); } else { MultiplyMonotone(size, b, i / size); }
  }

  lemma BaseOrder(b: nat, c: nat, size: BlockSize)
    ensures b <= c <==> Base(b, size) <= Base(c, size)
  {
    if b <= c { MultiplyMonotone(size, b, c); } else { MultiplyMonotone(size, c + 1, b); }
  }

  lemma BaseOf(b: nat, index: nat, size: nat)
    requires size > 0 && index / size == b
    ensures index - index % size == Base(b, size)
  {
  }

  lemma BaseDistance(b: nat, c: nat, size: nat)
    requires size > 0
    ensures (Base(b, size) - Base(c, size)) / size == b - c
    ensures b != c ==> Base(b, size) != Base(c, size)
  {
    assert Base(b, size) - Base(c, size) == size * (b - c);
    Words.RemainderUnique(Base(b, size) - Base(c, size), size, b - c, 0);
  }

  // The next index is the first of block number Begun(tail), or inside the last block.
  lemma NextPosition(tail: nat, size: nat)
    requires size >= 2
    ensures if tail % size == 0 then
              Base(Begun(tail, size), size) == tail && tail / size == Begun(tail, size) && Begun(tail + 1, size) == Begun(tail, size) + 1
            else tail / size == Begun(tail, size) - 1 && Begun(tail + 1, size) == Begun(tail, size)
    ensures (tail + 1) % size != 0 ==> (tail + 1) / size == tail / size
    ensures tail <= Base(Begun(tail, size), size)
  {
    var q, r := tail / size, tail % size;
    assert tail == Base(q, size) + r;
    BaseNext(q, size);
    if r + 1 < size {
      Position(tail + 1, q, r + 1, size);
    } else {
      Position(tail + 1, q + 1, 0, size);
    }
  }

  lemma BegunMonotone(n: nat, m: nat, size: BlockSize)
    requires n <= m
    ensures Begun(n, size) <= Begun(m, size)
  {
    NextPosition(n, size);
    NextPosition(m, size);
    DivideBelow(n, size, Begun(m, size));
    BaseOrder(Begun(n, size), Begun(m, size), size);
  }

  // The last of the blocks begun for n more elements is that of the last element; it is new if it starts behind the tail.
  lemma LastStart(tail: nat, n: nat, size: BlockSize)
    requires n > 0
    ensures var i := tail + n - 1;
            && Begun(tail + n, size) > 0 && Base(Begun(tail + n, size) - 1, size) == i - i % size
            && (Begun(tail, size) < Begun(tail + n, size) <==> i - i % size >= tail)
  {
    hide Base, Begun;
    var i := tail + n - 1;
    NextPosition(i, size);
    BaseOf(i / size, i, size);
    BeginsBehind(tail, i / size, size);
  }

  // Block q is not begun yet exactly if it starts at the tail or behind it.
  lemma BeginsBehind(tail: nat, q: nat, size: BlockSize)
    ensures Begun(tail, size) <= q <==> Base(q, size) >= tail
  {
    hide Base, Begun;
    NextPosition(tail, size);
    BaseOrder(Begun(tail, size), q, size);
    if tail % size != 0 {
      BaseOrder(q, Begun(tail, size) - 1, size);
      BaseOf(tail / size, tail, size);
    }
  }

  lemma ItemsBelow(n: nat, size: BlockSize)
    ensures forall i: nat | i < n :: i / size < Begun(n, size)
  {
    NextPosition(n, size);
    forall i: nat | i < n ensures i / size < Begun(n, size) { DivideBelow(i, size, Begun(n, size)); }
  }

  // Two indices at the same place in one block are the same.
  lemma SamePlace(i: nat, j: nat, size: nat)
    requires size > 0 && i / size == j / size && i % size == j % size
    ensures i == j
  {
    assert i == size * (i / size) + i % size && j == size * (j / size) + j % size;
  }

  lemma SameBlock(cur: nat, i: nat, stop: nat, size: BlockSize)
    requires cur <= i < stop <= Base(cur / size + 1, size)
    ensures i / size == cur / size
  {
    DivideBelow(i, size, cur / size + 1);
    DivideBelow(cur, size, cur / size);
    DivideBelow(i, size, cur / size);
  }

  // ---------------------------------------------------------------- rings of slots

  function SlotOf(b: int, shift: int, capacity: nat): (s: nat)
    requires capacity > 0
    ensures s < capacity
  {
    (b + shift) % capacity
  }

  lemma Multiples(x: int, q: int, d: nat)
    requires d > 0
    ensures (x + q * d) % d == x % d
  {
    var k, r := x / d, x % d;
    assert x + q * d == d * (k + q) + r;
    Words.RemainderUnique(x + q * d, d, k + q, r);
  }

  lemma SameSlot(b: int, shift: int, capacity: nat)
    requires capacity > 0
    ensures SlotOf(b + capacity, shift, capacity) == SlotOf(b, shift, capacity)
  {
    Multiples(b + shift, 1, capacity);
  }

  // Moving along the ring from another block's slot.
  lemma FromSlot(b: int, d: int, shift: int, capacity: nat)
    requires capacity > 0
    ensures (SlotOf(b, shift, capacity) + d) % capacity == SlotOf(b + d, shift, capacity)
  {
    var q := (b + shift) / capacity;
    assert SlotOf(b, shift, capacity) + d == b + d + shift + (-q) * capacity;
    Multiples(b + d + shift, -q, capacity);
  }

  lemma SlotsDiffer(b: int, c: int, shift: int, capacity: nat)
    requires capacity > 0 && b < c < b + capacity
    ensures SlotOf(b, shift, capacity) != SlotOf(c, shift, capacity)
  {
    var q, r := (b + shift) / capacity, (b + shift) % capacity;
    if r + (c - b) < capacity {
      Words.RemainderUnique(c + shift, capacity, q, r + (c - b));
    } else {
      assert capacity * (q + 1) == capacity * q + capacity;
      Words.RemainderUnique(c + shift, capacity, q + 1, r + (c - b) - capacity);
    }
  }

  // ---------------------------------------------------------------- which indices are finished

  ghost function FinishedIn(finished: set<nat>, size: nat, b: int): set<nat>
    requires size > 0
  {
    set i | i in finished && i / size == b
  }

  lemma {:induction false} RangeSize(s: set<nat>, lo: nat, n: nat)
    requires forall x <- s :: lo <= x < lo + n
    ensures |s| <= n
    decreases n
  {
    if n == 0 {
      assert forall x :: x !in s;
    } else {
      RangeSize(s - {lo}, lo + 1, n - 1);
    }
  }

  // No more indices in a block than its size, so a block with an unfinished index is not all finished.
  lemma RoomInBlock(finished: set<nat>, size: nat, b: nat, i: nat)
    requires size > 0 && i / size == b && i !in finished
    ensures |FinishedIn(finished, size, b)| < size
  {
    var s := FinishedIn(finished, size, b) + {i};
    forall x <- s ensures b * size <= x < b * size + size {
      assert x == size * (x / size) + x % size;
    }
    RangeSize(s, b * size, size);
  }

  lemma FinishOne(finished: set<nat>, size: nat, i: nat)
    requires size > 0 && i !in finished
    ensures |FinishedIn(finished + {i}, size, i / size)| == |FinishedIn(finished, size, i / size)| + 1
    ensures forall b | b != i / size :: FinishedIn(finished + {i}, size, b) == FinishedIn(finished, size, b)
  {
    assert FinishedIn(finished + {i}, size, i / size) == FinishedIn(finished, size, i / size) + {i};
  }

  lemma FinishedBefore(finished: set<nat>, size: nat, end: nat, n: nat)
    requires size > 0 && n <= Base(end, size) && forall i <- finished :: i < n
    ensures forall i <- finished :: i / size < end
  {
    forall i <- finished ensures i / size < end {
      DivideBelow(i, size, end);
    }
  }
}

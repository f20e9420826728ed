// The queues' wrapping index arithmetic refines arithmetic on unbounded indices.
module IndexArithmetic {
  import opened Words

  const HALF: int := 0x8000_0000_0000_0000

  // The stored form of an unbounded index, and the wrapping operations.
  function Wrap(n: int): nat { n % W }

  function Sub(a: nat, b: nat): nat { (a - b) % W }

  predicate CircularLessThan(a: nat, b: nat) { Sub(a, b) > HALF }

  lemma SubWraps(a: int, b: int)
    ensures Sub(Wrap(a), Wrap(b)) == Wrap(a - b)
  {
  }

  // Up to a distance of 2^63, circular_less_than is "<" except at exactly 2^63 below.
  lemma CircularLessIsLess(a: int, b: int)
    requires -HALF <= a - b <= HALF
    ensures (CircularLessThan(Wrap(a), Wrap(b)) <==> a < b) <==> a - b != -HALF
  {
    SubWraps(a, b);
  }

  lemma CircularLessIsLessNearby(a: int, b: int)
    requires -HALF < a - b < HALF
    ensures CircularLessThan(Wrap(a), Wrap(b)) <==> a < b
  {
    CircularLessIsLess(a, b);
  }

  // The consumers' tests of the ticket counters, all of them wrapped: single and bulk.
  lemma TicketTest(optimistic: nat, overcommit: nat, tail: nat)
    requires -HALF < optimistic - overcommit - tail < HALF
    ensures var taken := Sub(Wrap(optimistic), Wrap(overcommit));
            && (CircularLessThan(taken, Wrap(tail)) <==> optimistic - overcommit < tail)
            && (CircularLessThan(0, Sub(Wrap(tail), taken)) <==> tail - (optimistic - overcommit) > 0)
  {
    hide Wrap, Sub, CircularLessThan;
    SubWraps(optimistic, overcommit);
    CircularLessIsLessNearby(optimistic - overcommit, tail);
    SubWraps(tail, optimistic - overcommit);
    CircularLessIsLessNearby(0, tail - (optimistic - overcommit));
    WrapZero();
  }

  lemma WrapZero()
    ensures Wrap(0) == 0
  {
  }

  // ---------------------------------------------------------------- powers of two divide the word

  lemma ModMultiple(x: int, d: nat, q: int)
    requires d > 0
    ensures (x + d * q) % d == x % d
  {
    assert x == d * (x / d) + x % d;
    assert x + d * q == d * (x / d + q) + x % d;
    RemainderUnique(x + d * q, d, x / d + q, x % d);
  }

  lemma WordMultiple(k: nat)
    requires k <= 64
    ensures W == Pow2(k) * Pow2(64 - k)
  {
    PowerOfWord();
    Pow2Sum(k, 64 - k);
  }

  lemma RemainderOfRemainder(x: int, w: int, p: int, q: int)
    requires p > 0 && w > 0 && w == p * q
    ensures (x % w) % p == x % p
  {
    var c := x / w;
    assert x == w * c + x % w;
    assert w * c == p * (q * c);
    assert p * -(q * c) == -(p * (q * c));
    ModMultiple(x, p, -(q * c));
  }

  lemma WrapKeepsLowBits(x: int, k: nat)
    requires k <= 64
    ensures Wrap(x) % Pow2(k) == x % Pow2(k)
  {
    hide Pow2;
    WordMultiple(k);
    RemainderOfRemainder(x, W, Pow2(k), Pow2(64 - k));
  }

  // ---------------------------------------------------------------- ring slots and block bases

  // (x & (size - 1)) on a ring of 2^k slots, and (x & ~(BLOCK_SIZE - 1)) for blocks of 2^k elements.
  function Slot(x: nat, k: nat): nat { And(x, Pow2(k) - 1) }

  function Base(x: nat, k: nat): nat
    requires Pow2(k) <= W
  {
    And(x, Not(Pow2(k) - 1))
  }

  lemma SlotIsRemainder(x: int, k: nat)
    requires k <= 64
    ensures Slot(Wrap(x), k) == x % Pow2(k)
  {
    hide Pow2, And;
    MaskIsRemainder(Wrap(x), k);
    WrapKeepsLowBits(x, k);
  }

  lemma BlockFits(k: nat)
    requires k <= 64
    ensures Pow2(k) <= W
  {
    PowerOfWord();
    Pow2Monotone(k, 64);
  }

  lemma BaseIsBlockStart(x: int, k: nat)
    requires k <= 64
    ensures Pow2(k) <= W && Base(Wrap(x), k) == Wrap(x - x % Pow2(k))
  {
    hide Pow2, And;
    BlockFits(k);
    PowerOfWord();
    ClearedIsMultiple(Wrap(x), k, 64, Not(Pow2(k) - 1));
    WrapKeepsLowBits(x, k);
    WrapDown(x, x % Pow2(k), Pow2(k));
    RemainderAtMost(Wrap(x), Pow2(k));
  }

  lemma RemainderAtMost(x: nat, d: nat)
    requires d > 0
    ensures x % d <= x
  {
  }

  lemma WrapDown(x: int, r: int, d: nat)
    requires 0 <= r <= Wrap(x)
    ensures Wrap(x - r) == Wrap(x) - r
  {
  }

  // ---------------------------------------------------------------- finding a block in a ring index

  // static_cast to the signed type, and C's division, which truncates.
  function Signed(x: nat): int { if x >= HALF then x - W else x }

  function TruncatingDiv(a: int, b: int): int
    requires b > 0
  {
    if a >= 0 then a / b else -(-a / b)
  }

  // The ring slot that dequeue and get_block_index_index_for_index compute for an element's index, on a
  // ring of 2^ring slots whose slot `at` holds the block that starts at `atBase`.
  function SlotOf(index: nat, at: nat, atBase: nat, k: nat, ring: nat): nat
    requires Pow2(k) <= W
  {
    var offset := TruncatingDiv(Signed(Sub(Base(index, k), atBase)), Pow2(k));
    Slot(Wrap(at + offset), ring)
  }

  lemma SignedWrap(d: int)
    requires -HALF <= d < HALF
    ensures Signed(Wrap(d)) == d
  {
  }

  lemma ExactDivision(d: int, b: int)
    requires b > 0 && d % b == 0
    ensures TruncatingDiv(d, b) == d / b
  {
    if d < 0 {
      assert d == b * (d / b);
      assert -d == b * -(d / b) + 0;
      RemainderUnique(-d, b, -(d / b), 0);
    }
  }

  lemma DifferenceOfMultiples(x: int, y: int, b: int)
    requires b > 0 && x % b == 0 && y % b == 0
    ensures (x - y) % b == 0 && (x - y) / b == x / b - y / b
  {
    assert x == b * (x / b) && y == b * (y / b);
    assert x - y == b * (x / b - y / b) + 0;
    RemainderUnique(x - y, b, x / b - y / b, 0);
  }

  lemma BlockStart(x: int, b: int)
    requires b > 0
    ensures (x - x % b) % b == 0 && (x - x % b) / b == x / b
  {
    assert x - x % b == b * (x / b) + 0;
    RemainderUnique(x - x % b, b, x / b, 0);
  }

  // The slot is as many places from `at` as there are blocks between the two bases, in either
  // direction and across wrap-around of the index and of the ring.
  lemma SlotOfIsBlockDistance(index: int, at: nat, atBase: int, k: nat, ring: nat)
    requires k <= 64 && ring <= 64 && atBase % Pow2(k) == 0
    requires -HALF <= (index - index % Pow2(k)) - atBase < HALF
    ensures Pow2(k) <= W
    ensures SlotOf(Wrap(index), at, Wrap(atBase), k, ring) == (at + index / Pow2(k) - atBase / Pow2(k)) % Pow2(ring)
  {
    hide Pow2, And, Wrap, Sub, Signed, Slot, Base;
    var b := Pow2(k);
    BaseIsBlockStart(index, k);
    BlockStart(index, b);
    SubWraps(index - index % b, atBase);
    SignedWrap(index - index % b - atBase);
    DifferenceOfMultiples(index - index % b, atBase, b);
    ExactDivision(index - index % b - atBase, b);
    SlotIsRemainder(at + index / b - atBase / b, ring);
  }

  // ---------------------------------------------------------------- blocks a bulk enqueue needs

  function BlockBaseDiff(start: nat, count: nat, k: nat): nat
    requires Pow2(k) <= W
  {
    Sub(Base(Sub(Wrap(start + count), 1), k), Base(Sub(start, 1), k))
  }

  // blockBaseDiff is the block size times the number of block starts among the new elements' indices.
  lemma BlockBaseDiffCountsBlocks(start: nat, count: nat, k: nat)
    requires k <= 64 && count + Pow2(k) <= W
    ensures Pow2(k) <= W
    ensures var b := Pow2(k);
            var first, last := (start - 1) / b + 1, (start + count - 1) / b;
            && BlockBaseDiff(Wrap(start), count, k) == b * (last - first + 1)
            && forall m :: first <= m <= last <==> start <= b * m < start + count
  {
    hide Pow2, And, Wrap, Sub, Base;
    BlockBaseDiffIs(start, count, k);
    MultiplesBetween(start - 1, start + count - 1, Pow2(k));
  }

  lemma MultiplesBetween(x: int, y: int, b: nat)
    requires b > 0
    ensures forall m :: x / b + 1 <= m <= y / b <==> x + 1 <= b * m < y + 1
  {
    forall m ensures x / b + 1 <= m <= y / b <==> x + 1 <= b * m < y + 1 {
      FloorTest(x, b, m);
      FloorTest(y, b, m);
    }
  }

  lemma BlockBaseDiffIs(start: nat, count: nat, k: nat)
    requires k <= 64 && count + Pow2(k) <= W
    ensures Pow2(k) <= W
    ensures BlockBaseDiff(Wrap(start), count, k) == Pow2(k) * ((start + count - 1) / Pow2(k) - (start - 1) / Pow2(k))
  {
    hide Pow2, And, Wrap, Sub, Base;
    var b := Pow2(k);
    SubOne(start + count);
    SubOne(start);
    WrapSum(start, count);
    BaseIsBlockStart(start + count - 1, k);
    BaseIsBlockStart(start - 1, k);
    SubWraps(start + count - 1 - (start + count - 1) % b, start - 1 - (start - 1) % b);
    DifferenceOfFloors(start - 1, count, b);
    WrapSmall(b * ((start + count - 1) / b - (start - 1) / b));
  }

  lemma SubOne(x: int)
    ensures Sub(Wrap(x), 1) == Wrap(x - 1)
  {
  }

  lemma WrapSum(x: int, y: int)
    ensures Wrap(Wrap(x) + y) == Wrap(x + y)
  {
  }

  lemma WrapSmall(x: int)
    requires 0 <= x < W
    ensures Wrap(x) == x
  {
  }

  lemma DifferenceOfFloors(x: int, count: nat, b: int)
    requires b > 0
    ensures (x + count - (x + count) % b) - (x - x % b) == b * ((x + count) / b - x / b)
    ensures 0 <= b * ((x + count) / b - x / b) < count + b
  {
    assert x == b * (x / b) + x % b && x + count == b * ((x + count) / b) + (x + count) % b;
    assert b * ((x + count) / b - x / b) == b * ((x + count) / b) - b * (x / b);
    if (x + count) / b < x / b {
      MulAtLeast(b, x / b - (x + count) / b);
    }
  }

  lemma FloorTest(x: int, b: int, m: int)
    requires b > 0
    ensures m <= x / b <==> b * m <= x
  {
    assert x == b * (x / b) + x % b;
    if m > x / b {
      MulAtLeast(b, m - x / b);
      assert b * (m - x / b) == b * m - b * (x / b);
    } else if m < x / b {
      MulAtLeast(b, x / b - m);
      assert b * (x / b - m) == b * (x / b) - b * m;
    }
  }
}

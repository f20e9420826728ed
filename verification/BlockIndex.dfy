// The implicit producer's block index as a value: a ring of pointers to entries, where the entry of block
// number b is found by its distance from the block number at the tail. Entries outlive the rings that
// point to them, so they are kept in one arena and referred to by their position in it.
module BlockIndex {
  import opened Options
  import opened Positions
  import Words

  // No block base is odd.
  const INVALID_BLOCK_BASE: nat := 1

  // Block numbers in use and the block of each.
  type Blocks = map<int, nat>

  datatype Entry = Entry(key: nat, value: Option<nat>)
  datatype Index = Index(entries: seq<Entry>, slots: seq<nat>, tail: nat) {

    ghost predicate WellFormed() {
      && tail < |slots|
      && (forall s | 0 <= s < |slots| :: slots[s] < |entries|)
      && (forall s, r | 0 <= s < r < |slots| :: slots[s] != slots[r])
    }

    function Capacity(): nat { |slots| }

    function Set(id: nat, e: Entry): Index
      requires id < |entries|
    {
      this.(entries := entries[id := e])
    }
  }

  // ---------------------------------------------------------------- what the ring holds

  ghost function EntryId(ix: Index, b: int, shift: int): nat
    requires ix.WellFormed()
  {
    ix.slots[SlotOf(b, shift, ix.Capacity())]
  }

  ghost predicate EntryOk(e: Entry, size: nat, b: int, lo: int, held: Blocks) {
    if b >= lo then b >= 0 && e.key == Base(b, size) && e.value == (if b in held then Some(held[b]) else None)
    else e.key == INVALID_BLOCK_BASE || e.value == None
  }

  ghost predicate SlotOk(ix: Index, size: nat, b: int, lo: int, shift: int, held: Blocks)
    requires ix.WellFormed()
  {
    EntryOk(ix.entries[EntryId(ix, b, shift)], size, b, lo, held)
  }

  // Blocks lo to end - 1 have their keys in the ring, all others slots are free, and the ring's tail is at
  // block m.
  ghost predicate IndexOk(ix: Index, size: nat, end: int, m: int, lo: int, shift: int, held: Blocks) {
    && ix.WellFormed() && size >= 2
    && 0 <= lo <= end <= lo + ix.Capacity() && lo - 1 <= m < end
    && ix.tail == SlotOf(m, shift, ix.Capacity())
    && (forall b <- held :: lo <= b < end)
    && (forall b | end - ix.Capacity() <= b < end :: SlotOk(ix, size, b, lo, shift, held))
  }

  // get_block_index_index_for_index
  function IndexFor(ix: Index, size: nat, index: nat): nat
    requires ix.tail < |ix.slots| && ix.slots[ix.tail] < |ix.entries| && size > 0
  {
    var tailBase := ix.entries[ix.slots[ix.tail]].key;
    var offset := (StartOf(index, size) - tailBase) / size;
    (ix.tail + offset) % |ix.slots|
  }

  // Looking up an index in any block from lo on finds its entry, also while the tail is being rewound.
  lemma Found(ix: Index, size: nat, end: int, m: int, lo: int, shift: int, held: Blocks, index: nat)
    requires IndexOk(ix, size, end, m, lo, shift, held)
    requires lo <= index / size < end && lo <= m
    ensures IndexFor(ix, size, index) == SlotOf(index / size, shift, ix.Capacity())
    ensures var e := ix.entries[ix.slots[IndexFor(ix, size, index)]]; var b := index / size;
            e.key == StartOf(index, size) && e.value == if b in held then Some(held[b]) else None
  {
    var b := index / size;
    assert SlotOk(ix, size, m, lo, shift, held) && SlotOk(ix, size, b, lo, shift, held);
    BaseOf(b, index, size);
    BaseDistance(b, m, size);
    FromSlot(m, b - m, shift, ix.Capacity());
  }

  // ---------------------------------------------------------------- changing entries

  // Two block numbers in one window of the ring have different entries.
  lemma EntriesDiffer(ix: Index, b: int, c: int, shift: int)
    requires ix.WellFormed() && b < c + ix.Capacity() && c < b + ix.Capacity() && b != c
    ensures EntryId(ix, b, shift) != EntryId(ix, c, shift)
  {
    if b < c { SlotsDiffer(b, c, shift, ix.Capacity()); } else { SlotsDiffer(c, b, shift, ix.Capacity()); }
  }

  // Writing the entry of block b, with everything else as before.
  lemma EntrySet(ix: Index, size: nat, end: int, m: int, lo: int, shift: int, held: Blocks, b: int, e: Entry, held': Blocks)
    requires IndexOk(ix, size, end, m, lo, shift, held) && lo <= b < end
    requires held' - {b} == held - {b} && EntryOk(e, size, b, lo, held')
    ensures IndexOk(ix.Set(EntryId(ix, b, shift), e), size, end, m, lo, shift, held')
  {
    var ix' := ix.Set(EntryId(ix, b, shift), e);
    forall c | end - ix.Capacity() <= c < end ensures SlotOk(ix', size, c, lo, shift, held') {
      assert SlotOk(ix, size, c, lo, shift, held);
      if c != b {
        EntriesDiffer(ix, b, c, shift);
        assert c in held' <==> c in held' - {b};
        assert c in held <==> c in held - {b};
        assert c in held ==> (held - {b})[c] == held[c];
      }
    }
    forall c <- held' ensures lo <= c < end {
      if c != b { assert c in held' - {b}; }
    }
  }

  // rewind_block_index_tail
  function Rewound(ix: Index): Index
    requires ix.slots != []
  {
    ix.(tail := (ix.tail - 1) % |ix.slots|)
  }

  lemma RewindOk(ix: Index, size: nat, end: int, m: int, lo: int, shift: int, held: Blocks)
    requires IndexOk(ix, size, end, m, lo, shift, held) && lo <= m
    ensures IndexOk(Rewound(ix), size, end, m - 1, lo, shift, held)
  {
    FromSlot(m, -1, shift, ix.Capacity());
    var ix' := Rewound(ix);
    forall c | end - ix.Capacity() <= c < end ensures SlotOk(ix', size, c, lo, shift, held) {
      assert SlotOk(ix, size, c, lo, shift, held);
    }
  }

  // Keys left ahead of a rewound tail are forgotten once their blocks are gone.
  lemma Forget(ix: Index, size: nat, end: int, end': int, lo: int, shift: int, held: Blocks)
    requires IndexOk(ix, size, end, end' - 1, lo, shift, held) && lo <= end' <= end
    requires forall b <- held :: b < end'
    ensures IndexOk(ix, size, end', end' - 1, lo, shift, held)
  {
    var n := ix.Capacity();
    forall b | end' - n <= b < end' ensures SlotOk(ix, size, b, lo, shift, held) {
      if b < end - n {
        SameSlot(b, shift, n);
        assert SlotOk(ix, size, b + n, lo, shift, held);
      } else {
        assert SlotOk(ix, size, b, lo, shift, held);
      }
    }
  }

  function NextTail(ix: Index): (s: nat)
    requires ix.slots != []
    ensures s < |ix.slots|
  {
    (ix.tail + 1) % |ix.slots|
  }

  // insert_block_index_entry, the slot after the tail being free: its key and the new tail.
  function Inserted(ix: Index, base: nat): Index
    requires ix.slots != [] && ix.slots[NextTail(ix)] < |ix.entries|
  {
    var newTail := NextTail(ix);
    var id := ix.slots[newTail];
    ix.Set(id, ix.entries[id].(key := base)).(tail := newTail)
  }

  // A block's entry is in the ring, but whatever its value was is still there.
  ghost predicate Pending(ix: Index, size: nat, end: int, lo: int, shift: int, held: Blocks, id: nat) {
    && ix.WellFormed() && id == EntryId(ix, end, shift) && lo <= end
    && IndexOk(ix.Set(id, ix.entries[id].(value := None)), size, end + 1, end, lo, shift, held)
  }

  // Every slot but the new one, which takes the place of block end - capacity, is as before.
  lemma InsertSlotOk(ix: Index, ix': Index, size: nat, end: nat, lo: int, lo': int, shift: int, held: Blocks, b: int)
    requires IndexOk(ix, size, end, end - 1, lo, shift, held)
    requires end + 1 - ix.Capacity() <= b < end && (lo' == lo || (lo' == lo + 1 && lo == end - ix.Capacity()))
    requires ix'.WellFormed() && ix'.slots == ix.slots && |ix'.entries| == |ix.entries|
    requires ix' == ix.(entries := ix.entries[EntryId(ix, end, shift) := ix'.entries[EntryId(ix, end, shift)]], tail := ix'.tail)
    ensures SlotOk(ix', size, b, lo', shift, held)
  {
    EntriesDiffer(ix, b, end, shift);
    assert SlotOk(ix, size, b, lo, shift, held);
  }

  lemma InsertOk(ix: Index, size: nat, end: nat, lo: int, shift: int, held: Blocks)
    requires IndexOk(ix, size, end, end - 1, lo, shift, held)
    requires var e := ix.entries[ix.slots[NextTail(ix)]]; e.key == INVALID_BLOCK_BASE || e.value == None
    ensures var lo' := if end - ix.Capacity() == lo then lo + 1 else lo;
            Pending(Inserted(ix, Base(end, size)), size, end, lo', shift, held, ix.slots[NextTail(ix)])
  {
    hide SlotOk;
    var n := ix.Capacity();
    FromSlot(end - 1, 1, shift, n);
    SameSlot(end - n, shift, n);
    var id := EntryId(ix, end, shift);
    var lo' := if end - n == lo then lo + 1 else lo;
    var ix0 := Inserted(ix, Base(end, size));
    var ix' := ix0.Set(id, ix0.entries[id].(value := None));
    OldestFree(ix, size, end, lo, shift, held);
    NewSlotOk(ix', size, end, lo', shift, held, id);
    forall b | end + 1 - n <= b < end + 1 ensures SlotOk(ix', size, b, lo', shift, held) {
      if b != end {
        InsertSlotOk(ix, ix', size, end, lo, lo', shift, held, b);
      }
    }
  }

  lemma NewSlotOk(ix: Index, size: nat, end: nat, lo: int, shift: int, held: Blocks, id: nat)
    requires ix.WellFormed() && id == EntryId(ix, end, shift) && lo <= end && end !in held
    requires ix.entries[id] == Entry(Base(end, size), None)
    ensures SlotOk(ix, size, end, lo, shift, held)
  {
  }

  // When the ring is full of valid keys, the slot about to be taken was block lo's.
  lemma OldestFree(ix: Index, size: nat, end: nat, lo: int, shift: int, held: Blocks)
    requires IndexOk(ix, size, end, end - 1, lo, shift, held)
    requires var e := ix.entries[EntryId(ix, end - ix.Capacity(), shift)]; e.key == INVALID_BLOCK_BASE || e.value == None
    ensures end - ix.Capacity() == lo ==> lo !in held
  {
    assert SlotOk(ix, size, end - ix.Capacity(), lo, shift, held);
    NotInvalid(end - ix.Capacity(), size);
  }

  lemma NotInvalid(b: int, size: nat)
    requires size >= 2
    ensures b >= 0 ==> Base(b, size) != INVALID_BLOCK_BASE
  {
    if b >= 1 { Words.MulAtLeast(size, b); }
  }

  // Storing the block completes the insertion; rewinding and clearing the value undoes it.
  lemma FillOk(ix: Index, size: nat, end: int, lo: int, shift: int, held: Blocks, id: nat, block: nat)
    requires Pending(ix, size, end, lo, shift, held, id)
    ensures IndexOk(ix.Set(id, ix.entries[id].(value := Some(block))), size, end + 1, end, lo, shift, held[end := block])
  {
    var cleared := ix.Set(id, ix.entries[id].(value := None));
    assert SlotOk(cleared, size, end, lo, shift, held);
    EntrySet(cleared, size, end + 1, end, lo, shift, held, end, ix.entries[id].(value := Some(block)), held[end := block]);
    assert EntryId(cleared, end, shift) == id;
    assert ix.Set(id, ix.entries[id].(value := Some(block))) == cleared.Set(id, ix.entries[id].(value := Some(block)));
  }

  lemma AbandonOk(ix: Index, size: nat, end: int, lo: int, shift: int, held: Blocks, id: nat)
    requires Pending(ix, size, end, lo, shift, held, id) && end !in held
    ensures IndexOk(Rewound(ix).Set(id, ix.entries[id].(value := None)), size, end, end - 1, lo, shift, held)
  {
    var cleared := ix.Set(id, ix.entries[id].(value := None));
    RewindOk(cleared, size, end + 1, end, lo, shift, held);
    assert Rewound(ix).Set(id, ix.entries[id].(value := None)) == Rewound(cleared);
    Forget(Rewound(cleared), size, end + 1, end, lo, shift, held);
  }

  // ---------------------------------------------------------------- growing

  // The ring new_block_index makes: the old entries in order, oldest first, then the new ones, unused.
  ghost predicate Grown(ix: Index, ix': Index) {
    var n := ix.Capacity();
    && n > 0 && |ix'.slots| == 2 * n && ix'.tail == n - 1
    && |ix'.entries| == |ix.entries| + n && ix.entries <= ix'.entries
    && (forall i | 0 <= i < n :: ix'.slots[i] == ix.slots[(ix.tail + 1 + i) % n])
    && (forall i | n <= i < 2 * n :: ix'.slots[i] == |ix.entries| + i - n && ix'.entries[|ix.entries| + i - n].key == INVALID_BLOCK_BASE)
  }

  // In the new ring block b is at position b + capacity - end, with the tail's block, end - 1, at the end
  // of the old part.
  lemma GrownSlot(ix: Index, ix': Index, end: int, b: int, shift: int)
    requires ix.WellFormed() && Grown(ix, ix') && ix.tail == SlotOf(end - 1, shift, ix.Capacity())
    requires end - 2 * ix.Capacity() <= b < end
    ensures var n := ix.Capacity();
            if b < end - n then SlotOf(b, n - end, 2 * n) == b + 3 * n - end
            else SlotOf(b, n - end, 2 * n) == b + n - end && ix'.slots[b + n - end] == EntryId(ix, b, shift)
  {
    var n := ix.Capacity();
    if b < end - n {
      Words.RemainderUnique(b + (n - end), 2 * n, -1, b + 3 * n - end);
    } else {
      Words.RemainderUnique(b + (n - end), 2 * n, 0, b + n - end);
      FromSlot(end - 1, 1 + (b + n - end), shift, n);
      SameSlot(b, shift, n);
      assert SlotOf(end - 1, shift, n) + (1 + (b + n - end)) == ix.tail + 1 + (b + n - end);
    }
  }

  lemma GrownWellFormed(ix: Index, ix': Index)
    requires ix.WellFormed() && Grown(ix, ix')
    ensures ix'.WellFormed()
  {
    var n := ix.Capacity();
    forall i, j | 0 <= i < j < n ensures ix'.slots[i] != ix'.slots[j] {
      SlotsDiffer(i, j, ix.tail + 1, n);
      assert SlotOf(i, ix.tail + 1, n) == (ix.tail + 1 + i) % n && SlotOf(j, ix.tail + 1, n) == (ix.tail + 1 + j) % n;
    }
    forall i | 0 <= i < n ensures ix'.slots[i] < |ix.entries| {
      assert ix'.slots[i] == ix.slots[SlotOf(i, ix.tail + 1, n)];
    }
  }

  // The entries of the blocks held are where they were, whoever kept a pointer to one.
  ghost predicate SameEntries(ix: Index, shift: int, ix': Index, shift': int, held: Blocks) {
    ix.WellFormed() && ix'.WellFormed() && forall b <- held :: EntryId(ix', b, shift') == EntryId(ix, b, shift)
  }

  lemma GrownSlotOk(ix: Index, ix': Index, size: nat, end: nat, lo: int, shift: int, held: Blocks, b: int)
    requires IndexOk(ix, size, end, end - 1, lo, shift, held) && Grown(ix, ix') && ix'.WellFormed()
    requires end - 2 * ix.Capacity() <= b < end
    ensures SlotOk(ix', size, b, lo, ix.Capacity() - end, held)
  {
    GrownSlot(ix, ix', end, b, shift);
    if b >= end - ix.Capacity() {
      assert SlotOk(ix, size, b, lo, shift, held);
    }
  }

  lemma GrowOk(ix: Index, ix': Index, size: nat, end: nat, lo: int, shift: int, held: Blocks)
    requires IndexOk(ix, size, end, end - 1, lo, shift, held) && Grown(ix, ix')
    ensures IndexOk(ix', size, end, end - 1, lo, ix.Capacity() - end, held)
    ensures ix'.entries[ix'.slots[NextTail(ix')]].key == INVALID_BLOCK_BASE
    ensures SameEntries(ix, shift, ix', ix.Capacity() - end, held)
  {
    hide SlotOk;
    var n := ix.Capacity();
    var shift' := n - end;
    GrownWellFormed(ix, ix');
    forall b | end - 2 * n <= b < end ensures SlotOk(ix', size, b, lo, shift', held) {
      GrownSlotOk(ix, ix', size, end, lo, shift, held, b);
    }
    Words.RemainderUnique(end - 1 + shift', 2 * n, 0, n - 1);
    Words.RemainderUnique(n, 2 * n, 0, n);
    assert ix'.slots[n] == |ix.entries| + n - n;
    forall b <- held ensures EntryId(ix', b, shift') == EntryId(ix, b, shift) {
      GrownSlot(ix, ix', end, b, shift);
    }
  }

  lemma IndexShape(ix: Index, size: nat, end: int, m: int, lo: int, shift: int, held: Blocks)
    requires IndexOk(ix, size, end, m, lo, shift, held)
    ensures ix.WellFormed() && size >= 2 && SameEntries(ix, shift, ix, shift, held)
    ensures 0 <= lo <= end && lo - 1 <= m < end && forall b <- held :: lo <= b < end
  {
  }

  lemma InsertKeeps(ix: Index, shift: int, ix': Index, shift': int, held: Blocks, base: nat)
    requires SameEntries(ix, shift, ix', shift', held) && ix'.slots != [] && ix'.slots[NextTail(ix')] < |ix'.entries|
    ensures SameEntries(ix, shift, Inserted(ix', base), shift', held)
  {
    var ix'' := Inserted(ix', base);
    assert forall b <- held :: EntryId(ix'', b, shift') == EntryId(ix', b, shift');
  }

  lemma KeptSlots(ix: Index, shift: int, ix': Index, ix'': Index, shift': int, held: Blocks)
    requires SameEntries(ix, shift, ix', shift', held)
    requires ix''.slots == ix'.slots && |ix''.entries| == |ix'.entries| && ix''.tail < |ix''.slots|
    ensures SameEntries(ix, shift, ix'', shift', held)
  {
    assert forall b <- held :: EntryId(ix'', b, shift') == EntryId(ix', b, shift');
  }

  lemma RewoundShape(ix: Index)
    requires ix.WellFormed()
    ensures Rewound(ix).WellFormed() && Rewound(ix).slots == ix.slots
  {
  }

  lemma PendingShape(ix: Index, size: nat, end: int, lo: int, shift: int, held: Blocks, id: nat)
    requires Pending(ix, size, end, lo, shift, held, id)
    ensures ix.WellFormed() && id < |ix.entries|
  {
  }

  // The first ring.
  lemma FirstOk(ix: Index, size: nat)
    requires ix.WellFormed() && size >= 2 && ix.tail == ix.Capacity() - 1
    requires forall e <- ix.entries :: e.key == INVALID_BLOCK_BASE
    ensures IndexOk(ix, size, 0, -1, 0, 0, map[])
  {
    Words.RemainderUnique(-1, ix.Capacity(), -1, ix.Capacity() - 1);
  }
}

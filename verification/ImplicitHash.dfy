// The table that gives every thread its implicit producer: a chain of open-addressing tables, newest
// first, with tombstones, lazy copying to the newest table, and doubling. Calls are taken one at a time.
module ImplicitHash {
  import opened Options
  import opened Sums
  import Words

  type ThreadId = nat

  // invalid_thread_id is Unused, invalid_thread_id2 is Reusable.
  datatype Key = Unused | Reusable | Owned(id: ThreadId)
  datatype Entry = Entry(key: Key, value: nat)
  datatype Producer = Producer(isExplicit: bool, inactive: bool)

  // ---------------------------------------------------------------- probing one table

  ghost predicate PowerOfTwo(n: nat) { exists k: nat :: n == Words.Pow2(k) }

  lemma MaskWraps(index: nat, capacity: nat)
    requires PowerOfTwo(capacity)
    ensures capacity > 0 && Words.And(index, capacity - 1) == index % capacity
  {
    var k: nat :| capacity == Words.Pow2(k);
    Words.MaskIsRemainder(index, k);
  }

  // The k-th slot probed for a hash.
  function Place(hash: nat, k: nat, capacity: nat): (p: nat)
    requires capacity > 0
    ensures p < capacity
  {
    (hash + k) % capacity
  }

  lemma NextPlace(hash: nat, k: nat, capacity: nat)
    requires capacity > 0
    ensures (Place(hash, k, capacity) + 1) % capacity == Place(hash, k + 1, capacity)
  {
    var q, r := (hash + k) / capacity, (hash + k) % capacity;
    if r + 1 < capacity {
      Words.RemainderUnique(hash + k + 1, capacity, q, r + 1);
      Words.RemainderUnique(r + 1, capacity, 0, r + 1);
    } else {
      assert capacity * (q + 1) == capacity * q + capacity;
      Words.RemainderUnique(hash + k + 1, capacity, q + 1, 0);
      Words.RemainderUnique(capacity, capacity, 1, 0);
    }
  }

  // Every slot is probed within one turn.
  lemma Probed(hash: nat, i: nat, capacity: nat) returns (k: nat)
    requires i < capacity
    ensures k < capacity && Place(hash, k, capacity) == i
  {
    var q, r := hash / capacity, hash % capacity;
    if r <= i {
      k := i - r;
      Words.RemainderUnique(hash + k, capacity, q, i);
    } else {
      k := capacity + i - r;
      assert capacity * (q + 1) == capacity * q + capacity;
      Words.RemainderUnique(hash + k, capacity, q + 1, i);
    }
  }

  ghost predicate Holds(t: seq<Entry>, id: ThreadId) {
    exists i | 0 <= i < |t| :: t[i].key == Owned(id)
  }

  lemma HeldThere(t: seq<Entry>, i: nat, id: ThreadId)
    requires i < |t| && t[i].key == Owned(id)
    ensures Holds(t, id)
  {
  }

  // No unused slot among the first k probed.
  ghost predicate Busy(t: seq<Entry>, hash: nat, k: nat) {
    |t| > 0 && forall j: nat | j < k :: t[Place(hash, j, |t|)].key != Unused
  }

  // Probing for `hash` gets to slot i.
  ghost predicate Reaches(t: seq<Entry>, hash: nat, i: nat) {
    |t| > 0 && exists k: nat :: k < |t| && Place(hash, k, |t|) == i && Busy(t, hash, k)
  }

  ghost predicate HasUnused(t: seq<Entry>) { exists i | 0 <= i < |t| :: t[i].key == Unused }

  ghost predicate EntryOk(t: seq<Entry>, hash: ThreadId -> nat, live: map<ThreadId, nat>, i: nat)
    requires i < |t|
  {
    t[i].key.Owned? ==>
      && t[i].key.id in live && t[i].value == live[t[i].key.id]
      && Reaches(t, hash(t[i].key.id), i)
      && forall j | 0 <= j < |t| && j != i :: t[j].key != t[i].key
  }

  ghost predicate TableOk(t: seq<Entry>, hash: ThreadId -> nat, live: map<ThreadId, nat>) {
    PowerOfTwo(|t|) && HasUnused(t) && forall i | 0 <= i < |t| :: EntryOk(t, hash, live, i)
  }

  // An id in the table is met before the first unused slot.
  lemma MetBeforeUnused(t: seq<Entry>, hash: ThreadId -> nat, live: map<ThreadId, nat>, id: ThreadId, k: nat)
    requires TableOk(t, hash, live)
    requires |t| > 0 && forall j: nat | j < k :: t[Place(hash(id), j, |t|)].key != Owned(id)
    requires t[Place(hash(id), k, |t|)].key == Unused
    ensures !Holds(t, id)
  {
    if Holds(t, id) {
      var m := Met(t, hash, live, id);
    }
  }

  lemma Met(t: seq<Entry>, hash: ThreadId -> nat, live: map<ThreadId, nat>, id: ThreadId) returns (m: nat)
    requires TableOk(t, hash, live) && Holds(t, id)
    ensures |t| > 0 && t[Place(hash(id), m, |t|)].key == Owned(id) && Busy(t, hash(id), m)
  {
    var i :| 0 <= i < |t| && t[i].key == Owned(id);
    assert EntryOk(t, hash, live, i);
    m :| m < |t| && Place(hash(id), m, |t|) == i && Busy(t, hash(id), m);
  }

  lemma FirstUnused(t: seq<Entry>, hash: nat) returns (k: nat)
    requires HasUnused(t)
    ensures k < |t| && t[Place(hash, k, |t|)].key == Unused
  {
    var i :| 0 <= i < |t| && t[i].key == Unused;
    k := Probed(hash, i, |t|);
  }

  // ---------------------------------------------------------------- changing one slot

  // Slots never go back to unused, so every path stays open.
  lemma PathKept(t: seq<Entry>, i: nat, e: Entry, hash: nat, j: nat)
    requires i < |t| && e.key != Unused && Reaches(t, hash, j)
    ensures Reaches(t[i := e], hash, j)
  {
    var k: nat :| k < |t| && Place(hash, k, |t|) == j && Busy(t, hash, k);
    assert Busy(t[i := e], hash, k);
  }

  // A slot taken for an id that the table did not hold.
  lemma Taken(t: seq<Entry>, hash: ThreadId -> nat, live: map<ThreadId, nat>, k: nat, id: ThreadId, value: nat)
    requires |t| > 0 && TableOk(t, hash, live) && !Holds(t, id) && k < |t| && Busy(t, hash(id), k)
    requires id in live ==> live[id] == value
    requires !t[Place(hash(id), k, |t|)].key.Owned?
    requires HasUnused(t[Place(hash(id), k, |t|) := Entry(Owned(id), value)])
    ensures TableOk(t[Place(hash(id), k, |t|) := Entry(Owned(id), value)], hash, live[id := value])
  {
    var i := Place(hash(id), k, |t|);
    var e := Entry(Owned(id), value);
    var t', live' := t[i := e], live[id := value];
    forall j | 0 <= j < |t| ensures EntryOk(t', hash, live', j) {
      if j == i {
        assert Busy(t[i := e], hash(id), k);
      } else {
        assert EntryOk(t, hash, live, j);
        if t[j].key.Owned? { PathKept(t, i, e, hash(t[j].key.id), j); }
      }
    }
  }

  lemma Released(t: seq<Entry>, hash: ThreadId -> nat, live: map<ThreadId, nat>, i: nat, id: ThreadId)
    requires TableOk(t, hash, live) && i < |t| && t[i].key == Owned(id)
    ensures var t' := t[i := t[i].(key := Reusable)]; TableOk(t', hash, live - {id}) && Vacated(t, t', id)
  {
    var e := t[i].(key := Reusable);
    var u :| 0 <= u < |t| && t[u].key == Unused;
    assert t[i := e][u].key == Unused;
    assert EntryOk(t, hash, live, i);
    var t' := t[i := e];
    forall j | 0 <= j < |t| ensures EntryOk(t', hash, live - {id}, j) {
      assert EntryOk(t, hash, live, j);
      if j != i && t[j].key.Owned? { PathKept(t, i, e, hash(t[j].key.id), j); }
    }
  }

  // An id the table does not hold may come and go elsewhere.
  lemma Elsewhere(t: seq<Entry>, hash: ThreadId -> nat, live: map<ThreadId, nat>, live': map<ThreadId, nat>, id: ThreadId)
    requires TableOk(t, hash, live) && !Holds(t, id)
    requires forall x | x in live && x != id :: x in live' && live'[x] == live[x]
    ensures TableOk(t, hash, live')
  {
    forall j | 0 <= j < |t| ensures EntryOk(t, hash, live', j) {
      assert EntryOk(t, hash, live, j);
    }
  }

  // ---------------------------------------------------------------- counting

  ghost function InUse(): Entry -> int { (e: Entry) => if e.key == Unused then 0 else 1 }

  ghost function Missing(t: seq<Entry>, live: map<ThreadId, nat>): set<ThreadId> {
    set x | x in live.Keys && !Holds(t, x)
  }

  // The slots spoken for: those of the newest table, and one for every id not in it yet.
  ghost function Reserved(t: seq<Entry>, live: map<ThreadId, nat>): nat {
    SumNonNegative(t, InUse());
    Sum(t, InUse()) + |Missing(t, live)|
  }

  lemma {:induction false} SubsetSize<T>(a: set<T>, b: set<T>)
    requires a <= b
    ensures |a| <= |b|
  {
    if a != {} {
      var x :| x in a;
      SubsetSize(a - {x}, b - {x});
    }
  }

  lemma {:induction false} HeldAtMostUsed(t: seq<Entry>, ids: set<ThreadId>)
    requires forall x <- ids :: Holds(t, x)
    ensures |ids| <= Sum(t, InUse())
  {
    if t == [] {
      assert forall x :: x !in ids;
    } else {
      var rest := if t[0].key.Owned? then ids - {t[0].key.id} else ids;
      forall x <- rest ensures Holds(t[1..], x) {
        var i :| 0 <= i < |t| && t[i].key == Owned(x);
        assert t[1..][i - 1].key == Owned(x);
      }
      HeldAtMostUsed(t[1..], rest);
    }
  }

  lemma LiveAtMostReserved(t: seq<Entry>, live: map<ThreadId, nat>)
    ensures |live.Keys| <= Reserved(t, live)
  {
    var here := set x | x in live.Keys && Holds(t, x);
    HeldAtMostUsed(t, here);
    assert live.Keys == here + Missing(t, live);
  }

  lemma {:induction false} FullTable(t: seq<Entry>)
    requires !HasUnused(t)
    ensures Sum(t, InUse()) == |t|
  {
    if t != [] {
      assert t[0].key != Unused;
      forall i | 0 <= i < |t[1..]| ensures t[1..][i].key != Unused { assert t[i + 1].key != Unused; }
      FullTable(t[1..]);
    }
  }

  // Fewer slots counted than there are leaves one unused.
  lemma RoomLeft(t: seq<Entry>, live: map<ThreadId, nat>, count: int)
    requires Reserved(t, live) <= count < |t|
    ensures HasUnused(t)
  {
    if !HasUnused(t) { FullTable(t); }
  }

  lemma TakenCount(t: seq<Entry>, i: nat, id: ThreadId, value: nat, live: map<ThreadId, nat>)
    requires i < |t| && !t[i].key.Owned? && !Holds(t, id)
    requires id in live ==> live[id] == value
    ensures Reserved(t[i := Entry(Owned(id), value)], live[id := value]) ==
      Reserved(t, live) + (if t[i].key == Unused then 1 else 0) - (if id in live then 1 else 0)
  {
    var t' := t[i := Entry(Owned(id), value)];
    SumUpdate(t, i, Entry(Owned(id), value), InUse());
    assert t'[i].key == Owned(id);
    forall x | x != id ensures Holds(t', x) == Holds(t, x) {
      if Holds(t, x) {
        var j :| 0 <= j < |t| && t[j].key == Owned(x);
        assert t'[j].key == Owned(x);
      }
    }
    assert Missing(t', live[id := value]) == Missing(t, live) - {id};
    assert id in Missing(t, live) <==> id in live;
  }

  // The same table, but without the id, whose slots became reusable.
  ghost predicate Vacated(t: seq<Entry>, t': seq<Entry>, id: ThreadId) {
    && |t'| == |t| && !Holds(t', id)
    && forall j | 0 <= j < |t| :: t'[j] == t[j] || (t[j].key == Owned(id) && t'[j].key == Reusable)
  }

  lemma VacatedHolds(t: seq<Entry>, t': seq<Entry>, id: ThreadId, x: ThreadId)
    requires Vacated(t, t', id) && x != id && Holds(t, x)
    ensures Holds(t', x)
  {
    var j :| 0 <= j < |t| && t[j].key == Owned(x);
    assert t'[j].key == Owned(x);
  }

  lemma VacatedCount(t: seq<Entry>, t': seq<Entry>, id: ThreadId, live: map<ThreadId, nat>)
    requires Vacated(t, t', id) && id in live
    ensures Reserved(t', live - {id}) <= Reserved(t, live)
  {
    forall x | x != id && Holds(t, x) ensures Holds(t', x) { VacatedHolds(t, t', id, x); }
    SubsetSize(Missing(t', live - {id}), Missing(t, live));
    SameUse(t, t');
  }

  lemma {:induction false} SameUse(t: seq<Entry>, t': seq<Entry>)
    requires |t'| == |t| && forall j | 0 <= j < |t| :: t'[j].key == Unused <==> t[j].key == Unused
    ensures Sum(t', InUse()) == Sum(t, InUse())
  {
    if t != [] {
      forall j | 0 <= j < |t[1..]| ensures t'[1..][j].key == Unused <==> t[1..][j].key == Unused {
        assert t'[j + 1].key == Unused <==> t[j + 1].key == Unused;
      }
      SameUse(t[1..], t'[1..]);
    }
  }

  // All of it: the first free slot on the path, the k-th probed, taken for an id new to the table.
  lemma Claimed(t: seq<Entry>, hash: ThreadId -> nat, live: map<ThreadId, nat>, k: nat, id: ThreadId, value: nat)
    requires TableOk(t, hash, live) && !Holds(t, id)
    requires id in live ==> live[id] == value
    requires Reserved(t, live) + (if id in live then 0 else 1) < |t|
    requires |t| > 0 && k < |t| && forall j: nat | j < k :: t[Place(hash(id), j, |t|)].key.Owned?
    requires !t[Place(hash(id), k, |t|)].key.Owned?
    ensures var i := Place(hash(id), k, |t|); var t' := t[i := Entry(Owned(id), value)];
            && TableOk(t', hash, live[id := value]) && Holds(t', id) && (forall x | Holds(t, x) :: Holds(t', x))
            && Reserved(t', live[id := value]) ==
               Reserved(t, live) + (if t[i].key == Unused then 1 else 0) - (if id in live then 1 else 0)
  {
    hide TableOk, Reserved, HasUnused, Sum;
    var i := Place(hash(id), k, |t|);
    var t' := t[i := Entry(Owned(id), value)];
    TakenCount(t, i, id, value, live);
    RoomLeft(t', live[id := value], Reserved(t', live[id := value]));
    Taken(t, hash, live, k, id, value);
    assert t'[i].key == Owned(id);
    forall x | Holds(t, x) ensures Holds(t', x) {
      var j :| 0 <= j < |t| && t[j].key == Owned(x);
      assert t'[j].key == Owned(x);
    }
  }

  // ---------------------------------------------------------------- the chain of tables

  // No two live threads share a producer, and nobody else holds one of theirs.
  ghost predicate ProducersOk(producers: seq<Producer>, live: map<ThreadId, nat>) {
    && (forall x <- live.Keys :: live[x] < |producers| && producers[live[x]] == Producer(false, false))
    && (forall x, y | x in live && y in live && x != y :: live[x] != live[y])
  }

  // There is no producer of this kind to be used again.
  ghost predicate NoneInactive(producers: seq<Producer>, isExplicit: bool) { Producer(isExplicit, true) !in producers }

  // Producer p was handed out: an inactive one of the right kind or, only if there is none, a new one.
  ghost predicate Given(before: seq<Producer>, now: seq<Producer>, p: nat, isExplicit: bool) {
    var active := Producer(isExplicit, false);
    if NoneInactive(before, isExplicit) then p == |before| && now == before + [active]
    else p < |before| && before[p] == Producer(isExplicit, true) && now == before[p := active]
  }

  lemma UnusedTable(t: seq<Entry>, hash: ThreadId -> nat, live: map<ThreadId, nat>)
    requires PowerOfTwo(|t|) && |t| > 0 && forall i | 0 <= i < |t| :: t[i].key == Unused
    ensures TableOk(t, hash, live) && Reserved(t, live) == |live.Keys|
  {
    assert t[0].key == Unused;
    SumZero(t, InUse());
    assert Missing(t, live) == live.Keys;
  }

  lemma Doubled(n: nat)
    requires PowerOfTwo(n)
    ensures PowerOfTwo(2 * n)
  {
    var k: nat :| n == Words.Pow2(k);
    assert 2 * n == Words.Pow2(k + 1);
  }

  // Newest first.
  ghost predicate Chain(tables: seq<seq<Entry>>, hash: ThreadId -> nat, live: map<ThreadId, nat>) {
    && tables != []
    && (forall i | 0 <= i < |tables| :: TableOk(tables[i], hash, live))
    && (forall x <- live.Keys :: exists i | 0 <= i < |tables| :: Holds(tables[i], x))
  }

  lemma NewestOk(tables: seq<seq<Entry>>, hash: ThreadId -> nat, live: map<ThreadId, nat>)
    requires Chain(tables, hash, live)
    ensures tables != [] && TableOk(tables[0], hash, live) && PowerOfTwo(|tables[0]|) && |tables[0]| > 0
  {
  }

  lemma ChainAt(tables: seq<seq<Entry>>, hash: ThreadId -> nat, live: map<ThreadId, nat>, i: nat)
    requires Chain(tables, hash, live) && i < |tables|
    ensures TableOk(tables[i], hash, live)
  {
  }

  // What is in no table has no producer, and the other way round.
  lemma HeldIffLive(tables: seq<seq<Entry>>, hash: ThreadId -> nat, live: map<ThreadId, nat>, id: ThreadId)
    requires Chain(tables, hash, live)
    ensures id in live <==> exists i | 0 <= i < |tables| :: Holds(tables[i], id)
  {
    forall i | 0 <= i < |tables| && Holds(tables[i], id) ensures id in live {
      var m := Met(tables[i], hash, live, id);
      OwnedIsLive(tables[i], hash, live, Place(hash(id), m, |tables[i]|), id);
    }
  }

  lemma Prepended(t: seq<Entry>, tables: seq<seq<Entry>>, hash: ThreadId -> nat, live: map<ThreadId, nat>)
    requires Chain(tables, hash, live) && TableOk(t, hash, live)
    ensures Chain([t] + tables, hash, live)
  {
    hide TableOk, Holds;
    var longer := [t] + tables;
    forall x <- live.Keys ensures exists i | 0 <= i < |longer| :: Holds(longer[i], x) {
      var i :| 0 <= i < |tables| && Holds(tables[i], x);
      assert longer[i + 1] == tables[i];
    }
  }

  // The newest table gained an id, which either was in an older one or in none.
  lemma NewestClaimed(tables: seq<seq<Entry>>, t: seq<Entry>, hash: ThreadId -> nat, live: map<ThreadId, nat>, id: ThreadId, value: nat)
    requires Chain(tables, hash, live) && TableOk(t, hash, live[id := value]) && Holds(t, id)
    requires if id in live then live[id] == value else forall i | 1 <= i < |tables| :: !Holds(tables[i], id)
    requires forall x | Holds(tables[0], x) :: Holds(t, x)
    ensures Chain(tables[0 := t], hash, live[id := value])
  {
    hide TableOk, Holds;
    var tables', live' := tables[0 := t], live[id := value];
    forall i | 0 <= i < |tables| ensures TableOk(tables'[i], hash, live') {
      if i > 0 && id !in live {
        Elsewhere(tables[i], hash, live, live', id);
      } else if i > 0 {
        assert live' == live;
      }
    }
    forall x <- live'.Keys ensures exists i | 0 <= i < |tables'| :: Holds(tables'[i], x) {
      if x == id {
        assert Holds(tables'[0], id);
      } else {
        var i :| 0 <= i < |tables| && Holds(tables[i], x);
        assert Holds(tables'[i], x);
      }
    }
  }

  lemma ChainVacated(tables: seq<seq<Entry>>, tables': seq<seq<Entry>>, hash: ThreadId -> nat, live: map<ThreadId, nat>, id: ThreadId)
    requires Chain(tables, hash, live) && |tables'| == |tables|
    requires forall i | 0 <= i < |tables| :: Vacated(tables[i], tables'[i], id) && TableOk(tables'[i], hash, live - {id})
    ensures Chain(tables', hash, live - {id})
  {
    hide TableOk, Holds, Vacated;
    forall x <- (live - {id}).Keys ensures exists i | 0 <= i < |tables'| :: Holds(tables'[i], x) {
      var i :| 0 <= i < |tables| && Holds(tables[i], x);
      VacatedHolds(tables[i], tables'[i], id, x);
    }
  }

  ghost function Views(tables: seq<array<Entry>>): (v: seq<seq<Entry>>)
    reads tables
    ensures |v| == |tables| && forall i | 0 <= i < |v| :: v[i] == tables[i][..]
  {
    seq(|tables|, i requires 0 <= i < |tables| reads tables => tables[i][..])
  }

  lemma NewestView(tables: seq<array<Entry>>, views: seq<seq<Entry>>)
    requires |views| == |tables| > 0 && forall i | 1 <= i < |tables| :: tables[i][..] == views[i]
    ensures Views(tables) == views[0 := tables[0][..]]
  {
  }

  ghost predicate Distinct(tables: seq<array<Entry>>) {
    forall i, j | 0 <= i < j < |tables| :: tables[i] != tables[j]
  }

  class ProducerHash {
    const hash: ThreadId -> nat
    // Newest first; the source links each table to the one before it.
    var tables: seq<array<Entry>>
    var count: nat
    // The producer list, oldest first.
    var producers: seq<Producer>

    // The plain map: the producer of every thread that has one and has not exited.
    ghost var live: map<ThreadId, nat>

    ghost predicate TablesOk()
      reads this, tables
    {
      tables != [] && Distinct(tables) && Chain(Views(tables), hash, live)
    }

    ghost predicate Valid()
      reads this, tables
    {
      && TablesOk()
      && Reserved(tables[0][..], live) <= count && 4 * count < 3 * tables[0].Length
      && ProducersOk(producers, live)
    }

    constructor (hash: ThreadId -> nat, initialSize: nat)
      requires initialSize > 0 && PowerOfTwo(initialSize)
      ensures Valid() && live == map[] && fresh(tables)
    {
      var table := new Entry[initialSize](_ => Entry(Unused, 0));
      this.hash := hash;
      tables, count, producers, live := [table], 0, [], map[];
      new;
      UnusedTable(table[..], hash, live);
    }

    // Look for the id in one table.
    method Probe(t: array<Entry>, id: ThreadId) returns (found: bool, index: nat)
      requires TableOk(t[..], hash, live)
      ensures found ==> index < t.Length && t[index].key == Owned(id)
      ensures !found ==> !Holds(t[..], id)
    {
      ghost var k: nat := 0;
      ghost var last := FirstUnused(t[..], hash(id));
      index := hash(id);
      while true
        invariant k <= last && index % t.Length == Place(hash(id), k, t.Length)
        invariant forall j: nat | j < k :: t[Place(hash(id), j, t.Length)].key !in {Owned(id), Unused}
        decreases last - k
      {
        MaskWraps(index, t.Length);
        index := Words.And(index, t.Length - 1);
        var probedKey := t[index].key;
        if probedKey == Owned(id) {
          return true, index;
        }
        if probedKey == Unused {
          MetBeforeUnused(t[..], hash, live, id, k);
          return false, index;
        }
        NextPlace(hash(id), k, t.Length);
        index, k := index + 1, k + 1;
      }
    }

    // Put the id into the first slot on its path that is unused or reusable.
    method Claim(t: array<Entry>, id: ThreadId, value: nat) returns (reused: bool)
      requires TableOk(t[..], hash, live) && !Holds(t[..], id)
      requires id in live ==> live[id] == value
      requires Reserved(t[..], live) + (if id in live then 0 else 1) < t.Length
      modifies t
      ensures TableOk(t[..], hash, live[id := value]) && Holds(t[..], id)
      ensures forall x | Holds(old(t[..]), x) :: Holds(t[..], x)
      ensures Reserved(t[..], live[id := value]) ==
        Reserved(old(t[..]), live) + (if reused then 0 else 1) - (if id in live then 1 else 0)
    {
      ghost var k: nat := 0;
      ghost var last := FirstUnused(t[..], hash(id));
      var index: nat := hash(id);
      while true
        invariant k <= last && index % t.Length == Place(hash(id), k, t.Length)
        invariant forall j: nat | j < k :: t[Place(hash(id), j, t.Length)].key.Owned?
        invariant t[..] == old(t[..])
        decreases last - k
      {
        MaskWraps(index, t.Length);
        index := Words.And(index, t.Length - 1);
        if t[index].key == Unused || t[index].key == Reusable {
          reused := t[index].key == Reusable;
          Claimed(t[..], hash, live, k, id, value);
          t[index] := Entry(Owned(id), value);
          assert t[..] == old(t[..])[index := Entry(Owned(id), value)];
          return;
        }
        NextPlace(hash(id), k, t.Length);
        index, k := index + 1, k + 1;
      }
    }

    method ClaimNewest(id: ThreadId, value: nat) returns (reused: bool)
      requires TablesOk() && !Holds(tables[0][..], id)
      requires if id in live then live[id] == value else forall i | 0 <= i < |tables| :: !Holds(tables[i][..], id)
      requires Reserved(tables[0][..], live) + (if id in live then 0 else 1) < tables[0].Length
      modifies tables[0]
      ensures Chain(Views(tables), hash, live[id := value]) && Holds(tables[0][..], id)
      ensures Reserved(tables[0][..], live[id := value]) ==
        Reserved(old(tables[0][..]), live) + (if reused then 0 else 1) - (if id in live then 1 else 0)
    {
      hide TableOk, Reserved, Holds, Chain;
      ghost var views := Views(tables);
      NewestOk(views, hash, live);
      reused := Claim(tables[0], id, value);
      NewestClaimed(views, tables[0][..], hash, live, id, value);
      NewestView(tables, views);
    }

    // The tables, newest first, searched for the id; an id found in an older one is copied to the newest.
    method LookUp(id: ThreadId) returns (found: Option<nat>)
      requires Valid()
      modifies tables[0]
      ensures Valid()
      ensures found == if id in live then Some(live[id]) else None
      // What was found in an older table is in the newest one from now on.
      ensures found.Some? ==> tables != [] && Holds(tables[0][..], id)
    {
      hide TableOk, Reserved, Holds, Chain;
      ghost var views := Views(tables);
      for i := 0 to |tables|
        invariant Valid() && Views(tables) == views
        invariant forall j | 0 <= j < i :: !Holds(views[j], id)
      {
        ChainAt(views, hash, live, i);
        NewestOk(views, hash, live);
        var hit, index := Probe(tables[i], id);
        if hit {
          OwnedIsLive(views[i], hash, live, index, id);
          var value := tables[i][index].value;
          HeldThere(views[i], index, id);
          if i != 0 {
            var reused := ClaimNewest(id, value);
            assert live[id := value] == live;
          }
          return Some(value);
        }
      }
      HeldIffLive(views, hash, live, id);
      found := None;
    }

    // A table at least twice as large, of which the new count does not use up half.
    method AddTable(newCount: nat)
      requires TablesOk()
      modifies this`tables
      ensures TablesOk() && tables != [] && |tables| == |old(tables)| + 1 && tables[1..] == old(tables) && fresh(tables[0])
      ensures Reserved(tables[0][..], live) == |live.Keys| && newCount < tables[0].Length / 2
      ensures tables[0].Length >= 2 * old(tables[0].Length) && PowerOfTwo(tables[0].Length)
      ensures tables[0].Length > 2 * old(tables[0].Length) ==> newCount >= tables[0].Length / 4
    {
      hide TableOk, Reserved, Chain;
      NewestOk(Views(tables), hash, live);
      var newCapacity := tables[0].Length * 2;
      Doubled(tables[0].Length);
      while newCount >= newCapacity / 2
        invariant newCapacity >= 2 * old(tables[0].Length) > 0 && PowerOfTwo(newCapacity)
        invariant newCapacity > 2 * old(tables[0].Length) ==> newCount >= newCapacity / 4
        invariant tables == old(tables) && TablesOk()
        decreases 2 * newCount + 2 - newCapacity
      {
        Doubled(newCapacity);
        newCapacity := newCapacity * 2;
      }
      var table := new Entry[newCapacity](_ => Entry(Unused, 0));
      UnusedTable(table[..], hash, live);
      Prepended(table[..], Views(tables), hash, live);
      assert Views([table] + tables) == [table[..]] + Views(tables);
      tables := [table] + tables;
    }

    method RecycleOrCreate(isExplicit: bool, memory: bool) returns (result: Option<nat>)
      requires ProducersOk(producers, live)
      modifies this`producers
      ensures ProducersOk(producers, live)
      ensures result.None? <==> !memory && NoneInactive(old(producers), isExplicit)
      ensures result.None? ==> producers == old(producers)
      ensures result.Some? ==> Given(old(producers), producers, result.value, isExplicit)
    {
      var i := |producers|;
      while i > 0
        invariant producers == old(producers) && 0 <= i <= |producers|
        invariant forall j | i <= j < |old(producers)| :: old(producers)[j] != Producer(isExplicit, true)
      {
        i := i - 1;
        if producers[i].inactive && producers[i].isExplicit == isExplicit {
          producers := producers[i := producers[i].(inactive := false)];
          return Some(i);
        }
      }
      if !memory {
        return None;
      }
      producers := producers + [Producer(isExplicit, false)];
      result := Some(|producers| - 1);
    }

    // The destructor of a producer token, whose producer RecycleOrCreate(true, ..) gave out.
    method ReleaseToken(p: nat)
      requires Valid() && p < |producers| && producers[p].isExplicit
      modifies this`producers
      ensures Valid() && live == old(live) && producers == old(producers)[p := Producer(true, true)]
    {
      hide TableOk, Reserved, Chain;
      producers := producers[p := producers[p].(inactive := true)];
    }

    predicate Crowded(newCount: nat, capacity: nat, busy: nat) {
      newCount >= capacity / 2 && (busy == 0 || newCount >= capacity / 2 + capacity / 4)
    }

    // The calling thread's producer. `busy` is how many times another thread is found resizing; the two
    // flags say whether the allocation of a table and of a producer succeed.
    method GetOrAdd(id: ThreadId, busy: nat, tableMemory: bool, producerMemory: bool) returns (result: Option<nat>)
      requires Valid()
      modifies this, tables[0]
      ensures Valid()
      ensures id in old(live) ==> result == Some(old(live)[id]) && live == old(live)
      ensures id !in old(live) && result.Some? ==>
                && live == old(live)[id := result.value]
                && Given(old(producers), producers, result.value, false)
      ensures result.None? ==>
                && live == old(live) && count == old(count)
                && ((!tableMemory && Crowded(old(count) + 1, old(tables[0].Length), busy)) || (!producerMemory && NoneInactive(old(producers), false)))
      ensures id !in old(live) && !tableMemory && Crowded(old(count) + 1, old(tables[0].Length), busy) ==> result.None?
      ensures result.Some? ==> Holds(tables[0][..], id)
      // Half the table is left free if it can be, but three quarters are used while another thread is resizing.
      ensures id !in old(live) && result.Some? ==>
                (|tables| > |old(tables)| <==> Crowded(old(count) + 1, old(tables[0].Length), busy))
      ensures result.Some? && id !in old(live) ==> old(count) <= count <= old(count) + 1
      ensures tables != old(tables) ==> old(count) + 1 >= old(tables[0].Length) / 2
      ensures id in old(live) || result.None? ==> producers == old(producers)
    {
      hide TableOk, Reserved, Holds, ProducersOk, Chain;
      result := LookUp(id);
      if result.Some? {
        return;
      }
      count := count + 1;
      var newCount := count;
      var rounds := busy;
      ghost var capacity := old(tables[0].Length);
      while true
        invariant |tables| >= |old(tables)| && rounds <= busy && old(tables) != []
        invariant |tables| == |old(tables)| ==> tables == old(tables) && (rounds < busy ==> newCount >= capacity / 2 + capacity / 4)
        invariant |tables| > |old(tables)| ==> tableMemory && newCount < tables[0].Length / 2 && Crowded(newCount, capacity, busy)
        invariant TablesOk() && Reserved(tables[0][..], live) < count && ProducersOk(producers, live)
        invariant 4 * (count - 1) < 3 * tables[0].Length
        invariant newCount == count == old(count) + 1 && live == old(live) && producers == old(producers)
        invariant tables == old(tables) || (fresh(tables[0]) && newCount >= old(tables[0].Length) / 2)
        invariant id !in live
        decreases rounds
      {
        if newCount >= tables[0].Length / 2 {
          if rounds > 0 {
            rounds := rounds - 1;
          } else {
            if !tableMemory {
              count := count - 1;
              return None;
            }
            LiveAtMostReserved(tables[0][..], live);
            AddTable(newCount);
          }
        }
        if newCount < tables[0].Length / 2 + tables[0].Length / 4 {
          result := Insert(id, producerMemory);
          return;
        }
      }
    }

    // The last part of get_or_add_implicit_producer: a producer for an id that has none, and a slot for it.
    method Insert(id: ThreadId, memory: bool) returns (result: Option<nat>)
      requires TablesOk() && Reserved(tables[0][..], live) < count && ProducersOk(producers, live)
      requires 4 * count < 3 * tables[0].Length && id !in live
      modifies this`count, this`producers, this`live, tables[0]
      ensures Valid()
      ensures result.Some? ==>
                && live == old(live)[id := result.value]
                && Given(old(producers), producers, result.value, false)
      ensures result.None? <==> !memory && NoneInactive(old(producers), false)
      ensures result.None? ==> live == old(live) && count == old(count) - 1 && producers == old(producers)
      ensures result.Some? ==> Holds(tables[0][..], id) && old(count) - 1 <= count <= old(count)
      ensures result.Some? ==> count - (old(count) - 1) == Reserved(tables[0][..], live) - Reserved(old(tables[0][..]), old(live))
    {
      hide TableOk, Reserved, Holds, ProducersOk, Chain, Given, NoneInactive;
      HeldIffLive(Views(tables), hash, live, id);
      result := RecycleOrCreate(false, memory);
      if result.None? {
        count := count - 1;
        return;
      }
      var reused := ClaimNewest(id, result.value);
      if reused {
        count := count - 1;
      }
      ProducerGiven(old(producers), producers, live, id, result.value);
      live := live[id := result.value];
    }

    // Give the id's slot in one table back, if it has one there.
    method Vacate(t: array<Entry>, id: ThreadId)
      requires TableOk(t[..], hash, live)
      modifies t
      ensures TableOk(t[..], hash, live - {id}) && Vacated(old(t[..]), t[..], id)
    {
      ghost var k: nat := 0;
      ghost var last := FirstUnused(t[..], hash(id));
      var index: nat := hash(id);
      while true
        invariant k <= last && index % t.Length == Place(hash(id), k, t.Length)
        invariant forall j: nat | j < k :: t[Place(hash(id), j, t.Length)].key !in {Owned(id), Unused}
        invariant t[..] == old(t[..])
        decreases last - k
      {
        MaskWraps(index, t.Length);
        index := Words.And(index, t.Length - 1);
        var probedKey := t[index].key;
        if probedKey == Owned(id) {
          Released(t[..], hash, live, index, id);
          t[index] := t[index].(key := Reusable);
          assert t[..] == old(t[..])[index := old(t[..])[index].(key := Reusable)];
          return;
        }
        if probedKey == Unused {
          MetBeforeUnused(t[..], hash, live, id, k);
          Elsewhere(t[..], hash, live, live - {id}, id);
          return;
        }
        NextPlace(hash(id), k, t.Length);
        index, k := index + 1, k + 1;
      }
    }

    method VacateAll(id: ThreadId)
      requires TablesOk() && id in live
      modifies tables
      ensures Chain(Views(tables), hash, live - {id})
      ensures Reserved(tables[0][..], live - {id}) <= Reserved(old(tables[0][..]), live)
    {
      hide TableOk, Reserved, Holds, Vacated, Chain;
      ghost var views := Views(tables);
      for i := 0 to |tables|
        invariant forall j | 0 <= j < i :: Vacated(views[j], tables[j][..], id) && TableOk(tables[j][..], hash, live - {id})
        invariant forall j | i <= j < |tables| :: tables[j][..] == views[j]
      {
        ChainAt(views, hash, live, i);
        Vacate(tables[i], id);
      }
      ChainVacated(views, Views(tables), hash, live, id);
      VacatedCount(views[0], tables[0][..], id, live);
    }

    method ThreadExited(id: ThreadId, producer: nat)
      requires Valid() && id in live && live[id] == producer
      modifies this`live, this`producers, tables
      ensures Valid() && live == old(live) - {id}
      ensures producer < |old(producers)| && producers == old(producers)[producer := Producer(false, true)]
    {
      hide TableOk, Reserved, Holds, Chain;
      VacateAll(id);
      producers := producers[producer := producers[producer].(inactive := true)];
      live := live - {id};
    }
  }

  lemma ProducerGiven(before: seq<Producer>, now: seq<Producer>, live: map<ThreadId, nat>, id: ThreadId, p: nat)
    requires ProducersOk(before, live) && Given(before, now, p, false)
    ensures ProducersOk(now, live[id := p])
  {
  }

  lemma OwnedIsLive(t: seq<Entry>, hash: ThreadId -> nat, live: map<ThreadId, nat>, i: nat, id: ThreadId)
    requires TableOk(t, hash, live) && i < |t| && t[i].key == Owned(id)
    ensures id in live && live[id] == t[i].value
  {
    assert EntryOk(t, hash, live, i);
  }
}

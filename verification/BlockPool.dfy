// The parent queue's blocks.
module BlockPool {
  // Every block is free, destroyed, or owned by the producer, and only one of these.
  ghost predicate Partition(count: nat, free: seq<nat>, destroyed: set<nat>, owned: set<nat>) {
    && (forall i, j | 0 <= i < j < |free| :: free[i] != free[j])
    && (forall x <- free :: x < count && x !in destroyed && x !in owned)
    && (forall x <- destroyed :: x < count && x !in owned)
    && (forall x <- owned :: x < count)
    && (forall x | 0 <= x < count :: x in free || x in destroyed || x in owned)
  }

  lemma TakeFree(count: nat, free: seq<nat>, destroyed: set<nat>, owned: set<nat>)
    requires Partition(count, free, destroyed, owned) && free != []
    ensures var block, rest := free[|free| - 1], free[..|free| - 1];
            block < count && block !in owned && Partition(count, rest, destroyed, owned + {block})
  {
    var block, rest := free[|free| - 1], free[..|free| - 1];
    assert block in free && forall i | 0 <= i < |rest| :: rest[i] == free[i];
    forall x | 0 <= x < count ensures x in rest || x in destroyed || x in owned + {block} {
      if x in free && x != block {
        var i :| 0 <= i < |free| && free[i] == x;
        assert rest[i] == x;
      }
    }
  }
}

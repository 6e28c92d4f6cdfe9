/**
 The id search every table of the runtime uses: post-increment a 32-bit counter until it shows an
 id that is not in use. The specification is cyclic: the first unused id at or after the counter.
 */
module IdAllocator {
  import opened Words

  /** The id `d` places after `start`, counting round from 2^32 - 1 to 0. */
  function Ahead(start: uint32, d: nat): uint32 {
    ((start as int + d) % U32) as uint32
  }

  /** How far the counter has to move from `start` to show `id`. */
  function Distance(start: uint32, id: uint32): nat {
    (id as int - start as int) % U32
  }

  /** The first id at or after `start`, cyclically, that is not in `used`. */
  ghost predicate IsNextFree(used: set<uint32>, start: uint32, id: uint32) {
    && id !in used
    && forall e: nat | e < Distance(start, id) :: Ahead(start, e) in used
  }

  lemma DistanceAhead(start: uint32, id: uint32)
    ensures Ahead(start, Distance(start, id)) == id
    ensures forall d: nat | d < U32 :: Distance(start, Ahead(start, d)) == d
  {
  }

  lemma NextFreeUnique(used: set<uint32>, start: uint32, a: uint32, b: uint32)
    requires IsNextFree(used, start, a) && IsNextFree(used, start, b)
    ensures a == b
  {
    DistanceAhead(start, a);
    DistanceAhead(start, b);
  }

  /** Pigeonhole: a set holding 0, ..., n - 1 has at least n elements. */
  lemma {:induction false} RangeSize(n: nat, s: set<uint32>)
    requires n <= U32 && forall x: uint32 | x as int < n :: x in s
    ensures n <= |s|
  {
    if n > 0 {
      RangeSize(n - 1, s - {(n - 1) as uint32});
    }
  }

  /** From any free id, the first free one is found by walking back. */
  lemma {:induction false} WalkBack(used: set<uint32>, start: uint32, d: nat)
    requires d < U32 && Ahead(start, d) !in used
    ensures exists id :: IsNextFree(used, start, id)
  {
    DistanceAhead(start, Ahead(start, d));
    if e: nat :| e < d && Ahead(start, e) !in used {
      WalkBack(used, start, e);
    } else {
      assert IsNextFree(used, start, Ahead(start, d));
    }
  }

  /** Whenever fewer than 2^32 ids are in use there is a first free one, from any counter value. */
  lemma NextFreeExists(used: set<uint32>, start: uint32)
    requires |used| < U32
    ensures exists id :: IsNextFree(used, start, id)
  {
    if forall id: uint32 :: id in used {
      RangeSize(U32, used);
    }
    var free: uint32 :| free !in used;
    DistanceAhead(start, free);
    WalkBack(used, start, Distance(start, free));
  }

  /** The id the search finds; 0 stands in where it would not end. */
  ghost function NextFree(used: set<uint32>, start: uint32): uint32 {
    if id: uint32 :| IsNextFree(used, start, id) then id else 0
  }

  lemma NextFreeIsNext(used: set<uint32>, start: uint32)
    requires |used| < U32
    ensures IsNextFree(used, start, NextFree(used, start))
  {
    NextFreeExists(used, start);
  }

  /** Without wrap-around the counter itself is free. */
  lemma NextFreeAtCounter(used: set<uint32>, start: uint32)
    requires |used| < U32 && start !in used
    ensures NextFree(used, start) == start
  {
    NextFreeIsNext(used, start);
    assert Distance(start, start) == 0;
    NextFreeUnique(used, start, start, NextFree(used, start));
  }

  /** Ids below a bound are at most as many as the bound. */
  lemma {:induction false} IdsBelow(ids: set<uint32>, bound: nat)
    requires bound <= U32 && forall id | id in ids :: id as int < bound
    ensures |ids| <= bound
  {
    if bound > 0 {
      var last := (bound - 1) as uint32;
      IdsBelow(ids - {last}, bound - 1);
      if last !in ids {
        assert ids - {last} == ids;
      }
    }
  }

  /** While all ids lie below the counter, the counter is the next id and goes up by one. */
  lemma NextFreeUnwrapped(used: set<uint32>, next: uint32)
    requires (forall id | id in used :: id < next) && next as int + 1 < U32
    ensures NextFree(used, next) == next && Ahead(next, 1) == next + 1 && |used| < U32
  {
    IdsBelow(used, next as int);
    NextFreeAtCounter(used, next);
  }

  lemma AheadAgain(start: uint32, d: nat)
    ensures Ahead(start, 0) == start
    ensures Ahead(Ahead(start, d), 1) == Ahead(start, d + 1)
  {
  }

  /** `id = next++` repeated while `id` is in use. Ends because a free id lies ahead. */
  method Allocate(used: set<uint32>, next: uint32) returns (id: uint32, next': uint32)
    requires |used| < U32
    ensures IsNextFree(used, next, id) && id == NextFree(used, next)
    ensures next' == Ahead(id, 1)
  {
    NextFreeIsNext(used, next);
    ghost var goal := NextFree(used, next);
    ghost var d: nat := 0;
    DistanceAhead(next, goal);
    AheadAgain(next, 0);
    id, next' := next, Ahead(next, 1);
    while id in used
      invariant d <= Distance(next, goal)
      invariant id == Ahead(next, d) && next' == Ahead(id, 1)
      decreases Distance(next, goal) - d
    {
      AheadAgain(next, d);
      id, next' := next', Ahead(next', 1);
      d := d + 1;
    }
  }
}

/**
 Runs of the runtime's own maps. They are right exactly as long as no connection is opened under an
 id that one is still on file under and no count overflows, and then do what `TargetRuns` says. Before
 the id counter wraps neither can happen; after a wrap there is a run in which a connection in use is
 closed.
 */
module RuntimeRuns {
  import opened Words
  import opened IdAllocator
  import opened TargetTable
  import opened TargetRuns
  import opened RuntimeTargets

  ghost function StepIn(s: Store, op: Op): Store {
    match op
    case Register(cap) => AddIn(s, NewId(s), cap)
    case Open(kind, cap, peer) => OpenIn(s, NewId(s), kind, cap, peer)
    case Keep(id) => if id in s.targets then DeriveIn(s, NewId(s), id, s.targets[id]) else s
    case TailCall(id) => if id in s.targets then DeriveIn(s, NewId(s), id, Forwarder(s.targets[id])) else s
    case Release(ids) => ReleaseAllIn(s, ids).0
  }

  ghost function RunIn(s: Store, ops: seq<Op>): Store
    decreases |ops|
  {
    if ops == [] then s else RunIn(StepIn(s, ops[0]), ops[1..])
  }

  // ---- any run ----------------------------------------------------------------------------

  /** An operation that takes an id finds one. */
  ghost predicate HasRoom(s: Store, op: Op) {
    op.Release? || |s.targets| < U32
  }

  /** Opens a connection under an id that one is on file under, or counts an owner's ids past 2^32 - 1. */
  ghost predicate Miscounts(s: Store, op: Op) {
    match op
    case Open(kind, _, _) => NextHasPeer(s, kind)
    case Keep(id) => id in s.targets && Overflows(s, id)
    case TailCall(id) => id in s.targets && Overflows(s, id)
    case _ => false
  }

  ghost predicate RoomAlong(s: Store, ops: seq<Op>)
    decreases |ops|
  {
    ops != [] ==> HasRoom(s, ops[0]) && RoomAlong(StepIn(s, ops[0]), ops[1..])
  }

  ghost predicate MiscountsAlong(s: Store, ops: seq<Op>)
    decreases |ops|
  {
    ops != [] && (Miscounts(s, ops[0]) || MiscountsAlong(StepIn(s, ops[0]), ops[1..]))
  }

  /** The maps are right before the run and after each of its steps. */
  ghost predicate RightAlong(s: Store, ops: seq<Op>)
    decreases |ops|
  {
    Right(s) && (ops != [] ==> RightAlong(StepIn(s, ops[0]), ops[1..]))
  }

  lemma StepRefinesIff(s: Store, op: Op)
    requires Right(s) && HasRoom(s, op)
    ensures Right(StepIn(s, op)) <==> !Miscounts(s, op)
    ensures !Miscounts(s, op) ==> TableOf(StepIn(s, op)) == Step(TableOf(s), op)
  {
    match op
    case Register(cap) => AddInRefines(s, cap);
    case Open(kind, cap, peer) => OpenInRefines(s, kind, cap, peer);
    case Keep(id) => if id in s.targets { DeriveInRefines(s, id, s.targets[id]); }
    case TailCall(id) => if id in s.targets { DeriveInRefines(s, id, Forwarder(s.targets[id])); }
    case Release(ids) => ReleaseAllInRefines(s, ids);
  }

  /**
   Wherever the counter stands and however often it has wrapped: the maps stay right all along a run
   if and only if no connection is opened under an id that one is on file under and no count
   overflows, and then the run does to the table what the specification says.
   */
  lemma {:induction false} RightAlongIff(s: Store, ops: seq<Op>)
    requires Right(s) && RoomAlong(s, ops)
    ensures RightAlong(s, ops) <==> !MiscountsAlong(s, ops)
    ensures RightAlong(s, ops) ==> Right(RunIn(s, ops)) && TableOf(RunIn(s, ops)) == Run(TableOf(s), ops)
    decreases |ops|
  {
    if ops != [] {
      StepRefinesIff(s, ops[0]);
      if !Miscounts(s, ops[0]) {
        RightAlongIff(StepIn(s, ops[0]), ops[1..]);
      }
    }
  }

  // ---- before the counter wraps -----------------------------------------------------------

  lemma StepDoesNotMiscount(h: History, s: Store, op: Op)
    requires Right(s) && Inv(h, TableOf(s))
    ensures HasRoom(s, op) && !Miscounts(s, op)
  {
    FreshIdHasNoPeer(h, TableOf(s));
    if (op.Keep? || op.TailCall?) && Overflows(s, op.id) {
      OverflowTakesAllIds(s, op.id);
    }
  }

  lemma {:induction false} NothingMiscounts(h: History, s: Store, ops: seq<Op>)
    requires Right(s) && Inv(h, TableOf(s)) && HistoryOf(h, TableOf(s), ops).issued + 1 < U32
    ensures RoomAlong(s, ops) && !MiscountsAlong(s, ops)
    decreases |ops|
  {
    if ops != [] {
      IssuedGrows(Observe(h, TableOf(s), ops[0]), Step(TableOf(s), ops[0]), ops[1..]);
      StepDoesNotMiscount(h, s, ops[0]);
      StepRefinesIff(s, ops[0]);
      StepKeepsInv(h, TableOf(s), ops[0]);
      NothingMiscounts(Observe(h, TableOf(s), ops[0]), StepIn(s, ops[0]), ops[1..]);
    }
  }

  /**
   Over any run that issues fewer than 2^32 - 1 ids, the maps stand for the table of the
   specification, and every count is the number of ids its owner has, at least one.
   */
  lemma CountsAreExact(ops: seq<Op>)
    requires HistoryOf(NO_HISTORY, EMPTY, ops).issued < U32 - 1
    ensures Right(RunIn(EMPTY_STORE, ops)) && TableOf(RunIn(EMPTY_STORE, ops)) == Run(EMPTY, ops)
  {
    NothingMiscounts(NO_HISTORY, EMPTY_STORE, ops);
    RightAlongIff(EMPTY_STORE, ops);
  }

  // ---- after it has wrapped ---------------------------------------------------------------

  lemma {:induction false} RunInAppend(s: Store, a: seq<Op>, b: seq<Op>)
    ensures RunIn(s, a + b) == RunIn(RunIn(s, a), b)
    decreases |a|
  {
    if a == [] {
      assert a + b == b;
    } else {
      assert (a + b)[1..] == a[1..] + b;
      RunInAppend(StepIn(s, a[0]), a[1..], b);
    }
  }

  /** All ids in use lie below the counter, and ids with an owner are in use. */
  ghost predicate BelowCounter(s: Store) {
    && (forall id | id in s.targets :: id < s.next)
    && s.loopback.owner.Keys <= s.targets.Keys && s.network.owner.Keys <= s.targets.Keys
  }

  lemma NewIdIsCounter(s: Store)
    requires forall id | id in s.targets :: id < s.next
    ensures NewId(s) == s.next
  {
    IdsBelow(s.targets.Keys, s.next as int);
    NextFreeAtCounter(s.targets.Keys, s.next);
  }

  /** Registering a capability and releasing it again moves the counter and nothing else. */
  lemma RegisterAndRelease(s: Store, cap: Cap)
    requires BelowCounter(s) && 0 < s.next
    ensures RunIn(s, [Register(cap), Release([s.next])]) == s.(next := Ahead(s.next, 1))
  {
    NewIdIsCounter(s);
    var id := s.next;
    var s1 := AddIn(s, id, cap);
    assert s1.targets - {id} == s.targets;
    assert ReleaseAllIn(s1, [id]).0 == DropIn(s1, id) by { assert [id][1..] == []; }
    assert [Register(cap), Release([id])][1..] == [Release([id])] && [Release([id])][1..] == [];
    assert RunIn(s1, [Release([id])]) == DropIn(s1, id);
  }

  /** So some run moves the counter by any amount, up to and including a wrap to 0. */
  lemma {:induction false} MoveCounter(s: Store, n: nat, cap: Cap) returns (ops: seq<Op>)
    requires BelowCounter(s) && 0 < s.next && s.next as int + n <= U32
    ensures RunIn(s, ops) == s.(next := Ahead(s.next, n))
    decreases n
  {
    AheadAgain(s.next, 0);
    if n == 0 {
      ops := [];
    } else {
      var two := [Register(cap), Release([s.next])];
      RegisterAndRelease(s, cap);
      if n == 1 {
        ops := two;
      } else {
        var s1 := s.(next := Ahead(s.next, 1));
        var rest := MoveCounter(s1, n - 1, cap);
        ops := two + rest;
        RunInAppend(s, two, rest);
        assert Ahead(s1.next, n - 1) == Ahead(s.next, n);
      }
    }
  }

  /** The table in which id 1, which reopened the connection, is gone, and id 2, made from it, keeps it. */
  function Derived(cap: Cap, p: Peer, next: uint32): Store {
    Store(map[2 := cap], next, Owned(map[1 := p], map[2 := 1], map[1 := 1]), NOTHING_OWNED)
  }

  lemma DerivedIsReached(cap: Cap, p: Peer)
    ensures RunIn(EMPTY_STORE, [Open(Loopback, cap, p), Keep(1), Release([1])]) == Derived(cap, p, 3)
  {
    var s1 := OpenIn(EMPTY_STORE, 1, Loopback, cap, p);
    NewIdIsCounter(EMPTY_STORE);
    assert s1 == Store(map[1 := cap], 2, Owned(map[1 := p], map[1 := 1], map[1 := 1]), NOTHING_OWNED);
    NewIdIsCounter(s1);
    var s2 := DeriveIn(s1, 2, 1, cap);
    assert s2 == Store(map[1 := cap, 2 := cap], 3, Owned(map[1 := p], map[1 := 1, 2 := 1], map[1 := 2]), NOTHING_OWNED);
    var s3 := DropIn(s2, 1);
    assert map[1 := cap, 2 := cap] - {1} == map[2 := cap];
    assert map[1 := 1, 2 := 1] - {1} == map[2 := 1];
    assert s3 == Derived(cap, p, 3);
    assert [1][1..] == [] && ReleaseAllIn(s2, [1]).0 == s3;
    RunThree(EMPTY_STORE, s1, s2, s3, Open(Loopback, cap, p), Keep(1), Release([1]));
  }

  lemma RunThree(s: Store, s1: Store, s2: Store, s3: Store, a: Op, b: Op, c: Op)
    requires s1 == StepIn(s, a) && s2 == StepIn(s1, b) && s3 == StepIn(s2, c)
    ensures RunIn(s, [a, b, c]) == s3
  {
    assert [a, b, c][1..] == [b, c] && [b, c][1..] == [c] && [c][1..] == [];
    assert RunIn(s2, [c]) == s3 && RunIn(s1, [b, c]) == s3;
  }

  /** Once round the counter, with one more id out: the search is about to return 1 again. */
  function Wrapped(cap: Cap, p: Peer): Store {
    Derived(cap, p, 1).(targets := map[0 := cap, 2 := cap])
  }

  lemma WrappedIsReached(cap: Cap, p: Peer) returns (ops: seq<Op>)
    ensures RunIn(EMPTY_STORE, ops) == Wrapped(cap, p) && NewId(Wrapped(cap, p)) == 1
  {
    var first := [Open(Loopback, cap, p), Keep(1), Release([1])];
    DerivedIsReached(cap, p);
    var around := MoveCounter(Derived(cap, p, 3), U32 - 3, cap);
    RunInAppend(EMPTY_STORE, first, around);
    var s := Derived(cap, p, 0);
    assert RunIn(EMPTY_STORE, first + around) == s;
    FreeAtCounter(s);
    assert s.targets[0 := cap] == map[0 := cap, 2 := cap];
    assert StepIn(s, Register(cap)) == Wrapped(cap, p) && [Register(cap)][1..] == [];
    ops := first + around + [Register(cap)];
    RunInAppend(EMPTY_STORE, first + around, [Register(cap)]);
    FreeAtCounter(Wrapped(cap, p));
  }

  lemma FreeAtCounter(s: Store)
    requires s.targets.Keys <= {0, 2} && s.next !in s.targets
    ensures NewId(s) == s.next
  {
    SubsetSize(s.targets.Keys, {0, 2});
    NextFreeAtCounter(s.targets.Keys, s.next);
  }

  /**
   A run of the runtime after which the counts are wrong: id 1 opens connection `p`, id 2 is made
   from it, id 1 is released, and the counter goes once round. Opening `q` then issues id 1 again;
   `q` is not filed, and two ids own connection `p` while one is counted. Releasing id 2 closes it,
   although id 1 is live and depends on it.
   */
  lemma ReusedOwnerIdLosesConnection(cap: Cap, p: Peer, q: Peer) returns (ops: seq<Op>)
    ensures var s := RunIn(EMPTY_STORE, ops);
            var reopened := StepIn(s, Open(Loopback, cap, q));
            var released := StepIn(reopened, Release([2]));
            && Right(s) && NewId(s) == 1 && 1 in s.loopback.peers
            && 1 in reopened.targets && reopened.loopback.peers == map[1 := p] && !Right(reopened)
            && 1 in released.targets && 1 in released.loopback.owner && released.loopback.peers == map[]
  {
    ops := WrappedIsReached(cap, p);
    var s := Wrapped(cap, p);
    WrappedIsRight(cap, p);
    var reopened := OpenIn(s, 1, Loopback, cap, q);
    assert |s.targets| < U32 by {
      SubsetSize(s.targets.Keys, {0, 2});
      assert |s.targets.Keys| == |s.targets|;
    }
    OpenInRefines(s, Loopback, cap, q);
    assert reopened == StepIn(s, Open(Loopback, cap, q));
    assert reopened.loopback == Owned(map[1 := p], map[2 := 1, 1 := 1], map[1 := 1]);
    assert [2][1..] == [] && ReleaseAllIn(reopened, [2]).0 == DropIn(reopened, 2);
    assert map[1 := p] - {1} == map[];
  }

  lemma WrappedIsRight(cap: Cap, p: Peer)
    ensures Right(Wrapped(cap, p))
  {
    var owner := Wrapped(cap, p).loopback.owner;
    assert owner[2] == 1;
    assert OwnedBy(owner, 1) == {2};
  }
}

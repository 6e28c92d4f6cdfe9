/**
 A KJ promise id is good for one use. Waiting, releasing, combining and joining a task set all use an
 id up; what comes after finds it used.
 */
module KjUses {
  import opened Words
  import opened IdAllocator
  import opened MapSums
  import opened KjPromises

  /** Operations that take the promise of `id`. */
  predicate Uses(op: Op, id: uint32) {
    match op
    case DoCombine(_, ids) => id in ids
    case DoAwait(i) => i == id
    case DoRelease(i) => i == id
    case DoAddTask(_, i) => i == id
    case _ => false
  }

  ghost predicate Succeeds(s: State, op: Op)
    requires Proper(op)
  {
    match op
    case DoCombine(kind, ids) => Combine(s, kind, ids).1.Ok?
    case DoAwait(id) => Await(s, id).1.Ok?
    case DoRelease(id) => Release(s, id).1.Ok?
    case DoAddTask(taskSet, id) => AddTask(s, taskSet, id).1.Ok?
    case DoReleaseTaskSet(taskSet) => ReleaseTaskSet(s, taskSet).1.Ok?
    case DoClearTaskSet(taskSet) => ClearTaskSet(s, taskSet).1.Ok?
    case _ => true
  }

  // ---- one use ----------------------------------------------------------------------------

  /** A live id is used up; one used already stays so, and an id never issued is an error. */
  lemma AwaitExact(s: State, id: uint32)
    requires Accounted(s)
    ensures var (s', r) := Await(s, id);
            && (r.Ok? <==> id in s.issued) && (r.Err? ==> r.error == UnknownPromise(id))
            && s'.live == s.live - {id} && s'.retired == s.retired + (if id in s.issued then {id} else {})
            && s' == s.(live := s'.live, retired := s'.retired, waitedFor := s'.waitedFor)
            && s'.waitedFor == s.waitedFor + if id in s.live then Leaves(s.live[id]) else multiset{}
  {
    if id !in s.live {
      assert s.live - {id} == s.live;
      assert s.retired + (if id in s.issued then {id} else {}) == s.retired;
    }
  }

  lemma ReleaseExact(s: State, id: uint32)
    requires Accounted(s)
    ensures var (s', r) := Release(s, id);
            && (r.Ok? <==> id in s.issued) && (r.Err? ==> r.error == UnknownPromise(id))
            && s'.live == s.live - {id} && s'.retired == s.retired + (if id in s.issued then {id} else {})
            && s' == s.(live := s'.live, retired := s'.retired)
  {
    if id !in s.live {
      assert s.live - {id} == s.live;
      assert s.retired + (if id in s.issued then {id} else {}) == s.retired;
    }
  }

  /** The promise of a live id joins the tasks at the end; otherwise the set is left as it was. */
  lemma AddTaskExact(s: State, taskSet: uint32, id: uint32)
    ensures var (s', r) := AddTask(s, taskSet, id);
            if taskSet !in s.taskSets then s' == s && r == Err(UnknownTaskSet(taskSet))
            else if id !in s.live then
              s' == s && r == Err(if id in s.retired then AlreadyConsumed(id) else UnknownPromise(id))
            else
              && r == Ok(()) && s'.live == s.live - {id} && s'.retired == s.retired + {id}
              && s'.taskSets == s.taskSets[taskSet := s.taskSets[taskSet] + [s.live[id]]]
              && s'.waitedFor == s.waitedFor && s'.issued == s.issued
  {
  }

  /** Clearing a set drops every task in it, releasing drops the set too, and no other set changes. */
  lemma TaskSetEmptied(s: State, taskSet: uint32)
    requires taskSet in s.taskSets
    ensures ClearTaskSet(s, taskSet) == (s.(taskSets := s.taskSets[taskSet := []]), Ok(()))
    ensures ReleaseTaskSet(s, taskSet) == (s.(taskSets := s.taskSets - {taskSet}), Ok(()))
    ensures Held(ClearTaskSet(s, taskSet).0) + AllLeaves(s.taskSets[taskSet]) == Held(s)
    ensures Held(ReleaseTaskSet(s, taskSet).0) + AllLeaves(s.taskSets[taskSet]) == Held(s)
  {
    EmptiedSums(s.taskSets, taskSet);
    Regrouped(Sum(s.live, Leaves), Sum(s.taskSets - {taskSet}, AllLeaves), s.waitedFor,
              AllLeaves(s.taskSets[taskSet]));
  }

  lemma EmptiedSums(sets: map<uint32, seq<Promise>>, taskSet: uint32)
    requires taskSet in sets
    ensures Sum(sets - {taskSet}, AllLeaves) + AllLeaves(sets[taskSet]) == Sum(sets, AllLeaves)
    ensures Sum(sets[taskSet := []], AllLeaves) == Sum(sets - {taskSet}, AllLeaves)
  {
    SumWithout(sets, AllLeaves, taskSet);
    SumWithout(sets[taskSet := []], AllLeaves, taskSet);
    assert sets[taskSet := []] - {taskSet} == sets - {taskSet};
  }

  lemma Regrouped(a: multiset<nat>, b: multiset<nat>, c: multiset<nat>, x: multiset<nat>)
    ensures a + b + c + x == a + (b + x) + c
  {
  }

  lemma UnknownTaskSets(s: State, taskSet: uint32, id: uint32)
    requires taskSet !in s.taskSets
    ensures ClearTaskSet(s, taskSet) == (s, Err(UnknownTaskSet(taskSet)))
    ensures ReleaseTaskSet(s, taskSet) == (s, Err(UnknownTaskSet(taskSet)))
    ensures AddTask(s, taskSet, id) == (s, Err(UnknownTaskSet(taskSet)))
  {
  }

  // ---- for good ---------------------------------------------------------------------------

  ghost predicate Spent(s: State, id: uint32) {
    id in s.retired && id !in s.live
  }

  lemma TakenAreSpent(s: State, ids: seq<uint32>, id: uint32)
    requires TakeAll(s, ids).1.Ok? && id in ids
    ensures id in TakeAll(s, ids).0.retired
  {
    var k: nat :| ValidPrefix(s, ids, k) by { ValidPrefixExists(s, ids); }
    TakeAllExact(s, ids, k);
    assert ids[..k] == ids;
  }

  lemma CombineSpends(s: State, kind: Kind, ids: seq<uint32>, id: uint32)
    requires Inv(s) && Unwrapped(s) && s.next as int + 1 < U32 && |s.live| < U32
    requires (kind == RaceKind || Fits(kind, |ids|)) && Combine(s, kind, ids).1.Ok? && id in ids
    ensures Spent(Combine(s, kind, ids).0, id)
  {
    TakenLength(s, ids);
    TakeAllShrinks(s, ids);
    TakenAreSpent(s, ids, id);
    var (s1, taken) := TakeAll(s, ids);
    AddKeepsRetired(s1, Build(kind, taken.value));
    CombineKeepsAccounted(s, kind, ids);
  }

  /** Whatever uses an id and succeeds leaves it used up. */
  lemma UseSpends(s: State, op: Op, id: uint32)
    requires Inv(s) && Unwrapped(s) && s.next as int + 1 < U32 && |s.live| < U32
    requires Proper(op) && Uses(op, id) && Succeeds(s, op)
    ensures Spent(Step(s, op), id)
  {
    match op
    case DoCombine(kind, ids) => CombineSpends(s, kind, ids, id);
    case DoAwait(_) => AwaitExact(s, id);
    case DoRelease(_) => ReleaseExact(s, id);
    case DoAddTask(taskSet, _) => AddTaskExact(s, taskSet, id);
  }

  /** Of a spent id nothing more is to be had: using it fails, or does nothing where that is allowed. */
  lemma SpentIsRefused(s: State, op: Op, id: uint32)
    requires Inv(s) && |s.live| < U32 && Proper(op) && Uses(op, id) && Spent(s, id)
    ensures op.DoCombine? || op.DoAddTask? ==> !Succeeds(s, op)
    ensures op.DoAwait? || op.DoRelease? ==> Succeeds(s, op) && Step(s, op) == s
  {
    if op.DoCombine? {
      var k: nat :| ValidPrefix(s, op.ids, k) by { ValidPrefixExists(s, op.ids); }
      CombineExact(s, op.kind, op.ids, k);
    }
  }

  lemma {:induction false} RoomAtTheEnd(s: State, ops: seq<Op>)
    requires (forall op | op in ops :: Proper(op)) && RoomThroughout(s, ops)
    ensures |Run(s, ops).live| < U32
    decreases |ops|
  {
    if ops != [] {
      RoomAtTheEnd(Step(s, ops[0]), ops[1..]);
    }
  }

  /**
   An id is good for one use: once a combination, a wait, a release or a task set has had its promise,
   however the run goes on while ids do not wrap, every other combination and task set is refused it,
   and waiting for it or releasing it again does nothing.
   */
  lemma UsedOnce(s: State, use: Op, id: uint32, ops: seq<Op>, again: Op)
    requires Inv(s) && Unwrapped(s) && Proper(use) && Uses(use, id) && Succeeds(s, use)
    requires (forall op | op in ops :: Proper(op)) && |s.live| < U32 && |s.taskSets| < U32
    requires RoomThroughout(Step(s, use), ops)
    requires s.next as int + IssuesOf([use]) + IssuesOf(ops) + 1 < U32
    requires Proper(again) && Uses(again, id)
    ensures var end := Run(Step(s, use), ops);
            && (again.DoCombine? || again.DoAddTask? ==> !Succeeds(end, again))
            && (again.DoAwait? || again.DoRelease? ==> Succeeds(end, again) && Step(end, again) == end)
  {
    assert [use][1..] == [];
    UseSpends(s, use, id);
    StepKeepsInv(s, use);
    StepKeepsRetired(s, use);
    RetiredForGood(Step(s, use), ops, id);
    RoomAtTheEnd(Step(s, use), ops);
    SpentIsRefused(Run(Step(s, use), ops), again, id);
  }
}

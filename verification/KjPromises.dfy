/**
 KJ promise ids as linear resources. A promise is a tree over primitive promises; combining
 promises consumes the ids of the inputs, and a combination that fails part-way loses what it took.
 */
module KjPromises {
  import opened Words
  import opened IdAllocator
  import opened MapSums

  datatype Promise =
    | Primitive(id: nat)
    | Then(first: Promise, second: Promise)
    | Catch(first: Promise, fallback: Promise)
    | All(parts: seq<Promise>)
    | Race(first: Promise, second: Promise)

  datatype Error = AlreadyConsumed(id: uint32) | UnknownPromise(id: uint32) | NothingToRace | UnknownTaskSet(id: uint32)

  datatype Kind = ThenKind | CatchKind | AllKind | RaceKind

  /**
   `made` counts the primitive promises so far, `issued` is every promise id ever handed out, and
   `waitedFor` are the primitives of the promises handed to whoever waits for them: these are for the
   observer, the runtime keeps none of them.
   */
  datatype State = State(
    live: map<uint32, Promise>, retired: set<uint32>, next: uint32,
    taskSets: map<uint32, seq<Promise>>, nextTaskSet: uint32,
    made: nat, issued: set<uint32>, waitedFor: multiset<nat>)

  const EMPTY := State(map[], {}, 1, map[], 1, 0, {}, multiset{})

  // ---- operations -------------------------------------------------------------------------

  function Take(s: State, id: uint32): (State, Result<Promise, Error>) {
    if id in s.live then (s.(live := s.live - {id}, retired := s.retired + {id}), Ok(s.live[id]))
    else if id in s.retired then (s, Err(AlreadyConsumed(id)))
    else (s, Err(UnknownPromise(id)))
  }

  /** Takes ids left to right; what was taken before a failure is gone. */
  function TakeAll(s: State, ids: seq<uint32>): (State, Result<seq<Promise>, Error>)
    decreases |ids|
  {
    if ids == [] then (s, Ok([]))
    else
      var (s1, first) := Take(s, ids[0]);
      if first.Err? then (s1, Err(first.error))
      else
        var (s2, rest) := TakeAll(s1, ids[1..]);
        (s2, if rest.Err? then rest else Ok([first.value] + rest.value))
  }

  ghost function NewId(s: State): uint32 {
    NextFree(s.live.Keys, s.next)
  }

  function AddAt(s: State, id: uint32, p: Promise): State {
    s.(live := s.live[id := p], retired := s.retired - {id}, next := Ahead(id, 1), issued := s.issued + {id})
  }

  ghost function Add(s: State, p: Promise): State {
    AddAt(s, NewId(s), p)
  }

  /** A race of several promises: each one joined exclusively with those before it. */
  function RaceOf(parts: seq<Promise>): Promise
    requires parts != []
  {
    if |parts| == 1 then parts[0] else Race(RaceOf(parts[..|parts| - 1]), parts[|parts| - 1])
  }

  function Build(kind: Kind, parts: seq<Promise>): Promise
    requires Fits(kind, |parts|)
  {
    match kind
    case ThenKind => Then(parts[0], parts[1])
    case CatchKind => Catch(parts[0], parts[1])
    case AllKind => All(parts)
    case RaceKind => RaceOf(parts)
  }

  predicate Fits(kind: Kind, n: nat) {
    match kind
    case ThenKind => n == 2
    case CatchKind => n == 2
    case AllKind => true
    case RaceKind => n > 0
  }

  /** `then` and `catch` take two ids, `all` any number, and `race` refuses an empty list. */
  ghost function Combine(s: State, kind: Kind, ids: seq<uint32>): (State, Result<uint32, Error>)
    requires kind == RaceKind || Fits(kind, |ids|)
  {
    if kind == RaceKind && ids == [] then (s, Err(NothingToRace))
    else
      TakenLength(s, ids);
      var (s', taken) := TakeAll(s, ids);
      if taken.Err? then (s', Err(taken.error))
      else (Add(s', Build(kind, taken.value)), Ok(NewId(s')))
  }

  lemma {:induction false} TakenLength(s: State, ids: seq<uint32>)
    ensures TakeAll(s, ids).1.Ok? ==> |TakeAll(s, ids).1.value| == |ids|
    decreases |ids|
  {
    if ids != [] {
      TakenLength(Take(s, ids[0]).0, ids[1..]);
    }
  }

  /** A promise of the outside world's: a timer, or a task set running empty. */
  ghost function AddPrimitive(s: State): State {
    Add(s, Primitive(s.made)).(made := s.made + 1)
  }

  /** Awaiting hands the promise to the waiter; an id that is retired already is accepted. */
  function Await(s: State, id: uint32): (State, Result<(), Error>) {
    if id in s.live then (Take(s, id).0.(waitedFor := s.waitedFor + Leaves(s.live[id])), Ok(()))
    else if id in s.retired then (s, Ok(()))
    else (s, Err(UnknownPromise(id)))
  }

  /** Releasing drops the promise, and accepts a retired id too. */
  function Release(s: State, id: uint32): (State, Result<(), Error>) {
    if id in s.live then (Take(s, id).0, Ok(()))
    else if id in s.retired then (s, Ok(()))
    else (s, Err(UnknownPromise(id)))
  }

  ghost function NewTaskSet(s: State): State {
    var id := NextFree(s.taskSets.Keys, s.nextTaskSet);
    s.(taskSets := s.taskSets[id := []], nextTaskSet := Ahead(id, 1))
  }

  function AddTask(s: State, taskSet: uint32, id: uint32): (State, Result<(), Error>) {
    if taskSet !in s.taskSets then (s, Err(UnknownTaskSet(taskSet)))
    else
      var (s', taken) := Take(s, id);
      if taken.Err? then (s', Err(taken.error))
      else (s'.(taskSets := s'.taskSets[taskSet := s'.taskSets[taskSet] + [taken.value]]), Ok(()))
  }

  function ReleaseTaskSet(s: State, taskSet: uint32): (State, Result<(), Error>) {
    if taskSet !in s.taskSets then (s, Err(UnknownTaskSet(taskSet)))
    else (s.(taskSets := s.taskSets - {taskSet}), Ok(()))
  }

  function ClearTaskSet(s: State, taskSet: uint32): (State, Result<(), Error>) {
    if taskSet !in s.taskSets then (s, Err(UnknownTaskSet(taskSet)))
    else (s.(taskSets := s.taskSets[taskSet := []]), Ok(()))
  }

  /** A task of a set has come to its end. */
  function FinishTask(s: State, taskSet: uint32, i: nat): State {
    if taskSet in s.taskSets && i < |s.taskSets[taskSet]| then
      var tasks := s.taskSets[taskSet];
      s.(taskSets := s.taskSets[taskSet := tasks[..i] + tasks[i + 1..]])
    else s
  }

  datatype Op =
    | DoCombine(kind: Kind, ids: seq<uint32>)
    | DoPrimitive
    | DoAwait(id: uint32)
    | DoRelease(id: uint32)
    | DoCancel(id: uint32)
    | DoNewTaskSet
    | DoAddTask(taskSet: uint32, id: uint32)
    | DoReleaseTaskSet(taskSet: uint32)
    | DoClearTaskSet(taskSet: uint32)
    | DoFinishTask(taskSet: uint32, index: nat)

  predicate Proper(op: Op) {
    op.DoCombine? ==> op.kind == RaceKind || Fits(op.kind, |op.ids|)
  }

  ghost function Step(s: State, op: Op): State
    requires Proper(op)
  {
    match op
    case DoCombine(kind, ids) => Combine(s, kind, ids).0
    case DoPrimitive => AddPrimitive(s)
    case DoAwait(id) => Await(s, id).0
    case DoRelease(id) => Release(s, id).0
    case DoCancel(_) => s
    case DoNewTaskSet => NewTaskSet(s)
    case DoAddTask(taskSet, id) => AddTask(s, taskSet, id).0
    case DoReleaseTaskSet(taskSet) => ReleaseTaskSet(s, taskSet).0
    case DoClearTaskSet(taskSet) => ClearTaskSet(s, taskSet).0
    case DoFinishTask(taskSet, i) => FinishTask(s, taskSet, i)
  }

  ghost function Run(s: State, ops: seq<Op>): State
    requires forall op | op in ops :: Proper(op)
    decreases |ops|
  {
    if ops == [] then s else Run(Step(s, ops[0]), ops[1..])
  }

  /** At every step of the run an unused id is left, so that the search for one ends. */
  ghost predicate RoomThroughout(s: State, ops: seq<Op>)
    requires forall op | op in ops :: Proper(op)
    decreases |ops|
  {
    && |s.live| < U32 && |s.taskSets| < U32
    && (ops != [] ==> RoomThroughout(Step(s, ops[0]), ops[1..]))
  }

  // ---- primitive promises, wherever they are ----------------------------------------------

  function Leaves(p: Promise): multiset<nat>
    decreases p, 0
  {
    match p
    case Primitive(id) => multiset{id}
    case Then(a, b) => Leaves(a) + Leaves(b)
    case Catch(a, b) => Leaves(a) + Leaves(b)
    case All(parts) => AllLeaves(parts)
    case Race(a, b) => Leaves(a) + Leaves(b)
  }

  function AllLeaves(parts: seq<Promise>): multiset<nat>
    decreases parts, |parts|
  {
    if parts == [] then multiset{} else Leaves(parts[0]) + AllLeaves(parts[1..])
  }

  /** Every primitive promise held by a live id or a task set, or being waited for. */
  ghost function Held(s: State): multiset<nat> {
    Sum(s.live, Leaves) + Sum(s.taskSets, AllLeaves) + s.waitedFor
  }

  ghost predicate Linear(s: State) {
    && (forall p :: Held(s)[p] <= 1)
    && (forall p | p in Held(s) :: p < s.made)
  }

  /** Every id ever issued is either live or retired, and none is both. */
  ghost predicate Accounted(s: State) {
    s.live.Keys !! s.retired && s.live.Keys + s.retired == s.issued
  }

  ghost predicate Inv(s: State) {
    Linear(s) && Accounted(s)
  }

  // ---- what a combination takes -----------------------------------------------------------

  /** The promises taken, also those taken before a failure. */
  ghost function TakenParts(s: State, ids: seq<uint32>): seq<Promise>
    decreases |ids|
  {
    if ids == [] || ids[0] !in s.live then []
    else [s.live[ids[0]]] + TakenParts(Take(s, ids[0]).0, ids[1..])
  }

  /** `k` is the first position whose id is not live, or has come before; the length if there is none. */
  ghost predicate ValidPrefix(s: State, ids: seq<uint32>, k: nat) {
    && k <= |ids|
    && (forall i | 0 <= i < k :: ids[i] in s.live)
    && Distinct(ids[..k])
    && (k < |ids| ==> ids[k] !in s.live || ids[k] in ids[..k])
  }

  lemma {:induction false} ValidPrefixExists(s: State, ids: seq<uint32>)
    ensures exists k: nat :: ValidPrefix(s, ids, k)
    decreases |ids|
  {
    if ids == [] {
      assert ValidPrefix(s, ids, 0);
    } else {
      var front := ids[..|ids| - 1];
      ValidPrefixExists(s, front);
      var k: nat :| ValidPrefix(s, front, k);
      assert ids[..k] == front[..k];
      if k == |front| && ids[k] in s.live && ids[k] !in ids[..k] {
        assert ValidPrefix(s, ids, |ids|);
      } else {
        assert ValidPrefix(s, ids, k);
      }
    }
  }

  /** The first id is taken, and the rest of the list has the rest of the prefix. */
  lemma PrefixAfterTake(s: State, ids: seq<uint32>, k: nat)
    requires ValidPrefix(s, ids, k) && k > 0
    ensures ValidPrefix(Take(s, ids[0]).0, ids[1..], k - 1)
    ensures ids[..k] == [ids[0]] + ids[1..][..k - 1] && ids[0] !in ids[1..][..k - 1]
  {
    var rest := ids[1..][..k - 1];
    assert ids[..k] == [ids[0]] + rest;
    forall i, j | 0 <= i < j < |rest|
      ensures rest[i] != rest[j]
    {
      assert rest[i] == ids[..k][i + 1] && rest[j] == ids[..k][j + 1];
    }
    assert forall i | 0 <= i < |rest| :: rest[i] == ids[..k][i + 1] && ids[..k][i + 1] != ids[..k][0];
    assert k < |ids| ==> ids[1..][k - 1] == ids[k];
  }

  lemma {:induction false} TakeAllExact(s: State, ids: seq<uint32>, k: nat)
    requires ValidPrefix(s, ids, k)
    ensures TakeAll(s, ids).0
            == s.(live := s.live - Elems(ids[..k]), retired := s.retired + Elems(ids[..k]))
    ensures TakeAll(s, ids).1
            == if k == |ids| then Ok(TakenParts(s, ids))
               else if ids[k] in s.retired || ids[k] in ids[..k] then Err(AlreadyConsumed(ids[k]))
               else Err(UnknownPromise(ids[k]))
    decreases |ids|
  {
    if k == 0 {
      assert s.live - Elems(ids[..0]) == s.live;
    } else {
      var s1, rest := Take(s, ids[0]).0, ids[1..];
      PrefixAfterTake(s, ids, k);
      TakeAllExact(s1, rest, k - 1);
      assert Elems(ids[..k]) == {ids[0]} + Elems(rest[..k - 1]);
      assert s.live - {ids[0]} - Elems(rest[..k - 1]) == s.live - Elems(ids[..k]);
    }
  }

  /** What is taken is what the ids of the prefix stood for. */
  lemma {:induction false} TakenPartsAt(s: State, ids: seq<uint32>, k: nat, i: nat)
    requires ValidPrefix(s, ids, k)
    ensures |TakenParts(s, ids)| == k && (i < k ==> TakenParts(s, ids)[i] == s.live[ids[i]])
    decreases |ids|
  {
    if k > 0 {
      PrefixAfterTake(s, ids, k);
      TakenPartsAt(Take(s, ids[0]).0, ids[1..], k - 1, if i == 0 then 0 else i - 1);
    }
  }

  // ---- conservation -----------------------------------------------------------------------

  lemma {:induction false} LeavesOfAppend(a: seq<Promise>, b: seq<Promise>)
    ensures AllLeaves(a + b) == AllLeaves(a) + AllLeaves(b)
  {
    if a == [] {
      assert a + b == b;
    } else {
      assert (a + b)[0] == a[0] && (a + b)[1..] == a[1..] + b;
      calc {
        AllLeaves(a + b);
        Leaves(a[0]) + AllLeaves(a[1..] + b);
        { LeavesOfAppend(a[1..], b); }
        Leaves(a[0]) + AllLeaves(a[1..]) + AllLeaves(b);
      }
    }
  }

  lemma LeavesOfLast(parts: seq<Promise>, p: Promise)
    ensures AllLeaves(parts + [p]) == AllLeaves(parts) + Leaves(p)
  {
    LeavesOfAppend(parts, [p]);
    assert AllLeaves([p]) == Leaves(p) + AllLeaves([p][1..]);
  }

  lemma {:induction false} LeavesOfRace(parts: seq<Promise>)
    requires parts != []
    ensures Leaves(RaceOf(parts)) == AllLeaves(parts)
    decreases |parts|
  {
    var front, last := parts[..|parts| - 1], parts[|parts| - 1];
    assert parts == front + [last];
    LeavesOfLast(front, last);
    if |parts| > 1 {
      LeavesOfRace(front);
    }
  }

  /** A combined promise is made of exactly the primitive promises of its parts. */
  lemma BuildKeepsLeaves(kind: Kind, parts: seq<Promise>)
    requires Fits(kind, |parts|)
    ensures Leaves(Build(kind, parts)) == AllLeaves(parts)
  {
    match kind
    case RaceKind => LeavesOfRace(parts);
    case AllKind =>
    case _ =>
      assert parts == [parts[0]] + [parts[1]];
      LeavesOfLast([parts[0]], parts[1]);
      LeavesOfLast([], parts[0]);
      assert [] + [parts[0]] == [parts[0]];
  }

  lemma TakeConserves(s: State, id: uint32)
    requires id in s.live
    ensures Held(Take(s, id).0) + Leaves(s.live[id]) == Held(s)
  {
    SumWithout(s.live, Leaves, id);
  }

  lemma {:induction false} TakeAllConserves(s: State, ids: seq<uint32>)
    ensures Held(TakeAll(s, ids).0) + AllLeaves(TakenParts(s, ids)) == Held(s)
    ensures TakeAll(s, ids).1.Ok? ==> TakeAll(s, ids).1.value == TakenParts(s, ids)
    decreases |ids|
  {
    if ids != [] && ids[0] in s.live {
      TakeConserves(s, ids[0]);
      var s1 := Take(s, ids[0]).0;
      TakeAllConserves(s1, ids[1..]);
      var rest := TakenParts(s1, ids[1..]);
      assert ([s.live[ids[0]]] + rest)[1..] == rest;
    }
  }

  lemma AddConserves(s: State, p: Promise)
    requires |s.live| < U32
    ensures Held(Add(s, p)) == Held(s) + Leaves(p)
  {
    assert |s.live.Keys| == |s.live|;
    NextFreeIsNext(s.live.Keys, s.next);
    SumWith(s.live, Leaves, NewId(s), p);
  }

  lemma {:induction false} TakeAllShrinks(s: State, ids: seq<uint32>)
    ensures var s' := TakeAll(s, ids).0;
            && |s'.live| <= |s.live|
            && s' == s.(live := s'.live, retired := s'.retired)
            && (Accounted(s) ==> Accounted(s'))
    decreases |ids|
  {
    if ids != [] && ids[0] in s.live {
      assert |s.live - {ids[0]}| <= |s.live| by { FewerKeys(s.live, ids[0]); }
      TakeAllShrinks(Take(s, ids[0]).0, ids[1..]);
    }
  }

  lemma FewerKeys<T>(m: map<uint32, T>, k: uint32)
    requires k in m
    ensures |m - {k}| + 1 == |m|
  {
    assert (m - {k}).Keys == m.Keys - {k};
    assert |m.Keys| == |m| && |(m - {k}).Keys| == |m - {k}|;
  }

  /**
   No primitive promise is made or copied by combining: a success keeps them all, and a failure
   loses exactly those of the promises taken before it.
   */
  lemma CombineConserves(s: State, kind: Kind, ids: seq<uint32>)
    requires (kind == RaceKind || Fits(kind, |ids|)) && |s.live| < U32
    ensures Combine(s, kind, ids).1.Ok? ==> Held(Combine(s, kind, ids).0) == Held(s)
    ensures Combine(s, kind, ids).1.Err? ==>
              Held(Combine(s, kind, ids).0) + AllLeaves(TakenParts(s, ids)) == Held(s)
  {
    if !(kind == RaceKind && ids == []) {
      TakenLength(s, ids);
      TakeAllConserves(s, ids);
      TakeAllShrinks(s, ids);
      var (s', taken) := TakeAll(s, ids);
      if taken.Ok? {
        BuildKeepsLeaves(kind, taken.value);
        AddConserves(s', Build(kind, taken.value));
      }
    }
  }

  /**
   With `k` the length of the valid prefix: a combination succeeds exactly if the whole list is
   valid, and then retires its ids and adds one, unused so far, for the combined promise. Otherwise
   it retires exactly the prefix, adds nothing, and names the id it stopped at.
   */
  lemma CombineExact(s: State, kind: Kind, ids: seq<uint32>, k: nat)
    requires (kind == RaceKind || Fits(kind, |ids|)) && !(kind == RaceKind && ids == [])
    requires ValidPrefix(s, ids, k) && |s.live| < U32
    ensures var (s', r) := Combine(s, kind, ids); var parts := TakenParts(s, ids);
            var left, gone := s.live - Elems(ids[..k]), s.retired + Elems(ids[..k]);
            && |parts| == k && (forall i | 0 <= i < k :: parts[i] == s.live[ids[i]])
            && (r.Ok? <==> k == |ids|)
            && (r.Ok? ==> r.value !in left && s'.live == left[r.value := Build(kind, parts)]
                          && s'.retired == gone - {r.value} && s'.issued == s.issued + {r.value})
            && (r.Err? ==> s' == s.(live := left, retired := gone))
            && (r.Err? ==> r.error == if ids[k] in gone then AlreadyConsumed(ids[k]) else UnknownPromise(ids[k]))
  {
    TakenLength(s, ids);
    TakeAllExact(s, ids, k);
    forall i | 0 <= i < k
      ensures |TakenParts(s, ids)| == k && TakenParts(s, ids)[i] == s.live[ids[i]]
    {
      TakenPartsAt(s, ids, k, i);
    }
    TakenPartsAt(s, ids, k, k);
    var s1 := TakeAll(s, ids).0;
    TakeAllShrinks(s, ids);
    assert |s1.live.Keys| == |s1.live|;
    NextFreeIsNext(s1.live.Keys, s1.next);
  }

  // ---- over whole runs --------------------------------------------------------------------

  lemma FewerStayLinear(s: State, s': State)
    requires Linear(s) && Held(s') <= Held(s) && s'.made == s.made
    ensures Linear(s')
  {
    forall p ensures Held(s')[p] <= 1 { assert Held(s')[p] <= Held(s)[p]; }
    forall p | p in Held(s') ensures p < s'.made { assert p in Held(s); }
  }

  lemma CombineHoldsNoMore(s: State, kind: Kind, ids: seq<uint32>)
    requires |s.live| < U32 && (kind == RaceKind || Fits(kind, |ids|))
    ensures Held(Combine(s, kind, ids).0) <= Held(s)
  {
    CombineConserves(s, kind, ids);
    if Combine(s, kind, ids).1.Err? {
      PartOfSum(Held(Combine(s, kind, ids).0), AllLeaves(TakenParts(s, ids)), Held(s));
    }
  }

  lemma PartOfSum(a: multiset<nat>, b: multiset<nat>, whole: multiset<nat>)
    requires a + b == whole
    ensures a <= whole
  {
    assert a <= a + b;
  }

  lemma CombineMakesNone(s: State, kind: Kind, ids: seq<uint32>)
    requires kind == RaceKind || Fits(kind, |ids|)
    ensures Combine(s, kind, ids).0.made == s.made
  {
    if !(kind == RaceKind && ids == []) {
      TakenLength(s, ids);
      TakeAllShrinks(s, ids);
    }
  }

  lemma CombineKeepsInv(s: State, kind: Kind, ids: seq<uint32>)
    requires Inv(s) && |s.live| < U32 && (kind == RaceKind || Fits(kind, |ids|))
    ensures Inv(Combine(s, kind, ids).0)
  {
    CombineKeepsAccounted(s, kind, ids);
    CombineHoldsNoMore(s, kind, ids);
    CombineMakesNone(s, kind, ids);
    FewerStayLinear(s, Combine(s, kind, ids).0);
  }

  lemma AddKeepsAccounted(s: State, p: Promise)
    requires Accounted(s) && |s.live| < U32
    ensures Accounted(Add(s, p))
  {
    assert |s.live.Keys| == |s.live|;
    NextFreeIsNext(s.live.Keys, s.next);
  }

  lemma CombineKeepsAccounted(s: State, kind: Kind, ids: seq<uint32>)
    requires Accounted(s) && |s.live| < U32 && (kind == RaceKind || Fits(kind, |ids|))
    ensures Accounted(Combine(s, kind, ids).0)
  {
    if !(kind == RaceKind && ids == []) {
      TakenLength(s, ids);
      TakeAllShrinks(s, ids);
      var (s1, taken) := TakeAll(s, ids);
      if taken.Ok? {
        AddKeepsAccounted(s1, Build(kind, taken.value));
      }
    }
  }

  lemma PrimitiveKeepsInv(s: State)
    requires Inv(s) && |s.live| < U32
    ensures Inv(AddPrimitive(s))
  {
    AddKeepsAccounted(s, Primitive(s.made));
    AddConserves(s, Primitive(s.made));
    assert Held(AddPrimitive(s)) == Held(s) + multiset{s.made};
    assert s.made !in Held(s);
  }

  /** A promise being waited for is still there, a released one is not. */
  lemma AwaitConserves(s: State, id: uint32)
    requires id in s.live
    ensures Held(Await(s, id).0) == Held(s)
    ensures Held(Release(s, id).0) + Leaves(s.live[id]) == Held(s)
  {
    TakeConserves(s, id);
  }

  lemma AwaitKeepsInv(s: State, id: uint32)
    requires Inv(s)
    ensures Inv(Await(s, id).0) && Inv(Release(s, id).0)
  {
    if id in s.live {
      AwaitConserves(s, id);
      FewerStayLinear(s, Await(s, id).0);
      FewerStayLinear(s, Release(s, id).0);
    }
  }

  /** What leaves one side and joins the other is still there. */
  lemma Moved(from: multiset<nat>, from': multiset<nat>, to: multiset<nat>, to': multiset<nat>,
              was: multiset<nat>, what: multiset<nat>)
    requires from' + what == from && to' + was == to + (was + what)
    ensures from' + to' == from + to
  {
    forall x: nat
      ensures (from' + to')[x] == (from + to)[x]
    {
      assert from[x] == from'[x] + what[x];
      assert (to' + was)[x] == (to + (was + what))[x];
    }
  }

  lemma AddTaskConserves(s: State, taskSet: uint32, id: uint32)
    requires taskSet in s.taskSets && id in s.live
    ensures Held(AddTask(s, taskSet, id).0) == Held(s)
  {
    var tasks, p := s.taskSets[taskSet], s.live[id];
    SumWithout(s.live, Leaves, id);
    LeavesOfLast(tasks, p);
    SumUpdate(s.taskSets, AllLeaves, taskSet, tasks + [p]);
    Moved(Sum(s.live, Leaves), Sum(s.live - {id}, Leaves),
          Sum(s.taskSets, AllLeaves), Sum(s.taskSets[taskSet := tasks + [p]], AllLeaves),
          AllLeaves(tasks), Leaves(p));
  }

  /** Whatever replaces the tasks of a set holds no more than they did. */
  lemma FewerTasks(s: State, taskSet: uint32, tasks: seq<Promise>)
    requires taskSet in s.taskSets && AllLeaves(tasks) <= AllLeaves(s.taskSets[taskSet])
    ensures Held(s.(taskSets := s.taskSets[taskSet := tasks])) <= Held(s)
    ensures Held(s.(taskSets := s.taskSets - {taskSet})) <= Held(s)
  {
    SumUpdateLess(s.taskSets, AllLeaves, taskSet, tasks);
  }

  lemma {:induction false} LeavesWithoutOne(tasks: seq<Promise>, i: nat)
    requires i < |tasks|
    ensures AllLeaves(tasks[..i] + tasks[i + 1..]) <= AllLeaves(tasks)
  {
    var left := tasks[..i] + tasks[i + 1..];
    if i == 0 {
      assert left == tasks[1..];
    } else {
      var rest := tasks[1..];
      assert left[0] == tasks[0] && left[1..] == rest[..i - 1] + rest[i..];
      LeavesWithoutOne(rest, i - 1);
      WithFirst(Leaves(tasks[0]), AllLeaves(left[1..]), AllLeaves(rest));
    }
  }

  lemma WithFirst(first: multiset<nat>, a: multiset<nat>, b: multiset<nat>)
    requires a <= b
    ensures first + a <= first + b
  {
  }

  lemma FinishKeepsInv(s: State, taskSet: uint32, i: nat)
    requires Inv(s)
    ensures Inv(FinishTask(s, taskSet, i))
  {
    if taskSet in s.taskSets && i < |s.taskSets[taskSet]| {
      var tasks := s.taskSets[taskSet];
      LeavesWithoutOne(tasks, i);
      FewerTasks(s, taskSet, tasks[..i] + tasks[i + 1..]);
      FewerStayLinear(s, FinishTask(s, taskSet, i));
    }
  }

  lemma NewTaskSetKeepsInv(s: State)
    requires Inv(s) && |s.taskSets| < U32
    ensures Inv(NewTaskSet(s))
  {
    var id := NextFree(s.taskSets.Keys, s.nextTaskSet);
    assert |s.taskSets.Keys| == |s.taskSets|;
    NextFreeIsNext(s.taskSets.Keys, s.nextTaskSet);
    SumWith(s.taskSets, AllLeaves, id, []);
    assert Held(NewTaskSet(s)) == Held(s);
    FewerStayLinear(s, NewTaskSet(s));
  }

  lemma AddTaskKeepsInv(s: State, taskSet: uint32, id: uint32)
    requires Inv(s)
    ensures Inv(AddTask(s, taskSet, id).0)
  {
    if taskSet in s.taskSets && id in s.live {
      var s' := AddTask(s, taskSet, id).0;
      assert Linear(s') by {
        AddTaskConserves(s, taskSet, id);
        FewerStayLinear(s, s');
      }
      assert s'.live.Keys == s.live.Keys - {id} && s'.retired == s.retired + {id} && s'.issued == s.issued;
    }
  }

  lemma ReleaseKeepsInv(s: State, taskSet: uint32)
    requires Inv(s)
    ensures Inv(ReleaseTaskSet(s, taskSet).0)
  {
    if taskSet in s.taskSets {
      FewerTasks(s, taskSet, []);
      FewerStayLinear(s, ReleaseTaskSet(s, taskSet).0);
    }
  }

  lemma ClearKeepsInv(s: State, taskSet: uint32)
    requires Inv(s)
    ensures Inv(ClearTaskSet(s, taskSet).0)
  {
    if taskSet in s.taskSets {
      FewerTasks(s, taskSet, []);
      FewerStayLinear(s, ClearTaskSet(s, taskSet).0);
    }
  }

  lemma StepKeepsInv(s: State, op: Op)
    requires Inv(s) && |s.live| < U32 && |s.taskSets| < U32 && Proper(op)
    ensures Inv(Step(s, op))
  {
    match op
    case DoCombine(kind, ids) => CombineKeepsInv(s, kind, ids);
    case DoPrimitive => PrimitiveKeepsInv(s);
    case DoAwait(id) => AwaitKeepsInv(s, id);
    case DoRelease(id) => AwaitKeepsInv(s, id);
    case DoCancel(_) =>
    case DoNewTaskSet => NewTaskSetKeepsInv(s);
    case DoAddTask(taskSet, id) => AddTaskKeepsInv(s, taskSet, id);
    case DoReleaseTaskSet(taskSet) => ReleaseKeepsInv(s, taskSet);
    case DoClearTaskSet(taskSet) => ClearKeepsInv(s, taskSet);
    case DoFinishTask(taskSet, i) => FinishKeepsInv(s, taskSet, i);
  }

  lemma {:induction false} RunKeepsInv(s: State, ops: seq<Op>)
    requires Inv(s) && (forall op | op in ops :: Proper(op)) && RoomThroughout(s, ops)
    ensures Inv(Run(s, ops))
    decreases |ops|
  {
    if ops != [] {
      StepKeepsInv(s, ops[0]);
      RunKeepsInv(Step(s, ops[0]), ops[1..]);
    }
  }

  /**
   Over any run, even one whose ids wrap around: every primitive promise is in at most one place of
   one tree of one live id, task set or waiter, and every id issued is either live or retired, not both.
   */
  lemma PromisesAreLinear(ops: seq<Op>)
    requires (forall op | op in ops :: Proper(op)) && RoomThroughout(EMPTY, ops)
    ensures Linear(Run(EMPTY, ops)) && Accounted(Run(EMPTY, ops))
  {
    RunKeepsInv(EMPTY, ops);
  }

  // ---- an id is good for one use ----------------------------------------------------------

  ghost predicate Unwrapped(s: State) {
    forall id | id in s.issued :: id < s.next
  }

  predicate Issues(op: Op) {
    op.DoCombine? || op.DoPrimitive?
  }

  function IssuesOf(ops: seq<Op>): nat {
    if ops == [] then 0 else (if Issues(ops[0]) then 1 else 0) + IssuesOf(ops[1..])
  }

  lemma AddKeepsRetired(s: State, p: Promise)
    requires Accounted(s) && Unwrapped(s) && s.next as int + 1 < U32
    ensures Unwrapped(Add(s, p)) && Add(s, p).retired == s.retired && Add(s, p).next == s.next + 1
  {
    assert forall id | id in s.live.Keys :: id in s.issued;
    NextFreeUnwrapped(s.live.Keys, s.next);
    assert s.next !in s.issued;
    assert s.retired <= s.issued;
  }

  lemma CombineKeepsRetired(s: State, kind: Kind, ids: seq<uint32>)
    requires Inv(s) && Unwrapped(s) && s.next as int + 1 < U32 && (kind == RaceKind || Fits(kind, |ids|))
    ensures var s' := Combine(s, kind, ids).0;
            Unwrapped(s') && s.retired <= s'.retired && s.next <= s'.next <= s.next + 1
  {
    if !(kind == RaceKind && ids == []) {
      TakenLength(s, ids);
      TakeAllShrinks(s, ids);
      var k: nat :| ValidPrefix(s, ids, k) by { ValidPrefixExists(s, ids); }
      TakeAllExact(s, ids, k);
      var (s1, taken) := TakeAll(s, ids);
      if taken.Ok? {
        AddKeepsRetired(s1, Build(kind, taken.value));
      }
    }
  }

  lemma StepKeepsRetired(s: State, op: Op)
    requires Inv(s) && Unwrapped(s) && s.next as int + 1 < U32 && Proper(op)
    ensures Unwrapped(Step(s, op)) && s.retired <= Step(s, op).retired
    ensures s.next <= Step(s, op).next <= if Issues(op) then s.next + 1 else s.next
  {
    match op
    case DoCombine(kind, ids) => CombineKeepsRetired(s, kind, ids);
    case DoPrimitive => AddKeepsRetired(s, Primitive(s.made));
    case _ =>
  }

  lemma {:induction false} RetiredForGood(s: State, ops: seq<Op>, id: uint32)
    requires Inv(s) && Unwrapped(s) && (forall op | op in ops :: Proper(op)) && RoomThroughout(s, ops)
    requires s.next as int + IssuesOf(ops) + 1 < U32 && id in s.retired
    ensures id in Run(s, ops).retired && Inv(Run(s, ops))
    decreases |ops|
  {
    if ops != [] {
      StepKeepsInv(s, ops[0]);
      StepKeepsRetired(s, ops[0]);
      RetiredForGood(Step(s, ops[0]), ops[1..], id);
    }
  }

  // ---- the code ---------------------------------------------------------------------------

  /** The outcome of taking `ids` when `taken` have been taken before them. */
  ghost function After(s: State, taken: seq<Promise>, ids: seq<uint32>): (State, Result<seq<Promise>, Error>) {
    var (s', r) := TakeAll(s, ids);
    (s', if r.Err? then r else Ok(taken + r.value))
  }

  lemma TakeNext(s: State, taken: seq<Promise>, ids: seq<uint32>, i: nat)
    requires i < |ids|
    ensures var (s', r) := Take(s, ids[i]);
            After(s, taken, ids[i..])
            == if r.Err? then (s', Err(r.error)) else After(s', taken + [r.value], ids[i + 1..])
  {
    var (s', r) := Take(s, ids[i]);
    assert ids[i..][1..] == ids[i + 1..];
    if r.Ok? {
      var rest := TakeAll(s', ids[i + 1..]).1;
      if rest.Ok? {
        assert taken + ([r.value] + rest.value) == taken + [r.value] + rest.value;
      }
    }
  }

  lemma AfterEnds(s: State, taken: seq<Promise>, ids: seq<uint32>)
    ensures After(s, taken, ids[|ids|..]) == (s, Ok(taken))
    ensures After(s, [], ids[0..]) == TakeAll(s, ids)
  {
    assert ids[0..] == ids && taken + [] == taken;
    var all := TakeAll(s, ids).1;
    assert all.Ok? ==> [] + all.value == all.value;
  }

  lemma RaceMore(parts: seq<Promise>, p: Promise)
    requires parts != []
    ensures RaceOf(parts + [p]) == Race(RaceOf(parts), p)
  {
    assert (parts + [p])[..|parts|] == parts;
  }

  lemma TakeTwo(s: State, a: uint32, b: uint32)
    ensures var (s1, first) := Take(s, a);
            TakeAll(s, [a, b]) == if first.Err? then (s1, Err(first.error)) else
              var (s2, second) := Take(s1, b);
              (s2, if second.Err? then Err(second.error) else Ok([first.value, second.value]))
  {
    var (s1, first) := Take(s, a);
    AfterEnds(s, [], [a, b]);
    TakeNext(s, [], [a, b], 0);
    if first.Ok? {
      assert [] + [first.value] == [first.value] && [a, b][2..] == [a, b][|[a, b]|..];
      TakeNext(s1, [first.value], [a, b], 1);
      var (s2, second) := Take(s1, b);
      if second.Ok? {
        AfterEnds(s2, [first.value, second.value], [a, b]);
        assert [first.value] + [second.value] == [first.value, second.value];
      }
    }
  }

  class KjAsyncPromises {
    var kjAsyncPromises: map<uint32, Promise>
    var retiredKjAsyncPromises: set<uint32>
    var nextKjAsyncPromiseId: uint32
    var kjAsyncTaskSets: map<uint32, seq<Promise>>
    var nextKjAsyncTaskSetId: uint32
    /** Identities for the primitive promises, which in the code are objects of their own. */
    var made: nat
    ghost var issued: set<uint32>
    ghost var waitedFor: multiset<nat>

    ghost function Abs(): State
      reads this
    {
      State(kjAsyncPromises, retiredKjAsyncPromises, nextKjAsyncPromiseId, kjAsyncTaskSets, nextKjAsyncTaskSetId,
            made, issued, waitedFor)
    }

    /** Live and retired ids are apart, and together all that were issued. */
    ghost predicate Valid()
      reads this
    {
      Accounted(Abs())
    }

    constructor ()
      ensures Valid() && Abs() == EMPTY
    {
      kjAsyncPromises, retiredKjAsyncPromises, nextKjAsyncPromiseId := map[], {}, 1;
      kjAsyncTaskSets, nextKjAsyncTaskSetId := map[], 1;
      made, issued, waitedFor := 0, {}, multiset{};
    }

    method AddKjAsyncPromise(promise: Promise) returns (id: uint32)
      requires |kjAsyncPromises| < U32
      modifies this
      ensures Abs() == Add(old(Abs()), promise) && id == NewId(old(Abs()))
      ensures id !in old(kjAsyncPromises) && kjAsyncPromises == old(kjAsyncPromises)[id := promise]
    {
      assert |kjAsyncPromises.Keys| == |kjAsyncPromises|;
      id, nextKjAsyncPromiseId := Allocate(kjAsyncPromises.Keys, nextKjAsyncPromiseId);
      retiredKjAsyncPromises := retiredKjAsyncPromises - {id};
      kjAsyncPromises := kjAsyncPromises[id := promise];
      issued := issued + {id};
    }

    /** A timer, or the end of all tasks of a set: a promise the outside world settles. */
    method AddPrimitivePromise() returns (id: uint32)
      requires Valid() && |kjAsyncPromises| < U32
      modifies this
      ensures Valid() && Abs() == AddPrimitive(old(Abs())) && id == NewId(old(Abs()))
      ensures id !in old(kjAsyncPromises) && kjAsyncPromises == old(kjAsyncPromises)[id := Primitive(old(made))]
    {
      AddKeepsAccounted(Abs(), Primitive(made));
      id := AddKjAsyncPromise(Primitive(made));
      made := made + 1;
    }

    method TakeKjAsyncPromise(id: uint32) returns (r: Result<Promise, Error>)
      modifies this`kjAsyncPromises, this`retiredKjAsyncPromises
      ensures (Abs(), r) == Take(old(Abs()), id)
    {
      if id !in kjAsyncPromises {
        if id in retiredKjAsyncPromises {
          return Err(AlreadyConsumed(id));
        }
        return Err(UnknownPromise(id));
      }
      r := Ok(kjAsyncPromises[id]);
      kjAsyncPromises := kjAsyncPromises - {id};
      retiredKjAsyncPromises := retiredKjAsyncPromises + {id};
    }

    /** The promise to wait for, if the id still has one. */
    method AwaitKjAsyncPromise(id: uint32) returns (r: Result<(), Error>, awaited: Option<Promise>)
      requires Valid()
      modifies this`kjAsyncPromises, this`retiredKjAsyncPromises, this`waitedFor
      ensures Valid() && (Abs(), r) == Await(old(Abs()), id)
      ensures awaited == if id in old(kjAsyncPromises) then Some(old(kjAsyncPromises)[id]) else None
      ensures id !in kjAsyncPromises && kjAsyncPromises == old(kjAsyncPromises) - {id}
      ensures r.Ok? <==> id in retiredKjAsyncPromises
    {
      awaited := None;
      if id !in kjAsyncPromises {
        assert kjAsyncPromises - {id} == kjAsyncPromises;
        if id in retiredKjAsyncPromises {
          return Ok(()), None;
        }
        return Err(UnknownPromise(id)), None;
      }
      awaited := Some(kjAsyncPromises[id]);
      waitedFor := waitedFor + Leaves(kjAsyncPromises[id]);
      kjAsyncPromises := kjAsyncPromises - {id};
      retiredKjAsyncPromises := retiredKjAsyncPromises + {id};
      r := Ok(());
    }

    method ReleaseKjAsyncPromise(id: uint32) returns (r: Result<(), Error>)
      requires Valid()
      modifies this`kjAsyncPromises, this`retiredKjAsyncPromises
      ensures Valid() && (Abs(), r) == Release(old(Abs()), id)
      ensures id !in kjAsyncPromises && kjAsyncPromises == old(kjAsyncPromises) - {id}
      ensures r.Ok? <==> id in retiredKjAsyncPromises
    {
      if id !in kjAsyncPromises {
        assert kjAsyncPromises - {id} == kjAsyncPromises;
        if id in retiredKjAsyncPromises {
          return Ok(());
        }
        return Err(UnknownPromise(id));
      }
      kjAsyncPromises := kjAsyncPromises - {id};
      retiredKjAsyncPromises := retiredKjAsyncPromises + {id};
      r := Ok(());
    }

    method KjAsyncPromiseThenStart(first: uint32, second: uint32) returns (r: Result<uint32, Error>)
      requires Valid() && |kjAsyncPromises| < U32
      modifies this
      ensures Valid() && (Abs(), r) == Combine(old(Abs()), ThenKind, [first, second])
    {
      ghost var end := Combine(Abs(), ThenKind, [first, second]).0;
      CombineKeepsAccounted(Abs(), ThenKind, [first, second]);
      TakeAllShrinks(Abs(), [first, second]);
      TakeTwo(Abs(), first, second);
      var firstPending := TakeKjAsyncPromise(first);
      if firstPending.Err? {
        assert Abs() == end;
        return Err(firstPending.error);
      }
      var secondPending := TakeKjAsyncPromise(second);
      if secondPending.Err? {
        assert Abs() == end;
        return Err(secondPending.error);
      }
      var id := AddKjAsyncPromise(Then(firstPending.value, secondPending.value));
      assert Abs() == end;
      r := Ok(id);
    }

    method KjAsyncPromiseCatchStart(promise: uint32, fallback: uint32) returns (r: Result<uint32, Error>)
      requires Valid() && |kjAsyncPromises| < U32
      modifies this
      ensures Valid() && (Abs(), r) == Combine(old(Abs()), CatchKind, [promise, fallback])
    {
      ghost var end := Combine(Abs(), CatchKind, [promise, fallback]).0;
      CombineKeepsAccounted(Abs(), CatchKind, [promise, fallback]);
      TakeAllShrinks(Abs(), [promise, fallback]);
      TakeTwo(Abs(), promise, fallback);
      var firstPending := TakeKjAsyncPromise(promise);
      if firstPending.Err? {
        assert Abs() == end;
        return Err(firstPending.error);
      }
      var fallbackPending := TakeKjAsyncPromise(fallback);
      if fallbackPending.Err? {
        assert Abs() == end;
        return Err(fallbackPending.error);
      }
      var id := AddKjAsyncPromise(Catch(firstPending.value, fallbackPending.value));
      assert Abs() == end;
      r := Ok(id);
    }

    method KjAsyncPromiseAllStart(ids: seq<uint32>) returns (r: Result<uint32, Error>)
      requires Valid() && |kjAsyncPromises| < U32
      modifies this
      ensures Valid() && (Abs(), r) == Combine(old(Abs()), AllKind, ids)
    {
      ghost var end := Combine(Abs(), AllKind, ids).0;
      CombineKeepsAccounted(Abs(), AllKind, ids);
      TakeAllShrinks(Abs(), ids);
      ghost var before := Abs();
      var promises: seq<Promise> := [];
      AfterEnds(before, [], ids);
      for i := 0 to |ids|
        invariant TakeAll(before, ids) == After(Abs(), promises, ids[i..])
      {
        TakeNext(Abs(), promises, ids, i);
        var pending := TakeKjAsyncPromise(ids[i]);
        if pending.Err? {
          assert Abs() == end;
          return Err(pending.error);
        }
        promises := promises + [pending.value];
      }
      AfterEnds(Abs(), promises, ids);
      var id := AddKjAsyncPromise(All(promises));
      assert Abs() == end;
      r := Ok(id);
    }

    method KjAsyncPromiseRaceStart(ids: seq<uint32>) returns (r: Result<uint32, Error>)
      requires Valid() && |kjAsyncPromises| < U32
      modifies this
      ensures Valid() && (Abs(), r) == Combine(old(Abs()), RaceKind, ids)
    {
      ghost var end := Combine(Abs(), RaceKind, ids).0;
      CombineKeepsAccounted(Abs(), RaceKind, ids);
      if ids == [] {
        return Err(NothingToRace);
      }
      TakeAllShrinks(Abs(), ids);
      ghost var before := Abs();
      AfterEnds(before, [], ids);
      TakeNext(before, [], ids, 0);
      var firstPending := TakeKjAsyncPromise(ids[0]);
      if firstPending.Err? {
        assert Abs() == end;
        return Err(firstPending.error);
      }
      var raced := firstPending.value;
      ghost var promises := [raced];
      for i := 1 to |ids|
        invariant promises != [] && raced == RaceOf(promises)
        invariant TakeAll(before, ids) == After(Abs(), promises, ids[i..])
      {
        TakeNext(Abs(), promises, ids, i);
        var pending := TakeKjAsyncPromise(ids[i]);
        if pending.Err? {
          assert Abs() == end;
          return Err(pending.error);
        }
        raced := Race(raced, pending.value);
        RaceMore(promises, pending.value);
        promises := promises + [pending.value];
      }
      AfterEnds(Abs(), promises, ids);
      var id := AddKjAsyncPromise(raced);
      assert Abs() == end;
      r := Ok(id);
    }

    method KjAsyncTaskSetNew() returns (id: uint32)
      requires Valid() && |kjAsyncTaskSets| < U32
      modifies this`kjAsyncTaskSets, this`nextKjAsyncTaskSetId
      ensures Valid() && Abs() == NewTaskSet(old(Abs()))
      ensures id !in old(kjAsyncTaskSets) && kjAsyncTaskSets == old(kjAsyncTaskSets)[id := []]
    {
      assert |kjAsyncTaskSets.Keys| == |kjAsyncTaskSets|;
      id, nextKjAsyncTaskSetId := Allocate(kjAsyncTaskSets.Keys, nextKjAsyncTaskSetId);
      kjAsyncTaskSets := kjAsyncTaskSets[id := []];
    }

    method KjAsyncTaskSetRelease(taskSet: uint32) returns (r: Result<(), Error>)
      requires Valid()
      modifies this`kjAsyncTaskSets
      ensures Valid() && (Abs(), r) == ReleaseTaskSet(old(Abs()), taskSet)
    {
      var found := taskSet in kjAsyncTaskSets;
      kjAsyncTaskSets := kjAsyncTaskSets - {taskSet};
      if !found {
        assert kjAsyncTaskSets == old(kjAsyncTaskSets);
        return Err(UnknownTaskSet(taskSet));
      }
      r := Ok(());
    }

    method KjAsyncTaskSetAddPromise(taskSet: uint32, id: uint32) returns (r: Result<(), Error>)
      requires Valid()
      modifies this
      ensures Valid() && (Abs(), r) == AddTask(old(Abs()), taskSet, id)
    {
      if taskSet !in kjAsyncTaskSets {
        return Err(UnknownTaskSet(taskSet));
      }
      var pending := TakeKjAsyncPromise(id);
      if pending.Err? {
        return Err(pending.error);
      }
      kjAsyncTaskSets := kjAsyncTaskSets[taskSet := kjAsyncTaskSets[taskSet] + [pending.value]];
      r := Ok(());
    }

    method KjAsyncTaskSetClear(taskSet: uint32) returns (r: Result<(), Error>)
      requires Valid()
      modifies this`kjAsyncTaskSets
      ensures Valid() && (Abs(), r) == ClearTaskSet(old(Abs()), taskSet)
    {
      if taskSet !in kjAsyncTaskSets {
        return Err(UnknownTaskSet(taskSet));
      }
      kjAsyncTaskSets := kjAsyncTaskSets[taskSet := []];
      r := Ok(());
    }
  }
}

/**
 Promise capabilities whose resolution can be held back: a table of pending fulfillers, a queue of
 held resolves, and the set of fulfillers that have one.
 */
module PromiseCapabilities {
  import opened Words
  import opened IdAllocator
  import opened RemoteExceptions

  datatype Resolve = Resolve(fulfiller: uint32, target: uint32)

  /** The exception that a promise is rejected with. */
  datatype Reason = Reason(exceptionType: ExceptionType, message: string, detail: seq<byte>)

  /** What has become of a promise, in order. */
  datatype Settlement = Fulfilled(fulfiller: uint32, cap: Cap) | Rejected(fulfiller: uint32, reason: Reason)

  datatype Error =
    | AlreadyHeld
    | UnknownFulfiller(id: uint32)
    | NullTarget
    | ItselfAsTarget
    | UnknownTarget(target: uint32)

  /** `fulfillers` maps a pending fulfiller to the id of its own promise capability. */
  datatype State = State(
    targets: map<uint32, Cap>, nextTarget: uint32,
    fulfillers: map<uint32, uint32>, nextFulfiller: uint32,
    held: seq<Resolve>, heldIds: set<uint32>, hold: bool,
    log: seq<Settlement>)

  const EMPTY := State(map[], 1, map[], 1, [], {}, false, [])

  // ---- operations -------------------------------------------------------------------------

  /** Why `fulfiller` cannot be resolved to `target` now, a held resolve aside. */
  function Refusal(s: State, fulfiller: uint32, target: uint32): Option<Error> {
    if fulfiller !in s.fulfillers then Some(UnknownFulfiller(fulfiller))
    else if target == 0 then Some(NullTarget)
    else if target == s.fulfillers[fulfiller] then Some(ItselfAsTarget)
    else if target !in s.targets then Some(UnknownTarget(target))
    else None
  }

  function Settle(s: State, settlement: Settlement): State {
    s.(fulfillers := s.fulfillers - {settlement.fulfiller}, log := s.log + [settlement])
  }

  function FulfillNow(s: State, fulfiller: uint32, target: uint32): (State, Result<(), Error>) {
    var refusal := Refusal(s, fulfiller, target);
    if refusal.Some? then (s, Err(refusal.value))
    else (Settle(s, Fulfilled(fulfiller, s.targets[target])), Ok(()))
  }

  function Fulfill(s: State, fulfiller: uint32, target: uint32): (State, Result<(), Error>) {
    if fulfiller in s.heldIds then (s, Err(AlreadyHeld))
    else if !s.hold then FulfillNow(s, fulfiller, target)
    else
      var refusal := Refusal(s, fulfiller, target);
      if refusal.Some? then (s, Err(refusal.value))
      else (s.(held := s.held + [Resolve(fulfiller, target)], heldIds := s.heldIds + {fulfiller}), Ok(()))
  }

  function WithoutFirst(held: seq<Resolve>, fulfiller: uint32): seq<Resolve> {
    if held == [] then []
    else if held[0].fulfiller == fulfiller then held[1..]
    else [held[0]] + WithoutFirst(held[1..], fulfiller)
  }

  function DropHeld(s: State, fulfiller: uint32): State {
    if fulfiller !in s.heldIds then s
    else s.(heldIds := s.heldIds - {fulfiller}, held := WithoutFirst(s.held, fulfiller))
  }

  function Reject(s: State, fulfiller: uint32, reason: Reason): (State, Result<(), Error>) {
    var s' := DropHeld(s, fulfiller);
    if fulfiller !in s.fulfillers then (s', Err(UnknownFulfiller(fulfiller)))
    else (Settle(s', Rejected(fulfiller, reason)), Ok(()))
  }

  const RELEASED := Reason(Disconnected, "promise capability fulfiller released", [])

  function Release(s: State, fulfiller: uint32): State {
    var s' := DropHeld(s, fulfiller);
    if fulfiller !in s.fulfillers then s' else Settle(s', Rejected(fulfiller, RELEASED))
  }

  /** Resolves held entries first in first out; `done` counts those resolved so far. */
  function Flush(s: State, done: nat): (State, Result<nat, Error>)
    decreases |s.held|
  {
    if s.held == [] then (s, Ok(done))
    else
      var r := s.held[0];
      var s1 := s.(held := s.held[1..], heldIds := s.heldIds - {r.fulfiller});
      var (s', result) := FulfillNow(s1, r.fulfiller, r.target);
      if result.Err? then (s', Err(result.error)) else Flush(s', done + 1)
  }

  ghost function AddTarget(s: State, cap: Cap): State {
    var id := NextFree(s.targets.Keys, s.nextTarget);
    s.(targets := s.targets[id := cap], nextTarget := Ahead(id, 1))
  }

  function NewPromiseAt(s: State, cap: Cap, target: uint32, id: uint32): State {
    s.(targets := s.targets[target := cap], nextTarget := Ahead(target, 1),
       fulfillers := s.fulfillers[id := target], nextFulfiller := Ahead(id, 1))
  }

  /** A new promise: an id for the capability, and a fulfiller that knows it. */
  ghost function NewPromise(s: State, cap: Cap): State {
    NewPromiseAt(s, cap, NextFree(s.targets.Keys, s.nextTarget), NextFree(s.fulfillers.Keys, s.nextFulfiller))
  }

  datatype Op =
    | DoFulfill(fulfiller: uint32, target: uint32)
    | DoReject(fulfiller: uint32, reason: Reason)
    | DoRelease(fulfiller: uint32)
    | DoFlush
    | DoSetHold(enabled: bool)
    | DoNewPromise(cap: Cap)
    | DoAddTarget(cap: Cap)
    | DoDropTarget(target: uint32)

  ghost function Step(s: State, op: Op): State {
    match op
    case DoFulfill(f, t) => Fulfill(s, f, t).0
    case DoReject(f, reason) => Reject(s, f, reason).0
    case DoRelease(f) => Release(s, f)
    case DoFlush => Flush(s, 0).0
    case DoSetHold(enabled) => s.(hold := enabled)
    case DoNewPromise(cap) => NewPromise(s, cap)
    case DoAddTarget(cap) => AddTarget(s, cap)
    case DoDropTarget(t) => s.(targets := s.targets - {t})
  }

  ghost function Run(s: State, ops: seq<Op>): State
    decreases |ops|
  {
    if ops == [] then s else Run(Step(s, ops[0]), ops[1..])
  }

  // ---- queue, set and table agree ---------------------------------------------------------

  ghost function Fulfillers(held: seq<Resolve>): set<uint32> {
    set r | r in held :: r.fulfiller
  }

  ghost predicate OncePerFulfiller(held: seq<Resolve>) {
    forall i, j | 0 <= i < j < |held| :: held[i].fulfiller != held[j].fulfiller
  }

  ghost predicate Agree(s: State) {
    && OncePerFulfiller(s.held)
    && s.heldIds == Fulfillers(s.held)
    && (forall r | r in s.held :: r.fulfiller in s.fulfillers && r.target != 0 && r.target != s.fulfillers[r.fulfiller])
  }

  lemma {:induction false} WithoutFirstExact(held: seq<Resolve>, fulfiller: uint32)
    requires OncePerFulfiller(held)
    ensures OncePerFulfiller(WithoutFirst(held, fulfiller))
    ensures forall r :: r in WithoutFirst(held, fulfiller) <==> r in held && r.fulfiller != fulfiller
  {
    if held != [] {
      var first, rest := held[0], held[1..];
      assert held == [first] + rest;
      WithoutFirstExact(rest, fulfiller);
      assert forall r | r in rest :: r.fulfiller != first.fulfiller;
      if first.fulfiller != fulfiller {
        OncePutInFront(first, WithoutFirst(rest, fulfiller));
      }
    }
  }

  lemma OncePutInFront(first: Resolve, rest: seq<Resolve>)
    requires OncePerFulfiller(rest) && forall r | r in rest :: r.fulfiller != first.fulfiller
    ensures OncePerFulfiller([first] + rest)
  {
  }

  lemma {:induction false} WithoutFirstAt(held: seq<Resolve>, i: nat, fulfiller: uint32)
    requires i <= |held| && forall j | 0 <= j < i :: held[j].fulfiller != fulfiller
    requires i < |held| ==> held[i].fulfiller == fulfiller
    ensures WithoutFirst(held, fulfiller) == if i < |held| then held[..i] + held[i + 1..] else held
  {
    if i > 0 {
      WithoutFirstAt(held[1..], i - 1, fulfiller);
    }
  }

  lemma DropHeldAgrees(s: State, fulfiller: uint32)
    requires Agree(s)
    ensures Agree(DropHeld(s, fulfiller)) && fulfiller !in DropHeld(s, fulfiller).heldIds
    ensures Fulfillers(DropHeld(s, fulfiller).held) == s.heldIds - {fulfiller}
  {
    WithoutFirstExact(s.held, fulfiller);
    var s' := DropHeld(s, fulfiller);
    assert forall r | r in s.held && r.fulfiller != fulfiller :: fulfiller in s.heldIds ==> r in s'.held;
  }

  lemma SettleAgrees(s: State, settlement: Settlement)
    requires Agree(s) && settlement.fulfiller !in s.heldIds
    ensures Agree(Settle(s, settlement))
  {
    assert forall r | r in s.held :: r.fulfiller in s.heldIds;
  }

  lemma FulfillAgrees(s: State, fulfiller: uint32, target: uint32)
    requires Agree(s)
    ensures Agree(Fulfill(s, fulfiller, target).0)
  {
    if fulfiller !in s.heldIds && Refusal(s, fulfiller, target) == None {
      if s.hold {
        var held' := s.held + [Resolve(fulfiller, target)];
        assert forall r :: r in held' <==> r in s.held || r == Resolve(fulfiller, target);
        assert forall r | r in s.held :: r.fulfiller in s.heldIds;
        assert Resolve(fulfiller, target) in held';
      } else {
        SettleAgrees(s, Fulfilled(fulfiller, s.targets[target]));
      }
    }
  }

  /** The queue without its first entry. */
  function Popped(s: State): State
    requires s.held != []
  {
    s.(held := s.held[1..], heldIds := s.heldIds - {s.held[0].fulfiller})
  }

  lemma PoppedAgrees(s: State)
    requires Agree(s) && s.held != []
    ensures Agree(Popped(s)) && s.held[0].fulfiller !in Popped(s).heldIds
    ensures FulfillNow(Popped(s), s.held[0].fulfiller, s.held[0].target)
            == if s.held[0].target in s.targets then
                 (Settle(Popped(s), Fulfilled(s.held[0].fulfiller, s.targets[s.held[0].target])), Ok(()))
               else (Popped(s), Err(UnknownTarget(s.held[0].target)))
  {
    var r := s.held[0];
    assert r in s.held;
    assert forall q | q in s.held[1..] :: q in s.held && q.fulfiller != r.fulfiller;
    forall f | f in s.heldIds - {r.fulfiller}
      ensures f in Fulfillers(s.held[1..])
    {
      var q :| q in s.held && q.fulfiller == f;
      assert q in s.held[1..];
    }
  }

  lemma {:induction false} FlushAgrees(s: State, done: nat)
    requires Agree(s)
    ensures Agree(Flush(s, done).0)
    decreases |s.held|
  {
    if s.held != [] {
      PoppedAgrees(s);
      var r := s.held[0];
      if r.target in s.targets {
        SettleAgrees(Popped(s), Fulfilled(r.fulfiller, s.targets[r.target]));
        FlushAgrees(Settle(Popped(s), Fulfilled(r.fulfiller, s.targets[r.target])), done + 1);
      }
    }
  }

  lemma NewPromiseAgrees(s: State, cap: Cap)
    requires Agree(s) && |s.fulfillers| < U32
    ensures Agree(NewPromise(s, cap))
  {
    NextFreeIsNext(s.fulfillers.Keys, s.nextFulfiller);
    assert |s.fulfillers.Keys| == |s.fulfillers|;
  }

  /** Some id for a new fulfiller is left. */
  predicate HasRoom(s: State, op: Op) {
    op.DoNewPromise? ==> |s.fulfillers| < U32
  }

  lemma StepAgrees(s: State, op: Op)
    requires Agree(s) && HasRoom(s, op)
    ensures Agree(Step(s, op))
  {
    match op
    case DoFulfill(f, t) => FulfillAgrees(s, f, t);
    case DoReject(f, reason) =>
      DropHeldAgrees(s, f);
      SettleAgrees(DropHeld(s, f), Rejected(f, reason));
    case DoRelease(f) =>
      DropHeldAgrees(s, f);
      SettleAgrees(DropHeld(s, f), Rejected(f, RELEASED));
    case DoFlush => FlushAgrees(s, 0);
    case DoSetHold(_) =>
    case DoNewPromise(cap) => NewPromiseAgrees(s, cap);
    case DoAddTarget(_) =>
    case DoDropTarget(_) =>
  }

  // ---- what a flush does ------------------------------------------------------------------

  function Settlements(targets: map<uint32, Cap>, held: seq<Resolve>): (log: seq<Settlement>)
    requires forall r | r in held :: r.target in targets
    ensures |log| == |held|
    ensures forall i | 0 <= i < |held| :: log[i] == Fulfilled(held[i].fulfiller, targets[held[i].target])
  {
    seq(|held|, i requires 0 <= i < |held| => Fulfilled(held[i].fulfiller, targets[held[i].target]))
  }

  /** The first held entry whose target is gone, or the length of the queue. */
  function FirstGone(targets: map<uint32, Cap>, held: seq<Resolve>): (k: nat)
    ensures k <= |held|
    ensures k < |held| ==> held[k].target !in targets
    ensures forall i | 0 <= i < k :: held[i].target in targets
  {
    if held == [] || held[0].target !in targets then 0 else 1 + FirstGone(targets, held[1..])
  }

  /**
   A flush resolves the queue up to the first entry whose target is gone, in order. That entry
   alone is lost, its fulfiller still pending, and the rest of the queue stays as it was.
   */
  lemma {:induction false} FlushExact(s: State, done: nat)
    requires Agree(s)
    ensures var k := FirstGone(s.targets, s.held);
            var s' := Flush(s, done).0;
            && s'.log == s.log + Settlements(s.targets, s.held[..k])
            && s'.fulfillers == s.fulfillers - Fulfillers(s.held[..k])
            && s'.held == (if k < |s.held| then s.held[k + 1..] else [])
            && s' == s.(log := s'.log, fulfillers := s'.fulfillers, held := s'.held, heldIds := Fulfillers(s'.held))
            && Flush(s, done).1 == (if k < |s.held| then Err(UnknownTarget(s.held[k].target)) else Ok(done + |s.held|))
            && (k < |s.held| ==> s.held[k].fulfiller in s'.fulfillers)
    decreases |s.held|
  {
    var k := FirstGone(s.targets, s.held);
    if k == 0 {
      FlushStops(s, done);
    } else {
      PoppedAgrees(s);
      var r := s.held[0];
      var next := Settle(Popped(s), Fulfilled(r.fulfiller, s.targets[r.target]));
      SettleAgrees(Popped(s), Fulfilled(r.fulfiller, s.targets[r.target]));
      FlushExact(next, done + 1);
      FlushHead(s, k);
    }
  }

  /** Nothing is resolved by a flush with nothing to resolve, or with its first target gone. */
  lemma FlushStops(s: State, done: nat)
    requires Agree(s) && FirstGone(s.targets, s.held) == 0
    ensures s.log + Settlements(s.targets, s.held[..0]) == s.log
    ensures s.fulfillers - Fulfillers(s.held[..0]) == s.fulfillers
    ensures Flush(s, done) == if s.held == [] then (s, Ok(done)) else (Popped(s), Err(UnknownTarget(s.held[0].target)))
    ensures Flush(s, done).0.heldIds == Fulfillers(Flush(s, done).0.held)
    ensures s.held != [] ==> s.held[0].fulfiller in s.fulfillers
  {
    if s.held != [] {
      assert s.held[0] in s.held;
      PoppedAgrees(s);
    }
  }

  /** The first resolve of a flush and those after it, put together. */
  lemma FlushHead(s: State, k: nat)
    requires 0 < k <= |s.held| && k == FirstGone(s.targets, s.held) && Agree(s)
    ensures k - 1 == FirstGone(s.targets, s.held[1..])
    ensures var r := s.held[0];
            && s.log + [Fulfilled(r.fulfiller, s.targets[r.target])] + Settlements(s.targets, s.held[1..][..k - 1])
               == s.log + Settlements(s.targets, s.held[..k])
            && s.fulfillers - {r.fulfiller} - Fulfillers(s.held[1..][..k - 1])
               == s.fulfillers - Fulfillers(s.held[..k])
            && (k < |s.held| ==> s.held[1..][k..] == s.held[k + 1..])
  {
    assert s.held[..k] == [s.held[0]] + s.held[1..][..k - 1];
    var a, b := [s.held[0]], s.held[1..][..k - 1];
    assert Fulfillers(a + b) == {s.held[0].fulfiller} + Fulfillers(b) by {
      assert forall r :: r in a + b <==> r == s.held[0] || r in b;
      assert s.held[0] in a + b;
    }
    assert s.fulfillers - {s.held[0].fulfiller} - Fulfillers(b) == s.fulfillers - Fulfillers(a + b);
    assert Settlements(s.targets, s.held[..k])
           == [Fulfilled(s.held[0].fulfiller, s.targets[s.held[0].target])] + Settlements(s.targets, b);
  }

  /** So a flush succeeds exactly when every held target is still there. */
  lemma FlushSucceedsIff(s: State)
    requires Agree(s)
    ensures Flush(s, 0).1.Ok? <==> forall r | r in s.held :: r.target in s.targets
  {
    FlushExact(s, 0);
  }

  // ---- each fulfiller is settled at most once ---------------------------------------------

  /** Ids are issued upwards from the counters, which have not wrapped. */
  ghost predicate Unwrapped(s: State) {
    && (forall id | id in s.targets :: id < s.nextTarget)
    && (forall id | id in s.fulfillers :: id < s.nextFulfiller)
  }

  ghost predicate SettledOnce(s: State) {
    && (forall i, j | 0 <= i < j < |s.log| :: s.log[i].fulfiller != s.log[j].fulfiller)
    && (forall i | 0 <= i < |s.log| :: s.log[i].fulfiller !in s.fulfillers && s.log[i].fulfiller < s.nextFulfiller)
  }

  /** How many ids an operation can take from each counter. */
  function Issues(ops: seq<Op>): nat {
    if ops == [] then 0 else (if ops[0].DoNewPromise? || ops[0].DoAddTarget? then 1 else 0) + Issues(ops[1..])
  }

  ghost predicate Sound(s: State) {
    Agree(s) && Unwrapped(s) && SettledOnce(s)
  }

  lemma AddUnwrapped(s: State, cap: Cap)
    requires Unwrapped(s) && s.nextTarget as int + 1 < U32
    ensures AddTarget(s, cap) == s.(targets := s.targets[s.nextTarget := cap], nextTarget := s.nextTarget + 1)
  {
    NextFreeUnwrapped(s.targets.Keys, s.nextTarget);
  }

  lemma NewUnwrapped(s: State, cap: Cap)
    requires Unwrapped(s) && s.nextTarget as int + 1 < U32 && s.nextFulfiller as int + 1 < U32
    ensures NewPromise(s, cap) == NewPromiseAt(s, cap, s.nextTarget, s.nextFulfiller)
    ensures NewPromise(s, cap).nextTarget == s.nextTarget + 1
    ensures NewPromise(s, cap).nextFulfiller == s.nextFulfiller + 1
    ensures |s.fulfillers| < U32
  {
    NextFreeUnwrapped(s.targets.Keys, s.nextTarget);
    NextFreeUnwrapped(s.fulfillers.Keys, s.nextFulfiller);
    assert |s.fulfillers.Keys| == |s.fulfillers|;
  }

  lemma SettleKeepsOnce(s: State, settlement: Settlement)
    requires Unwrapped(s) && SettledOnce(s) && settlement.fulfiller in s.fulfillers
    ensures Unwrapped(Settle(s, settlement)) && SettledOnce(Settle(s, settlement))
  {
  }

  lemma {:induction false} FlushKeepsOnce(s: State, done: nat)
    requires Unwrapped(s) && SettledOnce(s)
    ensures Unwrapped(Flush(s, done).0) && SettledOnce(Flush(s, done).0)
    ensures Flush(s, done).0.nextTarget == s.nextTarget && Flush(s, done).0.nextFulfiller == s.nextFulfiller
    decreases |s.held|
  {
    if s.held != [] {
      var s' := FulfillNow(Popped(s), s.held[0].fulfiller, s.held[0].target).0;
      if Refusal(Popped(s), s.held[0].fulfiller, s.held[0].target) == None {
        SettleKeepsOnce(Popped(s), Fulfilled(s.held[0].fulfiller, s.targets[s.held[0].target]));
        FlushKeepsOnce(s', done + 1);
      }
    }
  }

  /** Operations on existing promises and targets. */
  lemma OtherStepsKeepOnce(s: State, op: Op)
    requires Unwrapped(s) && SettledOnce(s) && !op.DoNewPromise? && !op.DoAddTarget?
    ensures Unwrapped(Step(s, op)) && SettledOnce(Step(s, op))
    ensures Step(s, op).nextTarget == s.nextTarget && Step(s, op).nextFulfiller == s.nextFulfiller
  {
    match op
    case DoFulfill(f, t) =>
      if Refusal(s, f, t) == None {
        SettleKeepsOnce(s, Fulfilled(f, s.targets[t]));
      }
    case DoReject(f, reason) =>
      if f in s.fulfillers {
        SettleKeepsOnce(DropHeld(s, f), Rejected(f, reason));
      }
    case DoRelease(f) =>
      if f in s.fulfillers {
        SettleKeepsOnce(DropHeld(s, f), Rejected(f, RELEASED));
      }
    case DoFlush => FlushKeepsOnce(s, 0);
    case DoSetHold(_) =>
    case DoDropTarget(_) =>
  }

  lemma NewKeepsSound(s: State, cap: Cap)
    requires Sound(s) && s.nextTarget as int + 1 < U32 && s.nextFulfiller as int + 1 < U32
    ensures Sound(NewPromise(s, cap))
    ensures NewPromise(s, cap).nextTarget == s.nextTarget + 1 && NewPromise(s, cap).nextFulfiller == s.nextFulfiller + 1
  {
    NewUnwrapped(s, cap);
    NewPromiseAgrees(s, cap);
  }

  lemma StepKeepsSound(s: State, op: Op, left: nat)
    requires Sound(s)
    requires s.nextTarget as int + Issues([op]) + left < U32 && s.nextFulfiller as int + Issues([op]) + left < U32
    ensures Sound(Step(s, op))
    ensures Step(s, op).nextTarget as int + left < U32 && Step(s, op).nextFulfiller as int + left < U32
  {
    assert [op][1..] == [];
    if op.DoNewPromise? {
      NewKeepsSound(s, op.cap);
    } else {
      StepAgrees(s, op);
      if op.DoAddTarget? {
        AddUnwrapped(s, op.cap);
      } else {
        OtherStepsKeepOnce(s, op);
      }
    }
  }

  lemma {:induction false} RunKeepsSound(s: State, ops: seq<Op>)
    requires Sound(s)
    requires s.nextTarget as int + Issues(ops) < U32 && s.nextFulfiller as int + Issues(ops) < U32
    ensures Sound(Run(s, ops))
    decreases |ops|
  {
    if ops != [] {
      assert Issues(ops) == Issues([ops[0]]) + Issues(ops[1..]) by { assert [ops[0]][1..] == []; }
      StepKeepsSound(s, ops[0], Issues(ops[1..]));
      RunKeepsSound(Step(s, ops[0]), ops[1..]);
    }
  }

  /**
   Over any run that issues fewer than 2^32 - 1 ids, queue, set and table agree, and no fulfiller
   is settled twice or settled and still pending.
   */
  lemma EveryRunIsSound(ops: seq<Op>)
    requires Issues(ops) < U32 - 1
    ensures Sound(Run(EMPTY, ops))
  {
    assert Fulfillers([]) == {};
    RunKeepsSound(EMPTY, ops);
  }

  // ---- holding and flushing is fulfilling at once -----------------------------------------

  /** Requests for which holding makes no difference: nothing is rejected, released or dropped. */
  predicate HoldFree(op: Op) {
    op.DoFulfill? || op.DoFlush? || op.DoNewPromise? || op.DoAddTarget?
  }

  /** Was the request accepted? */
  predicate Accepted(s: State, op: Op) {
    match op
    case DoFulfill(f, t) => Fulfill(s, f, t).1.Ok?
    case DoFlush => Flush(s, 0).1.Ok?
    case _ => true
  }

  ghost function Verdicts(s: State, ops: seq<Op>): seq<bool>
    decreases |ops|
  {
    if ops == [] then [] else [Accepted(s, ops[0])] + Verdicts(Step(s, ops[0]), ops[1..])
  }

  ghost predicate HeldTargetsLive(s: State) {
    forall r | r in s.held :: r.target in s.targets
  }

  /** `s` holds what `i` has already done. */
  ghost predicate Behind(s: State, i: State) {
    && s.hold && Agree(s) && Unwrapped(s) && HeldTargetsLive(s)
    && i == s.(hold := false, held := [], heldIds := {}, fulfillers := s.fulfillers - s.heldIds,
               log := s.log + Settlements(s.targets, s.held))
  }

  lemma FulfillStaysBehind(s: State, i: State, f: uint32, t: uint32)
    requires Behind(s, i)
    ensures Behind(Fulfill(s, f, t).0, Fulfill(i, f, t).0)
    ensures Fulfill(s, f, t).1.Ok? <==> Fulfill(i, f, t).1.Ok?
  {
    FulfillAgrees(s, f, t);
    if f !in s.heldIds && Refusal(s, f, t) == None {
      assert s.fulfillers - s.heldIds - {f} == s.fulfillers - (s.heldIds + {f});
      var held' := s.held + [Resolve(f, t)];
      assert forall r :: r in held' <==> r in s.held || r == Resolve(f, t);
      assert Settlements(s.targets, held') == Settlements(s.targets, s.held) + [Fulfilled(f, s.targets[t])];
    }
  }

  lemma FlushStaysBehind(s: State, i: State)
    requires Behind(s, i)
    ensures Flush(s, 0) == (i.(hold := true), Ok(|s.held|)) && Flush(i, 0) == (i, Ok(0))
    ensures Behind(Flush(s, 0).0, Flush(i, 0).0)
  {
    FlushExact(s, 0);
    assert s.held[..|s.held|] == s.held;
    FlushAgrees(s, 0);
    var s' := Flush(s, 0).0;
    assert s'.held == [] && s'.heldIds == {};
    assert s'.fulfillers - s'.heldIds == s'.fulfillers;
    assert s'.log + Settlements(s'.targets, s'.held) == s'.log;
  }

  lemma AddTargetStaysBehind(s: State, i: State, cap: Cap)
    requires Behind(s, i) && s.nextTarget as int + 1 < U32
    ensures Behind(AddTarget(s, cap), AddTarget(i, cap))
    ensures AddTarget(s, cap).nextTarget == s.nextTarget + 1 && AddTarget(s, cap).nextFulfiller == s.nextFulfiller
  {
    AddUnwrapped(s, cap);
    AddUnwrapped(i, cap);
    var s' := AddTarget(s, cap);
    assert Settlements(s'.targets, s'.held) == Settlements(s.targets, s.held);
  }

  lemma BehindIsUnwrapped(s: State, i: State)
    requires Behind(s, i)
    ensures Unwrapped(i) && i.nextTarget == s.nextTarget && i.nextFulfiller == s.nextFulfiller
  {
  }

  lemma NewPromiseStaysBehind(s: State, i: State, cap: Cap)
    requires Behind(s, i) && s.nextTarget as int + 1 < U32 && s.nextFulfiller as int + 1 < U32
    ensures Behind(NewPromise(s, cap), NewPromise(i, cap))
    ensures NewPromise(s, cap).nextTarget == s.nextTarget + 1 && NewPromise(s, cap).nextFulfiller == s.nextFulfiller + 1
  {
    BehindIsUnwrapped(s, i);
    NewUnwrapped(s, cap);
    NewUnwrapped(i, cap);
    var s' := NewPromiseAt(s, cap, s.nextTarget, s.nextFulfiller);
    var i' := NewPromiseAt(i, cap, i.nextTarget, i.nextFulfiller);
    assert s' == NewPromise(s, cap) && i' == NewPromise(i, cap);
    PromiseAtStaysBehind(s, i, cap);
  }

  lemma PromiseAtStaysBehind(s: State, i: State, cap: Cap)
    requires Behind(s, i) && s.nextTarget as int + 1 < U32 && s.nextFulfiller as int + 1 < U32
    ensures Behind(NewPromiseAt(s, cap, s.nextTarget, s.nextFulfiller),
                   NewPromiseAt(i, cap, i.nextTarget, i.nextFulfiller))
  {
    var s' := NewPromiseAt(s, cap, s.nextTarget, s.nextFulfiller);
    assert Settlements(s'.targets, s'.held) == Settlements(s.targets, s.held);
    assert s.nextFulfiller !in s.heldIds;
    assert s'.fulfillers - s.heldIds == (s.fulfillers - s.heldIds)[s.nextFulfiller := s.nextTarget];
  }

  lemma {:induction false} RunStaysBehind(s: State, i: State, ops: seq<Op>)
    requires Behind(s, i) && forall op | op in ops :: HoldFree(op)
    requires s.nextTarget as int + Issues(ops) < U32 && s.nextFulfiller as int + Issues(ops) < U32
    ensures Behind(Run(s, ops), Run(i, ops)) && Verdicts(s, ops) == Verdicts(i, ops)
    decreases |ops|
  {
    if ops != [] {
      var op := ops[0];
      assert HoldFree(op);
      match op {
        case DoFulfill(f, t) => FulfillStaysBehind(s, i, f, t);
        case DoFlush => FlushStaysBehind(s, i);
        case DoNewPromise(cap) => NewPromiseStaysBehind(s, i, cap);
        case DoAddTarget(cap) => AddTargetStaysBehind(s, i, cap);
      }
      if op.DoFulfill? || op.DoFlush? { CountersAfter(s, op); }
      RunStaysBehind(Step(s, op), Step(i, op), ops[1..]);
    }
  }

  lemma CountersAfter(s: State, op: Op)
    requires Unwrapped(s) && Agree(s) && HoldFree(op) && !op.DoNewPromise? && !op.DoAddTarget?
    ensures Step(s, op).nextTarget == s.nextTarget && Step(s, op).nextFulfiller == s.nextFulfiller
  {
    FlushExact(s, 0);
  }

  /**
   Starting with nothing held, the same requests get the same verdicts with hold on as with hold
   off, and one flush then leaves the same fulfillers pending and the same settlements in the same
   order. New promises, new targets and flushes on the way make no difference.
   */
  lemma HoldThenFlushIsFulfillNow(s: State, ops: seq<Op>)
    requires Agree(s) && Unwrapped(s) && s.held == [] && forall op | op in ops :: HoldFree(op)
    requires s.nextTarget as int + Issues(ops) < U32 && s.nextFulfiller as int + Issues(ops) < U32
    ensures var on, off := s.(hold := true), s.(hold := false);
            && Verdicts(on, ops) == Verdicts(off, ops)
            && Flush(Run(on, ops), 0).1 == Ok(|Run(on, ops).held|)
            && Flush(Run(on, ops), 0).0.(hold := false) == Run(off, ops)
  {
    var on, off := s.(hold := true), s.(hold := false);
    assert s.fulfillers - {} == s.fulfillers && s.log + Settlements(s.targets, []) == s.log;
    assert Fulfillers([]) == {};
    RunStaysBehind(on, off, ops);
    FlushStaysBehind(Run(on, ops), Run(off, ops));
  }

  // ---- the code ---------------------------------------------------------------------------

  class RuntimePromises {
    var targets: map<uint32, Cap>
    var nextTargetId: uint32
    var promiseCapabilityFulfillers: map<uint32, uint32>
    var nextPromiseCapabilityFulfillerId: uint32
    var heldPromiseCapabilityResolves: seq<Resolve>
    var heldPromiseCapabilityFulfillerIds: set<uint32>
    var holdPromiseCapabilityResolves: bool
    ghost var log: seq<Settlement>

    ghost function Abs(): State
      reads this
    {
      State(targets, nextTargetId, promiseCapabilityFulfillers, nextPromiseCapabilityFulfillerId,
            heldPromiseCapabilityResolves, heldPromiseCapabilityFulfillerIds, holdPromiseCapabilityResolves, log)
    }

    /** Queue, set and table agree. */
    ghost predicate Valid()
      reads this
    {
      Agree(Abs())
    }

    constructor ()
      ensures Valid() && Abs() == EMPTY
    {
      targets, nextTargetId := map[], 1;
      promiseCapabilityFulfillers, nextPromiseCapabilityFulfillerId := map[], 1;
      heldPromiseCapabilityResolves, heldPromiseCapabilityFulfillerIds := [], {};
      holdPromiseCapabilityResolves, log := false, [];
    }

    method NewPromiseCapability(cap: Cap) returns (target: uint32, fulfiller: uint32)
      requires |targets| < U32 && |promiseCapabilityFulfillers| < U32
      requires Valid()
      modifies this
      ensures Valid() && Abs() == NewPromise(old(Abs()), cap)
      ensures target !in old(targets) && fulfiller !in old(promiseCapabilityFulfillers)
      ensures target in targets && fulfiller in promiseCapabilityFulfillers
      ensures promiseCapabilityFulfillers[fulfiller] == target && targets == old(targets)[target := cap]
    {
      NewPromiseAgrees(Abs(), cap);
      assert |targets.Keys| == |targets|;
      assert |promiseCapabilityFulfillers.Keys| == |promiseCapabilityFulfillers|;
      target, nextTargetId := Allocate(targets.Keys, nextTargetId);
      targets := targets[target := cap];
      fulfiller, nextPromiseCapabilityFulfillerId :=
        Allocate(promiseCapabilityFulfillers.Keys, nextPromiseCapabilityFulfillerId);
      promiseCapabilityFulfillers := promiseCapabilityFulfillers[fulfiller := target];
    }

    method PromiseCapabilityFulfillNow(fulfiller: uint32, target: uint32) returns (r: Result<(), Error>)
      modifies this`promiseCapabilityFulfillers, this`log
      ensures (Abs(), r) == FulfillNow(old(Abs()), fulfiller, target)
      ensures r.Ok? <==>
                && fulfiller in old(promiseCapabilityFulfillers) && target != 0 && target in targets
                && target != old(promiseCapabilityFulfillers)[fulfiller]
      ensures promiseCapabilityFulfillers == old(promiseCapabilityFulfillers) - if r.Ok? then {fulfiller} else {}
      ensures log == old(log) + if r.Ok? then [Fulfilled(fulfiller, targets[target])] else []
    {
      if fulfiller !in promiseCapabilityFulfillers {
        return Err(UnknownFulfiller(fulfiller));
      }
      if target == 0 {
        return Err(NullTarget);
      }
      if target == promiseCapabilityFulfillers[fulfiller] {
        return Err(ItselfAsTarget);
      }
      if target !in targets {
        return Err(UnknownTarget(target));
      }
      log := log + [Fulfilled(fulfiller, targets[target])];
      promiseCapabilityFulfillers := promiseCapabilityFulfillers - {fulfiller};
      return Ok(());
    }

    method PromiseCapabilityFulfill(fulfiller: uint32, target: uint32) returns (r: Result<(), Error>)
      requires Valid()
      modifies this
      ensures Valid() && (Abs(), r) == Fulfill(old(Abs()), fulfiller, target)
    {
      FulfillAgrees(Abs(), fulfiller, target);
      if fulfiller in heldPromiseCapabilityFulfillerIds {
        return Err(AlreadyHeld);
      }
      if !holdPromiseCapabilityResolves {
        r := PromiseCapabilityFulfillNow(fulfiller, target);
        return;
      }
      if fulfiller !in promiseCapabilityFulfillers {
        return Err(UnknownFulfiller(fulfiller));
      }
      if target == 0 {
        return Err(NullTarget);
      }
      if target == promiseCapabilityFulfillers[fulfiller] {
        return Err(ItselfAsTarget);
      }
      if target !in targets {
        return Err(UnknownTarget(target));
      }
      heldPromiseCapabilityResolves := heldPromiseCapabilityResolves + [Resolve(fulfiller, target)];
      heldPromiseCapabilityFulfillerIds := heldPromiseCapabilityFulfillerIds + {fulfiller};
      return Ok(());
    }

    method DropHeldPromiseCapabilityResolve(fulfiller: uint32)
      modifies this`heldPromiseCapabilityResolves, this`heldPromiseCapabilityFulfillerIds
      ensures Abs() == DropHeld(old(Abs()), fulfiller)
    {
      if fulfiller !in heldPromiseCapabilityFulfillerIds {
        return;
      }
      heldPromiseCapabilityFulfillerIds := heldPromiseCapabilityFulfillerIds - {fulfiller};
      var held := heldPromiseCapabilityResolves;
      for i := 0 to |held|
        invariant heldPromiseCapabilityResolves == held
        invariant forall j | 0 <= j < i :: held[j].fulfiller != fulfiller
      {
        if held[i].fulfiller == fulfiller {
          WithoutFirstAt(held, i, fulfiller);
          heldPromiseCapabilityResolves := held[..i] + held[i + 1..];
          return;
        }
      }
      WithoutFirstAt(held, |held|, fulfiller);
    }

    method FlushHeldPromiseCapabilityResolves() returns (r: Result<nat, Error>)
      requires Valid()
      modifies this
      ensures Valid() && (Abs(), r) == Flush(old(Abs()), 0)
    {
      FlushAgrees(Abs(), 0);
      var flushed := 0;
      while heldPromiseCapabilityResolves != []
        invariant Flush(Abs(), flushed) == Flush(old(Abs()), 0)
        decreases |heldPromiseCapabilityResolves|
      {
        var request := heldPromiseCapabilityResolves[0];
        heldPromiseCapabilityResolves := heldPromiseCapabilityResolves[1..];
        heldPromiseCapabilityFulfillerIds := heldPromiseCapabilityFulfillerIds - {request.fulfiller};
        var result := PromiseCapabilityFulfillNow(request.fulfiller, request.target);
        if result.Err? {
          return Err(result.error);
        }
        flushed := flushed + 1;
      }
      return Ok(flushed);
    }

    method SetResolveHoldEnabled(enabled: bool)
      requires Valid()
      modifies this`holdPromiseCapabilityResolves
      ensures Valid() && Abs() == old(Abs()).(hold := enabled)
    {
      holdPromiseCapabilityResolves := enabled;
    }

    method PromiseCapabilityReject(fulfiller: uint32, exceptionTypeTag: byte, message: string, detail: seq<byte>)
      returns (r: Result<(), Error>)
      requires Valid()
      modifies this
      ensures Valid()
      ensures (Abs(), r)
              == Reject(old(Abs()), fulfiller, Reason(DecodeExceptionType(exceptionTypeTag), message, detail))
      ensures r.Ok? <==> fulfiller in old(promiseCapabilityFulfillers)
      ensures promiseCapabilityFulfillers == old(promiseCapabilityFulfillers) - {fulfiller}
      ensures r.Ok? ==>
                log == old(log) + [Rejected(fulfiller, Reason(DecodeExceptionType(exceptionTypeTag), message, detail))]
      ensures r.Err? ==> r == Err(UnknownFulfiller(fulfiller)) && log == old(log)
    {
      StepAgrees(Abs(), DoReject(fulfiller, Reason(DecodeExceptionType(exceptionTypeTag), message, detail)));
      DropHeldPromiseCapabilityResolve(fulfiller);
      if fulfiller !in promiseCapabilityFulfillers {
        assert promiseCapabilityFulfillers - {fulfiller} == promiseCapabilityFulfillers;
        return Err(UnknownFulfiller(fulfiller));
      }
      var exceptionType := DecodeExceptionType(exceptionTypeTag);
      log := log + [Rejected(fulfiller, Reason(exceptionType, message, detail))];
      promiseCapabilityFulfillers := promiseCapabilityFulfillers - {fulfiller};
      return Ok(());
    }

    method PromiseCapabilityRelease(fulfiller: uint32)
      requires Valid()
      modifies this
      ensures Valid() && Abs() == Release(old(Abs()), fulfiller)
      ensures promiseCapabilityFulfillers == old(promiseCapabilityFulfillers) - {fulfiller}
      ensures log == old(log) + if fulfiller in old(promiseCapabilityFulfillers) then [Rejected(fulfiller, RELEASED)]
                                else []
    {
      StepAgrees(Abs(), DoRelease(fulfiller));
      DropHeldPromiseCapabilityResolve(fulfiller);
      if fulfiller !in promiseCapabilityFulfillers {
        assert promiseCapabilityFulfillers - {fulfiller} == promiseCapabilityFulfillers;
        return;
      }
      log := log + [Rejected(fulfiller, RELEASED)];
      promiseCapabilityFulfillers := promiseCapabilityFulfillers - {fulfiller};
    }
  }
}

/**
 What each request does to a promise capability: which ones settle it, with what, and that nothing
 else ever does.
 */
module PromiseSettlements {
  import opened Words
  import opened IdAllocator
  import opened PromiseCapabilities

  /** The queue without the entries of one fulfiller. */
  function Others(held: seq<Resolve>, fulfiller: uint32): seq<Resolve> {
    if held == [] then []
    else (if held[0].fulfiller == fulfiller then [] else [held[0]]) + Others(held[1..], fulfiller)
  }

  lemma {:induction false} OthersAreAll(held: seq<Resolve>, fulfiller: uint32)
    requires forall r | r in held :: r.fulfiller != fulfiller
    ensures Others(held, fulfiller) == held
  {
    if held != [] {
      OthersAreAll(held[1..], fulfiller);
    }
  }

  lemma {:induction false} OthersAreLeft(held: seq<Resolve>, fulfiller: uint32)
    requires OncePerFulfiller(held)
    ensures WithoutFirst(held, fulfiller) == Others(held, fulfiller)
  {
    if held != [] {
      if held[0].fulfiller == fulfiller {
        OthersAreAll(held[1..], fulfiller);
      } else {
        OthersAreLeft(held[1..], fulfiller);
      }
    }
  }

  lemma DropHeldExact(s: State, fulfiller: uint32)
    requires Agree(s)
    ensures DropHeld(s, fulfiller) == s.(held := Others(s.held, fulfiller), heldIds := s.heldIds - {fulfiller})
  {
    OthersAreLeft(s.held, fulfiller);
    if fulfiller !in s.heldIds {
      assert forall r | r in s.held :: r.fulfiller in Fulfillers(s.held);
      OthersAreAll(s.held, fulfiller);
      assert s.heldIds - {fulfiller} == s.heldIds;
    }
  }

  // ---- one request ------------------------------------------------------------------------

  /** The state after `fulfiller` was settled and its held resolve, if it had one, dropped. */
  function SettledWith(s: State, fulfiller: uint32, settlement: Settlement): State {
    s.(fulfillers := s.fulfillers - {fulfiller}, log := s.log + [settlement],
       held := Others(s.held, fulfiller), heldIds := s.heldIds - {fulfiller})
  }

  /** A pending promise is rejected with the given reason, for an unknown one nothing is settled. */
  lemma RejectExact(s: State, fulfiller: uint32, reason: Reason)
    requires Agree(s)
    ensures Reject(s, fulfiller, reason)
            == if fulfiller in s.fulfillers then (SettledWith(s, fulfiller, Rejected(fulfiller, reason)), Ok(()))
               else (s, Err(UnknownFulfiller(fulfiller)))
  {
    DropHeldExact(s, fulfiller);
    NothingHeldFor(s, fulfiller);
  }

  /** A release is a rejection as disconnected, and no error for an unknown fulfiller. */
  lemma ReleaseExact(s: State, fulfiller: uint32)
    requires Agree(s)
    ensures Release(s, fulfiller)
            == if fulfiller in s.fulfillers then SettledWith(s, fulfiller, Rejected(fulfiller, RELEASED)) else s
    ensures RELEASED.exceptionType.Disconnected?
  {
    DropHeldExact(s, fulfiller);
    NothingHeldFor(s, fulfiller);
  }

  /** What is held is pending. */
  lemma NothingHeldFor(s: State, fulfiller: uint32)
    requires Agree(s)
    ensures fulfiller !in s.fulfillers ==> fulfiller !in s.heldIds
    ensures fulfiller !in s.heldIds ==> Others(s.held, fulfiller) == s.held && s.heldIds - {fulfiller} == s.heldIds
  {
    if fulfiller !in s.heldIds {
      assert forall r | r in s.held :: r.fulfiller in Fulfillers(s.held);
      OthersAreAll(s.held, fulfiller);
    }
  }

  /** Can `fulfiller` be resolved to `target`? */
  predicate Resolvable(s: State, fulfiller: uint32, target: uint32) {
    && fulfiller in s.fulfillers && fulfiller !in s.heldIds
    && target != 0 && target in s.targets && target != s.fulfillers[fulfiller]
  }

  /**
   A resolve is accepted exactly for a pending fulfiller with nothing held and a live target that is
   not its own. It is then held, or fulfills the promise with what the target stands for at once; a
   refused one changes nothing.
   */
  lemma FulfillExact(s: State, fulfiller: uint32, target: uint32)
    requires Agree(s)
    ensures var (s', r) := Fulfill(s, fulfiller, target);
            if !Resolvable(s, fulfiller, target) then s' == s && r.Err?
            else
              && r == Ok(())
              && s' == if s.hold then s.(held := s.held + [Resolve(fulfiller, target)],
                                         heldIds := s.heldIds + {fulfiller})
                       else SettledWith(s, fulfiller, Fulfilled(fulfiller, s.targets[target]))
  {
    NothingHeldFor(s, fulfiller);
  }

  /** Which of the errors it is, checked in this order. */
  lemma FulfillError(s: State, fulfiller: uint32, target: uint32)
    ensures fulfiller in s.heldIds ==> Fulfill(s, fulfiller, target).1 == Err(AlreadyHeld)
    ensures fulfiller !in s.heldIds && fulfiller !in s.fulfillers ==>
              Fulfill(s, fulfiller, target).1 == Err(UnknownFulfiller(fulfiller))
    ensures fulfiller !in s.heldIds && fulfiller in s.fulfillers ==>
              && (target == 0 ==> Fulfill(s, fulfiller, target).1 == Err(NullTarget))
              && (target != 0 && target == s.fulfillers[fulfiller] ==>
                    Fulfill(s, fulfiller, target).1 == Err(ItselfAsTarget))
              && (target != 0 && target != s.fulfillers[fulfiller] && target !in s.targets ==>
                    Fulfill(s, fulfiller, target).1 == Err(UnknownTarget(target)))
  {
  }

  // ---- over whole runs --------------------------------------------------------------------

  /** The settlements a step makes, in order. */
  function SettledBy(s: State, op: Op): seq<Settlement> {
    match op
    case DoFulfill(f, t) => if !s.hold && Resolvable(s, f, t) then [Fulfilled(f, s.targets[t])] else []
    case DoReject(f, reason) => if f in s.fulfillers then [Rejected(f, reason)] else []
    case DoRelease(f) => if f in s.fulfillers then [Rejected(f, RELEASED)] else []
    case DoFlush => Settlements(s.targets, s.held[..FirstGone(s.targets, s.held)])
    case _ => []
  }

  function Named(log: seq<Settlement>): set<uint32> {
    set settlement | settlement in log :: settlement.fulfiller
  }

  lemma NamedByFlush(targets: map<uint32, Cap>, held: seq<Resolve>)
    requires forall r | r in held :: r.target in targets
    ensures Named(Settlements(targets, held)) == Fulfillers(held)
  {
    var log := Settlements(targets, held);
    forall f | f in Fulfillers(held)
      ensures f in Named(log)
    {
      var i :| 0 <= i < |held| && held[i].fulfiller == f;
      assert log[i] in log;
    }
  }

  /** Every step adds its own settlements to the log, and takes the promises they settle out of the table. */
  lemma StepSettles(s: State, op: Op)
    requires Agree(s)
    ensures Step(s, op).log == s.log + SettledBy(s, op)
    ensures !op.DoNewPromise? ==> Step(s, op).fulfillers == s.fulfillers - Named(SettledBy(s, op))
  {
    match op
    case DoFulfill(f, t) => FulfillExact(s, f, t);
    case DoReject(f, reason) => RejectExact(s, f, reason);
    case DoRelease(f) => ReleaseExact(s, f);
    case DoFlush =>
      FlushExact(s, 0);
      NamedByFlush(s.targets, s.held[..FirstGone(s.targets, s.held)]);
    case DoSetHold(_) =>
    case DoNewPromise(_) =>
    case DoAddTarget(_) =>
    case DoDropTarget(_) =>
  }

  /** Every fulfiller ever issued is pending or has been settled. */
  ghost predicate NoneLost(s: State) {
    forall f | 0 < f < s.nextFulfiller :: f in s.fulfillers || f in Named(s.log)
  }

  lemma SettlingLosesNone(s: State, s': State, settled: seq<Settlement>)
    requires NoneLost(s) && s'.nextFulfiller == s.nextFulfiller
    requires s'.log == s.log + settled && s'.fulfillers == s.fulfillers - Named(settled)
    ensures NoneLost(s')
  {
    assert forall settlement | settlement in s.log || settlement in settled :: settlement in s'.log;
  }

  lemma NewPromiseLosesNone(s: State, cap: Cap)
    requires Unwrapped(s) && NoneLost(s)
    requires s.nextTarget as int + 1 < U32 && s.nextFulfiller as int + 1 < U32
    ensures NoneLost(NewPromise(s, cap))
  {
    NewUnwrapped(s, cap);
  }

  lemma OnlyNewOnesCount(s: State, op: Op)
    requires Sound(s) && !op.DoNewPromise?
    ensures Step(s, op).nextFulfiller == s.nextFulfiller
  {
    if !op.DoAddTarget? {
      OtherStepsKeepOnce(s, op);
    }
  }

  lemma StepLosesNone(s: State, op: Op, left: nat)
    requires Sound(s) && NoneLost(s)
    requires s.nextTarget as int + Issues([op]) + left < U32 && s.nextFulfiller as int + Issues([op]) + left < U32
    ensures NoneLost(Step(s, op))
  {
    assert [op][1..] == [];
    if op.DoNewPromise? {
      NewPromiseLosesNone(s, op.cap);
    } else {
      OnlyNewOnesCount(s, op);
      StepSettles(s, op);
      SettlingLosesNone(s, Step(s, op), SettledBy(s, op));
    }
  }

  lemma {:induction false} RunLosesNone(s: State, ops: seq<Op>)
    requires Sound(s) && NoneLost(s)
    requires s.nextTarget as int + Issues(ops) < U32 && s.nextFulfiller as int + Issues(ops) < U32
    ensures NoneLost(Run(s, ops)) && Sound(Run(s, ops)) && s.log <= Run(s, ops).log
    decreases |ops|
  {
    if ops != [] {
      assert Issues(ops) == Issues([ops[0]]) + Issues(ops[1..]) by { assert [ops[0]][1..] == []; }
      StepKeepsSound(s, ops[0], Issues(ops[1..]));
      StepLosesNone(s, ops[0], Issues(ops[1..]));
      StepSettles(s, ops[0]);
      RunLosesNone(Step(s, ops[0]), ops[1..]);
    }
  }

  /**
   Over any run that issues fewer than 2^32 - 1 ids, every promise made is either still pending or
   has been settled exactly once, and never both.
   */
  lemma EveryPromiseIsPendingOrSettledOnce(ops: seq<Op>, fulfiller: uint32)
    requires Issues(ops) < U32 - 1
    ensures var s := Run(EMPTY, ops);
            0 < fulfiller < s.nextFulfiller ==>
              && (fulfiller in s.fulfillers <==> fulfiller !in Named(s.log))
              && forall i, j | 0 <= i < j < |s.log| ::
                   s.log[i].fulfiller != fulfiller || s.log[j].fulfiller != fulfiller
  {
    assert Fulfillers([]) == {};
    RunLosesNone(EMPTY, ops);
  }

  /**
   A rejection is for good: it stays in the log where it was put, and whatever comes after, nothing
   resolves or rejects the promise again.
   */
  lemma RejectedForGood(s: State, fulfiller: uint32, reason: Reason, ops: seq<Op>, target: uint32)
    requires Sound(s) && NoneLost(s) && fulfiller in s.fulfillers
    requires s.nextTarget as int + Issues(ops) < U32 && s.nextFulfiller as int + Issues(ops) < U32
    ensures var end := Run(Reject(s, fulfiller, reason).0, ops);
            && s.log + [Rejected(fulfiller, reason)] <= end.log
            && Fulfill(end, fulfiller, target) == (end, Err(UnknownFulfiller(fulfiller)))
            && Reject(end, fulfiller, reason) == (end, Err(UnknownFulfiller(fulfiller)))
            && Release(end, fulfiller) == end
  {
    var op := DoReject(fulfiller, reason);
    assert [op][1..] == [];
    var s1 := Step(s, op);
    RejectExact(s, fulfiller, reason);
    StepKeepsSound(s, op, Issues(ops));
    StepLosesNone(s, op, Issues(ops));
    RunLosesNone(s1, ops);
    var end := Run(s1, ops);
    assert end.log[|s.log|] == Rejected(fulfiller, reason);
    assert fulfiller !in end.fulfillers;
    NothingHeldFor(end, fulfiller);
    RejectExact(end, fulfiller, reason);
    ReleaseExact(end, fulfiller);
  }
}

/**
 What the registry of payload refs keeps under an id: a retained handle gets what was registered, slot
 by slot, until the id is given back.
 */
module PayloadContents {
  import opened Words
  import opened IdAllocator
  import opened PayloadRefs

  /** An id stands for these slots as far as the table goes. */
  predicate Filed(s: State, id: uint32, entry: Slots) {
    id in s.refs && s.refs[id] == entry
  }

  /** A release of the id by its own runtime, or of all the runtime has. */
  predicate GivesBack(op: Op, id: uint32, runtimeId: nat) {
    (op.DoRelease? && op.id == id && op.runtimeId == runtimeId) || (op.DoReleaseFor? && op.runtimeId == runtimeId)
  }

  lemma AddEntryKeepsFiled(s: State, added: Slots, id: uint32, entry: Slots)
    requires |s.refs| + 1 < U32 && Filed(s, id, entry)
    ensures Filed(AddEntry(s, added), id, entry)
  {
    NewIdIsFree(s);
  }

  lemma ReleaseKeepsFiled(s: State, runtimeId: nat, other: uint32, id: uint32, entry: Slots)
    requires Filed(s, id, entry)
    ensures var refs := Release(s, runtimeId, other).0.refs;
            if other == id && runtimeId == entry.runtimeId then id !in refs else id in refs && refs[id] == entry
    ensures var refs := ReleaseFor(s, runtimeId).0.refs;
            if runtimeId == entry.runtimeId then id !in refs else id in refs && refs[id] == entry
  {
  }

  /** Handles and the outside have no part in the table. */
  lemma OthersKeepRefs(s: State, op: Op)
    requires Proper(s, op)
    requires !op.DoRegister? && !op.DoRegisterRaw? && !op.DoRelease? && !op.DoReleaseFor?
    ensures Step(s, op).refs == s.refs
  {
    match op
    case DoRetain(id, handle) => assert Retain(s, id, handle).0.refs == s.refs;
    case DoMoveConstruct(from, to) => assert MoveConstruct(s, from, to).refs == s.refs;
    case DoMoveAssign(from, to) => assert MoveAssign(s, from, to).refs == s.refs;
    case DoReset(handle) => assert Reset(s, handle).refs == s.refs;
    case DoDestroy(handle) => assert Destroy(s, handle).refs == s.refs;
    case DoTakeMessage(handle) => assert TakeMessage(s, handle).0.refs == s.refs;
    case DoTakeCap(handle) => assert TakeCap(s, handle).0.refs == s.refs;
    case OutsideAcquires(_) =>
    case OutsideDrops(_) =>
  }

  lemma StepKeepsFiled(s: State, op: Op, id: uint32, entry: Slots)
    requires Proper(s, op) && Filed(s, id, entry)
    ensures var refs := Step(s, op).refs;
            if GivesBack(op, id, entry.runtimeId) then id !in refs else id in refs && refs[id] == entry
  {
    if op.DoRegister? {
      AddEntryKeepsFiled(s, Slots(op.runtimeId, op.message, op.cap, None), id, entry);
    } else if op.DoRegisterRaw? {
      AddEntryKeepsFiled(s, Slots(op.runtimeId, None, None, Some(op.raw)), id, entry);
    } else if op.DoRelease? {
      ReleaseKeepsFiled(s, op.runtimeId, op.id, id, entry);
    } else if op.DoReleaseFor? {
      ReleaseKeepsFiled(s, op.runtimeId, id, id, entry);
    } else {
      OthersKeepRefs(s, op);
    }
  }

  lemma {:induction false} RunKeepsFiled(s: State, ops: seq<Op>, id: uint32, entry: Slots)
    requires AllProper(s, ops) && Filed(s, id, entry)
    requires forall op | op in ops :: !GivesBack(op, id, entry.runtimeId)
    ensures Filed(Run(s, ops), id, entry)
    decreases |ops|
  {
    if ops != [] {
      StepKeepsFiled(s, ops[0], id, entry);
      RunKeepsFiled(Step(s, ops[0]), ops[1..], id, entry);
    }
  }

  /** What a handle to this entry holds is the entry, slot by slot. */
  lemma RetainYieldsFiled(s: State, id: uint32, entry: Slots, handle: nat)
    requires Filed(s, id, entry) && Whole(entry)
    ensures Retain(s, id, handle).1 && Retain(s, id, handle).0.handles == s.handles[handle := entry]
  {
  }

  /** A registration files what it was given under the new id, and refuses missing bytes. */
  lemma RegisterFiles(s: State, runtimeId: nat, message: Option<Obj>, cap: Option<Obj>, retainInputs: bool, raw: Raw)
    requires |s.refs| + 1 < U32
    ensures NewId(s) !in s.refs && NewId(s) != 0
    ensures var (s1, r) := Register(s, runtimeId, message, cap, retainInputs);
            if message.None? || cap.None? then s1 == s && r == Err(MissingBytes)
            else r == Ok(NewId(s)) && s1.refs == s.refs[NewId(s) := Slots(runtimeId, message, cap, None)]
    ensures var (s1, id) := RegisterRaw(s, runtimeId, raw);
            id == NewId(s) && s1.refs == s.refs[id := Slots(runtimeId, None, None, Some(raw))]
  {
    NewIdIsFree(s);
  }

  /**
   What is registered under an id is what every later retain of it yields, slot by slot, whatever
   happens in between, until its runtime gives the id back. A release by another runtime is refused.
   */
  lemma RetainYieldsWhatWasRegistered(s: State, runtimeId: nat, message: Obj, cap: Obj, retainInputs: bool,
                                      ops: seq<Op>, handle: nat)
    requires Proper(s, DoRegister(runtimeId, Some(message), Some(cap), retainInputs))
    requires AllProper(Register(s, runtimeId, Some(message), Some(cap), retainInputs).0, ops)
    requires forall op | op in ops :: !GivesBack(op, NewId(s), runtimeId)
    ensures var end := Run(Register(s, runtimeId, Some(message), Some(cap), retainInputs).0, ops);
            && Retain(end, NewId(s), handle).1
            && Retain(end, NewId(s), handle).0.handles
               == end.handles[handle := Slots(runtimeId, Some(message), Some(cap), None)]
  {
    var s1, entry := Register(s, runtimeId, Some(message), Some(cap), retainInputs).0,
                     Slots(runtimeId, Some(message), Some(cap), None);
    RegisterFiles(s, runtimeId, Some(message), Some(cap), retainInputs, Raw(0));
    RunKeepsFiled(s1, ops, NewId(s), entry);
    RetainYieldsFiled(Run(s1, ops), NewId(s), entry, handle);
  }

  /** The same for the raw bytes of a call result. */
  lemma RetainYieldsRawBytes(s: State, runtimeId: nat, raw: Raw, ops: seq<Op>, handle: nat)
    requires Proper(s, DoRegisterRaw(runtimeId, raw)) && AllProper(RegisterRaw(s, runtimeId, raw).0, ops)
    requires forall op | op in ops :: !GivesBack(op, NewId(s), runtimeId)
    ensures var end := Run(RegisterRaw(s, runtimeId, raw).0, ops);
            && Retain(end, NewId(s), handle).1
            && Retain(end, NewId(s), handle).0.handles == end.handles[handle := Slots(runtimeId, None, None, Some(raw))]
  {
    var s1, entry := RegisterRaw(s, runtimeId, raw).0, Slots(runtimeId, None, None, Some(raw));
    RegisterFiles(s, runtimeId, None, None, false, raw);
    RunKeepsFiled(s1, ops, NewId(s), entry);
    RetainYieldsFiled(Run(s1, ops), NewId(s), entry, handle);
  }

  /** The id stays unknown until a registration is given it again. */
  lemma {:induction false} UnknownUntilReissued(s: State, ops: seq<Op>, id: uint32)
    requires AllProper(s, ops) && id !in s.refs && NotReissued(s, ops, id)
    ensures id !in Run(s, ops).refs
    decreases |ops|
  {
    if ops != [] {
      UnknownUntilReissued(Step(s, ops[0]), ops[1..], id);
    }
  }

  /** No registration of the run is given this id. */
  ghost predicate NotReissued(s: State, ops: seq<Op>, id: uint32)
    requires AllProper(s, ops)
    decreases |ops|
  {
    ops != [] ==>
      && (ops[0].DoRegister? || ops[0].DoRegisterRaw? ==> NewId(s) != id)
      && NotReissued(Step(s, ops[0]), ops[1..], id)
  }

  /**
   Giving an id back takes it out of the table with every reference it held, and leaves all other
   ids; from then on no retain finds it until it is issued again.
   */
  lemma GivenBackIsGone(s: State, runtimeId: nat, id: uint32, ops: seq<Op>, handle: nat)
    requires Inv(s) && id in s.refs && s.refs[id].runtimeId == runtimeId
    requires AllProper(Release(s, runtimeId, id).0, ops) && NotReissued(Release(s, runtimeId, id).0, ops, id)
    ensures var (s1, r) := Release(s, runtimeId, id);
            && r == Ok(()) && s1.refs == s.refs - {id} && s1.counts + Objects(s.refs[id]) == s.counts
            && Retain(Run(s1, ops), id, handle) == (Run(s1, ops), false)
  {
    NothingIsDroppedTwice(s, runtimeId);
    UnknownUntilReissued(Release(s, runtimeId, id).0, ops, id);
    assert Whole(s.refs[id]);
    assert GivenUp(s.refs[id]) == Objects(s.refs[id]);
  }

  /** A whole runtime gives back exactly what is its own, with the references that went with it. */
  lemma RuntimeGivesBackItsOwn(s: State, runtimeId: nat, id: uint32)
    requires Inv(s)
    ensures var (s', released) := ReleaseFor(s, runtimeId);
            && (id in s'.refs <==> id in s.refs && s.refs[id].runtimeId != runtimeId)
            && (id in s'.refs ==> s'.refs[id] == s.refs[id])
            && released + |s'.refs| == |s.refs|
  {
    Partition(s.refs, Of(s.refs, runtimeId));
  }

  lemma Partition(refs: map<uint32, Slots>, gone: map<uint32, Slots>)
    requires gone.Keys <= refs.Keys
    ensures |gone| + |refs - gone.Keys| == |refs|
  {
    assert (refs - gone.Keys).Keys + gone.Keys == refs.Keys;
    assert |(refs - gone.Keys).Keys| == |refs - gone.Keys| && |gone.Keys| == |gone| && |refs.Keys| == |refs|;
  }

  // ---- handles ----------------------------------------------------------------------------

  lemma TakenAndPutBack(counts: multiset<Obj>, taken: multiset<Obj>)
    requires taken <= counts
    ensures counts - taken + taken == counts
  {
  }

  /** Resetting or destroying a handle gives up one reference for each slot that held one. */
  lemma HandleGivesUpItsOwn(s: State, handle: nat)
    requires Inv(s) && handle in s.handles
    ensures var s' := Reset(s, handle);
            && s'.handles == s.handles[handle := Slots(s.handles[handle].runtimeId, None, None, None)]
            && s'.counts + Objects(s.handles[handle]) == s.counts && s'.refs == s.refs
    ensures var s' := Destroy(s, handle);
            && s'.handles == s.handles - {handle}
            && s'.counts + Objects(s.handles[handle]) == s.counts && s'.refs == s.refs
  {
    NothingIsDroppedTwice(s, 0);
    TakenAndPutBack(s.counts, Objects(s.handles[handle]));
  }

  lemma MoveConstructHandsOverAllSlots(s: State, from: nat, to: nat)
    requires from in s.handles && from != to
    ensures var s' := MoveConstruct(s, from, to);
            && s'.handles
               == s.handles[from := Slots(s.handles[from].runtimeId, None, None, None)][to := s.handles[from]]
            && s'.counts == s.counts && s'.refs == s.refs
  {
  }

  /**
   A move hands over every slot and leaves an empty handle behind. Where it overwrites a handle, what
   that one held is given up; nothing else changes hands, and a move to itself does nothing.
   */
  lemma MoveHandsOverAllSlots(s: State, from: nat, to: nat)
    requires Inv(s) && from in s.handles && to in s.handles
    ensures from == to ==> MoveAssign(s, from, to) == s
    ensures from != to ==>
              var s' := MoveAssign(s, from, to);
              && s'.handles
                 == s.handles[from := Slots(s.handles[from].runtimeId, None, None, None)][to := s.handles[from]]
              && s'.counts + Objects(s.handles[to]) == s.counts && s'.refs == s.refs
  {
    if from != to {
      HandleGivesUpItsOwn(s, to);
      MoveConstructHandsOverAllSlots(Reset(s, to), from, to);
      MovedOver(s.handles, from, to, Slots(s.handles[from].runtimeId, None, None, None),
                Slots(s.handles[to].runtimeId, None, None, None));
    }
  }

  lemma MovedOver(m: map<nat, Slots>, from: nat, to: nat, left: Slots, before: Slots)
    requires from in m && to in m && from != to
    ensures m[to := before][from := left][to := m[from]] == m[from := left][to := m[from]]
  {
  }

  /** Taking bytes out of a handle moves their reference to the caller. */
  lemma TakenBytesAreTheCallers(s: State, handle: nat)
    requires handle in s.handles
    ensures var (s', out) := TakeMessage(s, handle);
            && out == s.handles[handle].message && s'.counts == s.counts && s'.outside == s.outside + InSlot(out)
            && s'.handles == s.handles[handle := s.handles[handle].(message := None)]
    ensures var (s', out) := TakeCap(s, handle);
            && out == s.handles[handle].cap && s'.counts == s.counts && s'.outside == s.outside + InSlot(out)
            && s'.handles == s.handles[handle := s.handles[handle].(cap := None)]
  {
  }
}

/**
 The registry of runtime payload refs, and who owns which reference to a Lean byte array: the
 outside world, an entry of the table, or a retained handle.
 */
module PayloadRefs {
  import opened Words
  import opened IdAllocator
  import opened MapSums

  /** A Lean byte array, by identity. */
  datatype Obj = Obj(address: nat)

  /** Raw bytes of a call result, shared by count outside of Lean. */
  datatype Raw = Raw(identity: nat)

  /** What a table entry or a retained handle holds. */
  datatype Slots = Slots(runtimeId: nat, message: Option<Obj>, cap: Option<Obj>, raw: Option<Raw>)

  datatype Error = MissingBytes | UnknownRef | ForeignRef

  /**
   `counts` is the Lean reference count of every object. `outside` is the observer's: the
   references held by anyone but the registry and its handles.
   */
  datatype State = State(
    refs: map<uint32, Slots>, next: uint32, handles: map<nat, Slots>,
    counts: multiset<Obj>, outside: multiset<Obj>)

  function InSlot(slot: Option<Obj>): multiset<Obj> {
    if slot.Some? then multiset{slot.value} else multiset{}
  }

  /** The references that slots own: two of them when one object fills both. */
  function Objects(slots: Slots): multiset<Obj> {
    InSlot(slots.message) + InSlot(slots.cap)
  }

  predicate HasLeanBytes(slots: Slots) {
    slots.message.Some? && slots.cap.Some?
  }

  function Emptied(slots: Slots): Slots {
    slots.(message := None, cap := None, raw := None)
  }

  // ---- operations -------------------------------------------------------------------------

  ghost function NewId(s: State): uint32 {
    NextFree(s.refs.Keys + {0}, s.next)
  }

  ghost function AddEntry(s: State, entry: Slots): State {
    s.(refs := s.refs[NewId(s) := entry], next := Ahead(NewId(s), 1))
  }

  /** With `retainInputs` the caller keeps its two references, otherwise they go to the table. */
  ghost function Register(s: State, runtimeId: nat, message: Option<Obj>, cap: Option<Obj>, retainInputs: bool)
    : (State, Result<uint32, Error>)
  {
    if message.None? || cap.None? then (s, Err(MissingBytes))
    else
      var entry := Slots(runtimeId, message, cap, None);
      var s' := AddEntry(s, entry);
      (if retainInputs then s'.(counts := s.counts + Objects(entry)) else s'.(outside := s.outside - Objects(entry)),
       Ok(NewId(s)))
  }

  ghost function RegisterRaw(s: State, runtimeId: nat, raw: Raw): (State, uint32) {
    (AddEntry(s, Slots(runtimeId, None, None, Some(raw))), NewId(s))
  }

  /** What a handle to `entry` is given. */
  function Retained(entry: Slots): Slots {
    if HasLeanBytes(entry) then entry.(raw := None) else entry.(message := None, cap := None)
  }

  function Retain(s: State, id: uint32, handle: nat): (State, bool) {
    if id !in s.refs then (s, false)
    else
      var slots := Retained(s.refs[id]);
      (s.(handles := s.handles[handle := slots], counts := s.counts + Objects(slots)), true)
  }

  /** The references that erasing `entry` gives up. */
  function GivenUp(entry: Slots): multiset<Obj> {
    if HasLeanBytes(entry) then Objects(entry) else multiset{}
  }

  function Release(s: State, runtimeId: nat, id: uint32): (State, Result<(), Error>) {
    if id !in s.refs then (s, Err(UnknownRef))
    else if s.refs[id].runtimeId != runtimeId then (s, Err(ForeignRef))
    else (s.(refs := s.refs - {id}, counts := s.counts - GivenUp(s.refs[id])), Ok(()))
  }

  /** The entries of one runtime. */
  function Of(refs: map<uint32, Slots>, runtimeId: nat): map<uint32, Slots> {
    map id | id in refs && refs[id].runtimeId == runtimeId :: refs[id]
  }

  ghost function ReleaseFor(s: State, runtimeId: nat): (State, nat) {
    var gone := Of(s.refs, runtimeId);
    (s.(refs := s.refs - gone.Keys, counts := s.counts - Sum(gone, GivenUp)), |gone|)
  }

  function MoveConstruct(s: State, from: nat, to: nat): State
    requires from in s.handles
  {
    s.(handles := s.handles[to := s.handles[from]][from := Emptied(s.handles[from])])
  }

  function Reset(s: State, handle: nat): State
    requires handle in s.handles
  {
    s.(handles := s.handles[handle := Emptied(s.handles[handle])], counts := s.counts - Objects(s.handles[handle]))
  }

  function MoveAssign(s: State, from: nat, to: nat): State
    requires from in s.handles && to in s.handles
  {
    if from == to then s else MoveConstruct(Reset(s, to), from, to)
  }

  function Destroy(s: State, handle: nat): State
    requires handle in s.handles
  {
    s.(handles := s.handles - {handle}, counts := s.counts - Objects(s.handles[handle]))
  }

  function TakeMessage(s: State, handle: nat): (State, Option<Obj>)
    requires handle in s.handles
  {
    var slots := s.handles[handle];
    (s.(handles := s.handles[handle := slots.(message := None)], outside := s.outside + InSlot(slots.message)),
     slots.message)
  }

  function TakeCap(s: State, handle: nat): (State, Option<Obj>)
    requires handle in s.handles
  {
    var slots := s.handles[handle];
    (s.(handles := s.handles[handle := slots.(cap := None)], outside := s.outside + InSlot(slots.cap)), slots.cap)
  }

  datatype Op =
    | DoRegister(runtimeId: nat, message: Option<Obj>, cap: Option<Obj>, retainInputs: bool)
    | DoRegisterRaw(runtimeId: nat, raw: Raw)
    | DoRetain(id: uint32, handle: nat)
    | DoRelease(runtimeId: nat, id: uint32)
    | DoReleaseFor(runtimeId: nat)
    | DoMoveConstruct(from: nat, to: nat)
    | DoMoveAssign(from: nat, to: nat)
    | DoReset(handle: nat)
    | DoDestroy(handle: nat)
    | DoTakeMessage(handle: nat)
    | DoTakeCap(handle: nat)
    | OutsideAcquires(obj: Obj)
    | OutsideDrops(obj: Obj)

  /**
   What callers owe: a reference handed over is theirs to give, handles exist (new ones do not yet),
   and an id is left.
   */
  ghost predicate Proper(s: State, op: Op) {
    match op
    case DoRegister(_, message, cap, retainInputs) =>
      |s.refs| + 1 < U32 && (!retainInputs && message.Some? && cap.Some? ==> InSlot(message) + InSlot(cap) <= s.outside)
    case DoRegisterRaw(_, _) => |s.refs| + 1 < U32
    case DoRetain(_, handle) => handle !in s.handles
    case DoRelease(_, _) => true
    case DoReleaseFor(_) => true
    case DoMoveConstruct(from, to) => from in s.handles && to !in s.handles
    case DoMoveAssign(from, to) => from in s.handles && to in s.handles
    case DoReset(handle) => handle in s.handles
    case DoDestroy(handle) => handle in s.handles
    case DoTakeMessage(handle) => handle in s.handles
    case DoTakeCap(handle) => handle in s.handles
    case OutsideAcquires(_) => true
    case OutsideDrops(obj) => obj in s.outside
  }

  ghost function Step(s: State, op: Op): State
    requires Proper(s, op)
  {
    match op
    case DoRegister(runtimeId, message, cap, retainInputs) => Register(s, runtimeId, message, cap, retainInputs).0
    case DoRegisterRaw(runtimeId, raw) => RegisterRaw(s, runtimeId, raw).0
    case DoRetain(id, handle) => Retain(s, id, handle).0
    case DoRelease(runtimeId, id) => Release(s, runtimeId, id).0
    case DoReleaseFor(runtimeId) => ReleaseFor(s, runtimeId).0
    case DoMoveConstruct(from, to) => MoveConstruct(s, from, to)
    case DoMoveAssign(from, to) => MoveAssign(s, from, to)
    case DoReset(handle) => Reset(s, handle)
    case DoDestroy(handle) => Destroy(s, handle)
    case DoTakeMessage(handle) => TakeMessage(s, handle).0
    case DoTakeCap(handle) => TakeCap(s, handle).0
    case OutsideAcquires(obj) => s.(counts := s.counts + multiset{obj}, outside := s.outside + multiset{obj})
    case OutsideDrops(obj) => s.(counts := s.counts - multiset{obj}, outside := s.outside - multiset{obj})
  }

  // ---- conservation -----------------------------------------------------------------------

  /** An entry holds either two byte arrays or raw bytes. */
  predicate Whole(entry: Slots) {
    (entry.message.Some? <==> entry.cap.Some?) && (entry.raw.Some? <==> entry.message.None?)
  }

  ghost predicate AllWhole(refs: map<uint32, Slots>) {
    forall id | id in refs :: Whole(refs[id])
  }

  /** Every reference is held by the outside, one slot of the table, or one slot of a handle. */
  ghost predicate Conserved(s: State) {
    forall obj :: s.counts[obj] == s.outside[obj] + Sum(s.refs, Objects)[obj] + Sum(s.handles, Objects)[obj]
  }

  ghost predicate Inv(s: State) {
    Conserved(s) && AllWhole(s.refs) && 0 !in s.refs
  }

  lemma NewIdIsFree(s: State)
    requires |s.refs| + 1 < U32
    ensures NewId(s) != 0 && NewId(s) !in s.refs
  {
    assert |s.refs.Keys| == |s.refs| && |s.refs.Keys + {0}| <= |s.refs.Keys| + 1;
    NextFreeIsNext(s.refs.Keys + {0}, s.next);
  }

  lemma AddEntrySums(s: State, entry: Slots)
    requires |s.refs| + 1 < U32 && 0 !in s.refs && AllWhole(s.refs) && Whole(entry)
    ensures Sum(AddEntry(s, entry).refs, Objects) == Sum(s.refs, Objects) + Objects(entry)
    ensures AllWhole(AddEntry(s, entry).refs) && 0 !in AddEntry(s, entry).refs
  {
    NewIdIsFree(s);
    SumWith(s.refs, Objects, NewId(s), entry);
  }

  lemma RegisterKeepsInv(s: State, runtimeId: nat, message: Option<Obj>, cap: Option<Obj>, retainInputs: bool)
    requires Inv(s) && Proper(s, DoRegister(runtimeId, message, cap, retainInputs))
    ensures Inv(Register(s, runtimeId, message, cap, retainInputs).0)
  {
    if message.Some? && cap.Some? {
      var entry := Slots(runtimeId, message, cap, None);
      AddEntrySums(s, entry);
      var s' := Register(s, runtimeId, message, cap, retainInputs).0;
      forall obj
        ensures s'.counts[obj] == s'.outside[obj] + Sum(s'.refs, Objects)[obj] + Sum(s'.handles, Objects)[obj]
      {
        assert s.counts[obj] == s.outside[obj] + Sum(s.refs, Objects)[obj] + Sum(s.handles, Objects)[obj];
        assert !retainInputs ==> Objects(entry)[obj] <= s.outside[obj];
      }
    }
  }

  lemma RegisterRawKeepsInv(s: State, runtimeId: nat, raw: Raw)
    requires Inv(s) && |s.refs| + 1 < U32
    ensures Inv(RegisterRaw(s, runtimeId, raw).0)
  {
    AddEntrySums(s, Slots(runtimeId, None, None, Some(raw)));
  }

  lemma RetainKeepsInv(s: State, id: uint32, handle: nat)
    requires Inv(s) && handle !in s.handles
    ensures Inv(Retain(s, id, handle).0)
  {
    if id in s.refs {
      SumWith(s.handles, Objects, handle, Retained(s.refs[id]));
    }
  }

  lemma ReleaseKeepsInv(s: State, runtimeId: nat, id: uint32)
    requires Inv(s)
    ensures Inv(Release(s, runtimeId, id).0)
  {
    if id in s.refs {
      SumWithout(s.refs, Objects, id);
    }
  }

  lemma {:induction false} WholeGivesUpAll(refs: map<uint32, Slots>)
    requires AllWhole(refs)
    ensures Sum(refs, GivenUp) == Sum(refs, Objects)
    decreases |refs|
  {
    if refs != map[] {
      var id :| id in refs;
      SumWithout(refs, GivenUp, id);
      SumWithout(refs, Objects, id);
      WholeGivesUpAll(refs - {id});
    }
  }

  lemma ReleaseForKeepsInv(s: State, runtimeId: nat)
    requires Inv(s)
    ensures Inv(ReleaseFor(s, runtimeId).0)
  {
    var gone := Of(s.refs, runtimeId);
    SumSplit(s.refs, Objects, gone);
    WholeGivesUpAll(gone);
  }

  /** The handles' total after one of them has changed. */
  lemma HandleSums(s: State, handle: nat, slots: Slots, obj: Obj)
    requires handle in s.handles
    ensures Sum(s.handles - {handle}, Objects)[obj] + Objects(s.handles[handle])[obj] == Sum(s.handles, Objects)[obj]
    ensures Sum(s.handles[handle := slots], Objects)[obj] + Objects(s.handles[handle])[obj]
            == Sum(s.handles, Objects)[obj] + Objects(slots)[obj]
  {
    SumWithout(s.handles, Objects, handle);
    SumUpdate(s.handles, Objects, handle, slots);
    assert (Sum(s.handles[handle := slots], Objects) + Objects(s.handles[handle]))[obj]
           == (Sum(s.handles, Objects) + Objects(slots))[obj];
  }

  lemma DestroyKeepsInv(s: State, handle: nat)
    requires Inv(s) && handle in s.handles
    ensures Inv(Destroy(s, handle)) && Inv(Reset(s, handle))
  {
    forall obj
      ensures Destroy(s, handle).counts[obj]
              == s.outside[obj] + Sum(s.refs, Objects)[obj] + Sum(s.handles - {handle}, Objects)[obj]
      ensures Reset(s, handle).counts[obj]
              == s.outside[obj] + Sum(s.refs, Objects)[obj] + Sum(Reset(s, handle).handles, Objects)[obj]
    {
      HandleSums(s, handle, Emptied(s.handles[handle]), obj);
    }
  }

  lemma TakeKeepsInv(s: State, handle: nat)
    requires Inv(s) && handle in s.handles
    ensures Inv(TakeMessage(s, handle).0) && Inv(TakeCap(s, handle).0)
  {
    var slots := s.handles[handle];
    var m, c := TakeMessage(s, handle).0, TakeCap(s, handle).0;
    forall obj
      ensures m.counts[obj] == m.outside[obj] + Sum(m.refs, Objects)[obj] + Sum(m.handles, Objects)[obj]
      ensures c.counts[obj] == c.outside[obj] + Sum(c.refs, Objects)[obj] + Sum(c.handles, Objects)[obj]
    {
      HandleSums(s, handle, slots.(message := None), obj);
      HandleSums(s, handle, slots.(cap := None), obj);
    }
  }

  lemma MoveConstructKeepsInv(s: State, from: nat, to: nat)
    requires Inv(s) && from in s.handles && (to in s.handles ==> from != to && Objects(s.handles[to]) == multiset{})
    ensures Inv(MoveConstruct(s, from, to))
  {
    var slots := s.handles[from];
    var s1 := s.(handles := s.handles[to := slots]);
    var s2 := MoveConstruct(s, from, to);
    if to in s.handles {
      SumUpdate(s.handles, Objects, to, slots);
    } else {
      SumWith(s.handles, Objects, to, slots);
    }
    assert Sum(s1.handles, Objects) == Sum(s.handles, Objects) + Objects(slots);
    forall obj
      ensures s2.counts[obj] == s2.outside[obj] + Sum(s2.refs, Objects)[obj] + Sum(s2.handles, Objects)[obj]
    {
      HandleSums(s1, from, Emptied(slots), obj);
    }
  }

  lemma StepKeepsInv(s: State, op: Op)
    requires Inv(s) && Proper(s, op)
    ensures Inv(Step(s, op))
  {
    match op
    case DoRegister(runtimeId, message, cap, retainInputs) =>
      RegisterKeepsInv(s, runtimeId, message, cap, retainInputs);
    case DoRegisterRaw(runtimeId, raw) => RegisterRawKeepsInv(s, runtimeId, raw);
    case DoRetain(id, handle) => RetainKeepsInv(s, id, handle);
    case DoRelease(runtimeId, id) => ReleaseKeepsInv(s, runtimeId, id);
    case DoReleaseFor(runtimeId) => ReleaseForKeepsInv(s, runtimeId);
    case DoMoveConstruct(from, to) => MoveConstructKeepsInv(s, from, to);
    case DoMoveAssign(from, to) =>
      if from != to {
        DestroyKeepsInv(s, to);
        MoveConstructKeepsInv(Reset(s, to), from, to);
      }
    case DoReset(handle) => DestroyKeepsInv(s, handle);
    case DoDestroy(handle) => DestroyKeepsInv(s, handle);
    case DoTakeMessage(handle) => TakeKeepsInv(s, handle);
    case DoTakeCap(handle) => TakeKeepsInv(s, handle);
    case OutsideAcquires(_) =>
    case OutsideDrops(_) =>
  }

  ghost predicate AllProper(s: State, ops: seq<Op>)
    decreases |ops|
  {
    ops != [] ==> Proper(s, ops[0]) && AllProper(Step(s, ops[0]), ops[1..])
  }

  ghost function Run(s: State, ops: seq<Op>): State
    requires AllProper(s, ops)
    decreases |ops|
  {
    if ops == [] then s else Run(Step(s, ops[0]), ops[1..])
  }

  lemma {:induction false} RunKeepsInv(s: State, ops: seq<Op>)
    requires Inv(s) && AllProper(s, ops)
    ensures Inv(Run(s, ops))
    decreases |ops|
  {
    if ops != [] {
      StepKeepsInv(s, ops[0]);
      RunKeepsInv(Step(s, ops[0]), ops[1..]);
    }
  }

  /** No table entry, no handle, and whatever the outside holds. */
  ghost predicate Initial(s: State) {
    s.refs == map[] && s.handles == map[] && s.counts == s.outside
  }

  /**
   Over any run, from any value of the id counter, the count of every byte array is the number of
   references held outside, by table slots and by handle slots. So when the table and the handles
   are gone, nothing has leaked.
   */
  lemma ReferencesAreConserved(s: State, ops: seq<Op>)
    requires Initial(s) && AllProper(s, ops)
    ensures var end := Run(s, ops);
            && Conserved(end)
            && (end.refs == map[] && end.handles == map[] ==> end.counts == end.outside)
  {
    assert Sum(s.refs, Objects) == multiset{} && Sum(s.handles, Objects) == multiset{};
    RunKeepsInv(s, ops);
    var end := Run(s, ops);
    if end.refs == map[] && end.handles == map[] {
      forall obj ensures end.counts[obj] == end.outside[obj] {
        assert end.counts[obj] == end.outside[obj] + Sum(end.refs, Objects)[obj] + Sum(end.handles, Objects)[obj];
      }
    }
  }

  /** Every reference about to be dropped is there to be dropped: no count goes below zero. */
  lemma NothingIsDroppedTwice(s: State, runtimeId: nat)
    requires Inv(s)
    ensures forall id | id in s.refs :: GivenUp(s.refs[id]) <= s.counts
    ensures forall handle | handle in s.handles :: Objects(s.handles[handle]) <= s.counts
    ensures Sum(Of(s.refs, runtimeId), GivenUp) <= s.counts
  {
    assert forall obj :: s.counts[obj] >= Sum(s.refs, Objects)[obj] && s.counts[obj] >= Sum(s.handles, Objects)[obj];
    forall id | id in s.refs ensures GivenUp(s.refs[id]) <= s.counts {
      SumCovers(s.refs, Objects, id);
    }
    forall handle | handle in s.handles ensures Objects(s.handles[handle]) <= s.counts {
      SumCovers(s.handles, Objects, handle);
    }
    var gone := Of(s.refs, runtimeId);
    SumSplit(s.refs, Objects, gone);
    WholeGivesUpAll(gone);
  }

  lemma NoneTaken(counts: multiset<Obj>)
    ensures counts - multiset{} == counts
  {
  }

  lemma NoneAdded(counts: multiset<Obj>, entry: Slots)
    requires !HasLeanBytes(entry)
    ensures counts + Objects(Retained(entry)) == counts
  {
  }

  // ---- the bulk release -------------------------------------------------------------------

  /** The entries not in `left` have been visited: none of them is one to go. */
  ghost predicate Visited(now: map<uint32, Slots>, gone: map<uint32, Slots>, left: set<uint32>) {
    left <= now.Keys && forall id | id in now && id !in left :: id !in gone
  }

  /** An entry goes if it belongs to the runtime; either way it has been visited then. */
  lemma VisitOneMore(refs: map<uint32, Slots>, runtimeId: nat, gone: map<uint32, Slots>, done: map<uint32, Slots>,
                     now: map<uint32, Slots>, left: set<uint32>, id: uint32)
    requires gone == Of(refs, runtimeId) && now == refs - done.Keys
    requires Visited(now, gone, left) && id in left
    ensures id in now && (id in gone <==> now[id].runtimeId == runtimeId)
    ensures if id in gone then Visited(now - {id}, gone, left - {id}) else Visited(now, gone, left - {id})
  {
  }

  /** The entries of the runtime in `done` have gone from `refs`, and their references from `counts`. */
  ghost predicate Releasing(refs: map<uint32, Slots>, runtimeId: nat, counts: multiset<Obj>, done: map<uint32, Slots>,
                            now: map<uint32, Slots>, held: multiset<Obj>, left: set<uint32>) {
    && Draining(refs, GivenUp, counts, Of(refs, runtimeId), done, now, held)
    && Visited(now, Of(refs, runtimeId), left)
  }

  lemma ReleaseNext(refs: map<uint32, Slots>, runtimeId: nat, counts: multiset<Obj>, done: map<uint32, Slots>,
                    now: map<uint32, Slots>, held: multiset<Obj>, left: set<uint32>, id: uint32)
    requires Releasing(refs, runtimeId, counts, done, now, held, left) && id in left
    ensures id in now
    ensures if now[id].runtimeId == runtimeId then
              var done', refs' := done[id := now[id]], now - {id};
              && GivenUp(now[id]) <= held && |done'| == |done| + 1
              && Releasing(refs, runtimeId, counts, done', refs', held - GivenUp(now[id]), left - {id})
            else Releasing(refs, runtimeId, counts, done, now, held, left - {id})
  {
    VisitOneMore(refs, runtimeId, Of(refs, runtimeId), done, now, left, id);
    if now[id].runtimeId == runtimeId {
      DrainOneMore(refs, GivenUp, counts, Of(refs, runtimeId), done, now, held, id);
    }
  }

  // ---- the code ---------------------------------------------------------------------------

  /** The reference counts of the Lean runtime. */
  class LeanHeap {
    var counts: multiset<Obj>

    constructor (counts: multiset<Obj>)
      ensures this.counts == counts
    {
      this.counts := counts;
    }

    method Inc(obj: Obj)
      modifies this
      ensures counts == old(counts) + multiset{obj}
    {
      counts := counts + multiset{obj};
    }

    method IncBoth(first: Obj, second: Obj)
      modifies this
      ensures counts == old(counts) + (multiset{first} + multiset{second})
    {
      Inc(first);
      Inc(second);
    }

    method Dec(obj: Obj)
      requires obj in counts
      modifies this
      ensures counts == old(counts) - multiset{obj}
    {
      counts := counts - multiset{obj};
    }

    /** Gives up what two slots hold. */
    method DecBoth(first: Option<Obj>, second: Option<Obj>)
      requires InSlot(first) + InSlot(second) <= counts
      modifies this
      ensures counts == old(counts) - (InSlot(first) + InSlot(second))
    {
      MinusTwice(counts, InSlot(first), InSlot(second));
      DecIfAny(first);
      DecIfAny(second);
    }

    /** Gives up what a slot holds, if it holds anything. */
    method DecIfAny(slot: Option<Obj>)
      requires InSlot(slot) <= counts
      modifies this
      ensures counts == old(counts) - InSlot(slot)
    {
      if slot.Some? {
        Dec(slot.value);
      } else {
        NoneTaken(counts);
      }
    }
  }

  class RetainedRuntimePayloadRef {
    const heap: LeanHeap
    var runtimeId: nat
    var messageBytes: Option<Obj>
    var capBytes: Option<Obj>
    var rawBytes: Option<Raw>

    function Held(): Slots
      reads this
    {
      Slots(runtimeId, messageBytes, capBytes, rawBytes)
    }

    constructor (heap: LeanHeap, slots: Slots)
      ensures Held() == slots && this.heap == heap
    {
      this.heap := heap;
      runtimeId, messageBytes, capBytes, rawBytes := slots.runtimeId, slots.message, slots.cap, slots.raw;
    }

    constructor MoveFrom(other: RetainedRuntimePayloadRef)
      modifies other
      ensures Held() == old(other.Held()) && other.Held() == Emptied(old(other.Held())) && heap == other.heap
      ensures other.messageBytes == None && other.capBytes == None && other.rawBytes == None
    {
      heap := other.heap;
      runtimeId, rawBytes := other.runtimeId, other.rawBytes;
      messageBytes, capBytes := other.messageBytes, other.capBytes;
      new;
      other.rawBytes := None;
      other.messageBytes := None;
      other.capBytes := None;
    }

    method Reset()
      requires Objects(Held()) <= heap.counts
      modifies this, heap
      ensures Held() == Emptied(old(Held()))
      ensures messageBytes == None && capBytes == None && rawBytes == None
      ensures heap.counts == old(heap.counts) - Objects(old(Held()))
    {
      heap.DecBoth(messageBytes, capBytes);
      messageBytes := None;
      capBytes := None;
      rawBytes := None;
    }

    method MoveAssign(other: RetainedRuntimePayloadRef)
      requires Objects(Held()) <= heap.counts && heap == other.heap
      modifies this, other, heap
      ensures this == other ==> Held() == old(Held()) && heap.counts == old(heap.counts)
      ensures this != other ==> Held() == old(other.Held()) && other.Held() == Emptied(old(other.Held()))
      ensures this != other ==> other.messageBytes == None && other.capBytes == None && other.rawBytes == None
      ensures this != other ==> heap.counts == old(heap.counts) - Objects(old(Held()))
    {
      if this != other {
        Reset();
        runtimeId := other.runtimeId;
        messageBytes := other.messageBytes;
        capBytes := other.capBytes;
        rawBytes := other.rawBytes;
        other.rawBytes := None;
        other.messageBytes := None;
        other.capBytes := None;
      }
    }

    method TakeMessageBytes() returns (out: Option<Obj>)
      modifies this`messageBytes
      ensures out == old(messageBytes) && Held() == old(Held()).(message := None)
    {
      out := messageBytes;
      messageBytes := None;
    }

    method TakeCapBytes() returns (out: Option<Obj>)
      modifies this`capBytes
      ensures out == old(capBytes) && Held() == old(Held()).(cap := None)
    {
      out := capBytes;
      capBytes := None;
    }
  }

  class PayloadRefRegistry {
    const heap: LeanHeap
    var gRuntimePayloadRefs: map<uint32, Slots>
    var gNextRuntimePayloadRefId: uint32

    /** The state as far as the registry sees it; handles and the outside are the caller's. */
    ghost function Abs(handles: map<nat, Slots>, outside: multiset<Obj>): State
      reads this, heap
    {
      State(gRuntimePayloadRefs, gNextRuntimePayloadRefId, handles, heap.counts, outside)
    }

    constructor (heap: LeanHeap)
      ensures gRuntimePayloadRefs == map[] && gNextRuntimePayloadRefId == 1 && this.heap == heap
    {
      this.heap := heap;
      gRuntimePayloadRefs, gNextRuntimePayloadRefId := map[], 1;
    }

    /** Ends whenever fewer than 2^32 - 1 refs are live, wherever the counter stands. */
    method AllocateRuntimePayloadRefIdLocked() returns (id: uint32)
      requires |gRuntimePayloadRefs| + 1 < U32
      modifies this`gNextRuntimePayloadRefId
      ensures id != 0 && id !in gRuntimePayloadRefs
      ensures id == NextFree(gRuntimePayloadRefs.Keys + {0}, old(gNextRuntimePayloadRefId))
      ensures gNextRuntimePayloadRefId == Ahead(id, 1)
    {
      ghost var start, used := gNextRuntimePayloadRefId, gRuntimePayloadRefs.Keys + {0};
      assert |gRuntimePayloadRefs.Keys| == |gRuntimePayloadRefs| && |used| <= |gRuntimePayloadRefs.Keys| + 1;
      NextFreeIsNext(used, start);
      ghost var goal := NextFree(used, start);
      ghost var d: nat := 0;
      DistanceAhead(start, goal);
      AheadAgain(start, 0);
      id := gNextRuntimePayloadRefId;
      gNextRuntimePayloadRefId := Ahead(gNextRuntimePayloadRefId, 1);
      while id == 0 || id in gRuntimePayloadRefs
        invariant d <= Distance(start, goal)
        invariant id == Ahead(start, d) && gNextRuntimePayloadRefId == Ahead(id, 1)
        decreases Distance(start, goal) - d
      {
        AheadAgain(start, d);
        id := gNextRuntimePayloadRefId;
        gNextRuntimePayloadRefId := Ahead(gNextRuntimePayloadRefId, 1);
        d := d + 1;
      }
    }

    method RegisterRuntimePayloadRef(runtimeId: nat, messageBytes: Option<Obj>, capBytes: Option<Obj>,
        retainInputs: bool, ghost handles: map<nat, Slots>, ghost outside: multiset<Obj>)
      returns (r: Result<uint32, Error>, ghost outside': multiset<Obj>)
      requires |gRuntimePayloadRefs| + 1 < U32
      modifies this, heap
      ensures (Abs(handles, outside'), r)
              == Register(old(Abs(handles, outside)), runtimeId, messageBytes, capBytes, retainInputs)
      ensures r.Ok? <==> messageBytes.Some? && capBytes.Some?
      ensures r.Ok? ==>
                && r.value !in old(gRuntimePayloadRefs)
                && gRuntimePayloadRefs
                   == old(gRuntimePayloadRefs)[r.value := Slots(runtimeId, messageBytes, capBytes, None)]
      ensures heap.counts
              == old(heap.counts)
               + if r.Ok? && retainInputs then multiset{messageBytes.value, capBytes.value} else multiset{}
    {
      outside' := outside;
      if messageBytes.None? || capBytes.None? {
        return Err(MissingBytes), outside;
      }
      if retainInputs {
        heap.IncBoth(messageBytes.value, capBytes.value);
      }
      var id := AllocateRuntimePayloadRefIdLocked();
      var entry := Slots(runtimeId, messageBytes, capBytes, None);
      if !retainInputs {
        outside' := outside - Objects(entry);
      }
      gRuntimePayloadRefs := gRuntimePayloadRefs[id := entry];
      r := Ok(id);
      assert multiset{messageBytes.value, capBytes.value} == Objects(entry);
    }

    method RegisterFromRawCallResult(runtimeId: nat, raw: Raw,
        ghost handles: map<nat, Slots>, ghost outside: multiset<Obj>)
      returns (id: uint32)
      requires |gRuntimePayloadRefs| + 1 < U32
      modifies this
      ensures (Abs(handles, outside), id) == RegisterRaw(old(Abs(handles, outside)), runtimeId, raw)
      ensures id !in old(gRuntimePayloadRefs)
      ensures gRuntimePayloadRefs == old(gRuntimePayloadRefs)[id := Slots(runtimeId, None, None, Some(raw))]
    {
      id := AllocateRuntimePayloadRefIdLocked();
      gRuntimePayloadRefs := gRuntimePayloadRefs[id := Slots(runtimeId, None, None, Some(raw))];
    }

    method RetainRuntimePayloadRef(id: uint32,
        ghost handle: nat, ghost handles: map<nat, Slots>, ghost outside: multiset<Obj>)
      returns (r: Option<RetainedRuntimePayloadRef>, ghost handles': map<nat, Slots>)
      modifies heap
      ensures (Abs(handles', outside), r.Some?) == Retain(old(Abs(handles, outside)), id, handle)
      ensures r.Some? ==> fresh(r.value) && r.value.heap == heap && handles' == handles[handle := r.value.Held()]
      ensures r.Some? <==> id in gRuntimePayloadRefs
      ensures r.Some? && Whole(gRuntimePayloadRefs[id]) ==>
                var entry := gRuntimePayloadRefs[id];
                && r.value.messageBytes == entry.message && r.value.capBytes == entry.cap
                && r.value.rawBytes == entry.raw && r.value.runtimeId == entry.runtimeId
    {
      if id !in gRuntimePayloadRefs {
        return None, handles;
      }
      var entry := gRuntimePayloadRefs[id];
      if HasLeanBytes(entry) {
        heap.IncBoth(entry.message.value, entry.cap.value);
        var lean := new RetainedRuntimePayloadRef(heap, Slots(entry.runtimeId, entry.message, entry.cap, None));
        return Some(lean), handles[handle := lean.Held()];
      }
      NoneAdded(heap.counts, entry);
      var shared := new RetainedRuntimePayloadRef(heap, Slots(entry.runtimeId, None, None, entry.raw));
      return Some(shared), handles[handle := shared.Held()];
    }

    method EraseEntry(id: uint32)
      requires id in gRuntimePayloadRefs && GivenUp(gRuntimePayloadRefs[id]) <= heap.counts
      modifies this`gRuntimePayloadRefs, heap
      ensures gRuntimePayloadRefs == old(gRuntimePayloadRefs) - {id}
      ensures heap.counts == old(heap.counts) - GivenUp(old(gRuntimePayloadRefs)[id])
    {
      var entry := gRuntimePayloadRefs[id];
      if HasLeanBytes(entry) {
        heap.Dec(entry.message.value);
        heap.Dec(entry.cap.value);
      }
      gRuntimePayloadRefs := gRuntimePayloadRefs - {id};
    }

    method ReleaseRuntimePayloadRef(runtimeId: nat, id: uint32,
        ghost handles: map<nat, Slots>, ghost outside: multiset<Obj>)
      returns (r: Result<(), Error>)
      requires id in gRuntimePayloadRefs ==> GivenUp(gRuntimePayloadRefs[id]) <= heap.counts
      modifies this, heap
      ensures (Abs(handles, outside), r) == Release(old(Abs(handles, outside)), runtimeId, id)
      ensures r.Ok? <==> id in old(gRuntimePayloadRefs) && old(gRuntimePayloadRefs)[id].runtimeId == runtimeId
      ensures gRuntimePayloadRefs == old(gRuntimePayloadRefs) - if r.Ok? then {id} else {}
    {
      if id !in gRuntimePayloadRefs {
        return Err(UnknownRef);
      }
      if gRuntimePayloadRefs[id].runtimeId != runtimeId {
        return Err(ForeignRef);
      }
      EraseEntry(id);
      return Ok(());
    }

    /** Visits the entries in any order. */
    method ReleaseRuntimePayloadRefsForRuntime(runtimeId: nat,
        ghost handles: map<nat, Slots>, ghost outside: multiset<Obj>)
      returns (released: nat)
      requires Sum(Of(gRuntimePayloadRefs, runtimeId), GivenUp) <= heap.counts
      modifies this, heap
      ensures (Abs(handles, outside), released) == ReleaseFor(old(Abs(handles, outside)), runtimeId)
    {
      ghost var refs, counts := gRuntimePayloadRefs, heap.counts;
      ghost var done: map<uint32, Slots> := map[];
      var left := gRuntimePayloadRefs.Keys;
      released := 0;
      NothingDrained(refs, GivenUp, counts, Of(refs, runtimeId));
      while left != {}
        invariant Releasing(refs, runtimeId, counts, done, gRuntimePayloadRefs, heap.counts, left)
        invariant released == |done| && gNextRuntimePayloadRefId == old(gNextRuntimePayloadRefId)
        decreases left
      {
        var id :| id in left;
        ReleaseNext(refs, runtimeId, counts, done, gRuntimePayloadRefs, heap.counts, left, id);
        if gRuntimePayloadRefs[id].runtimeId == runtimeId {
          done := done[id := gRuntimePayloadRefs[id]];
          EraseEntry(id);
          released := released + 1;
        }
        left := left - {id};
      }
      AllDrained(refs, GivenUp, counts, Of(refs, runtimeId), done, gRuntimePayloadRefs, heap.counts);
    }
  }
}

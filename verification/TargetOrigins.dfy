/**
 What a live id stands for, read off the history of a run: the capability its oldest ancestor was
 registered with, inside one forwarder for every tail call on the way to it.
 */
module TargetOrigins {
  import opened Words
  import opened IdAllocator
  import opened TargetTable
  import opened TargetRuns

  /** Where an id comes from. */
  datatype Origin = Registered(cap: Cap) | KeptFrom(id: uint32) | CalledThrough(id: uint32)

  /** Entries are never removed: `released` are the ids given back so far. */
  datatype Log = Log(issued: nat, origins: map<uint32, Origin>, released: set<uint32>)

  const NO_LOG := Log(0, map[], {})

  function OriginBy(op: Op): Origin
    requires !op.Release?
  {
    match op
    case Register(cap) => Registered(cap)
    case Open(_, cap, _) => Registered(cap)
    case Keep(id) => KeptFrom(id)
    case TailCall(id) => CalledThrough(id)
  }

  /** A release counts for the ids before the one it stops at. */
  ghost function Note(log: Log, t: Table, op: Op): Log {
    if Issues(t, op) then log.(issued := log.issued + 1, origins := log.origins[FreshId(t) := OriginBy(op)])
    else if op.Release? then
      log.(released := log.released + NonZero(op.ids[..FirstStop(t.targets.Keys, op.ids)]))
    else log
  }

  ghost function LogOf(log: Log, t: Table, ops: seq<Op>): Log
    decreases |ops|
  {
    if ops == [] then log else LogOf(Note(log, t, ops[0]), Step(t, ops[0]), ops[1..])
  }

  function StandsFor(origins: map<uint32, Origin>, id: uint32): Option<Cap>
    decreases id
  {
    if id !in origins then None
    else
      match origins[id]
      case Registered(cap) => Some(cap)
      case KeptFrom(from) => if from < id then StandsFor(origins, from) else None
      case CalledThrough(from) =>
        if from < id && StandsFor(origins, from).Some? then Some(Forwarder(StandsFor(origins, from).value)) else None
  }

  /** Ids are those below the counter, and a live one is one that was not released. */
  ghost predicate Tells(log: Log, t: Table) {
    && log.issued + 1 == t.next as int
    && (forall id | id in log.origins || id in log.released :: 0 < id < t.next)
    && (forall id :: id in t.targets <==> 0 < id < t.next && id !in log.released)
    && (forall id | id in t.targets :: StandsFor(log.origins, id) == Some(t.targets[id]))
  }

  /** A new entry does not change what older ids stand for. */
  lemma {:induction false} StandsForBefore(origins: map<uint32, Origin>, added: uint32, origin: Origin, id: uint32)
    requires added !in origins && id < added
    ensures StandsFor(origins[added := origin], id) == StandsFor(origins, id)
    decreases id
  {
    if id in origins {
      match origins[id]
      case Registered(_) =>
      case KeptFrom(from) => if from < id { StandsForBefore(origins, added, origin, from); }
      case CalledThrough(from) => if from < id { StandsForBefore(origins, added, origin, from); }
    }
  }

  lemma NewIdIsCounter(log: Log, t: Table)
    requires Tells(log, t)
    ensures FreshId(t) == t.next
  {
    IdsBelow(t.targets.Keys, t.next as int);
    NextFreeAtCounter(t.targets.Keys, t.next);
  }

  /** The capability an issuing step files, and only that, is new. */
  lemma IssuedCap(t: Table, op: Op)
    requires Issues(t, op)
    ensures Step(t, op).next == Ahead(FreshId(t), 1)
    ensures Step(t, op).targets
            == t.targets[FreshId(t) := match op
                                       case Register(cap) => cap
                                       case Open(_, cap, _) => cap
                                       case Keep(id) => t.targets[id]
                                       case TailCall(id) => Forwarder(t.targets[id])]
  {
  }

  lemma IssueTells(log: Log, t: Table, op: Op)
    requires Tells(log, t) && Issues(t, op) && t.next as int + 1 < U32
    ensures Tells(Note(log, t, op), Step(t, op))
  {
    NewIdIsCounter(log, t);
    IssuedCap(t, op);
    forall id | id in t.targets
      ensures StandsFor(log.origins[t.next := OriginBy(op)], id) == Some(t.targets[id])
    {
      StandsForBefore(log.origins, t.next, OriginBy(op), id);
    }
  }

  lemma ReleaseTells(log: Log, t: Table, ids: seq<uint32>)
    requires Tells(log, t) && Valid(t)
    ensures Tells(Note(log, t, Release(ids)), Step(t, Release(ids)))
  {
    ReleaseManyExact(t, ids);
    var k := FirstStop(t.targets.Keys, ids);
    forall id | id in NonZero(ids[..k])
      ensures id in t.targets
    {
      var i :| 0 <= i < k && ids[i] == id;
      assert !Stops(t.targets.Keys, ids, i);
    }
  }

  lemma ValidAfter(t: Table, op: Op)
    requires Valid(t) && |t.targets| < U32
    ensures Valid(Step(t, op))
  {
    assert |t.targets.Keys| == |t.targets|;
    NextFreeIsNext(t.targets.Keys, t.next);
    var live, id := t.targets.Keys, FreshId(t);
    match op
    case Register(_) =>
    case Open(kind, _, peer) => AdoptKeepsConsistent(t.Of(kind), live, id, peer);
    case Keep(source) => DeriveKeepsValid(t, source);
    case TailCall(source) => DeriveKeepsValid(t, source);
    case Release(ids) =>
      ReleaseManyExact(t, ids);
      DropKeepsValid(t, NonZero(ids[..FirstStop(live, ids)]));
  }

  lemma DeriveKeepsValid(t: Table, source: uint32)
    requires Valid(t) && FreshId(t) !in t.targets
    ensures Consistent(Derive(t.loopback, source, FreshId(t)), t.targets.Keys + {FreshId(t)})
    ensures Consistent(Derive(t.network, source, FreshId(t)), t.targets.Keys + {FreshId(t)})
  {
    DeriveKeepsConsistent(t.loopback, t.targets.Keys, source, FreshId(t));
    DeriveKeepsConsistent(t.network, t.targets.Keys, source, FreshId(t));
  }

  lemma {:induction false} MoreIssued(log: Log, t: Table, ops: seq<Op>)
    ensures log.issued <= LogOf(log, t, ops).issued
    decreases |ops|
  {
    if ops != [] {
      MoreIssued(Note(log, t, ops[0]), Step(t, ops[0]), ops[1..]);
    }
  }

  lemma {:induction false} RunTells(log: Log, t: Table, ops: seq<Op>)
    requires Tells(log, t) && Valid(t) && LogOf(log, t, ops).issued + 1 < U32
    ensures Tells(LogOf(log, t, ops), Run(t, ops))
    decreases |ops|
  {
    if ops != [] {
      var op := ops[0];
      MoreIssued(Note(log, t, op), Step(t, op), ops[1..]);
      StepTells(log, t, op);
      RunTells(Note(log, t, op), Step(t, op), ops[1..]);
    }
  }

  lemma StepTells(log: Log, t: Table, op: Op)
    requires Tells(log, t) && Valid(t) && Note(log, t, op).issued + 1 < U32
    ensures Tells(Note(log, t, op), Step(t, op)) && Valid(Step(t, op))
  {
    IdsBelow(t.targets.Keys, t.next as int);
    assert |t.targets.Keys| == |t.targets|;
    ValidAfter(t, op);
    if Issues(t, op) {
      IssueTells(log, t, op);
    } else if op.Release? {
      ReleaseTells(log, t, op.ids);
    }
  }

  /**
   Over any run that issues fewer than 2^32 - 1 ids: an id is live exactly if it was issued and not
   released since, and it stands for what its origins say, whichever of them are still live.
   */
  lemma LiveIdsStandForTheirOrigin(ops: seq<Op>, id: uint32)
    requires LogOf(NO_LOG, EMPTY, ops).issued < U32 - 1
    ensures var log, t := LogOf(NO_LOG, EMPTY, ops), Run(EMPTY, ops);
            && (id in t.targets <==> 0 < id as int <= log.issued && id !in log.released)
            && (id in t.targets ==> StandsFor(log.origins, id) == Some(t.targets[id]))
  {
    RunTells(NO_LOG, EMPTY, ops);
  }
}

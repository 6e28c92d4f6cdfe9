/**
 Runs of the target table. A connection is open exactly while some live id descends from the id it
 was opened under, where descent is read off the history of the run and not off the table.
 */
module TargetRuns {
  import opened Words
  import opened IdAllocator
  import opened TargetTable

  datatype Op =
    | Register(cap: Cap)
    | Open(kind: Kind, cap: Cap, peer: Peer)
    | Keep(id: uint32)
    | TailCall(id: uint32)
    | Release(ids: seq<uint32>)

  ghost function Step(t: Table, op: Op): Table {
    match op
    case Register(cap) => AddTarget(t, cap)
    case Open(kind, cap, peer) => Connect(t, kind, cap, peer)
    case Keep(id) => Retain(t, id).0
    case TailCall(id) => RegisterTailCall(t, id).0
    case Release(ids) => ReleaseMany(t, ids).0
  }

  ghost function Run(t: Table, ops: seq<Op>): Table
    decreases |ops|
  {
    if ops == [] then t else Run(Step(t, ops[0]), ops[1..])
  }

  /** Does the step hand out a new id? */
  predicate Issues(t: Table, op: Op) {
    match op
    case Register(_) => true
    case Open(_, _, _) => true
    case Keep(id) => id in t.targets
    case TailCall(id) => id in t.targets
    case Release(_) => false
  }

  /**
   What an observer writes down: how many ids were issued, which id each derived id was made from,
   and which connection was opened under which id. Entries are never removed.
   */
  datatype History = History(
    issued: nat, parent: map<uint32, uint32>, loopback: map<uint32, Peer>, network: map<uint32, Peer>) {
    function Openings(kind: Kind): map<uint32, Peer> {
      if kind == Loopback then loopback else network
    }
  }

  const NO_HISTORY := History(0, map[], map[], map[])

  ghost function Observe(h: History, t: Table, op: Op): History {
    if Issues(t, op) then Record(h, op, FreshId(t)) else h
  }

  /** The entry for a step that issued `id`. */
  function Record(h: History, op: Op, id: uint32): History {
    var h' := h.(issued := h.issued + 1);
    match op
    case Register(_) => h'
    case Open(kind, _, peer) =>
      if kind == Loopback then h'.(loopback := h.loopback[id := peer]) else h'.(network := h.network[id := peer])
    case Keep(source) => h'.(parent := h.parent[id := source])
    case TailCall(source) => h'.(parent := h.parent[id := source])
    case Release(_) => h'
  }

  ghost function HistoryOf(h: History, t: Table, ops: seq<Op>): History
    decreases |ops|
  {
    if ops == [] then h else HistoryOf(Observe(h, t, ops[0]), Step(t, ops[0]), ops[1..])
  }

  /** `path` leads from `first` to `last`, each id made from the one before it. */
  ghost predicate Descent(parent: map<uint32, uint32>, path: seq<uint32>, first: uint32, last: uint32) {
    && |path| > 0 && path[0] == first && path[|path| - 1] == last
    && forall i | 1 <= i < |path| :: path[i] in parent && parent[path[i]] == path[i - 1]
  }

  ghost predicate Descends(parent: map<uint32, uint32>, first: uint32, last: uint32) {
    exists path :: Descent(parent, path, first, last)
  }

  // ---- the invariant ----------------------------------------------------------------------

  /** The oldest ancestor. */
  function Root(parent: map<uint32, uint32>, id: uint32): (root: uint32)
    ensures root <= id
    decreases id
  {
    if id in parent && parent[id] < id then Root(parent, parent[id]) else id
  }

  ghost predicate Older(parent: map<uint32, uint32>, bound: int) {
    forall id | id in parent :: parent[id] < id && id as int < bound
  }

  /** The table's ownership is what the history says: a live id belongs to its root, if that opened anything. */
  ghost predicate Tracks(
    parent: map<uint32, uint32>, openings: map<uint32, Peer>, o: Ownership, live: set<uint32>, bound: int)
  {
    && Consistent(o, live)
    && (forall id | id in o.peers :: id in openings && o.peers[id] == openings[id])
    && (forall id | id in openings :: id as int < bound && id !in parent)
    && (forall id | id in o.owner :: id in live && Root(parent, id) in openings && o.owner[id] == Root(parent, id))
    && (forall id | id in live && Root(parent, id) in openings :: id in o.owner)
  }

  ghost predicate TracksKind(h: History, t: Table, kind: Kind) {
    Tracks(h.parent, h.Openings(kind), t.Of(kind), t.targets.Keys, t.next as int)
  }

  /** The counter has not wrapped. */
  ghost predicate Counted(h: History, t: Table) {
    && h.issued + 1 == t.next as int
    && (forall id | id in t.targets :: 0 < id < t.next)
    && Older(h.parent, t.next as int)
  }

  ghost predicate Inv(h: History, t: Table) {
    Counted(h, t) && TracksKind(h, t, Loopback) && TracksKind(h, t, Network)
  }

  /** The next id is the counter, and it has never been seen before. */
  lemma FreshIsCounter(h: History, t: Table)
    requires Counted(h, t)
    ensures FreshId(t) == t.next
  {
    IdsBelow(t.targets.Keys, t.next as int);
    NextFreeAtCounter(t.targets.Keys, t.next);
  }

  /** So no connection is on file under it, and there is room for one more id. */
  lemma FreshIdHasNoPeer(h: History, t: Table)
    requires Inv(h, t)
    ensures FreshId(t) !in t.loopback.peers && FreshId(t) !in t.network.peers
    ensures |t.targets| + 1 < U32
  {
    FreshIsCounter(h, t);
    assert t.next !in h.Openings(Loopback) && t.next !in h.Openings(Network);
    RoomLeft(t.targets.Keys, t.next);
    assert |t.targets.Keys| == |t.targets|;
  }

  lemma RoomLeft(ids: set<uint32>, next: uint32)
    requires 0 < next && forall id | id in ids :: 0 < id < next
    ensures |ids| + 1 < U32
  {
    IdsBelow(ids + {0}, next as int);
    assert |ids + {0}| == |ids| + 1;
  }

  /** Recording a new descendant changes the root of that id alone. */
  lemma RootAfter(parent: map<uint32, uint32>, added: uint32, from: uint32, id: uint32)
    requires Older(parent, added as int) && from < added
    ensures Root(parent[added := from], id) == if id == added then Root(parent, from) else Root(parent, id)
    decreases id
  {
    if id == added {
      RootAfter(parent, added, from, from);
    } else if id in parent {
      RootAfter(parent, added, from, parent[id]);
    }
  }

  // In the following lemmas `live'` is the set of live ids after the step.

  lemma RegisterTracks(
    parent: map<uint32, uint32>, openings: map<uint32, Peer>, o: Ownership, live: set<uint32>, live': set<uint32>,
    added: uint32)
    requires Older(parent, added as int) && Tracks(parent, openings, o, live, added as int)
    requires live' == live + {added}
    ensures Tracks(parent, openings, o, live', added as int + 1)
  {
    assert Root(parent, added) == added;
  }

  lemma OpenTracks(
    parent: map<uint32, uint32>, openings: map<uint32, Peer>, o: Ownership, live: set<uint32>, live': set<uint32>,
    added: uint32, peer: Peer)
    requires Older(parent, added as int) && Tracks(parent, openings, o, live, added as int)
    requires live' == live + {added} && forall id | id in live :: id < added
    ensures Tracks(parent, openings[added := peer], Adopt(o, added, peer), live', added as int + 1)
  {
    assert Root(parent, added) == added;
    AdoptKeepsConsistent(o, live, added, peer);
  }

  lemma DeriveTracks(
    parent: map<uint32, uint32>, openings: map<uint32, Peer>, o: Ownership, live: set<uint32>, live': set<uint32>,
    added: uint32, source: uint32)
    requires Older(parent, added as int) && Tracks(parent, openings, o, live, added as int)
    requires live' == live + {added} && source in live && forall id | id in live :: id < added
    ensures Tracks(parent[added := source], openings, Derive(o, source, added), live', added as int + 1)
  {
    forall id
      ensures Root(parent[added := source], id) == if id == added then Root(parent, source) else Root(parent, id)
    {
      RootAfter(parent, added, source, id);
    }
    DeriveKeepsConsistent(o, live, source, added);
  }

  lemma DropTracks(
    parent: map<uint32, uint32>, openings: map<uint32, Peer>, o: Ownership, live: set<uint32>, live': set<uint32>,
    bound: int, gone: set<uint32>)
    requires Tracks(parent, openings, o, live, bound)
    requires live' == live - gone
    ensures Tracks(parent, openings, Without(o, gone), live', bound)
  {
    WithoutKeepsConsistent(o, live, gone);
  }

  /** The table after `op` issued `id`. */
  function Issue(t: Table, op: Op, id: uint32): Table
    requires Issues(t, op)
  {
    match op
    case Register(cap) => AddAt(t, id, cap)
    case Open(kind, cap, peer) => ConnectAt(t, id, kind, cap, peer)
    case Keep(source) => DeriveAt(t, id, source, t.targets[source])
    case TailCall(source) => DeriveAt(t, id, source, Forwarder(t.targets[source]))
  }

  lemma IssueKeepsTracks(h: History, t: Table, op: Op, kind: Kind)
    requires Counted(h, t) && TracksKind(h, t, kind) && Issues(t, op) && t.next as int + 1 < U32
    ensures TracksKind(Record(h, op, t.next), Issue(t, op, t.next), kind)
  {
    if op.Register? || (op.Open? && op.kind != kind) {
      UnrelatedKeepsTracks(h, t, op, kind);
    } else if op.Open? {
      OpenKeepsTracks(h, t, op);
    } else {
      DeriveKeepsTracks(h, t, op, kind);
    }
  }

  lemma UnrelatedKeepsTracks(h: History, t: Table, op: Op, kind: Kind)
    requires Counted(h, t) && TracksKind(h, t, kind) && t.next as int + 1 < U32
    requires op.Register? || (op.Open? && op.kind != kind)
    ensures TracksKind(Record(h, op, t.next), Issue(t, op, t.next), kind)
  {
    var h', t' := Record(h, op, t.next), Issue(t, op, t.next);
    assert h'.parent == h.parent && t'.next as int == t.next as int + 1;
    assert h'.Openings(kind) == h.Openings(kind) && t'.Of(kind) == t.Of(kind);
    RegisterTracks(h.parent, h.Openings(kind), t.Of(kind), t.targets.Keys, t'.targets.Keys, t.next);
  }

  lemma OpenKeepsTracks(h: History, t: Table, op: Op)
    requires op.Open? && Counted(h, t) && TracksKind(h, t, op.kind) && t.next as int + 1 < U32
    ensures TracksKind(Record(h, op, t.next), Issue(t, op, t.next), op.kind)
  {
    var h', t' := Record(h, op, t.next), Issue(t, op, t.next);
    assert h'.parent == h.parent && t'.next as int == t.next as int + 1;
    assert h'.Openings(op.kind) == h.Openings(op.kind)[t.next := op.peer];
    assert t'.Of(op.kind) == Adopt(t.Of(op.kind), t.next, op.peer);
    OpenTracks(h.parent, h.Openings(op.kind), t.Of(op.kind), t.targets.Keys, t'.targets.Keys, t.next, op.peer);
  }

  lemma DeriveKeepsTracks(h: History, t: Table, op: Op, kind: Kind)
    requires op.Keep? || op.TailCall?
    requires Counted(h, t) && TracksKind(h, t, kind) && Issues(t, op) && t.next as int + 1 < U32
    ensures TracksKind(Record(h, op, t.next), Issue(t, op, t.next), kind)
  {
    var h', t' := Record(h, op, t.next), Issue(t, op, t.next);
    assert h'.parent == h.parent[t.next := op.id] && t'.next as int == t.next as int + 1;
    assert h'.Openings(kind) == h.Openings(kind);
    assert t'.Of(kind) == Derive(t.Of(kind), op.id, t.next);
    DeriveTracks(h.parent, h.Openings(kind), t.Of(kind), t.targets.Keys, t'.targets.Keys, t.next, op.id);
  }

  lemma IssueKeepsCounted(h: History, t: Table, op: Op)
    requires Counted(h, t) && Issues(t, op) && t.next as int + 1 < U32
    ensures Counted(Record(h, op, t.next), Issue(t, op, t.next))
  {
  }

  lemma ReleaseKeepsInv(h: History, t: Table, ids: seq<uint32>)
    requires Inv(h, t)
    ensures Inv(h, ReleaseMany(t, ids).0)
  {
    ReleaseManyExact(t, ids);
    var gone := NonZero(ids[..FirstStop(t.targets.Keys, ids)]);
    DropTracks(h.parent, h.loopback, t.loopback, t.targets.Keys, (t.targets - gone).Keys, t.next as int, gone);
    DropTracks(h.parent, h.network, t.network, t.targets.Keys, (t.targets - gone).Keys, t.next as int, gone);
  }

  lemma StepKeepsInv(h: History, t: Table, op: Op)
    requires Inv(h, t) && Observe(h, t, op).issued + 1 < U32
    ensures Inv(Observe(h, t, op), Step(t, op))
  {
    if Issues(t, op) {
      FreshIsCounter(h, t);
      assert Step(t, op) == Issue(t, op, t.next);
      IssueKeepsCounted(h, t, op);
      IssueKeepsTracks(h, t, op, Loopback);
      IssueKeepsTracks(h, t, op, Network);
    } else if op.Release? {
      ReleaseKeepsInv(h, t, op.ids);
    }
  }

  lemma {:induction false} IssuedGrows(h: History, t: Table, ops: seq<Op>)
    ensures h.issued <= HistoryOf(h, t, ops).issued
    decreases |ops|
  {
    if ops != [] {
      IssuedGrows(Observe(h, t, ops[0]), Step(t, ops[0]), ops[1..]);
    }
  }

  lemma {:induction false} RunKeepsInv(h: History, t: Table, ops: seq<Op>)
    requires Inv(h, t) && HistoryOf(h, t, ops).issued + 1 < U32
    ensures Inv(HistoryOf(h, t, ops), Run(t, ops))
    decreases |ops|
  {
    if ops != [] {
      IssuedGrows(Observe(h, t, ops[0]), Step(t, ops[0]), ops[1..]);
      StepKeepsInv(h, t, ops[0]);
      RunKeepsInv(Observe(h, t, ops[0]), Step(t, ops[0]), ops[1..]);
    }
  }

  // ---- descent and roots ------------------------------------------------------------------

  lemma {:induction false} RootDescends(parent: map<uint32, uint32>, id: uint32) returns (path: seq<uint32>)
    ensures Descent(parent, path, Root(parent, id), id)
    decreases id
  {
    if id in parent && parent[id] < id {
      path := RootDescends(parent, parent[id]);
      path := path + [id];
    } else {
      path := [id];
    }
  }

  lemma {:induction false} DescentFromRoot(
    parent: map<uint32, uint32>, path: seq<uint32>, first: uint32, last: uint32)
    requires forall k | k in parent :: parent[k] < k
    requires Descent(parent, path, first, last) && first !in parent
    ensures Root(parent, last) == first
    decreases |path|
  {
    if |path| > 1 {
      var i := |path| - 1;
      DescentFromRoot(parent, path[..i], first, path[i - 1]);
    }
  }

  lemma DescendsIffRoot(parent: map<uint32, uint32>, first: uint32, last: uint32)
    requires forall k | k in parent :: parent[k] < k
    requires first !in parent
    ensures Descends(parent, first, last) <==> Root(parent, last) == first
  {
    if path :| Descent(parent, path, first, last) {
      DescentFromRoot(parent, path, first, last);
    }
    if Root(parent, last) == first {
      var path := RootDescends(parent, last);
    }
  }

  lemma OwnedIffDescends(h: History, t: Table, kind: Kind, first: uint32)
    requires Inv(h, t) && first in h.Openings(kind)
    ensures forall id | id in t.targets ::
              Descends(h.parent, first, id) <==> id in t.Of(kind).owner && t.Of(kind).owner[id] == first
  {
    forall id | id in t.targets
      ensures Descends(h.parent, first, id) <==> id in t.Of(kind).owner && t.Of(kind).owner[id] == first
    {
      DescendsIffRoot(h.parent, first, id);
    }
  }

  /**
   Over any run that issues fewer than 2^32 - 1 ids: the connection opened under `first` is open,
   and is the one opened there, exactly while some live id descends from `first` -- whether or not
   `first` itself is still live.
   */
  lemma PeerOpenIffDescendantLive(ops: seq<Op>, kind: Kind, first: uint32)
    requires HistoryOf(NO_HISTORY, EMPTY, ops).issued < U32 - 1
    ensures var h := HistoryOf(NO_HISTORY, EMPTY, ops);
            var t := Run(EMPTY, ops);
            && (first in t.Of(kind).peers
                <==> first in h.Openings(kind) && exists id :: id in t.targets && Descends(h.parent, first, id))
            && (first in t.Of(kind).peers ==> t.Of(kind).peers[first] == h.Openings(kind)[first])
  {
    var h := HistoryOf(NO_HISTORY, EMPTY, ops);
    var t := Run(EMPTY, ops);
    RunKeepsInv(NO_HISTORY, EMPTY, ops);
    if first in h.Openings(kind) {
      OwnedIffDescends(h, t, kind, first);
    }
    if first in t.Of(kind).peers {
      assert first in Owners(t.Of(kind).owner);
      var id :| id in t.Of(kind).owner && t.Of(kind).owner[id] == first;
      assert id in t.targets && Descends(h.parent, first, id);
    }
  }
}

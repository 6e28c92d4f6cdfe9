/**
 What the runtime's capability-id table means: which ids are live, and which connection each id
 keeps alive. No reference counts here; `RuntimeTargets` maintains them and refines this module.
 */
module TargetTable {
  import opened Words
  import opened IdAllocator

  datatype Kind = Loopback | Network

  type Peer = nat

  /** `owner[t]` is the id whose registration opened the connection that `t` keeps alive. */
  datatype Ownership = Ownership(peers: map<uint32, Peer>, owner: map<uint32, uint32>)

  datatype Table = Table(targets: map<uint32, Cap>, next: uint32, loopback: Ownership, network: Ownership) {
    function Of(kind: Kind): Ownership {
      if kind == Loopback then loopback else network
    }
  }

  datatype Error = UnknownTarget(id: uint32)

  const EMPTY := Table(map[], 1, Ownership(map[], map[]), Ownership(map[], map[]))

  /** The ids that owned ids point at. */
  function Owners(owner: map<uint32, uint32>): set<uint32> {
    set id | id in owner :: owner[id]
  }

  /** Connections are exactly those some live id is keeping. */
  ghost predicate Consistent(o: Ownership, live: set<uint32>) {
    o.owner.Keys <= live && o.peers.Keys == Owners(o.owner)
  }

  ghost predicate Valid(t: Table) {
    Consistent(t.loopback, t.targets.Keys) && Consistent(t.network, t.targets.Keys)
  }

  // ---- operations -------------------------------------------------------------------------

  /** Keep the connections of the ids outside `gone`. */
  function Without(o: Ownership, gone: set<uint32>): Ownership {
    var owner := o.owner - gone;
    Ownership(map p | p in o.peers && p in Owners(owner) :: o.peers[p], owner)
  }

  function DropAll(t: Table, gone: set<uint32>): Table {
    Table(t.targets - gone, t.next, Without(t.loopback, gone), Without(t.network, gone))
  }

  function Derive(o: Ownership, source: uint32, added: uint32): Ownership {
    if source in o.owner then o.(owner := o.owner[added := o.owner[source]]) else o
  }

  function Adopt(o: Ownership, id: uint32, peer: Peer): Ownership {
    Ownership(o.peers[id := peer], o.owner[id := id])
  }

  ghost function FreshId(t: Table): uint32 {
    NextFree(t.targets.Keys, t.next)
  }

  // Each issuing operation is written for a given new id; the table always issues `FreshId`.

  function AddAt(t: Table, id: uint32, cap: Cap): Table {
    t.(targets := t.targets[id := cap], next := Ahead(id, 1))
  }

  function ConnectAt(t: Table, id: uint32, kind: Kind, cap: Cap, peer: Peer): Table {
    if kind == Loopback then AddAt(t, id, cap).(loopback := Adopt(t.loopback, id, peer))
    else AddAt(t, id, cap).(network := Adopt(t.network, id, peer))
  }

  /** A capability derived from `source`, keeping the connection of `source`. */
  function DeriveAt(t: Table, id: uint32, source: uint32, cap: Cap): Table {
    AddAt(t, id, cap).(loopback := Derive(t.loopback, source, id), network := Derive(t.network, source, id))
  }

  ghost function AddTarget(t: Table, cap: Cap): Table {
    AddAt(t, FreshId(t), cap)
  }

  ghost function Connect(t: Table, kind: Kind, cap: Cap, peer: Peer): Table {
    ConnectAt(t, FreshId(t), kind, cap, peer)
  }

  ghost function DeriveTarget(t: Table, source: uint32, cap: Cap): Table {
    DeriveAt(t, FreshId(t), source, cap)
  }

  ghost function Retain(t: Table, id: uint32): (Table, Result<uint32, Error>) {
    if id in t.targets then (DeriveTarget(t, id, t.targets[id]), Ok(FreshId(t)))
    else (t, Err(UnknownTarget(id)))
  }

  ghost function RegisterTailCall(t: Table, id: uint32): (Table, Result<uint32, Error>) {
    if id in t.targets then (DeriveTarget(t, id, Forwarder(t.targets[id])), Ok(FreshId(t)))
    else (t, Err(UnknownTarget(id)))
  }

  /** Releases ids left to right, skipping 0, until one is not live. */
  ghost function ReleaseMany(t: Table, ids: seq<uint32>): (Table, Result<(), Error>)
    decreases |ids|
  {
    if ids == [] then (t, Ok(()))
    else if ids[0] == 0 then ReleaseMany(t, ids[1..])
    else if ids[0] !in t.targets then (DropAll(t, {ids[0]}), Err(UnknownTarget(ids[0])))
    else ReleaseMany(DropAll(t, {ids[0]}), ids[1..])
  }

  // ---- releasing a list -------------------------------------------------------------------

  /** Position `k` is where the release of `ids` has to stop: an id not live, or met before. */
  ghost predicate Stops(live: set<uint32>, ids: seq<uint32>, k: nat)
    requires k < |ids|
  {
    ids[k] != 0 && (ids[k] !in live || ids[k] in ids[..k])
  }

  ghost function NonZero(ids: seq<uint32>): set<uint32> {
    set id | id in ids && id != 0
  }

  /** The first stopping position, or the length of the list. */
  ghost function FirstStop(live: set<uint32>, ids: seq<uint32>): (k: nat)
    ensures k <= |ids|
    ensures k < |ids| ==> Stops(live, ids, k)
    ensures forall j: nat | j < k :: !Stops(live, ids, j)
    decreases |ids|
  {
    if ids == [] then 0
    else
      var init := ids[..|ids| - 1];
      var k := FirstStop(live, init);
      assert forall j: nat | j < |init| :: Stops(live, ids, j) == Stops(live, init, j) by {
        assert forall j: nat | j < |init| :: ids[..j] == init[..j];
      }
      if k < |init| then k else if Stops(live, ids, |init|) then |init| else |ids|
  }

  lemma WithoutTwice(o: Ownership, a: set<uint32>, b: set<uint32>)
    ensures Without(Without(o, a), b) == Without(o, a + b)
  {
    assert o.owner - a - b == o.owner - (a + b);
    assert forall p | p in Owners(o.owner - (a + b)) :: p in Owners(o.owner - a);
  }

  /** Dropping is order-independent: only the union of what is dropped matters. */
  lemma DropAllTwice(t: Table, a: set<uint32>, b: set<uint32>)
    ensures DropAll(DropAll(t, a), b) == DropAll(t, a + b)
  {
    WithoutTwice(t.loopback, a, b);
    WithoutTwice(t.network, a, b);
    assert t.targets - a - b == t.targets - (a + b);
  }

  lemma DropAllNothing(t: Table, gone: set<uint32>)
    requires Valid(t) && gone !! t.targets.Keys
    ensures DropAll(t, gone) == t
  {
    assert t.targets - gone == t.targets;
    assert t.loopback.owner - gone == t.loopback.owner;
    assert t.network.owner - gone == t.network.owner;
  }

  /**
   A release of a list drops exactly the nonzero ids before the first unknown or repeated one, and
   fails precisely when there is such an id.
   */
  lemma ReleaseManyExact(t: Table, ids: seq<uint32>)
    requires Valid(t)
    ensures var k := FirstStop(t.targets.Keys, ids);
            && ReleaseMany(t, ids).0 == DropAll(t, NonZero(ids[..k]))
            && ReleaseMany(t, ids).1 == if k < |ids| then Err(UnknownTarget(ids[k])) else Ok(())
  {
    DropAllNothing(t, {});
    assert DropAll(t, {}) == t;
    ReleaseFrom(t, {}, ids, 0);
    assert ids[0..] == ids;
  }

  /** The same, part of the way through: `gone` are the nonzero ids of `ids[..i]`. */
  lemma {:induction false} ReleaseFrom(t: Table, gone: set<uint32>, ids: seq<uint32>, i: nat)
    requires Valid(t) && i <= FirstStop(t.targets.Keys, ids) && gone == NonZero(ids[..i])
    ensures var k := FirstStop(t.targets.Keys, ids);
            ReleaseMany(DropAll(t, gone), ids[i..])
            == (DropAll(t, NonZero(ids[..k])), if k < |ids| then Err(UnknownTarget(ids[k])) else Ok(()))
    decreases |ids| - i
  {
    var k := FirstStop(t.targets.Keys, ids);
    if i < |ids| {
      assert ids[i..][1..] == ids[i + 1..];
      assert ids[..i + 1] == ids[..i] + [ids[i]];
      DropKeepsValid(t, gone);
      var now := DropAll(t, gone);
      if ids[i] == 0 {
        assert !Stops(t.targets.Keys, ids, i);
        assert NonZero(ids[..i + 1]) == gone;
        ReleaseFrom(t, gone, ids, i + 1);
      } else if ids[i] !in now.targets {
        assert Stops(t.targets.Keys, ids, i);
        assert i == k;
        DropAllNothing(now, {ids[i]});
      } else {
        assert !Stops(t.targets.Keys, ids, i);
        DropAllTwice(t, gone, {ids[i]});
        assert NonZero(ids[..i + 1]) == gone + {ids[i]};
        ReleaseFrom(t, gone + {ids[i]}, ids, i + 1);
      }
    }
  }

  lemma WithoutKeepsConsistent(o: Ownership, live: set<uint32>, gone: set<uint32>)
    requires Consistent(o, live)
    ensures Consistent(Without(o, gone), live - gone)
  {
    assert forall k | k in (o.owner - gone) :: k in o.owner && o.owner[k] in Owners(o.owner);
  }

  lemma DropKeepsValid(t: Table, gone: set<uint32>)
    requires Valid(t)
    ensures Valid(DropAll(t, gone))
  {
    WithoutKeepsConsistent(t.loopback, t.targets.Keys, gone);
    WithoutKeepsConsistent(t.network, t.targets.Keys, gone);
    assert (t.targets - gone).Keys == t.targets.Keys - gone;
  }

  lemma OwnersAfter(owner: map<uint32, uint32>, added: uint32, value: uint32)
    requires added !in owner
    ensures Owners(owner[added := value]) == Owners(owner) + {value}
  {
    var owner' := owner[added := value];
    assert owner'[added] == value;
    forall v | v in Owners(owner)
      ensures v in Owners(owner')
    {
      var k :| k in owner && owner[k] == v;
      assert owner'[k] == v;
    }
  }

  lemma DeriveKeepsConsistent(o: Ownership, live: set<uint32>, source: uint32, added: uint32)
    requires Consistent(o, live) && added !in live
    ensures Consistent(Derive(o, source, added), live + {added})
  {
    if source in o.owner {
      OwnersAfter(o.owner, added, o.owner[source]);
    }
  }

  lemma AdoptKeepsConsistent(o: Ownership, live: set<uint32>, id: uint32, peer: Peer)
    requires Consistent(o, live) && id !in live
    ensures Consistent(Adopt(o, id, peer), live + {id})
  {
    OwnersAfter(o.owner, id, id);
  }
}

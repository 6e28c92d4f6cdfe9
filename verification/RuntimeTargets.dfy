/**
 The runtime's own target table: reference counts per connection owner, kept by hand. What the code
 does to its maps is specified for maps of any content; while the counts are exact it refines
 `TargetTable`, where a connection is simply open while a live id needs it.
 */
module RuntimeTargets {
  import opened Words
  import opened IdAllocator
  import opened TargetTable

  ghost function OwnedBy(owner: map<uint32, uint32>, o: uint32): set<uint32> {
    set t | t in owner && owner[t] == o
  }

  /** Every owner in use has its connection on file and its exact number of ids counted. */
  ghost predicate Counted(peers: map<uint32, Peer>, owner: map<uint32, uint32>, refs: map<uint32, uint32>) {
    && peers.Keys == Owners(owner)
    && refs.Keys == Owners(owner)
    && forall o | o in refs :: refs[o] as int == |OwnedBy(owner, o)|
  }

  lemma OwnedByAfter(owner: map<uint32, uint32>, added: uint32, value: uint32, o: uint32)
    requires added !in owner
    ensures OwnedBy(owner[added := value], o) == OwnedBy(owner, o) + (if o == value then {added} else {})
    ensures |OwnedBy(owner[added := value], o)| == |OwnedBy(owner, o)| + (if o == value then 1 else 0)
  {
    assert added !in OwnedBy(owner, o);
  }

  lemma OwnedByFits(owner: map<uint32, uint32>, o: uint32)
    ensures |OwnedBy(owner, o)| <= |owner|
  {
    SubsetSize(OwnedBy(owner, o), owner.Keys);
    assert |owner.Keys| == |owner|;
  }

  lemma {:induction false} SubsetSize(a: set<uint32>, b: set<uint32>)
    requires a <= b
    ensures |a| <= |b|
  {
    if x :| x in a {
      SubsetSize(a - {x}, b - {x});
    }
  }

  /** One more id for an owner already in use; the count overflows only if that is the last id there is. */
  lemma RetainKeepsCounted(
    peers: map<uint32, Peer>, owner: map<uint32, uint32>, refs: map<uint32, uint32>, source: uint32, added: uint32)
    requires Counted(peers, owner, refs) && source in owner && added !in owner
    ensures |owner| + 1 < U32 ==> refs[owner[source]] as int + 1 < U32
    ensures refs[owner[source]] as int + 1 < U32 ==>
              Counted(peers, owner[added := owner[source]], refs[owner[source] := refs[owner[source]] + 1])
  {
    var o := owner[source];
    OwnedByFits(owner, o);
    OwnersAfter(owner, added, o);
    if refs[o] as int + 1 < U32 {
      var owner', refs' := owner[added := o], refs[o := refs[o] + 1];
      forall p | p in refs'
        ensures refs'[p] as int == |OwnedBy(owner', p)|
      {
        OwnedByAfter(owner, added, o, p);
      }
    }
  }

  /** One id fewer: the count falls, or with the last id the owner goes. */
  lemma ReleaseKeepsCounted(
    peers: map<uint32, Peer>, owner: map<uint32, uint32>, refs: map<uint32, uint32>, target: uint32)
    requires Counted(peers, owner, refs) && target in owner
    ensures var o := owner[target];
            var owner' := owner - {target};
            && refs[o] >= 1
            && (refs[o] > 1 ==> Counted(peers, owner', refs[o := refs[o] - 1]) && Owners(owner') == Owners(owner))
            && (refs[o] == 1 ==> Counted(peers - {o}, owner', refs - {o}) && Owners(owner') == Owners(owner) - {o})
  {
    var o := owner[target];
    var owner' := owner - {target};
    assert target in OwnedBy(owner, o);
    forall p ensures OwnedBy(owner', p) == OwnedBy(owner, p) - {target} {}
    assert |OwnedBy(owner', o)| == refs[o] as int - 1;
    forall p | p in Owners(owner) && (p != o || refs[o] > 1)
      ensures p in Owners(owner')
    {
      if p == o {
        assert OwnedBy(owner', o) != {};
        var id :| id in OwnedBy(owner', o);
        assert owner'[id] == o;
      } else {
        var id :| id in owner && owner[id] == p;
        assert owner'[id] == p;
      }
    }
    if refs[o] == 1 {
      assert OwnedBy(owner', o) == {};
      assert o !in Owners(owner') by {
        assert forall id | id in owner' :: id !in OwnedBy(owner', o);
      }
    }
  }

  // ---- one triple of maps -----------------------------------------------------------------

  /** The three maps that say which connection an id keeps alive, whatever they hold. */
  datatype Owned = Owned(peers: map<uint32, Peer>, owner: map<uint32, uint32>, refs: map<uint32, uint32>)

  const NOTHING_OWNED := Owned(map[], map[], map[])

  ghost predicate Exact(x: Owned) {
    Counted(x.peers, x.owner, x.refs)
  }

  function MeaningOf(x: Owned): Ownership {
    Ownership(x.peers, x.owner)
  }

  /** Inserting, which leaves an entry that is there already. */
  function Emplace<V>(m: map<uint32, V>, k: uint32, v: V): map<uint32, V> {
    if k in m then m else m[k := v]
  }

  function RetainIn(x: Owned, source: uint32, retained: uint32): Owned {
    if source !in x.owner then x
    else
      var o, refs := x.owner[source], Emplace(x.refs, x.owner[source], 1);
      Owned(x.peers, Emplace(x.owner, retained, o), refs[o := Ahead(refs[o], 1)])
  }

  function ReleaseIn(x: Owned, target: uint32): Owned {
    if target !in x.owner then x
    else
      var o, owner := x.owner[target], x.owner - {target};
      if o !in x.refs then Owned(x.peers, owner, x.refs)
      else if x.refs[o] > 1 then Owned(x.peers, owner, x.refs[o := x.refs[o] - 1])
      else Owned(x.peers - {o}, owner, x.refs - {o})
  }

  /** A new connection filed under its first id. */
  function AdoptIn(x: Owned, id: uint32, peer: Peer): Owned {
    Owned(Emplace(x.peers, id, peer), Emplace(x.owner, id, id), Emplace(x.refs, id, 1))
  }

  /** Does the owner of `source` have as many ids as its count can hold? */
  predicate CountFull(x: Owned, source: uint32) {
    source in x.owner && x.owner[source] in x.refs && x.refs[x.owner[source]] as int == U32 - 1
  }

  /** The counts stay exact unless one overflows, and what they mean is right even then. */
  lemma RetainInRefines(x: Owned, source: uint32, retained: uint32)
    requires Exact(x) && retained !in x.owner
    ensures Exact(RetainIn(x, source, retained)) <==> !CountFull(x, source)
    ensures MeaningOf(RetainIn(x, source, retained)) == Derive(MeaningOf(x), source, retained)
  {
    if source in x.owner {
      var o := x.owner[source];
      RetainKeepsCounted(x.peers, x.owner, x.refs, source, retained);
      assert o in Owners(x.owner);
      OwnedByAfter(x.owner, retained, o, o);
      assert retained in OwnedBy(x.owner[retained := o], o);
    }
  }

  lemma ReleaseInRefines(x: Owned, target: uint32)
    requires Exact(x)
    ensures Exact(ReleaseIn(x, target))
    ensures MeaningOf(ReleaseIn(x, target)) == Without(MeaningOf(x), {target})
  {
    if target in x.owner {
      ReleaseKeepsCounted(x.peers, x.owner, x.refs, target);
      assert x.owner[target] in Owners(x.owner);
    } else {
      assert x.owner - {target} == x.owner;
    }
  }

  /**
   Filing a new connection under `id` keeps the counts exact exactly when none is on file there.
   The table checks only that `id` is no live target, and an owner can outlive its own id.
   */
  lemma AdoptInExactIff(x: Owned, id: uint32, peer: Peer)
    requires Exact(x) && id !in x.owner
    ensures Exact(AdoptIn(x, id, peer)) <==> id !in x.peers
    ensures id !in x.peers ==> MeaningOf(AdoptIn(x, id, peer)) == TargetTable.Adopt(MeaningOf(x), id, peer)
  {
    if id in x.peers {
      OwnedByAfter(x.owner, id, id, id);
      assert |OwnedBy(x.owner[id := id], id)| == x.refs[id] as int + 1;
    } else {
      AdoptKeepsCounted(x.peers, x.owner, x.refs, id, peer);
    }
  }

  lemma AdoptKeepsCounted(
    peers: map<uint32, Peer>, owner: map<uint32, uint32>, refs: map<uint32, uint32>, id: uint32, peer: Peer)
    requires Counted(peers, owner, refs) && id !in owner && id !in peers
    ensures Counted(peers[id := peer], owner[id := id], refs[id := 1])
  {
    var owner', refs' := owner[id := id], refs[id := 1];
    OwnersAfter(owner, id, id);
    NobodyOwnedBy(peers, owner, refs, id);
    assert |OwnedBy(owner, id)| == 0;
    forall p | p in refs'
      ensures refs'[p] as int == |OwnedBy(owner', p)|
    {
      OwnedByAfter(owner, id, id, p);
    }
  }

  lemma NobodyOwnedBy(peers: map<uint32, Peer>, owner: map<uint32, uint32>, refs: map<uint32, uint32>, o: uint32)
    requires Counted(peers, owner, refs) && o !in peers
    ensures OwnedBy(owner, o) == {}
  {
    assert forall t | t in OwnedBy(owner, o) :: owner[t] in Owners(owner);
  }

  // ---- the whole table --------------------------------------------------------------------

  datatype Store = Store(targets: map<uint32, Cap>, next: uint32, loopback: Owned, network: Owned)

  const EMPTY_STORE := Store(map[], 1, NOTHING_OWNED, NOTHING_OWNED)

  /** The table these maps stand for. */
  function TableOf(s: Store): Table {
    Table(s.targets, s.next, MeaningOf(s.loopback), MeaningOf(s.network))
  }

  ghost predicate Right(s: Store) {
    && Exact(s.loopback) && Exact(s.network)
    && s.loopback.owner.Keys <= s.targets.Keys && s.network.owner.Keys <= s.targets.Keys
  }

  /** The id the search finds. */
  ghost function NewId(s: Store): uint32 {
    NextFree(s.targets.Keys, s.next)
  }

  function AddIn(s: Store, id: uint32, cap: Cap): Store {
    s.(targets := s.targets[id := cap], next := Ahead(id, 1))
  }

  function OpenIn(s: Store, id: uint32, kind: Kind, cap: Cap, peer: Peer): Store {
    var s' := AddIn(s, id, cap);
    if kind == Loopback then s'.(loopback := AdoptIn(s.loopback, id, peer))
    else s'.(network := AdoptIn(s.network, id, peer))
  }

  function DeriveIn(s: Store, id: uint32, source: uint32, cap: Cap): Store {
    AddIn(s, id, cap).(loopback := RetainIn(s.loopback, source, id), network := RetainIn(s.network, source, id))
  }

  function DropIn(s: Store, target: uint32): Store {
    Store(s.targets - {target}, s.next, ReleaseIn(s.loopback, target), ReleaseIn(s.network, target))
  }

  function ReleaseAllIn(s: Store, ids: seq<uint32>): (Store, Result<(), Error>)
    decreases |ids|
  {
    if ids == [] then (s, Ok(()))
    else if ids[0] == 0 then ReleaseAllIn(s, ids[1..])
    else if ids[0] !in s.targets then (DropIn(s, ids[0]), Err(UnknownTarget(ids[0])))
    else ReleaseAllIn(DropIn(s, ids[0]), ids[1..])
  }

  /** Is a connection of this kind on file under the id that comes next? */
  ghost predicate NextHasPeer(s: Store, kind: Kind) {
    NewId(s) in if kind == Loopback then s.loopback.peers else s.network.peers
  }

  lemma AddInRefines(s: Store, cap: Cap)
    requires Right(s)
    ensures Right(AddIn(s, NewId(s), cap))
    ensures TableOf(AddIn(s, NewId(s), cap)) == TargetTable.AddTarget(TableOf(s), cap)
  {
  }

  lemma OpenInRefines(s: Store, kind: Kind, cap: Cap, peer: Peer)
    requires Right(s) && |s.targets| < U32
    ensures Right(OpenIn(s, NewId(s), kind, cap, peer)) <==> !NextHasPeer(s, kind)
    ensures !NextHasPeer(s, kind) ==>
              TableOf(OpenIn(s, NewId(s), kind, cap, peer)) == Connect(TableOf(s), kind, cap, peer)
  {
    assert |s.targets.Keys| == |s.targets|;
    NextFreeIsNext(s.targets.Keys, s.next);
    AdoptInExactIff(if kind == Loopback then s.loopback else s.network, NewId(s), peer);
  }

  /** Would one more id overflow the count of an owner of `source`? */
  predicate Overflows(s: Store, source: uint32) {
    CountFull(s.loopback, source) || CountFull(s.network, source)
  }

  /** That takes all ids but one, and so cannot be while two are left. */
  lemma OverflowTakesAllIds(s: Store, source: uint32)
    requires Right(s) && Overflows(s, source)
    ensures |s.targets| + 1 >= U32
  {
    var x := if CountFull(s.loopback, source) then s.loopback else s.network;
    OwnedByFits(x.owner, x.owner[source]);
    SubsetSize(x.owner.Keys, s.targets.Keys);
    assert |x.owner.Keys| == |x.owner| && |s.targets.Keys| == |s.targets|;
  }

  lemma DeriveInRefines(s: Store, source: uint32, cap: Cap)
    requires Right(s) && |s.targets| < U32
    ensures Right(DeriveIn(s, NewId(s), source, cap)) <==> !Overflows(s, source)
    ensures TableOf(DeriveIn(s, NewId(s), source, cap)) == TargetTable.DeriveTarget(TableOf(s), source, cap)
  {
    assert |s.targets.Keys| == |s.targets|;
    NextFreeIsNext(s.targets.Keys, s.next);
    SubsetSize(s.loopback.owner.Keys, s.targets.Keys);
    SubsetSize(s.network.owner.Keys, s.targets.Keys);
    assert |s.loopback.owner.Keys| == |s.loopback.owner| && |s.network.owner.Keys| == |s.network.owner|;
    RetainInRefines(s.loopback, source, NewId(s));
    RetainInRefines(s.network, source, NewId(s));
  }

  lemma DropInRefines(s: Store, target: uint32)
    requires Right(s)
    ensures Right(DropIn(s, target)) && TableOf(DropIn(s, target)) == DropAll(TableOf(s), {target})
  {
    ReleaseInRefines(s.loopback, target);
    ReleaseInRefines(s.network, target);
  }

  lemma {:induction false} ReleaseAllInRefines(s: Store, ids: seq<uint32>)
    requires Right(s)
    ensures Right(ReleaseAllIn(s, ids).0)
    ensures (TableOf(ReleaseAllIn(s, ids).0), ReleaseAllIn(s, ids).1) == ReleaseMany(TableOf(s), ids)
    decreases |ids|
  {
    if ids != [] {
      if ids[0] == 0 {
        ReleaseAllInRefines(s, ids[1..]);
      } else {
        DropInRefines(s, ids[0]);
        if ids[0] in s.targets {
          ReleaseAllInRefines(DropIn(s, ids[0]), ids[1..]);
        }
      }
    }
  }

  // ---- the code ---------------------------------------------------------------------------

  /** One of the two triples of maps that say which connection an id keeps alive. */
  class PeerOwnership {
    var peers: map<uint32, Peer>
    var ownerByTarget: map<uint32, uint32>
    var refCount: map<uint32, uint32>

    ghost function Maps(): Owned
      reads this
    {
      Owned(peers, ownerByTarget, refCount)
    }

    constructor ()
      ensures Maps() == NOTHING_OWNED
    {
      peers, ownerByTarget, refCount := map[], map[], map[];
    }

    method Retain(source: uint32, retained: uint32)
      modifies this
      ensures Maps() == RetainIn(old(Maps()), source, retained)
      ensures peers == old(peers)
      ensures source !in old(ownerByTarget) ==> ownerByTarget == old(ownerByTarget) && refCount == old(refCount)
      ensures source in old(ownerByTarget) ==>
                var owner := old(ownerByTarget)[source];
                && (retained !in old(ownerByTarget) ==> ownerByTarget == old(ownerByTarget)[retained := owner])
                && (retained in old(ownerByTarget) ==> ownerByTarget == old(ownerByTarget))
                && refCount
                   == old(refCount)[owner := if owner in old(refCount) then Ahead(old(refCount)[owner], 1) else 2]
    {
      if source !in ownerByTarget {
        return;
      }
      var owner := ownerByTarget[source];
      ownerByTarget := Emplace(ownerByTarget, retained, owner);
      if owner !in refCount {
        refCount := refCount[owner := 1];
      }
      refCount := refCount[owner := Ahead(refCount[owner], 1)];
    }

    method Release(target: uint32)
      modifies this
      ensures Maps() == ReleaseIn(old(Maps()), target)
      ensures ownerByTarget == old(ownerByTarget) - {target}
      ensures target in old(ownerByTarget) && old(ownerByTarget)[target] in old(refCount) ==>
                var owner := old(ownerByTarget)[target];
                if old(refCount)[owner] > 1 then
                  refCount == old(refCount)[owner := old(refCount)[owner] - 1] && peers == old(peers)
                else refCount == old(refCount) - {owner} && peers == old(peers) - {owner}
      ensures target !in old(ownerByTarget) || old(ownerByTarget)[target] !in old(refCount) ==>
                refCount == old(refCount) && peers == old(peers)
    {
      if target !in ownerByTarget {
        assert ownerByTarget - {target} == ownerByTarget;
        return;
      }
      var owner := ownerByTarget[target];
      ownerByTarget := ownerByTarget - {target};
      if owner !in refCount {
        return;
      }
      if refCount[owner] > 1 {
        refCount := refCount[owner := refCount[owner] - 1];
        return;
      }
      refCount := refCount - {owner};
      peers := peers - {owner};
    }

    /** File a new connection under its first id: the counts stay exact unless one is on file there. */
    method Adopt(id: uint32, peer: Peer)
      modifies this
      ensures Maps() == AdoptIn(old(Maps()), id, peer)
      ensures old(Exact(Maps())) && id !in old(ownerByTarget) ==> (Exact(Maps()) <==> id !in old(peers))
    {
      if Exact(Maps()) && id !in ownerByTarget {
        AdoptInExactIff(Maps(), id, peer);
      }
      peers := Emplace(peers, id, peer);
      ownerByTarget := Emplace(ownerByTarget, id, id);
      refCount := Emplace(refCount, id, 1);
    }
  }

  /**
   Each method does to the maps what the specification says, whatever they hold. If they were right
   and stay right, it also does what `TargetTable` says.
   */
  class TargetStore {
    var targets: map<uint32, Cap>
    var nextTargetId: uint32
    const loopback: PeerOwnership
    const network: PeerOwnership

    ghost predicate Separate() {
      loopback != network
    }

    ghost predicate Valid()
      reads this, loopback, network
    {
      Separate() && Right(Maps())
    }

    ghost function Maps(): Store
      reads this, loopback, network
    {
      Store(targets, nextTargetId, loopback.Maps(), network.Maps())
    }

    ghost function Abs(): Table
      reads this, loopback, network
    {
      TableOf(Maps())
    }

    constructor ()
      ensures Valid() && fresh(loopback) && fresh(network) && Maps() == EMPTY_STORE && Abs() == EMPTY
    {
      targets, nextTargetId := map[], 1;
      loopback := new PeerOwnership();
      network := new PeerOwnership();
    }

    method AddTarget(cap: Cap) returns (id: uint32)
      requires Separate() && |targets| < U32
      modifies this
      ensures id == NewId(old(Maps())) && id !in old(targets) && Maps() == AddIn(old(Maps()), id, cap)
      ensures targets == old(targets)[id := cap] && nextTargetId == Ahead(id, 1)
      ensures old(Valid()) ==> Valid() && Abs() == TargetTable.AddTarget(old(Abs()), cap)
    {
      assert |targets.Keys| == |targets|;
      ghost var before := Maps();
      id, nextTargetId := Allocate(targets.Keys, nextTargetId);
      targets := targets[id := cap];
      if old(Valid()) {
        AddInRefines(before, cap);
      }
    }

    method RegisterLoopbackTarget(cap: Cap, peer: Peer) returns (id: uint32)
      requires Separate() && |targets| < U32
      modifies this, loopback
      ensures id == NewId(old(Maps())) && Maps() == OpenIn(old(Maps()), id, Loopback, cap, peer)
      ensures id !in old(targets) && targets == old(targets)[id := cap]
      ensures old(Valid()) ==> (Valid() <==> !NextHasPeer(old(Maps()), Loopback))
      ensures old(Valid()) && Valid() ==> Abs() == Connect(old(Abs()), Loopback, cap, peer)
    {
      ghost var before := Maps();
      id := AddTarget(cap);
      loopback.Adopt(id, peer);
      if old(Valid()) {
        OpenInRefines(before, Loopback, cap, peer);
      }
    }

    method RegisterLoopbackBootstrapTarget(bootstrap: uint32, proxy: Cap, peer: Peer)
      returns (r: Result<uint32, Error>)
      requires Separate() && |targets| < U32
      modifies this, loopback
      ensures bootstrap in old(targets) ==>
                r == Ok(NewId(old(Maps()))) && Maps() == OpenIn(old(Maps()), r.value, Loopback, proxy, peer)
      ensures r.Ok? ==> r.value !in old(targets) && targets == old(targets)[r.value := proxy]
      ensures bootstrap !in old(targets) ==> Maps() == old(Maps()) && r == Err(UnknownTarget(bootstrap))
      ensures old(Valid()) && bootstrap in old(targets) ==> (Valid() <==> !NextHasPeer(old(Maps()), Loopback))
    {
      if bootstrap !in targets {
        return Err(UnknownTarget(bootstrap));
      }
      var id := RegisterLoopbackTarget(proxy, peer);
      return Ok(id);
    }

    method ConnectTargetPeer(cap: Cap, peer: Peer) returns (id: uint32)
      requires Separate() && |targets| < U32
      modifies this, network
      ensures id == NewId(old(Maps())) && Maps() == OpenIn(old(Maps()), id, Network, cap, peer)
      ensures id !in old(targets) && targets == old(targets)[id := cap]
      ensures old(Valid()) ==> (Valid() <==> !NextHasPeer(old(Maps()), Network))
      ensures old(Valid()) && Valid() ==> Abs() == Connect(old(Abs()), Network, cap, peer)
    {
      ghost var before := Maps();
      id := AddTarget(cap);
      network.Adopt(id, peer);
      if old(Valid()) {
        OpenInRefines(before, Network, cap, peer);
      }
    }

    method DeriveTarget(source: uint32, cap: Cap) returns (id: uint32)
      requires Separate() && |targets| < U32
      modifies this, loopback, network
      ensures id == NewId(old(Maps())) && Maps() == DeriveIn(old(Maps()), id, source, cap)
      ensures id !in old(targets) && targets == old(targets)[id := cap]
      ensures old(Valid()) ==> (Valid() <==> !old(Overflows(Maps(), source)))
      ensures old(Valid()) ==> Abs() == TargetTable.DeriveTarget(old(Abs()), source, cap)
      ensures old(Valid() && |targets| + 1 < U32) ==> Valid()
    {
      ghost var before := Maps();
      id := AddTarget(cap);
      loopback.Retain(source, id);
      network.Retain(source, id);
      if old(Valid()) {
        DeriveInRefines(before, source, cap);
        if Overflows(before, source) {
          OverflowTakesAllIds(before, source);
        }
      }
    }

    method RetainTarget(target: uint32) returns (r: Result<uint32, Error>)
      requires Separate() && |targets| < U32
      modifies this, loopback, network
      ensures target in old(targets) ==>
                r == Ok(NewId(old(Maps()))) && Maps() == DeriveIn(old(Maps()), r.value, target, old(targets)[target])
      ensures r.Ok? <==> target in old(targets)
      ensures r.Ok? ==> r.value !in old(targets) && targets == old(targets)[r.value := old(targets)[target]]
      ensures target !in old(targets) ==> Maps() == old(Maps()) && r == Err(UnknownTarget(target))
      ensures old(Valid()) ==> (Valid() <==> target in old(targets) ==> !old(Overflows(Maps(), target)))
      ensures old(Valid()) ==> (Abs(), r) == TargetTable.Retain(old(Abs()), target)
      ensures old(Valid() && |targets| + 1 < U32) ==> Valid()
    {
      if target !in targets {
        return Err(UnknownTarget(target));
      }
      var id := DeriveTarget(target, targets[target]);
      return Ok(id);
    }

    method RegisterTailCallTarget(target: uint32) returns (r: Result<uint32, Error>)
      requires Separate() && |targets| < U32
      modifies this, loopback, network
      ensures target in old(targets) ==>
                && r == Ok(NewId(old(Maps())))
                && Maps() == DeriveIn(old(Maps()), r.value, target, Forwarder(old(targets)[target]))
      ensures r.Ok? <==> target in old(targets)
      ensures r.Ok? ==> r.value !in old(targets) && targets == old(targets)[r.value := Forwarder(old(targets)[target])]
      ensures target !in old(targets) ==> Maps() == old(Maps()) && r == Err(UnknownTarget(target))
      ensures old(Valid()) ==> (Valid() <==> target in old(targets) ==> !old(Overflows(Maps(), target)))
      ensures old(Valid()) ==> (Abs(), r) == RegisterTailCall(old(Abs()), target)
      ensures old(Valid() && |targets| + 1 < U32) ==> Valid()
    {
      if target !in targets {
        return Err(UnknownTarget(target));
      }
      var id := DeriveTarget(target, Forwarder(targets[target]));
      return Ok(id);
    }

    method DropTargetIfPresent(target: uint32) returns (erased: bool)
      requires Separate()
      modifies this, loopback, network
      ensures Maps() == DropIn(old(Maps()), target) && erased == (target in old(targets))
      ensures targets == old(targets) - {target}
      ensures old(Valid()) ==> Valid() && Abs() == DropAll(old(Abs()), {target})
    {
      ghost var before := Maps();
      erased := target in targets;
      targets := targets - {target};
      loopback.Release(target);
      network.Release(target);
      if old(Valid()) {
        DropInRefines(before, target);
      }
    }

    method ReleaseTarget(target: uint32) returns (r: Result<(), Error>)
      requires Separate()
      modifies this, loopback, network
      ensures Maps() == DropIn(old(Maps()), target) && targets == old(targets) - {target}
      ensures r == if target in old(targets) then Ok(()) else Err(UnknownTarget(target))
      ensures old(Valid()) ==> Valid() && Abs() == DropAll(old(Abs()), {target})
    {
      var erased := DropTargetIfPresent(target);
      if !erased {
        return Err(UnknownTarget(target));
      }
      return Ok(());
    }

    method ReleaseTargets(ids: seq<uint32>) returns (r: Result<(), Error>)
      requires Separate()
      modifies this, loopback, network
      ensures (Maps(), r) == ReleaseAllIn(old(Maps()), ids)
      ensures old(Valid()) ==> Valid() && (Abs(), r) == ReleaseMany(old(Abs()), ids)
    {
      if Valid() {
        ReleaseAllInRefines(Maps(), ids);
      }
      for i := 0 to |ids|
        invariant ReleaseAllIn(Maps(), ids[i..]) == ReleaseAllIn(old(Maps()), ids)
      {
        assert ids[i..][1..] == ids[i + 1..];
        if ids[i] == 0 {
          continue;
        }
        var erased := DropTargetIfPresent(ids[i]);
        if !erased {
          return Err(UnknownTarget(ids[i]));
        }
      }
      return Ok(());
    }
  }
}

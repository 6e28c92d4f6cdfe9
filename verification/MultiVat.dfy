/**
 The runtime's named vats: a table of peers, an index of their names, and the sturdy refs each of
 them has published.
 */
module MultiVat {
  import opened Words
  import opened IdAllocator
  import T = TargetTable
  import TargetRuns
  import RuntimeTargets

  datatype ObjectId = ObjectId(bytes: seq<byte>)

  datatype Restorer = Restorer(identity: nat)

  datatype Peer = Peer(name: string, restorer: Option<Restorer>)

  datatype Error =
    | UnknownPeer(id: uint32)
    | UnknownHost(host: string)
    | UnknownTarget(target: uint32)
    | VatExists(name: string)
    | NothingPublished
    | UnknownObject
    | RestorerFailed

  /** `vats` are the names of the network's vats, which outlive the peers made for them. */
  datatype State = State(
    vats: set<string>, peers: map<uint32, Peer>, nextPeer: uint32, names: map<string, uint32>,
    sturdyRefs: map<uint32, map<ObjectId, Cap>>, table: T.Table)

  const EMPTY := State({}, map[], 1, map[], map[], T.EMPTY)

  // ---- operations -------------------------------------------------------------------------

  ghost function AddTarget(s: State, cap: Cap): (State, uint32) {
    (s.(table := T.AddTarget(s.table, cap)), T.FreshId(s.table))
  }

  function AddPeerAt(s: State, name: string, id: uint32): State {
    s.(vats := s.vats + {name}, peers := s.peers[id := Peer(name, None)], nextPeer := Ahead(id, 1),
       names := s.names[name := id])
  }

  /** A client, or a server with a factory. */
  ghost function NewPeer(s: State, name: string): (State, Result<uint32, Error>) {
    if name in s.vats then (s, Err(VatExists(name)))
    else
      var id := NextFree(s.peers.Keys, s.nextPeer);
      (AddPeerAt(s, name, id), Ok(id))
  }

  ghost function NewServer(s: State, name: string, bootstrap: uint32): (State, Result<uint32, Error>) {
    if bootstrap !in s.table.targets then (s, Err(UnknownTarget(bootstrap))) else NewPeer(s, name)
  }

  function ReleasePeer(s: State, id: uint32): (State, Result<(), Error>) {
    if id !in s.peers then (s, Err(UnknownPeer(id)))
    else
      (s.(names := s.names - {s.peers[id].name}, sturdyRefs := s.sturdyRefs - {id}, peers := s.peers - {id}), Ok(()))
  }

  function SetRestorer(s: State, id: uint32, restorer: Option<Restorer>): (State, Result<(), Error>) {
    if id !in s.peers then (s, Err(UnknownPeer(id)))
    else (s.(peers := s.peers[id := s.peers[id].(restorer := restorer)]), Ok(()))
  }

  function RefsOf(s: State, host: uint32): map<ObjectId, Cap> {
    if host in s.sturdyRefs then s.sturdyRefs[host] else map[]
  }

  function Publish(s: State, host: uint32, object_: ObjectId, target: uint32): (State, Result<(), Error>) {
    if host !in s.peers then (s, Err(UnknownPeer(host)))
    else if target !in s.table.targets then (s, Err(UnknownTarget(target)))
    else (s.(sturdyRefs := s.sturdyRefs[host := RefsOf(s, host)[object_ := s.table.targets[target]]]), Ok(()))
  }

  /** A host's last sturdy ref takes its store along. */
  function Unpublish(s: State, host: uint32, object_: ObjectId): (State, Result<(), Error>) {
    if host !in s.peers then (s, Err(UnknownPeer(host)))
    else if host !in s.sturdyRefs then (s, Err(NothingPublished))
    else if object_ !in s.sturdyRefs[host] then (s, Err(UnknownObject))
    else
      var left := s.sturdyRefs[host] - {object_};
      (s.(sturdyRefs := if left == map[] then s.sturdyRefs - {host} else s.sturdyRefs[host := left]), Ok(()))
  }

  function ClearPublished(s: State, host: uint32): (State, Result<(), Error>) {
    if host !in s.peers then (s, Err(UnknownPeer(host))) else (s.(sturdyRefs := s.sturdyRefs - {host}), Ok(()))
  }

  function PublishedCount(s: State, host: uint32): Result<nat, Error> {
    if host !in s.peers then Err(UnknownPeer(host)) else Ok(|RefsOf(s, host)|)
  }

  /** `answer` is the target that the host's restorer would name, if it has one and that succeeds. */
  ghost function Restore(s: State, source: uint32, host: string, object_: ObjectId, answer: Option<uint32>)
    : (State, Result<uint32, Error>)
  {
    if source !in s.peers then (s, Err(UnknownPeer(source)))
    else if host !in s.names then (s, Err(UnknownHost(host)))
    else
      var id := s.names[host];
      if id !in s.peers then (s, Err(UnknownPeer(id)))
      else if s.peers[id].restorer.Some? then
        if answer.None? then (s, Err(RestorerFailed))
        else
          var (table, r) := T.Retain(s.table, answer.value);
          (s.(table := table), if r.Err? then Err(UnknownTarget(answer.value)) else Ok(r.value))
      else if id !in s.sturdyRefs then (s, Err(NothingPublished))
      else if object_ !in s.sturdyRefs[id] then (s, Err(UnknownObject))
      else var (s', target) := AddTarget(s, s.sturdyRefs[id][object_]); (s', Ok(target))
  }

  /** `DoOther` is anything the rest of the runtime does to the targets. */
  datatype Op =
    | DoNewPeer(name: string)
    | DoNewServer(name: string, bootstrap: uint32)
    | DoReleasePeer(id: uint32)
    | DoSetRestorer(id: uint32, restorer: Option<Restorer>)
    | DoPublish(host: uint32, object_: ObjectId, target: uint32)
    | DoUnpublish(host: uint32, object_: ObjectId)
    | DoClearPublished(host: uint32)
    | DoRestore(source: uint32, hostName: string, object_: ObjectId, answer: Option<uint32>)
    | DoOther(op: TargetRuns.Op)

  ghost function Step(s: State, op: Op): State {
    match op
    case DoNewPeer(name) => NewPeer(s, name).0
    case DoNewServer(name, bootstrap) => NewServer(s, name, bootstrap).0
    case DoReleasePeer(id) => ReleasePeer(s, id).0
    case DoSetRestorer(id, restorer) => SetRestorer(s, id, restorer).0
    case DoPublish(host, object_, target) => Publish(s, host, object_, target).0
    case DoUnpublish(host, object_) => Unpublish(s, host, object_).0
    case DoClearPublished(host) => ClearPublished(s, host).0
    case DoRestore(source, hostName, object_, answer) => Restore(s, source, hostName, object_, answer).0
    case DoOther(other) => s.(table := TargetRuns.Step(s.table, other))
  }

  ghost function Run(s: State, ops: seq<Op>): State
    decreases |ops|
  {
    if ops == [] then s else Run(Step(s, ops[0]), ops[1..])
  }

  /** At every step an unused peer id is left. */
  ghost predicate RoomThroughout(s: State, ops: seq<Op>)
    decreases |ops|
  {
    |s.peers| < U32 && (ops != [] ==> RoomThroughout(Step(s, ops[0]), ops[1..]))
  }

  // ---- names and peers --------------------------------------------------------------------

  ghost predicate Inverse(s: State) {
    && (forall id | id in s.peers :: s.peers[id].name in s.names && s.names[s.peers[id].name] == id)
    && (forall name | name in s.names :: s.names[name] in s.peers && s.peers[s.names[name]].name == name)
  }

  ghost predicate Inv(s: State) {
    && Inverse(s)
    && (forall name | name in s.names :: name in s.vats)
    && (forall host | host in s.sturdyRefs :: host in s.peers && s.sturdyRefs[host] != map[])
  }

  lemma NewPeerKeepsInv(s: State, name: string)
    requires Inv(s) && |s.peers| < U32
    ensures Inv(NewPeer(s, name).0)
  {
    assert |s.peers.Keys| == |s.peers|;
    NextFreeIsNext(s.peers.Keys, s.nextPeer);
  }

  lemma ReleaseKeepsInv(s: State, id: uint32)
    requires Inv(s)
    ensures Inv(ReleasePeer(s, id).0)
  {
  }

  lemma RestorerKeepsInv(s: State, id: uint32, restorer: Option<Restorer>)
    requires Inv(s)
    ensures Inv(SetRestorer(s, id, restorer).0)
  {
  }

  lemma PublishKeepsInv(s: State, host: uint32, object_: ObjectId, target: uint32)
    requires Inv(s)
    ensures Inv(Publish(s, host, object_, target).0)
  {
    var refs := RefsOf(s, host);
    if target in s.table.targets { assert object_ in refs[object_ := s.table.targets[target]]; }
  }

  lemma UnpublishKeepsInv(s: State, host: uint32, object_: ObjectId)
    requires Inv(s)
    ensures Inv(Unpublish(s, host, object_).0)
  {
  }

  lemma PutAndTaken<K, V>(m: map<K, V>, k: K, v: V)
    ensures m[k := v] - {k} == m - {k}
  {
  }

  lemma ClearKeepsInv(s: State, host: uint32)
    requires Inv(s)
    ensures Inv(ClearPublished(s, host).0)
  {
  }

  lemma StepKeepsInv(s: State, op: Op)
    requires Inv(s) && |s.peers| < U32
    ensures Inv(Step(s, op))
  {
    match op
    case DoNewPeer(name) => NewPeerKeepsInv(s, name);
    case DoNewServer(name, _) => NewPeerKeepsInv(s, name);
    case DoReleasePeer(id) => ReleaseKeepsInv(s, id);
    case DoSetRestorer(id, restorer) => RestorerKeepsInv(s, id, restorer);
    case DoPublish(host, object_, target) => PublishKeepsInv(s, host, object_, target);
    case DoUnpublish(host, object_) => UnpublishKeepsInv(s, host, object_);
    case DoClearPublished(host) => ClearKeepsInv(s, host);
    case DoRestore(_, _, _, _) =>
    case DoOther(_) =>
  }

  lemma {:induction false} RunKeepsInv(s: State, ops: seq<Op>)
    requires Inv(s) && RoomThroughout(s, ops)
    ensures Inv(Run(s, ops))
    decreases |ops|
  {
    if ops != [] {
      StepKeepsInv(s, ops[0]);
      RunKeepsInv(Step(s, ops[0]), ops[1..]);
    }
  }

  /** Over any run: names and peers are inverse to each other, and only peers have stores, none of them empty. */
  lemma NamesAndPeersAgree(ops: seq<Op>)
    requires RoomThroughout(EMPTY, ops)
    ensures Inv(Run(EMPTY, ops))
  {
    RunKeepsInv(EMPTY, ops);
  }

  // ---- what is published can be restored --------------------------------------------------

  ghost predicate Published(s: State, host: uint32, name: string, object_: ObjectId, cap: Cap) {
    && host in s.peers && s.peers[host].name == name
    && host in s.sturdyRefs && object_ in s.sturdyRefs[host] && s.sturdyRefs[host][object_] == cap
  }

  /** Operations that take back or replace what `host` has published as `object_`. */
  predicate TakesBack(op: Op, host: uint32, object_: ObjectId) {
    match op
    case DoPublish(h, o, _) => h == host && o == object_
    case DoUnpublish(h, o) => h == host && o == object_
    case DoClearPublished(h) => h == host
    case DoReleasePeer(id) => id == host
    case _ => false
  }

  lemma StepKeepsPublished(s: State, op: Op, host: uint32, name: string, object_: ObjectId, cap: Cap)
    requires Published(s, host, name, object_, cap) && !TakesBack(op, host, object_) && |s.peers| < U32
    ensures Published(Step(s, op), host, name, object_, cap)
  {
    match op
    case DoNewPeer(_) =>
      assert |s.peers.Keys| == |s.peers|;
      NextFreeIsNext(s.peers.Keys, s.nextPeer);
    case DoNewServer(_, _) =>
      assert |s.peers.Keys| == |s.peers|;
      NextFreeIsNext(s.peers.Keys, s.nextPeer);
    case DoUnpublish(h, o) =>
      if h == host && o in s.sturdyRefs[h] { assert object_ in s.sturdyRefs[h] - {o}; }
    case _ =>
  }

  lemma {:induction false} RunKeepsPublished(
    s: State, ops: seq<Op>, host: uint32, name: string, object_: ObjectId, cap: Cap)
    requires Published(s, host, name, object_, cap) && RoomThroughout(s, ops)
    requires forall op | op in ops :: !TakesBack(op, host, object_)
    ensures Published(Run(s, ops), host, name, object_, cap)
    decreases |ops|
  {
    if ops != [] {
      StepKeepsPublished(s, ops[0], host, name, object_, cap);
      RunKeepsPublished(Step(s, ops[0]), ops[1..], host, name, object_, cap);
    }
  }

  /**
   What was published is restored, by any peer and under the host's name, to a new id for the very
   same capability, as long as it is not replaced, unpublished, cleared, or its host released, and
   the host has no restorer. Whether the published target id is still there makes no difference.
   */
  lemma PublishedIsRestored(s: State, host: uint32, object_: ObjectId, target: uint32, ops: seq<Op>,
                            source: uint32, answer: Option<uint32>)
    requires Inv(s) && Publish(s, host, object_, target).1.Ok?
    requires RoomThroughout(Publish(s, host, object_, target).0, ops)
    requires forall op | op in ops :: !TakesBack(op, host, object_)
    ensures var end := Run(Publish(s, host, object_, target).0, ops);
            var (end', r) := Restore(end, source, s.peers[host].name, object_, answer);
            && host in end.peers
            && (source in end.peers && |end.table.targets| < U32 && end.peers[host].restorer == None ==>
                  && r.Ok? && r.value !in end.table.targets
                  && end'.table.targets == end.table.targets[r.value := s.table.targets[target]])
  {
    var s1, name, cap := Publish(s, host, object_, target).0, s.peers[host].name, s.table.targets[target];
    PublishKeepsInv(s, host, object_, target);
    RunKeepsInv(s1, ops);
    RunKeepsPublished(s1, ops, host, name, object_, cap);
    var end := Run(s1, ops);
    if source in end.peers && |end.table.targets| < U32 && end.peers[host].restorer == None {
      RestoreFindsPublished(end, host, name, object_, cap, source, answer);
    }
  }

  lemma RestoreFindsPublished(s: State, host: uint32, name: string, object_: ObjectId, cap: Cap,
                              source: uint32, answer: Option<uint32>)
    requires Inv(s) && Published(s, host, name, object_, cap) && s.peers[host].restorer == None
    requires source in s.peers && |s.table.targets| < U32
    ensures var (s', r) := Restore(s, source, name, object_, answer);
            && r.Ok? && r.value !in s.table.targets && s'.table.targets == s.table.targets[r.value := cap]
  {
    assert |s.table.targets.Keys| == |s.table.targets|;
    NextFreeIsNext(s.table.targets.Keys, s.table.next);
  }

  // ---- and what is taken back can not -----------------------------------------------------

  lemma UnpublishedIsUnknown(s: State, host: uint32, object_: ObjectId, source: uint32, answer: Option<uint32>)
    requires Inv(s) && host in s.peers && s.peers[host].restorer == None && source in s.peers
    ensures Unpublish(s, host, object_).1.Ok? ==>
              Restore(Unpublish(s, host, object_).0, source, s.peers[host].name, object_, answer).1
              == Err(if PublishedCount(s, host) == Ok(1) then NothingPublished else UnknownObject)
    ensures Restore(ClearPublished(s, host).0, source, s.peers[host].name, object_, answer).1 == Err(NothingPublished)
  {
    if host in s.sturdyRefs && object_ in s.sturdyRefs[host] {
      var refs := s.sturdyRefs[host];
      assert (refs - {object_}).Keys == refs.Keys - {object_};
      assert |refs.Keys| == |refs| && |(refs - {object_}).Keys| == |refs - {object_}|;
    }
  }

  /** The name of a released peer stands for nothing, and never will again: the network keeps it taken. */
  lemma {:induction false} ReleasedNameIsGone(s: State, ops: seq<Op>, name: string)
    requires Inv(s) && RoomThroughout(s, ops) && name in s.vats && name !in s.names
    ensures name !in Run(s, ops).names && NewPeer(Run(s, ops), name).1 == Err(VatExists(name))
    decreases |ops|
  {
    if ops != [] {
      StepKeepsInv(s, ops[0]);
      NameStaysGone(s, ops[0], name);
      ReleasedNameIsGone(Step(s, ops[0]), ops[1..], name);
    }
  }

  lemma NameStaysGone(s: State, op: Op, name: string)
    requires name in s.vats && name !in s.names
    ensures name in Step(s, op).vats && name !in Step(s, op).names
  {
  }

  lemma ReleasedHostIsUnknown(s: State, host: uint32, ops: seq<Op>, source: uint32, object_: ObjectId,
                              answer: Option<uint32>)
    requires Inv(s) && host in s.peers && |s.peers| < U32 && RoomThroughout(ReleasePeer(s, host).0, ops)
    ensures var end := Run(ReleasePeer(s, host).0, ops);
            source in end.peers ==>
              Restore(end, source, s.peers[host].name, object_, answer) == (end, Err(UnknownHost(s.peers[host].name)))
  {
    ReleaseKeepsInv(s, host);
    ReleasedNameIsGone(ReleasePeer(s, host).0, ops, s.peers[host].name);
  }

  // ---- the code ---------------------------------------------------------------------------

  class MultiVatPeers {
    const store: RuntimeTargets.TargetStore
    var genericVatNetwork: set<string>
    var multiVatPeers: map<uint32, Peer>
    var nextMultiVatPeerId: uint32
    var multiVatPeerIdsByName: map<string, uint32>
    var sturdyRefs: map<uint32, map<ObjectId, Cap>>

    ghost function Targets(): set<object> {
      {store, store.loopback, store.network}
    }

    ghost function Abs(): State
      reads this, Targets()
    {
      State(genericVatNetwork, multiVatPeers, nextMultiVatPeerId, multiVatPeerIdsByName, sturdyRefs, store.Abs())
    }

    ghost predicate Valid()
      reads this, Targets()
    {
      store.Valid() && Inv(Abs())
    }

    constructor (store: RuntimeTargets.TargetStore)
      requires store.Valid() && store.Abs() == T.EMPTY
      ensures this.store == store && Valid() && Abs() == EMPTY
    {
      this.store := store;
      genericVatNetwork, multiVatPeers, nextMultiVatPeerId, multiVatPeerIdsByName := {}, map[], 1, map[];
      sturdyRefs := map[];
    }

    method AddMultiVatPeer(peer: Peer) returns (id: uint32)
      requires |multiVatPeers| < U32
      modifies this`multiVatPeers, this`nextMultiVatPeerId, this`multiVatPeerIdsByName
      ensures id == NextFree(old(multiVatPeers).Keys, old(nextMultiVatPeerId))
      ensures multiVatPeers == old(multiVatPeers)[id := peer] && nextMultiVatPeerId == Ahead(id, 1)
      ensures multiVatPeerIdsByName == old(multiVatPeerIdsByName)[peer.name := id]
    {
      assert |multiVatPeers.Keys| == |multiVatPeers|;
      id, nextMultiVatPeerId := Allocate(multiVatPeers.Keys, nextMultiVatPeerId);
      multiVatPeerIdsByName := multiVatPeerIdsByName[peer.name := id];
      multiVatPeers := multiVatPeers[id := peer];
    }

    method NewMultiVatClient(name: string) returns (r: Result<uint32, Error>)
      requires Valid() && |multiVatPeers| < U32
      modifies this
      ensures Valid() && (Abs(), r) == NewPeer(old(Abs()), name)
    {
      NewPeerKeepsInv(Abs(), name);
      if name in genericVatNetwork {
        return Err(VatExists(name));
      }
      genericVatNetwork := genericVatNetwork + {name};
      var id := AddMultiVatPeer(Peer(name, None));
      r := Ok(id);
    }

    method NewMultiVatServer(name: string, bootstrapTarget: uint32) returns (r: Result<uint32, Error>)
      requires Valid() && |multiVatPeers| < U32
      modifies this
      ensures Valid() && (Abs(), r) == NewServer(old(Abs()), name, bootstrapTarget)
    {
      if bootstrapTarget !in store.targets {
        return Err(UnknownTarget(bootstrapTarget));
      }
      r := NewMultiVatClient(name);
    }

    method ReleaseMultiVatPeer(id: uint32) returns (r: Result<(), Error>)
      requires Valid()
      modifies this`multiVatPeers, this`multiVatPeerIdsByName, this`sturdyRefs
      ensures Valid() && (Abs(), r) == ReleasePeer(old(Abs()), id)
    {
      ReleaseKeepsInv(Abs(), id);
      if id !in multiVatPeers {
        return Err(UnknownPeer(id));
      }
      multiVatPeerIdsByName := multiVatPeerIdsByName - {multiVatPeers[id].name};
      sturdyRefs := sturdyRefs - {id};
      multiVatPeers := multiVatPeers - {id};
      r := Ok(());
    }

    method MultiVatSetRestorer(id: uint32, restorer: Restorer) returns (r: Result<(), Error>)
      requires Valid()
      modifies this`multiVatPeers
      ensures Valid() && (Abs(), r) == SetRestorer(old(Abs()), id, Some(restorer))
    {
      RestorerKeepsInv(Abs(), id, Some(restorer));
      if id !in multiVatPeers {
        return Err(UnknownPeer(id));
      }
      multiVatPeers := multiVatPeers[id := multiVatPeers[id].(restorer := Some(restorer))];
      r := Ok(());
    }

    method MultiVatClearRestorer(id: uint32) returns (r: Result<(), Error>)
      requires Valid()
      modifies this`multiVatPeers
      ensures Valid() && (Abs(), r) == SetRestorer(old(Abs()), id, None)
    {
      RestorerKeepsInv(Abs(), id, None);
      if id !in multiVatPeers {
        return Err(UnknownPeer(id));
      }
      if multiVatPeers[id].restorer.Some? {
        multiVatPeers := multiVatPeers[id := multiVatPeers[id].(restorer := None)];
      }
      assert multiVatPeers == old(multiVatPeers)[id := old(multiVatPeers)[id].(restorer := None)];
      r := Ok(());
    }

    method MultiVatPublishSturdyRef(host: uint32, object_: ObjectId, target: uint32) returns (r: Result<(), Error>)
      requires Valid()
      modifies this`sturdyRefs
      ensures Valid() && (Abs(), r) == Publish(old(Abs()), host, object_, target)
    {
      PublishKeepsInv(Abs(), host, object_, target);
      if host !in multiVatPeers {
        return Err(UnknownPeer(host));
      }
      if target !in store.targets {
        return Err(UnknownTarget(target));
      }
      var hostRefs := if host in sturdyRefs then sturdyRefs[host] else map[];
      sturdyRefs := sturdyRefs[host := hostRefs[object_ := store.targets[target]]];
      r := Ok(());
    }

    method MultiVatUnpublishSturdyRef(host: uint32, object_: ObjectId) returns (r: Result<(), Error>)
      requires Valid()
      modifies this`sturdyRefs
      ensures Valid() && (Abs(), r) == Unpublish(old(Abs()), host, object_)
    {
      UnpublishKeepsInv(Abs(), host, object_);
      if host !in multiVatPeers {
        return Err(UnknownPeer(host));
      }
      if host !in sturdyRefs {
        return Err(NothingPublished);
      }
      if object_ !in sturdyRefs[host] {
        return Err(UnknownObject);
      }
      var hostRefs := sturdyRefs[host] - {object_};
      sturdyRefs := sturdyRefs[host := hostRefs];
      if hostRefs == map[] {
        PutAndTaken(old(sturdyRefs), host, hostRefs);
        sturdyRefs := sturdyRefs - {host};
      }
      r := Ok(());
    }

    method MultiVatClearPublishedSturdyRefs(host: uint32) returns (r: Result<(), Error>)
      requires Valid()
      modifies this`sturdyRefs
      ensures Valid() && (Abs(), r) == ClearPublished(old(Abs()), host)
    {
      ClearKeepsInv(Abs(), host);
      if host !in multiVatPeers {
        return Err(UnknownPeer(host));
      }
      sturdyRefs := sturdyRefs - {host};
      r := Ok(());
    }

    /** The index's entry for the host is looked up by its name, as the restore does. */
    method MultiVatRestoreSturdyRef(source: uint32, host: string, object_: ObjectId, answer: Option<uint32>)
      returns (r: Result<uint32, Error>)
      requires Valid() && |store.targets| < U32
      modifies Targets()
      ensures (Abs(), r) == Restore(old(Abs()), source, host, object_, answer)
      ensures Valid() <==> !(r.Ok? && multiVatPeers[multiVatPeerIdsByName[host]].restorer.Some?
                             && old(RuntimeTargets.Overflows(store.Maps(), answer.value)))
      ensures old(|store.targets| + 1 < U32) ==> Valid()
    {
      if source !in multiVatPeers {
        return Err(UnknownPeer(source));
      }
      if host !in multiVatPeerIdsByName {
        return Err(UnknownHost(host));
      }
      var peer := multiVatPeers[multiVatPeerIdsByName[host]];
      if peer.restorer.Some? {
        if answer.None? {
          return Err(RestorerFailed);
        }
        var retained := store.RetainTarget(answer.value);
        return if retained.Ok? then Ok(retained.value) else Err(UnknownTarget(answer.value));
      }
      var id := multiVatPeerIdsByName[peer.name];
      if id !in sturdyRefs {
        return Err(NothingPublished);
      }
      if object_ !in sturdyRefs[id] {
        return Err(UnknownObject);
      }
      var restored := store.AddTarget(sturdyRefs[id][object_]);
      r := Ok(restored);
    }
  }
}

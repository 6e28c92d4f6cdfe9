/**
 Peers and their restorers. While a host has a restorer, that decides every restore, whatever the host
 has published.
 */
module Restorers {
  import opened Words
  import opened IdAllocator
  import opened MultiVat

  // ---- single operations ------------------------------------------------------------------

  /** A new peer has a new id under a name no vat ever had; a taken name, or an unknown bootstrap target, is refused. */
  lemma NewPeerExact(s: State, name: string, bootstrap: uint32)
    requires |s.peers| < U32
    ensures var (s', r) := NewPeer(s, name);
            if name in s.vats then s' == s && r == Err(VatExists(name))
            else
              && r.Ok? && r.value !in s.peers
              && s' == s.(vats := s.vats + {name}, peers := s.peers[r.value := Peer(name, None)],
                          names := s.names[name := r.value], nextPeer := Ahead(r.value, 1))
    ensures NewServer(s, name, bootstrap)
            == if bootstrap in s.table.targets then NewPeer(s, name) else (s, Err(UnknownTarget(bootstrap)))
  {
    assert |s.peers.Keys| == |s.peers|;
    NextFreeIsNext(s.peers.Keys, s.nextPeer);
  }

  /** A released peer goes with its name and all it has published. */
  lemma ReleasePeerExact(s: State, id: uint32)
    ensures var (s', r) := ReleasePeer(s, id);
            if id !in s.peers then s' == s && r == Err(UnknownPeer(id))
            else
              && r == Ok(())
              && s' == s.(peers := s.peers - {id}, names := s.names - {s.peers[id].name},
                          sturdyRefs := s.sturdyRefs - {id})
  {
  }

  /** What is published is what the target stands for then; unknown hosts and targets are refused in this order. */
  lemma PublishExact(s: State, host: uint32, object_: ObjectId, target: uint32, other: ObjectId)
    ensures var (s', r) := Publish(s, host, object_, target);
            if host !in s.peers then s' == s && r == Err(UnknownPeer(host))
            else if target !in s.table.targets then s' == s && r == Err(UnknownTarget(target))
            else
              && r == Ok(()) && s' == s.(sturdyRefs := s'.sturdyRefs) && host in s'.sturdyRefs
              && s'.sturdyRefs - {host} == s.sturdyRefs - {host}
              && object_ in s'.sturdyRefs[host] && s'.sturdyRefs[host][object_] == s.table.targets[target]
              && (other != object_ ==>
                    && (other in s'.sturdyRefs[host] <==> host in s.sturdyRefs && other in s.sturdyRefs[host])
                    && (other in s'.sturdyRefs[host] ==> s'.sturdyRefs[host][other] == s.sturdyRefs[host][other]))
  {
  }

  // ---- restorers --------------------------------------------------------------------------

  ghost predicate Asks(s: State, host: uint32, name: string, restorer: Option<Restorer>) {
    host in s.peers && s.peers[host] == Peer(name, restorer)
  }

  /** Setting or clearing a restorer changes that of this peer and nothing else. */
  lemma SetRestorerExact(s: State, host: uint32, restorer: Option<Restorer>)
    ensures var (s', r) := SetRestorer(s, host, restorer);
            if host !in s.peers then s' == s && r == Err(UnknownPeer(host))
            else r == Ok(()) && s' == s.(peers := s.peers[host := Peer(s.peers[host].name, restorer)])
  {
  }

  /** Operations after which another restorer, or none, answers for `host`. */
  predicate Replaces(op: Op, host: uint32) {
    (op.DoSetRestorer? && op.id == host) || (op.DoReleasePeer? && op.id == host)
  }

  lemma StepKeepsAsking(s: State, op: Op, host: uint32, name: string, restorer: Option<Restorer>)
    requires Asks(s, host, name, restorer) && !Replaces(op, host) && |s.peers| < U32
    ensures Asks(Step(s, op), host, name, restorer)
  {
    match op
    case DoNewPeer(n) => NewPeerExact(s, n, 0);
    case DoNewServer(n, bootstrap) => NewPeerExact(s, n, bootstrap);
    case _ =>
  }

  lemma {:induction false} RunKeepsAsking(
    s: State, ops: seq<Op>, host: uint32, name: string, restorer: Option<Restorer>)
    requires Asks(s, host, name, restorer) && RoomThroughout(s, ops)
    requires forall op | op in ops :: !Replaces(op, host)
    ensures Asks(Run(s, ops), host, name, restorer)
    decreases |ops|
  {
    if ops != [] {
      StepKeepsAsking(s, ops[0], host, name, restorer);
      RunKeepsAsking(Step(s, ops[0]), ops[1..], host, name, restorer);
    }
  }

  /** What a host with a restorer is asked for is what that names, retained under a new id. */
  lemma RestoreByRestorer(s: State, host: uint32, name: string, restorer: Restorer, source: uint32, object_: ObjectId,
                          answer: Option<uint32>)
    requires Inv(s) && Asks(s, host, name, Some(restorer)) && source in s.peers && |s.table.targets| < U32
    ensures var (s', r) := Restore(s, source, name, object_, answer);
            if answer == None then s' == s && r == Err(RestorerFailed)
            else if answer.value !in s.table.targets then s' == s && r == Err(UnknownTarget(answer.value))
            else
              && r.Ok? && r.value !in s.table.targets
              && s'.table.targets == s.table.targets[r.value := s.table.targets[answer.value]]
              && s' == s.(table := s'.table)
              && (answer.value in s.table.loopback.owner ==>
                    r.value in s'.table.loopback.owner
                    && s'.table.loopback.owner[r.value] == s.table.loopback.owner[answer.value])
              && (answer.value in s.table.network.owner ==>
                    r.value in s'.table.network.owner
                    && s'.table.network.owner[r.value] == s.table.network.owner[answer.value])
  {
    assert |s.table.targets.Keys| == |s.table.targets|;
    NextFreeIsNext(s.table.targets.Keys, s.table.next);
  }

  /**
   From the time a host is given a restorer until it is given another or none, or is released, every
   restore at that host is answered by it, whatever is published, unpublished or restored in between:
   the target it names is retained under a new id, and if it fails or names none the restore fails.
   */
  lemma RestorerAnswers(s: State, host: uint32, restorer: Restorer, ops: seq<Op>, source: uint32, object_: ObjectId,
                        answer: Option<uint32>)
    requires Inv(s) && host in s.peers && |s.peers| < U32
    requires RoomThroughout(SetRestorer(s, host, Some(restorer)).0, ops)
    requires forall op | op in ops :: !Replaces(op, host)
    ensures var end := Run(SetRestorer(s, host, Some(restorer)).0, ops);
            source in end.peers && |end.table.targets| < U32 ==>
              var (end', r) := Restore(end, source, s.peers[host].name, object_, answer);
              if answer == None then end' == end && r == Err(RestorerFailed)
              else if answer.value !in end.table.targets then end' == end && r == Err(UnknownTarget(answer.value))
              else
                && r.Ok? && r.value !in end.table.targets
                && end'.table.targets == end.table.targets[r.value := end.table.targets[answer.value]]
  {
    var name, s1 := s.peers[host].name, SetRestorer(s, host, Some(restorer)).0;
    RestorerKeepsInv(s, host, Some(restorer));
    RunKeepsInv(s1, ops);
    RunKeepsAsking(s1, ops, host, name, Some(restorer));
    var end := Run(s1, ops);
    if source in end.peers && |end.table.targets| < U32 {
      RestoreByRestorer(end, host, name, restorer, source, object_, answer);
    }
  }

  /** Without a peer to ask, or without a host of that name, a restore fails and changes nothing. */
  lemma RestoreNeedsBoth(s: State, source: uint32, name: string, object_: ObjectId, answer: Option<uint32>)
    ensures source !in s.peers ==> Restore(s, source, name, object_, answer) == (s, Err(UnknownPeer(source)))
    ensures source in s.peers && name !in s.names ==>
              Restore(s, source, name, object_, answer) == (s, Err(UnknownHost(name)))
  {
  }
}

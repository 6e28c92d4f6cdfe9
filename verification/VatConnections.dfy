/**
 What connecting, accepting and destroying come to: which pairs are new, in which order their far ends
 are accepted, and that a destroyed end is gone for good.
 */
module VatConnections {
  import opened Words
  import opened VatNetwork

  // ---- connecting -------------------------------------------------------------------------

  /** Does this connect make a new pair? */
  predicate MakesPair(s: State, from: string, to: VatId) {
    to.host != from && to.host in s.vats && (to.unique || Link(from, to.host) !in s.index)
  }

  /**
   A vat gets no connection to itself and an error for an unknown host. Otherwise it gets the one in its
   index, with nothing changed, unless it wants a unique one or has none: then it gets a new one.
   */
  lemma ConnectExact(s: State, from: string, to: VatId)
    requires Inv(s)
    ensures var (s', r) := Connect(s, from, to);
            if MakesPair(s, from, to) then r == Ok(Some(s.next)) && s.next !in s.connections && s'.next == s.next + 2
            else
              && s' == s
              && r == if to.host == from then Ok(None)
                      else if to.host !in s.vats then Err(UnknownVatHost(to.host))
                      else Ok(GetConnectionTo(s, from, to.host))
  {
  }

  /** The two ends of a new pair, which change no other connection. Only a pair that is not unique is indexed. */
  lemma NewPairExact(s: State, from: string, to: VatId, id: nat, link: Link)
    requires Inv(s) && MakesPair(s, from, to)
    ensures var s' := Connect(s, from, to).0; var near, far := s.next, s.next + 1;
            && near in s'.connections && far in s'.connections
            && s'.connections[near] == Connection(from, to.host, to.unique, Some(far), to.host)
            && s'.connections[far] == Connection(to.host, from, to.unique, Some(near), from)
            && (id != near && id != far ==> (id in s'.connections <==> id in s.connections))
            && (id in s.connections ==> id in s'.connections && s'.connections[id] == s.connections[id])
            && GetConnectionTo(s', link.vat, link.peer)
               == if !to.unique && link == Link(from, to.host) then Some(near)
                  else if !to.unique && link == Link(to.host, from) then Some(far)
                  else GetConnectionTo(s, link.vat, link.peer)
  {
    ConnectNewPair(s, from, to);
  }

  /** Asking again for a connection that is not unique gives the same one, and changes nothing. */
  lemma ConnectAgainIsSame(s: State, from: string, host: string)
    requires Inv(s) && from in s.vats && host in s.vats && from != host
    ensures var (s', r) := Connect(s, from, VatId(host, false));
            Connect(s', from, VatId(host, false)) == (s', r)
  {
    if MakesPair(s, from, VatId(host, false)) {
      NewPairExact(s, from, VatId(host, false), 0, Link(from, host));
    }
  }

  // ---- accepting --------------------------------------------------------------------------

  function QueueOf(s: State, vat: string): seq<nat> {
    if vat in s.acceptQueue then s.acceptQueue[vat] else []
  }

  /** The far end that a step makes at this vat. */
  function Made(s: State, op: Op, vat: string): seq<nat> {
    if op.DoConnect? && op.to.host == vat && MakesPair(s, op.from, op.to) then [s.next + 1] else []
  }

  /** The connection that a step hands to this vat. */
  function Taken(s: State, op: Op, vat: string): seq<nat> {
    if op.DoAccept? && op.vat == vat && Accept(s, vat).1.Some? then [Accept(s, vat).1.value] else []
  }

  function AllMade(s: State, ops: seq<Op>, vat: string): seq<nat>
    requires AllProper(s, ops)
    decreases |ops|
  {
    if ops == [] then [] else Made(s, ops[0], vat) + AllMade(Step(s, ops[0]), ops[1..], vat)
  }

  function AllTaken(s: State, ops: seq<Op>, vat: string): seq<nat>
    requires AllProper(s, ops)
    decreases |ops|
  {
    if ops == [] then [] else Taken(s, ops[0], vat) + AllTaken(Step(s, ops[0]), ops[1..], vat)
  }

  /** Only vats that are there have queues. */
  predicate QueuesOfVats(s: State) {
    s.acceptQueue.Keys <= s.vats
  }

  lemma StepKeepsOrder(s: State, op: Op, vat: string)
    requires Proper(s, op) && QueuesOfVats(s)
    ensures QueuesOfVats(Step(s, op))
    ensures QueueOf(s, vat) + Made(s, op, vat) == Taken(s, op, vat) + QueueOf(Step(s, op), vat)
  {
    if op.DoAccept? && Accept(s, vat).1.Some? {
      assert s.acceptQueue[vat] == [s.acceptQueue[vat][0]] + s.acceptQueue[vat][1..];
    }
  }

  lemma {:induction false} RunKeepsOrder(s: State, ops: seq<Op>, vat: string)
    requires AllProper(s, ops) && QueuesOfVats(s)
    ensures QueueOf(s, vat) + AllMade(s, ops, vat) == AllTaken(s, ops, vat) + QueueOf(Run(s, ops), vat)
    decreases |ops|
  {
    if ops == [] {
      assert QueueOf(s, vat) + [] == [] + QueueOf(s, vat);
    } else {
      var op, s', rest := ops[0], Step(s, ops[0]), ops[1..];
      StepKeepsOrder(s, op, vat);
      RunKeepsOrder(s', rest, vat);
      Regrouped(QueueOf(s, vat), Made(s, op, vat), Taken(s, op, vat), QueueOf(s', vat),
                AllMade(s', rest, vat), AllTaken(s', rest, vat), QueueOf(Run(s', rest), vat));
    }
  }

  lemma Regrouped(queue: seq<nat>, made: seq<nat>, taken: seq<nat>, queue': seq<nat>,
                  laterMade: seq<nat>, laterTaken: seq<nat>, end: seq<nat>)
    requires queue + made == taken + queue' && queue' + laterMade == laterTaken + end
    ensures queue + (made + laterMade) == taken + laterTaken + end
  {
    assert queue + (made + laterMade) == queue + made + laterMade;
    assert taken + queue' + laterMade == taken + (queue' + laterMade);
    assert taken + (laterTaken + end) == taken + laterTaken + end;
  }

  /**
   Over any run, a vat accepts the connections made to it from elsewhere in the order they were made,
   each one once; those not accepted yet are the ones waiting in its queue.
   */
  lemma AcceptedInOrder(ops: seq<Op>, vat: string)
    requires AllProper(EMPTY, ops)
    ensures AllMade(EMPTY, ops, vat) == AllTaken(EMPTY, ops, vat) + QueueOf(Run(EMPTY, ops), vat)
  {
    RunKeepsOrder(EMPTY, ops, vat);
    assert [] + AllMade(EMPTY, ops, vat) == AllMade(EMPTY, ops, vat);
  }

  /** Accepting yields the front of the queue, and nothing exactly if the queue is empty. */
  lemma AcceptExact(s: State, vat: string)
    ensures var (s', r) := Accept(s, vat);
            if QueueOf(s, vat) == [] then s' == s && r == None
            else r == Some(QueueOf(s, vat)[0])
                 && s' == s.(acceptQueue := s.acceptQueue[vat := QueueOf(s, vat)[1..]])
  {
  }

  // ---- destroying -------------------------------------------------------------------------

  /** The end is gone, its partner has none any more, its place in the index is free, and all else stays. */
  lemma DestroyExact(s: State, id: nat, other: nat, link: Link)
    requires Inv(s) && id in s.connections
    ensures var s', c := Destroy(s, id), s.connections[id];
            && id !in s'.connections
            && (other != id ==> (other in s'.connections <==> other in s.connections))
            && (other != id && other in s.connections ==>
                  s'.connections[other] == if c.partner == Some(other) then s.connections[other].(partner := None)
                                           else s.connections[other])
            && s'.next == s.next && s'.vats == s.vats && s'.acceptQueue == s.acceptQueue
            && GetConnectionTo(s', link.vat, link.peer)
               == if !c.unique && link == Link(c.vat, c.peer) then None else GetConnectionTo(s, link.vat, link.peer)
  {
    assert Paired(s, id);
  }

  lemma {:induction false} NeverComesBack(s: State, ops: seq<Op>, id: nat)
    requires Inv(s) && AllProper(s, ops) && id !in s.connections && id < s.next
    ensures id !in Run(s, ops).connections && Inv(Run(s, ops))
    decreases |ops|
  {
    if ops != [] {
      StepKeepsInv(s, ops[0]);
      if ops[0].DoDestroy? {
        DestroyExact(s, ops[0].id, id, Link("", ""));
      } else if ops[0].DoConnect? && MakesPair(s, ops[0].from, ops[0].to) {
        NewPairExact(s, ops[0].from, ops[0].to, id, Link("", ""));
      }
      NeverComesBack(Step(s, ops[0]), ops[1..], id);
    }
  }

  /** A destroyed connection is gone for good: it is never looked up, connected to or accepted again. */
  lemma DestroyedForGood(s: State, id: nat, ops: seq<Op>, from: string, to: VatId)
    requires Inv(s) && Proper(s, DoDestroy(id)) && AllProper(Destroy(s, id), ops)
    ensures var end := Run(Destroy(s, id), ops);
            && id !in end.connections && GetConnectionTo(end, from, to.host) != Some(id)
            && Connect(end, from, to).1 != Ok(Some(id)) && Accept(end, from).1 != Some(id)
  {
    StepKeepsInv(s, DoDestroy(id));
    NeverComesBack(Destroy(s, id), ops, id);
    var end := Run(Destroy(s, id), ops);
    NextOnlyGrows(Destroy(s, id), ops);
    if Link(from, to.host) in end.index { assert Indexed(end, Link(from, to.host)); }
    if from in end.acceptQueue { assert Queued(end, from); }
  }

  lemma {:induction false} NextOnlyGrows(s: State, ops: seq<Op>)
    requires AllProper(s, ops)
    ensures s.next <= Run(s, ops).next
    decreases |ops|
  {
    if ops != [] {
      NextOnlyGrows(Step(s, ops[0]), ops[1..]);
    }
  }

  /** A new vat has a name that was free and an empty queue; a taken name is refused. */
  lemma AddVatExact(s: State, name: string)
    ensures var (s', r) := AddVat(s, name);
            if name in s.vats then s' == s && r == Err(VatExists(name))
            else r == Ok(()) && s' == s.(vats := s.vats + {name}, acceptQueue := s.acceptQueue[name := []])
  {
  }
}

/**
 Vats in one process and the connections between them: each connection is one of a pair, and every
 vat keeps an index of its connections by peer.
 */
module VatNetwork {
  import opened Words

  datatype VatId = VatId(host: string, unique: bool)

  /** One end of a pair. `partner` goes when the other end is destroyed; its name stays. */
  datatype Connection = Connection(vat: string, peer: string, unique: bool, partner: Option<nat>, partnerName: string)

  /** A vat and one of its peers. */
  datatype Link = Link(vat: string, peer: string)

  datatype Error = UnknownVatHost(host: string) | VatExists(name: string)

  /** Connections go by number. The index of every vat is in `index`, keyed by vat and peer. */
  datatype State = State(
    vats: set<string>, connections: map<nat, Connection>, next: nat,
    index: map<Link, nat>, acceptQueue: map<string, seq<nat>>)

  const EMPTY := State({}, map[], 0, map[], map[])

  // ---- operations -------------------------------------------------------------------------

  function AddVat(s: State, name: string): (State, Result<(), Error>) {
    if name in s.vats then (s, Err(VatExists(name)))
    else (s.(vats := s.vats + {name}, acceptQueue := s.acceptQueue[name := []]), Ok(()))
  }

  /** A connection that is not unique takes the place in its vat's index. */
  function Construct(s: State, vat: string, peer: string, unique: bool): State {
    s.(connections := s.connections[s.next := Connection(vat, peer, unique, None, "")], next := s.next + 1,
       index := if unique then s.index else s.index[Link(vat, peer) := s.next])
  }

  function AttachBoth(s: State, a: nat, b: nat): State
    requires a in s.connections && b in s.connections && a != b
  {
    s.(connections := s.connections
      [a := s.connections[a].(partner := Some(b), partnerName := s.connections[b].vat)]
      [b := s.connections[b].(partner := Some(a), partnerName := s.connections[a].vat)])
  }

  /** Both ends at once; the far one is queued for its vat to accept. */
  function ConnectNew(s: State, from: string, to: VatId): State {
    var s1 := Construct(s, from, to.host, to.unique);
    var s2 := Construct(s1, to.host, from, to.unique);
    var s3 := AttachBoth(s2, s.next, s.next + 1);
    var queued := if to.host in s.acceptQueue then s.acceptQueue[to.host] else [];
    s3.(acceptQueue := s.acceptQueue[to.host := queued + [s.next + 1]])
  }

  /** `None` for a vat that would connect to itself. */
  function Connect(s: State, from: string, to: VatId): (State, Result<Option<nat>, Error>) {
    if to.host == from then (s, Ok(None))
    else if to.host !in s.vats then (s, Err(UnknownVatHost(to.host)))
    else if !to.unique && Link(from, to.host) in s.index then (s, Ok(Some(s.index[Link(from, to.host)])))
    else (ConnectNew(s, from, to), Ok(Some(s.next)))
  }

  /** What the destructor does once the last reference has gone. */
  function Destroy(s: State, id: nat): State
    requires id in s.connections
  {
    var c := s.connections[id];
    var left := s.connections - {id};
    s.(index := if c.unique then s.index else s.index - {Link(c.vat, c.peer)},
       connections := if c.partner.Some? && c.partner.value in left
                      then left[c.partner.value := left[c.partner.value].(partner := None)] else left)
  }

  /** The next connection made to the vat from elsewhere. */
  function Accept(s: State, vat: string): (State, Option<nat>) {
    if vat !in s.acceptQueue || s.acceptQueue[vat] == [] then (s, None)
    else (s.(acceptQueue := s.acceptQueue[vat := s.acceptQueue[vat][1..]]), Some(s.acceptQueue[vat][0]))
  }

  function GetConnectionTo(s: State, vat: string, peer: string): Option<nat> {
    if Link(vat, peer) in s.index then Some(s.index[Link(vat, peer)]) else None
  }

  datatype Op = DoAddVat(name: string) | DoConnect(from: string, to: VatId) | DoAccept(vat: string) | DoDestroy(id: nat)

  /** A connection that waits to be accepted is referenced by the queue, and not destroyed. */
  predicate Proper(s: State, op: Op) {
    match op
    case DoAddVat(_) => true
    case DoConnect(from, _) => from in s.vats
    case DoAccept(vat) => true
    case DoDestroy(id) =>
      id in s.connections && forall vat | vat in s.acceptQueue :: id !in s.acceptQueue[vat]
  }

  function Step(s: State, op: Op): State
    requires Proper(s, op)
  {
    match op
    case DoAddVat(name) => AddVat(s, name).0
    case DoConnect(from, to) => Connect(s, from, to).0
    case DoAccept(vat) => Accept(s, vat).0
    case DoDestroy(id) => Destroy(s, id)
  }

  predicate AllProper(s: State, ops: seq<Op>)
    decreases |ops|
  {
    ops != [] ==> Proper(s, ops[0]) && AllProper(Step(s, ops[0]), ops[1..])
  }

  function Run(s: State, ops: seq<Op>): State
    requires AllProper(s, ops)
    decreases |ops|
  {
    if ops == [] then s else Run(Step(s, ops[0]), ops[1..])
  }

  // ---- pairs and index --------------------------------------------------------------------

  /** Partner links go both ways, and each end knows the other's vat by name. */
  ghost predicate Paired(s: State, id: nat)
    requires id in s.connections
  {
    var c := s.connections[id];
    && c.partnerName == c.peer && c.vat != c.peer && c.vat in s.vats && c.peer in s.vats
    && (c.partner.Some? ==>
          var p := c.partner.value;
          && p != id && p in s.connections && s.connections[p].partner == Some(id)
          && c.partnerName == s.connections[p].vat && s.connections[p].partnerName == c.vat
          && s.connections[p].unique == c.unique)
  }

  ghost predicate Indexed(s: State, link: Link)
    requires link in s.index
  {
    && s.index[link] in s.connections
    && var c := s.connections[s.index[link]]; c.vat == link.vat && c.peer == link.peer && !c.unique
  }

  /** What a vat has yet to accept are live connections of its own. */
  ghost predicate Queued(s: State, vat: string)
    requires vat in s.acceptQueue
  {
    forall id | id in s.acceptQueue[vat] :: id in s.connections && s.connections[id].vat == vat
  }

  ghost predicate Inv(s: State) {
    && (forall vat | vat in s.acceptQueue :: Queued(s, vat))
    && (forall id | id in s.connections :: Paired(s, id))
    && (forall link | link in s.index :: Indexed(s, link))
    && (forall id | id in s.connections :: id < s.next)
  }

  /** The two ends of a new pair. */
  lemma ConnectNewPair(s: State, from: string, to: VatId)
    ensures ConnectNew(s, from, to).connections == s.connections
      [s.next := Connection(from, to.host, to.unique, Some(s.next + 1), to.host)]
      [s.next + 1 := Connection(to.host, from, to.unique, Some(s.next), from)]
    ensures ConnectNew(s, from, to).next == s.next + 2 && ConnectNew(s, from, to).vats == s.vats
  {
  }

  lemma ConnectNewKeepsInv(s: State, from: string, to: VatId)
    requires Inv(s) && from in s.vats && to.host in s.vats && to.host != from
    ensures Inv(ConnectNew(s, from, to))
  {
    var s' := ConnectNew(s, from, to);
    ConnectNewPair(s, from, to);
    forall id | id in s'.connections
      ensures Paired(s', id)
    {
      if id != s.next && id != s.next + 1 { assert Paired(s, id); }
    }
    forall link | link in s'.index
      ensures Indexed(s', link)
    {
      if link in s.index { assert Indexed(s, link); }
    }
    ConnectNewQueues(s, from, to);
  }

  lemma ConnectNewQueues(s: State, from: string, to: VatId)
    requires Inv(s) && from in s.vats && to.host in s.vats && to.host != from
    ensures var s' := ConnectNew(s, from, to); forall vat | vat in s'.acceptQueue :: Queued(s', vat)
  {
    var s' := ConnectNew(s, from, to);
    ConnectNewPair(s, from, to);
    forall vat | vat in s'.acceptQueue
      ensures Queued(s', vat)
    {
      if vat in s.acceptQueue { assert Queued(s, vat); }
    }
  }

  lemma DestroyKeepsInv(s: State, id: nat)
    requires Inv(s) && Proper(s, DoDestroy(id))
    ensures Inv(Destroy(s, id))
  {
    var s' := Destroy(s, id);
    assert Paired(s, id);
    forall other | other in s'.connections
      ensures Paired(s', other)
    {
      assert Paired(s, other);
    }
    forall link | link in s'.index
      ensures Indexed(s', link)
    {
      assert Indexed(s, link);
    }
    forall vat | vat in s'.acceptQueue
      ensures Queued(s', vat)
    {
      assert Queued(s, vat);
    }
  }

  lemma SameConnectionsKeepInv(s: State, s': State)
    requires Inv(s) && s' == s.(vats := s'.vats, acceptQueue := s'.acceptQueue) && s.vats <= s'.vats
    requires forall vat | vat in s'.acceptQueue :: Queued(s', vat)
    ensures Inv(s')
  {
    forall id | id in s'.connections ensures Paired(s', id) { assert Paired(s, id); }
    forall link | link in s'.index ensures Indexed(s', link) { assert Indexed(s, link); }
  }

  lemma StepKeepsInv(s: State, op: Op)
    requires Inv(s) && Proper(s, op)
    ensures Inv(Step(s, op))
  {
    match op
    case DoAddVat(name) =>
      var s' := AddVat(s, name).0;
      forall vat | vat in s'.acceptQueue ensures Queued(s', vat) { if vat in s.acceptQueue { assert Queued(s, vat); } }
      SameConnectionsKeepInv(s, s');
    case DoConnect(from, to) =>
      if to.host != from && to.host in s.vats && (to.unique || Link(from, to.host) !in s.index) {
        ConnectNewKeepsInv(s, from, to);
      }
    case DoAccept(_) =>
      var s' := Accept(s, op.vat).0;
      forall vat | vat in s'.acceptQueue ensures Queued(s', vat) {
        assert Queued(s, vat);
        assert forall id | id in s'.acceptQueue[vat] :: id in s.acceptQueue[vat];
      }
      SameConnectionsKeepInv(s, s');
    case DoDestroy(id) => DestroyKeepsInv(s, id);
  }

  lemma {:induction false} RunKeepsInv(s: State, ops: seq<Op>)
    requires Inv(s) && AllProper(s, ops)
    ensures Inv(Run(s, ops))
    decreases |ops|
  {
    if ops != [] {
      StepKeepsInv(s, ops[0]);
      RunKeepsInv(Step(s, ops[0]), ops[1..]);
    }
  }

  /** A live connection of `vat` to `peer` that is not unique. */
  predicate Links(s: State, id: nat, vat: string, peer: string) {
    && id in s.connections
    && s.connections[id].vat == vat && s.connections[id].peer == peer && !s.connections[id].unique
  }

  /**
   Over any interleaving of connects and destructions, partner links are symmetric with matching
   names, and looking a connection up never yields one that is destroyed, unique, or of other vats.
   Nor does accepting yield one that is destroyed or of another vat.
   */
  lemma LookupsNeverDangle(ops: seq<Op>, vat: string, peer: string)
    requires AllProper(EMPTY, ops)
    ensures var s := Run(EMPTY, ops);
            && (forall id | id in s.connections :: Paired(s, id))
            && (GetConnectionTo(s, vat, peer).Some? ==> Links(s, GetConnectionTo(s, vat, peer).value, vat, peer))
            && (Accept(s, vat).1.Some? ==>
                  Accept(s, vat).1.value in s.connections && s.connections[Accept(s, vat).1.value].vat == vat)
  {
    RunKeepsInv(EMPTY, ops);
    var s := Run(EMPTY, ops);
    if Link(vat, peer) in s.index { assert Indexed(s, Link(vat, peer)); }
  }

  /** Connecting to a known vat, whatever was there before, ends in a live connection to it. */
  lemma ConnectReaches(s: State, from: string, host: string)
    requires Inv(s) && from in s.vats && host in s.vats && from != host
    ensures var (s', r) := Connect(s, from, VatId(host, false));
            r.Ok? && r.value.Some? && Links(s', r.value.value, from, host)
  {
    if Link(from, host) in s.index { assert Indexed(s, Link(from, host)); }
  }

  // ---- what the index can miss ------------------------------------------------------------

  /** Every live connection that is not unique can be found. */
  ghost predicate Complete(s: State) {
    forall id | id in s.connections && !s.connections[id].unique ::
      GetConnectionTo(s, s.connections[id].vat, s.connections[id].peer) == Some(id)
  }

  lemma DestroyKeepsComplete(s: State, id: nat)
    requires Inv(s) && Complete(s) && id in s.connections
    ensures Complete(Destroy(s, id))
  {
    var s' := Destroy(s, id);
    forall other | other in s'.connections && !s'.connections[other].unique
      ensures GetConnectionTo(s', s'.connections[other].vat, s'.connections[other].peer) == Some(other)
    {
      assert GetConnectionTo(s, s.connections[other].vat, s.connections[other].peer) == Some(other);
    }
  }

  /**
   A connect that makes a new pair loses track of an old connection exactly if the pair is not
   unique and the far vat still has a connection back, one whose other end is gone.
   */
  lemma ConnectKeepsCompleteIff(s: State, from: string, to: VatId)
    requires Inv(s) && Complete(s) && from in s.vats && to.host in s.vats && to.host != from
    requires to.unique || Link(from, to.host) !in s.index
    ensures Complete(Connect(s, from, to).0) <==> to.unique || Link(to.host, from) !in s.index
  {
    var s', back := ConnectNew(s, from, to), Link(to.host, from);
    if to.unique || back !in s.index {
      forall id | id in s'.connections && !s'.connections[id].unique
        ensures GetConnectionTo(s', s'.connections[id].vat, s'.connections[id].peer) == Some(id)
      {
        if id < s.next {
          assert GetConnectionTo(s, s.connections[id].vat, s.connections[id].peer) == Some(id);
        }
      }
    } else {
      assert Indexed(s, back);
      var lost := s.index[back];
      assert s'.connections[lost] == s.connections[lost] && s'.index[back] == s.next + 1;
    }
  }

  /** Vats `a` and `b`, connected once, with the near end destroyed again. */
  function HalfDestroyed(a: string, b: string): State {
    Destroy(ConnectNew(AddVat(AddVat(EMPTY, a).0, b).0, a, VatId(b, false)), 0)
  }

  lemma HalfDestroyedIs(a: string, b: string)
    requires a != b
    ensures var s := HalfDestroyed(a, b);
            && s.connections == map[1 := Connection(b, a, false, None, a)] && s.next == 2
            && s.index == map[Link(b, a) := 1] && s.vats == {a, b}
  {
    var s2 := AddVat(AddVat(EMPTY, a).0, b).0;
    var s3 := ConnectNew(s2, a, VatId(b, false));
    assert s3.connections == map[0 := Connection(a, b, false, Some(1), b), 1 := Connection(b, a, false, Some(0), a)];
    assert s3.connections - {0} == map[1 := Connection(b, a, false, Some(0), a)];
    assert s3.index == map[Link(a, b) := 0, Link(b, a) := 1];
  }

  lemma ReachHalfDestroyed(a: string, b: string, rest: seq<Op>)
    requires a != b && AllProper(HalfDestroyed(a, b), rest)
    ensures var ops := [DoAddVat(a), DoAddVat(b), DoConnect(a, VatId(b, false)), DoDestroy(0)] + rest;
            AllProper(EMPTY, ops) && Run(EMPTY, ops) == Run(HalfDestroyed(a, b), rest)
  {
    var s1 := AddVat(EMPTY, a).0;
    var s2 := AddVat(s1, b).0;
    var connect := DoConnect(a, VatId(b, false));
    FirstStep(Step(s2, connect), DoDestroy(0), rest);
    FirstStep(s2, connect, [DoDestroy(0)] + rest);
    FirstStep(s1, DoAddVat(b), [connect] + ([DoDestroy(0)] + rest));
    FirstStep(EMPTY, DoAddVat(a), [DoAddVat(b)] + ([connect] + ([DoDestroy(0)] + rest)));
    assert [DoAddVat(a)] + ([DoAddVat(b)] + ([connect] + ([DoDestroy(0)] + rest)))
           == [DoAddVat(a), DoAddVat(b), connect, DoDestroy(0)] + rest;
  }

  lemma OldEndIsLost(s: State, a: string, b: string)
    requires a != b && Inv(s) && s.vats == {a, b}
    requires s.connections == map[1 := Connection(b, a, false, None, a)] && s.index == map[Link(b, a) := 1]
    ensures var again := [DoConnect(a, VatId(b, false))];
            AllProper(s, again) && 1 in Run(s, again).connections && !Complete(Run(s, again))
  {
    var to := VatId(b, false);
    assert Complete(s);
    ConnectKeepsCompleteIff(s, a, to);
    FirstStep(s, DoConnect(a, to), []);
  }

  /** It does happen: connect, destroy the near end, connect again; the old far end lives on unindexed. */
  lemma IndexMissesAnOldEnd(a: string, b: string)
    requires a != b
    ensures var connect := DoConnect(a, VatId(b, false));
            var ops := [DoAddVat(a), DoAddVat(b), connect, DoDestroy(0), connect];
            AllProper(EMPTY, ops) && 1 in Run(EMPTY, ops).connections && !Complete(Run(EMPTY, ops))
  {
    var connect := DoConnect(a, VatId(b, false));
    HalfDestroyedIs(a, b);
    OldEndIsLost(HalfDestroyed(a, b), a, b);
    ReachHalfDestroyed(a, b, [connect]);
    assert [DoAddVat(a), DoAddVat(b), connect, DoDestroy(0)] + [connect]
           == [DoAddVat(a), DoAddVat(b), connect, DoDestroy(0), connect];
  }

  lemma FirstStep(s: State, op: Op, rest: seq<Op>)
    requires Proper(s, op) && AllProper(Step(s, op), rest)
    ensures AllProper(s, [op] + rest) && Run(s, [op] + rest) == Run(Step(s, op), rest)
  {
    assert ([op] + rest)[1..] == rest;
  }

  // ---- the code ---------------------------------------------------------------------------

  class GenericVatNetwork {
    var vats: set<string>
    var connections: map<nat, Connection>
    var nextConnection: nat
    var index: map<Link, nat>
    var acceptQueue: map<string, seq<nat>>

    ghost function Abs(): State
      reads this
    {
      State(vats, connections, nextConnection, index, acceptQueue)
    }

    ghost predicate Valid()
      reads this
    {
      Inv(Abs())
    }

    constructor ()
      ensures Valid() && Abs() == EMPTY
    {
      vats, connections, nextConnection, index, acceptQueue := {}, map[], 0, map[], map[];
    }

    method Add(name: string) returns (r: Result<(), Error>)
      requires Valid()
      modifies this
      ensures Valid() && (Abs(), r) == AddVat(old(Abs()), name)
    {
      StepKeepsInv(Abs(), DoAddVat(name));
      if name in vats {
        return Err(VatExists(name));
      }
      vats := vats + {name};
      acceptQueue := acceptQueue[name := []];
      r := Ok(());
    }

    method ConnectionImpl(vat: string, peer: string, unique: bool) returns (id: nat)
      modifies this`connections, this`nextConnection, this`index
      ensures Abs() == Construct(old(Abs()), vat, peer, unique) && id == old(nextConnection)
    {
      id := nextConnection;
      nextConnection := nextConnection + 1;
      connections := connections[id := Connection(vat, peer, unique, None, "")];
      if !unique {
        index := index[Link(vat, peer) := id];
      }
    }

    method Attach(id: nat, other: nat)
      requires id in connections && other in connections && id != other
      requires connections[id].partner.None? && connections[other].partner.None?
      modifies this`connections
      ensures Abs() == AttachBoth(old(Abs()), id, other)
    {
      var mine, theirs := connections[id], connections[other];
      connections := connections[id := mine.(partner := Some(other), partnerName := theirs.vat)];
      connections := connections[other := theirs.(partner := Some(id), partnerName := mine.vat)];
    }

    /** Both ends are new, so the demands of `Attach` are met. */
    method MakePair(from: string, to: VatId) returns (near: nat)
      modifies this
      ensures Abs() == ConnectNew(old(Abs()), from, to) && near == old(nextConnection)
    {
      near := ConnectionImpl(from, to.host, to.unique);
      var far := ConnectionImpl(to.host, from, to.unique);
      Attach(near, far);
      acceptQueue := acceptQueue[to.host := (if to.host in acceptQueue then acceptQueue[to.host] else []) + [far]];
    }

    /** A vat of the network connects. */
    method ConnectByVatId(from: string, to: VatId) returns (r: Result<Option<nat>, Error>)
      requires Valid() && from in vats
      modifies this
      ensures Valid() && (Abs(), r) == Connect(old(Abs()), from, to)
    {
      StepKeepsInv(Abs(), DoConnect(from, to));
      if to.host == from {
        return Ok(None);
      }
      if to.host !in vats {
        return Err(UnknownVatHost(to.host));
      }
      if !to.unique {
        if Link(from, to.host) in index {
          return Ok(Some(index[Link(from, to.host)]));
        }
      }
      var near := MakePair(from, to);
      r := Ok(Some(near));
    }

    /** The far end of the oldest connection not yet accepted; the code waits while there is none. */
    method AcceptConnection(vat: string) returns (id: Option<nat>)
      requires Valid()
      modifies this`acceptQueue
      ensures Valid() && (Abs(), id) == Accept(old(Abs()), vat)
    {
      StepKeepsInv(Abs(), DoAccept(vat));
      if vat !in acceptQueue || acceptQueue[vat] == [] {
        return None;
      }
      id := Some(acceptQueue[vat][0]);
      acceptQueue := acceptQueue[vat := acceptQueue[vat][1..]];
    }

    method DestroyConnection(id: nat)
      requires Valid() && Proper(Abs(), DoDestroy(id))
      modifies this`connections, this`index
      ensures Valid() && Abs() == Destroy(old(Abs()), id)
    {
      DestroyKeepsInv(Abs(), id);
      var c := connections[id];
      if !c.unique {
        index := index - {Link(c.vat, c.peer)};
      }
      connections := connections - {id};
      if c.partner.Some? && c.partner.value in connections {
        connections := connections[c.partner.value := connections[c.partner.value].(partner := None)];
      }
    }
  }
}

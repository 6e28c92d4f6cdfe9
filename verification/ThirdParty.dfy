/**
 Three-party handoff: introductions by token, forwarded from vat to vat along connections.
 */
module ThirdParty {
  import opened Words
  import opened VatNetwork

  const U64: int := 0x1_0000_0000_0000_0000

  /** `sentBy` names the vat that sent the contact on its last hop. */
  datatype Contact = Contact(path: VatId, token: nat, sentBy: string)

  datatype HandoffError = ForwardingDisabled | WrongSender | NotConnected(error: Error)

  datatype Network = Network(
    state: State, tokenCounter: nat, forwardingEnabled: bool, forwardCount: nat, deniedForwardCount: nat)

  /** A 64-bit counter. */
  function Bump(counter: nat): nat {
    (counter + 1) % U64
  }

  // ---- operations -------------------------------------------------------------------------

  /** The contact leads to the peer of `other`; it is for the peer of `this`. */
  function IntroduceTo(n: Network, this_: nat, other: nat): (Network, Contact)
    requires this_ in n.state.connections && other in n.state.connections
  {
    var token := Bump(n.tokenCounter);
    (n.(tokenCounter := token),
     Contact(VatId(n.state.connections[other].partnerName, false), token, n.state.connections[this_].vat))
  }

  function CanForward(n: Network): (Network, bool) {
    (if n.forwardingEnabled then n else n.(deniedForwardCount := Bump(n.deniedForwardCount)), n.forwardingEnabled)
  }

  /** `this_` is the connection the contact came in by. */
  function Forward(n: Network, this_: nat, contact: Contact): (Network, Result<Contact, HandoffError>)
    requires this_ in n.state.connections
  {
    if !n.forwardingEnabled then (n, Err(ForwardingDisabled))
    else if contact.sentBy != n.state.connections[this_].partnerName then (n, Err(WrongSender))
    else (n.(forwardCount := Bump(n.forwardCount)), Ok(contact.(sentBy := n.state.connections[this_].vat)))
  }

  /** The token to complete with, and the connection to the host the contact leads to. */
  function Connected(n: Network, this_: nat, to: VatId, token: nat): (Network, Result<(nat, Option<nat>), HandoffError>)
    requires this_ in n.state.connections
  {
    var (state, r) := Connect(n.state, n.state.connections[this_].vat, to);
    (n.(state := state), if r.Err? then Err(NotConnected(r.error)) else Ok((token, r.value)))
  }

  /** The contact has to come from where its last hop says. */
  function ConnectToIntroduced(n: Network, this_: nat, contact: Contact)
    : (Network, Result<(nat, Option<nat>), HandoffError>)
    requires this_ in n.state.connections
  {
    if contact.sentBy != n.state.connections[this_].partnerName then (n, Err(WrongSender))
    else Connected(n, this_, contact.path, contact.token)
  }

  // ---- forwarding -------------------------------------------------------------------------

  /** Connections to send over, one after the other: each leaves the vat where the one before arrives. */
  ghost predicate Route(s: State, hops: seq<nat>) {
    && hops != []
    && (forall i | 0 <= i < |hops| :: hops[i] in s.connections && s.connections[hops[i]].partner.Some?
                                      && s.connections[hops[i]].partner.value in s.connections)
    && (forall i | 0 < i < |hops| :: s.connections[hops[i]].vat == s.connections[Far(s, hops[i - 1])].vat)
  }

  function Far(s: State, id: nat): nat
    requires id in s.connections && s.connections[id].partner.Some?
  {
    s.connections[id].partner.value
  }

  /**
   A contact sent over the first hop and forwarded over the others, each vat asking first if it may.
   The network's switch can be thrown at any time: `allowed` is what it is at each forward.
   */
  ghost function ForwardAlong(n: Network, hops: seq<nat>, contact: Contact, allowed: seq<bool>)
    : (Network, Result<Contact, HandoffError>)
    requires Route(n.state, hops) && |allowed| == |hops| - 1
    decreases |hops|
  {
    if |hops| == 1 then (n, Ok(contact))
    else
      var (n1, may) := CanForward(n.(forwardingEnabled := allowed[0]));
      if !may then (n1, Err(ForwardingDisabled))
      else
        var (n2, r) := Forward(n1, Far(n.state, hops[0]), contact);
        if r.Err? then (n2, r) else ForwardAlong(n2, hops[1..], r.value, allowed[1..])
  }

  /** The forwards made before the first one that is not allowed: all of them if every one is. */
  ghost predicate FirstDenied(allowed: seq<bool>, k: nat) {
    && k <= |allowed| && (forall i | 0 <= i < k :: allowed[i])
    && (k < |allowed| ==> !allowed[k])
  }

  function Plus(counter: nat, k: nat): nat {
    if k == 0 then counter else (counter + k) % U64
  }

  lemma RouteGoesOn(s: State, hops: seq<nat>)
    requires Route(s, hops) && |hops| > 1
    ensures Route(s, hops[1..])
  {
  }

  lemma {:induction false} ForwardAlongExact(n: Network, hops: seq<nat>, contact: Contact, allowed: seq<bool>, k: nat)
    requires Inv(n.state) && Route(n.state, hops) && |allowed| == |hops| - 1 && FirstDenied(allowed, k)
    requires contact.sentBy == n.state.connections[hops[0]].vat
    ensures var (n', r) := ForwardAlong(n, hops, contact, allowed);
            && r == (if k < |allowed| then Err(ForwardingDisabled)
                     else Ok(contact.(sentBy := n.state.connections[hops[|hops| - 1]].vat)))
            && n' == n.(forwardingEnabled := n'.forwardingEnabled, forwardCount := Plus(n.forwardCount, k),
                        deniedForwardCount :=
                          if k < |allowed| then Bump(n.deniedForwardCount) else n.deniedForwardCount)
    decreases |hops|
  {
    if k > 0 {
      var here := hops[0];
      assert Paired(n.state, here) && Paired(n.state, Far(n.state, here));
      var contact' := contact.(sentBy := n.state.connections[hops[1]].vat);
      var n' := n.(forwardingEnabled := true, forwardCount := Bump(n.forwardCount));
      RouteGoesOn(n.state, hops);
      assert FirstDenied(allowed[1..], k - 1);
      ForwardAlongExact(n', hops[1..], contact', allowed[1..], k - 1);
      Bumps(n.forwardCount, k - 1);
    }
  }

  lemma Bumps(counter: nat, more: nat)
    ensures Plus(Bump(counter), more) == Plus(counter, more + 1)
  {
    var q := (counter + 1) / U64;
    assert counter + 1 == q * U64 + Bump(counter);
    ModPlus(Bump(counter) + more, q);
  }

  lemma {:induction false} ModPlus(x: nat, q: nat)
    ensures (x + q * U64) % U64 == x % U64
  {
    if q > 0 {
      ModPlus(x, q - 1);
    }
  }

  /** The introduction, and the contact's way over the hops. */
  ghost function SendContact(n: Network, other: nat, hops: seq<nat>, allowed: seq<bool>)
    : (Network, Result<Contact, HandoffError>)
    requires Route(n.state, hops) && |allowed| == |hops| - 1 && other in n.state.connections
  {
    var (n1, contact) := IntroduceTo(n, hops[0], other);
    ForwardAlong(n1, hops, contact, allowed)
  }

  /**
   A contact forwarded over any number of attached connections passes every sender check. It arrives,
   with the path and the token it was made with, if and only if forwarding is enabled at each vat on
   the way; otherwise the first vat at which it is not refuses. Every vat before that counts one
   forward, and that one a denied one.
   */
  lemma ForwardedContactArrivesIff(n: Network, other: nat, hops: seq<nat>, allowed: seq<bool>, k: nat)
    requires Inv(n.state) && Route(n.state, hops) && other in n.state.connections
    requires |allowed| == |hops| - 1 && FirstDenied(allowed, k)
    ensures var (n', arrived) := SendContact(n, other, hops, allowed);
            && (arrived.Ok? <==> false !in allowed)
            && arrived == (if k < |allowed| then Err(ForwardingDisabled)
                           else Ok(Contact(VatId(n.state.connections[other].peer, false), Bump(n.tokenCounter),
                                           n.state.connections[hops[|hops| - 1]].vat)))
            && n'.state == n.state && n'.tokenCounter == Bump(n.tokenCounter)
            && n'.forwardCount == Plus(n.forwardCount, k)
            && n'.deniedForwardCount == if k < |allowed| then Bump(n.deniedForwardCount) else n.deniedForwardCount
  {
    var (n1, contact) := IntroduceTo(n, hops[0], other);
    assert contact.path.host == n.state.connections[other].peer by {
      assert Paired(n.state, other);
    }
    ForwardAlongExact(n1, hops, contact, allowed, k);
    assert k < |allowed| ==> allowed[k] in allowed;
  }

  /** A contact that comes from its sender leads to a live connection to its host, unless that is here. */
  lemma ContactReachesHost(n: Network, end: nat, contact: Contact)
    requires Inv(n.state) && end in n.state.connections && contact.path.host in n.state.vats && !contact.path.unique
    requires contact.sentBy == n.state.connections[end].partnerName
    ensures var here := n.state.connections[end].vat;
            var (n', r) := ConnectToIntroduced(n, end, contact);
            && r.Ok? && r.value.0 == contact.token
            && (r.value.1.None? <==> contact.path.host == here)
            && (r.value.1.Some? ==> Links(n'.state, r.value.1.value, here, contact.path.host))
  {
    var here := n.state.connections[end].vat;
    assert Paired(n.state, end);
    if contact.path.host != here {
      ConnectReaches(n.state, here, contact.path.host);
      assert contact.path == VatId(contact.path.host, false);
    }
  }

  /** So the last vat, however far it is, gets connected to the peer of `other`, with the token to complete. */
  lemma ForwardedContactConnects(n: Network, other: nat, hops: seq<nat>, allowed: seq<bool>, end: nat, n': Network,
                                 contact: Contact)
    requires Inv(n.state) && Route(n.state, hops) && other in n.state.connections
    requires |allowed| == |hops| - 1 && end == Far(n.state, hops[|hops| - 1])
    requires SendContact(n, other, hops, allowed) == (n', Ok(contact))
    ensures end in n'.state.connections
    ensures var here, host := n.state.connections[end].vat, n.state.connections[other].peer;
            var (n2, connected) := ConnectToIntroduced(n', end, contact);
            && connected.Ok? && connected.value.0 == Bump(n.tokenCounter)
            && (connected.value.1.None? <==> host == here)
            && (connected.value.1.Some? ==> Links(n2.state, connected.value.1.value, here, host))
  {
    var k := FindDenied(allowed, 0);
    ForwardedContactArrivesIff(n, other, hops, allowed, k);
    assert n'.state == n.state && contact.sentBy == n.state.connections[hops[|hops| - 1]].vat;
    ArrivesFrom(n.state, hops[|hops| - 1]);
    assert Paired(n.state, other);
    ContactReachesHost(n', end, contact);
  }

  lemma {:induction false} FindDenied(allowed: seq<bool>, from: nat) returns (k: nat)
    requires from <= |allowed| && forall i | 0 <= i < from :: allowed[i]
    ensures FirstDenied(allowed, k)
    decreases |allowed| - from
  {
    if from == |allowed| || !allowed[from] {
      k := from;
    } else {
      k := FindDenied(allowed, from + 1);
    }
  }

  /** What comes in by a connection was sent by the vat that the connection takes for its partner. */
  lemma ArrivesFrom(s: State, id: nat)
    requires Inv(s) && id in s.connections && s.connections[id].partner.Some?
    ensures Far(s, id) in s.connections && s.connections[Far(s, id)].partnerName == s.connections[id].vat
  {
    assert Paired(s, id);
  }

  // ---- contacts from elsewhere -------------------------------------------------------------

  /**
   A contact passes on exactly if forwarding is enabled and it comes from the vat it was sent by; then
   it is sent by the forwarding vat, path and token unchanged, and one forward is counted.
   */
  lemma ForwardExact(n: Network, end: nat, contact: Contact)
    requires Inv(n.state) && end in n.state.connections
    ensures var (n', r) := Forward(n, end, contact); var c := n.state.connections[end];
            if n.forwardingEnabled && contact.sentBy == c.peer then
              r == Ok(Contact(contact.path, contact.token, c.vat))
              && n' == n.(forwardCount := (n.forwardCount + 1) % U64)
            else n' == n && r == Err(if n.forwardingEnabled then WrongSender else ForwardingDisabled)
  {
    assert Paired(n.state, end);
  }

  /** Only the vat a contact was sent by can introduce; for any other nothing changes. */
  lemma ConnectToIntroducedExact(n: Network, end: nat, contact: Contact)
    requires Inv(n.state) && end in n.state.connections
    ensures var (n', r) := ConnectToIntroduced(n, end, contact); var c := n.state.connections[end];
            if contact.sentBy != c.peer then n' == n && r == Err(WrongSender)
            else
              var (state, connected) := Connect(n.state, c.vat, contact.path);
              && n' == n.(state := state)
              && r == if connected.Err? then Err(NotConnected(connected.error))
                      else Ok((contact.token, connected.value))
  {
    assert Paired(n.state, end);
  }

  /** A denial is counted, a permission is not. */
  lemma CanForwardExact(n: Network)
    ensures CanForward(n)
            == if n.forwardingEnabled then (n, true)
               else (n.(deniedForwardCount := (n.deniedForwardCount + 1) % U64), false)
  {
  }

  // ---- tokens -----------------------------------------------------------------------------

  /** An introduction counts the token on and hands it to both sides: the contact leads to the peer of `other`. */
  lemma IntroduceExact(n: Network, this_: nat, other: nat)
    requires Inv(n.state) && this_ in n.state.connections && other in n.state.connections
    ensures var (n', contact) := IntroduceTo(n, this_, other);
            && n' == n.(tokenCounter := (n.tokenCounter + 1) % U64)
            && contact == Contact(VatId(n.state.connections[other].peer, false), n'.tokenCounter,
                                  n.state.connections[this_].vat)
  {
    assert Paired(n.state, other);
  }

  predicate Known(n: Network, pairs: seq<(nat, nat)>) {
    forall pair | pair in pairs :: pair.0 in n.state.connections && pair.1 in n.state.connections
  }

  /** The tokens of introductions made one after the other. */
  function Introductions(n: Network, pairs: seq<(nat, nat)>): (tokens: seq<nat>)
    requires Known(n, pairs)
    ensures |tokens| == |pairs|
    decreases |pairs|
  {
    if pairs == [] then []
    else
      var (n', contact) := IntroduceTo(n, pairs[0].0, pairs[0].1);
      [contact.token] + Introductions(n', pairs[1..])
  }

  lemma {:induction false} IntroductionTokens(n: Network, pairs: seq<(nat, nat)>, i: nat)
    requires Known(n, pairs) && i < |pairs|
    ensures Introductions(n, pairs)[i] == Plus(n.tokenCounter, i + 1)
    decreases |pairs|
  {
    if i > 0 {
      IntroductionTokens(IntroduceTo(n, pairs[0].0, pairs[0].1).0, pairs[1..], i - 1);
      Bumps(n.tokenCounter, i);
    }
  }

  /**
   Of any introductions made, for whatever ends, two share a token exactly if a multiple of 2^64 lies
   between them.
   */
  lemma TokensDiffer(n: Network, pairs: seq<(nat, nat)>, i: nat, j: nat)
    requires Known(n, pairs) && i < j < |pairs|
    ensures Introductions(n, pairs)[i] == Introductions(n, pairs)[j] <==> (j - i) % U64 == 0
  {
    IntroductionTokens(n, pairs, i);
    IntroductionTokens(n, pairs, j);
    SameResidue(n.tokenCounter + i + 1, j - i);
  }

  lemma SameResidue(x: nat, d: nat)
    ensures x % U64 == (x + d) % U64 <==> d % U64 == 0
  {
    var r, e := x % U64, d % U64;
    assert x + d == r + e + (x / U64 + d / U64) * U64;
    ModPlus(r + e, x / U64 + d / U64);
    if r + e >= U64 {
      ModPlus(r + e - U64, 1);
    }
  }

  // ---- the code ---------------------------------------------------------------------------

  class ThirdPartyHandoff {
    const network: GenericVatNetwork
    var tokenCounter: nat
    var forwardingEnabled: bool
    var forwardCount: nat
    var deniedForwardCount: nat

    ghost function Abs(): Network
      reads this, network
    {
      Network(network.Abs(), tokenCounter, forwardingEnabled, forwardCount, deniedForwardCount)
    }

    ghost predicate Valid()
      reads this, network
    {
      network.Valid() && tokenCounter < U64 && forwardCount < U64 && deniedForwardCount < U64
    }

    constructor (network: GenericVatNetwork)
      requires network.Valid()
      ensures Valid() && this.network == network && Abs() == Network(network.Abs(), 0, false, 0, 0)
    {
      this.network := network;
      tokenCounter, forwardingEnabled, forwardCount, deniedForwardCount := 0, false, 0, 0;
    }

    method SetForwardingEnabled(enabled: bool)
      requires Valid()
      modifies this`forwardingEnabled
      ensures Valid() && Abs() == old(Abs()).(forwardingEnabled := enabled)
    {
      forwardingEnabled := enabled;
    }

    method ResetForwardingStats()
      requires Valid()
      modifies this`forwardCount, this`deniedForwardCount
      ensures Valid() && Abs() == old(Abs()).(forwardCount := 0, deniedForwardCount := 0)
    {
      forwardCount := 0;
      deniedForwardCount := 0;
    }

    /** The contact is for the peer of `this_`; the token is for the peer of `other`, the host, to wait on. */
    method Introduce(this_: nat, other: nat) returns (contact: Contact, awaitToken: nat)
      requires Valid() && this_ in network.connections && other in network.connections
      modifies this`tokenCounter
      ensures Valid() && (Abs(), contact) == IntroduceTo(old(Abs()), this_, other) && awaitToken == contact.token
    {
      tokenCounter := (tokenCounter + 1) % U64;
      awaitToken := tokenCounter;
      var path := VatId(network.connections[other].partnerName, false);
      contact := Contact(path, awaitToken, network.connections[this_].vat);
    }

    method CanForwardThirdPartyToContact() returns (may: bool)
      requires Valid()
      modifies this`deniedForwardCount
      ensures Valid() && (Abs(), may) == CanForward(old(Abs()))
    {
      if !forwardingEnabled {
        deniedForwardCount := (deniedForwardCount + 1) % U64;
      }
      may := forwardingEnabled;
    }

    method ForwardThirdPartyToContact(this_: nat, contact: Contact) returns (r: Result<Contact, HandoffError>)
      requires Valid() && this_ in network.connections
      modifies this`forwardCount
      ensures Valid() && (Abs(), r) == Forward(old(Abs()), this_, contact)
    {
      if !forwardingEnabled {
        return Err(ForwardingDisabled);
      }
      if contact.sentBy != network.connections[this_].partnerName {
        return Err(WrongSender);
      }
      forwardCount := (forwardCount + 1) % U64;
      r := Ok(contact.(sentBy := network.connections[this_].vat));
    }

    method ConnectIntroduced(this_: nat, contact: Contact) returns (r: Result<(nat, Option<nat>), HandoffError>)
      requires Valid() && this_ in network.connections
      modifies network
      ensures Valid() && (Abs(), r) == ConnectToIntroduced(old(Abs()), this_, contact)
    {
      assert Paired(network.Abs(), this_);
      var c := network.connections[this_];
      if contact.sentBy != c.partnerName {
        return Err(WrongSender);
      }
      var connected := network.ConnectByVatId(c.vat, contact.path);
      r := if connected.Err? then Err(NotConnected(connected.error)) else Ok((contact.token, connected.value));
    }
  }
}

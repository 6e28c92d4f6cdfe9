/**
 A third-party handoff from end to end: the introduction's token, carried to the last vat, meets the
 value that is awaited under it.
 */
module Handoff {
  import opened Words
  import opened VatNetwork
  import opened ThirdParty
  import Rendezvous

  /**
   Whatever the route, if forwarding is allowed all the way: the token the last vat gets to complete
   with is the one the introduction gave out to await on, and at the host's exchanges, in any run in
   which the host awaits it once and the last vat completes it, in either order and among any other
   tokens, the last vat receives the value awaited with, if and only if the token is not released
   between the two.
   */
  lemma HandoffDelivers(n: Network, other: nat, hops: seq<nat>, allowed: seq<bool>, end: nat, n': Network,
                        contact: Contact, ops: seq<Rendezvous.Op>, a: nat, c: nat, value: nat)
    requires Inv(n.state) && Route(n.state, hops) && other in n.state.connections
    requires |allowed| == |hops| - 1 && end == Far(n.state, hops[|hops| - 1])
    requires SendContact(n, other, hops, allowed) == (n', Ok(contact))
    requires Rendezvous.OnlyAwait(ops, a, IntroduceTo(n, hops[0], other).1.token, value)
    requires c < |ops| && end in n'.state.connections && ConnectToIntroduced(n', end, contact).1.Ok?
    requires ops[c] == Rendezvous.Complete(ConnectToIntroduced(n', end, contact).1.value.0)
    ensures var token := IntroduceTo(n, hops[0], other).1.token;
            var i, s := Rendezvous.Completes(ops[..c]), Rendezvous.Run(Rendezvous.EMPTY, ops);
            && i < |s.completions|
            && Rendezvous.Received(s, i) == if Rendezvous.ReleasedBetween(ops, a, c, token) then None else Some(value)
  {
    ForwardedContactConnects(n, other, hops, allowed, end, n', contact);
    var token := IntroduceTo(n, hops[0], other).1.token;
    assert ConnectToIntroduced(n', end, contact).1.value.0 == token;
    Rendezvous.RendezvousIsOrderIndependent(ops, a, c, token, value);
  }
}

/**
 Where the two sides of a third-party handoff meet: a table of exchanges by token, with one side
 bringing a value and the other waiting for it.
 */
module Rendezvous {
  import opened Words

  /**
   Exchanges go by number; `values` tells what each was fulfilled with, for good or not yet. The
   observer's `completions` lists the exchange that each completion so far waits on.
   */
  datatype State = State(exchanges: map<nat, nat>, next: nat, values: map<nat, Option<nat>>, completions: seq<nat>)

  const EMPTY := State(map[], 0, map[], [])

  datatype Op = Await(token: nat, value: nat) | Complete(token: nat) | Release(token: nat)

  // ---- operations -------------------------------------------------------------------------

  /** Finds the exchange of a token, or makes one. */
  function GetExchange(s: State, token: nat): (State, nat) {
    if token in s.exchanges then (s, s.exchanges[token])
    else (s.(exchanges := s.exchanges[token := s.next], next := s.next + 1, values := s.values[s.next := None]), s.next)
  }

  /** Only the first value fulfills the promise of an exchange. */
  function Fulfill(s: State, exchange: nat, value: nat): State {
    if exchange in s.values && s.values[exchange].Some? then s
    else s.(values := s.values[exchange := Some(value)])
  }

  function Step(s: State, op: Op): State {
    match op
    case Await(token, value) => var (s1, e) := GetExchange(s, token); Fulfill(s1, e, value)
    case Complete(token) => var (s1, e) := GetExchange(s, token); s1.(completions := s.completions + [e])
    case Release(token) => s.(exchanges := s.exchanges - {token})
  }

  function Run(s: State, ops: seq<Op>): State
    decreases |ops|
  {
    if ops == [] then s else Run(Step(s, ops[0]), ops[1..])
  }

  /** What the `i`-th completion has received; `None` if nothing has come, or ever will. */
  function Received(s: State, i: nat): Option<nat>
    requires i < |s.completions|
  {
    if s.completions[i] in s.values then s.values[s.completions[i]] else None
  }

  // ---- runs -------------------------------------------------------------------------------

  lemma {:induction false} RunAppend(s: State, a: seq<Op>, b: seq<Op>)
    ensures Run(s, a + b) == Run(Run(s, a), b)
    decreases |a|
  {
    if a == [] {
      assert a + b == b;
    } else {
      RunAppend(Step(s, a[0]), a[1..], b);
      assert (a + b)[1..] == a[1..] + b;
    }
  }

  /** Every exchange belongs to one token. */
  ghost predicate Inv(s: State) {
    && (forall t | t in s.exchanges :: s.exchanges[t] < s.next)
    && (forall e | e in s.values :: e < s.next)
    && (forall e: nat | e < s.next :: e in s.values)
    && (forall t, u | t in s.exchanges && u in s.exchanges && t != u :: s.exchanges[t] != s.exchanges[u])
    && (forall i | 0 <= i < |s.completions| :: s.completions[i] < s.next)
  }

  lemma StepKeepsInv(s: State, op: Op)
    requires Inv(s)
    ensures Inv(Step(s, op)) && s.completions <= Step(s, op).completions && s.next <= Step(s, op).next
  {
    match op
    case Await(token, value) => GetKeepsInv(s, token);
    case Complete(token) => GetKeepsInv(s, token);
    case Release(_) =>
  }

  lemma GetKeepsInv(s: State, token: nat)
    requires Inv(s)
    ensures Inv(GetExchange(s, token).0) && GetExchange(s, token).1 < GetExchange(s, token).0.next
    ensures GetExchange(s, token).0.completions == s.completions && s.next <= GetExchange(s, token).0.next
  {
  }

  lemma {:induction false} RunKeepsInv(s: State, ops: seq<Op>)
    requires Inv(s)
    ensures Inv(Run(s, ops)) && s.completions <= Run(s, ops).completions && s.next <= Run(s, ops).next
    decreases |ops|
  {
    if ops != [] {
      StepKeepsInv(s, ops[0]);
      RunKeepsInv(Step(s, ops[0]), ops[1..]);
    }
  }

  /** No other token leads to exchange `e`. */
  ghost predicate OnlyBy(s: State, e: nat, token: nat) {
    e < s.next && forall t | t in s.exchanges && s.exchanges[t] == e :: t == token
  }

  ghost predicate NoAwait(ops: seq<Op>, token: nat) {
    forall i | 0 <= i < |ops| :: !(ops[i].Await? && ops[i].token == token)
  }

  ghost predicate NoRelease(ops: seq<Op>, token: nat) {
    forall i | 0 <= i < |ops| :: ops[i] != Release(token)
  }

  lemma ValueStaysStep(s: State, op: Op, e: nat, token: nat)
    requires Inv(s) && OnlyBy(s, e, token) && !(op.Await? && op.token == token)
    ensures OnlyBy(Step(s, op), e, token) && e in Step(s, op).values && Step(s, op).values[e] == s.values[e]
  {
  }

  /** As long as nobody awaits with its token, the value of an exchange stays what it is. */
  lemma {:induction false} ValueStays(s: State, ops: seq<Op>, e: nat, token: nat)
    requires Inv(s) && OnlyBy(s, e, token) && NoAwait(ops, token)
    ensures OnlyBy(Run(s, ops), e, token) && e in Run(s, ops).values && Run(s, ops).values[e] == s.values[e]
    decreases |ops|
  {
    if ops != [] {
      StepKeepsInv(s, ops[0]);
      ValueStaysStep(s, ops[0], e, token);
      ValueStays(Step(s, ops[0]), ops[1..], e, token);
    }
  }

  /** Without a release the token keeps its exchange. */
  lemma {:induction false} ExchangeStays(s: State, ops: seq<Op>, token: nat)
    requires Inv(s) && token in s.exchanges && NoRelease(ops, token)
    ensures token in Run(s, ops).exchanges && Run(s, ops).exchanges[token] == s.exchanges[token]
    decreases |ops|
  {
    if ops != [] {
      StepKeepsInv(s, ops[0]);
      assert ops[0] != Release(token);
      ExchangeStays(Step(s, ops[0]), ops[1..], token);
    }
  }

  /** Without an exchange to it, or with none of the others', a number stays out of reach. */
  ghost predicate Unreachable(s: State, e: nat) {
    e < s.next && forall t | t in s.exchanges :: s.exchanges[t] != e
  }

  lemma {:induction false} StaysUnreachable(s: State, ops: seq<Op>, e: nat)
    requires Inv(s) && Unreachable(s, e)
    ensures Unreachable(Run(s, ops), e)
    decreases |ops|
  {
    if ops != [] {
      StepKeepsInv(s, ops[0]);
      StaysUnreachable(Step(s, ops[0]), ops[1..], e);
    }
  }

  /** A release on the way cuts the token off from the exchange it had. */
  lemma {:induction false} ReleaseCutsOff(s: State, ops: seq<Op>, token: nat)
    requires Inv(s) && token in s.exchanges && !NoRelease(ops, token)
    ensures Unreachable(Run(s, ops), s.exchanges[token])
    decreases |ops|
  {
    var e := s.exchanges[token];
    var s1 := Step(s, ops[0]);
    StepKeepsInv(s, ops[0]);
    if ops[0] == Release(token) {
      StaysUnreachable(s1, ops[1..], e);
    } else {
      var i :| 0 <= i < |ops| && ops[i] == Release(token);
      assert ops[1..][i - 1] == Release(token);
      ReleaseCutsOff(s1, ops[1..], token);
    }
  }

  /** The token has no exchange, or one without a value. */
  ghost predicate Unfulfilled(s: State, token: nat) {
    token in s.exchanges ==> s.exchanges[token] in s.values && s.values[s.exchanges[token]] == None
  }

  /** Until someone awaits with the token, its exchange is unfulfilled. */
  lemma {:induction false} StaysUnfulfilled(s: State, ops: seq<Op>, token: nat)
    requires Inv(s) && NoAwait(ops, token) && Unfulfilled(s, token)
    ensures Unfulfilled(Run(s, ops), token)
    decreases |ops|
  {
    if ops != [] {
      StepKeepsInv(s, ops[0]);
      StaysUnfulfilled(Step(s, ops[0]), ops[1..], token);
    }
  }

  /** And so it is again after a release. */
  lemma {:induction false} ReleaseStartsOver(s: State, ops: seq<Op>, token: nat)
    requires Inv(s) && NoAwait(ops, token) && !NoRelease(ops, token)
    ensures Unfulfilled(Run(s, ops), token)
    decreases |ops|
  {
    StepKeepsInv(s, ops[0]);
    if ops[0] == Release(token) {
      StaysUnfulfilled(Step(s, ops[0]), ops[1..], token);
    } else {
      var i :| 0 <= i < |ops| && ops[i] == Release(token);
      assert ops[1..][i - 1] == Release(token);
      ReleaseStartsOver(Step(s, ops[0]), ops[1..], token);
    }
  }

  // ---- the order of the two does not matter -----------------------------------------------

  lemma AwaitStep(s: State, token: nat, value: nat)
    requires Inv(s) && Unfulfilled(s, token)
    ensures var s' := Step(s, Await(token, value));
            && Inv(s') && token in s'.exchanges && OnlyBy(s', s'.exchanges[token], token)
            && s'.values[s'.exchanges[token]] == Some(value)
            && (token in s.exchanges ==> s'.exchanges[token] == s.exchanges[token])
            && (forall e | Unreachable(s, e) :: s'.values[e] == s.values[e])
            && s'.completions == s.completions
  {
    StepKeepsInv(s, Await(token, value));
  }

  lemma CompleteStep(s: State, token: nat)
    requires Inv(s)
    ensures var s' := Step(s, Complete(token));
            && Inv(s') && token in s'.exchanges && OnlyBy(s', s'.exchanges[token], token)
            && s'.completions == s.completions + [s'.exchanges[token]]
            && (token in s.exchanges ==> s'.exchanges == s.exchanges && s'.values == s.values)
            && (Unfulfilled(s, token) ==> s'.values[s'.exchanges[token]] == None)
  {
    StepKeepsInv(s, Complete(token));
  }

  lemma AwaitFirst(s: State, mid: seq<Op>, post: seq<Op>, token: nat, value: nat)
    requires Inv(s) && Unfulfilled(s, token) && NoAwait(mid, token) && NoAwait(post, token)
    ensures var met := Run(Step(s, Await(token, value)), mid); var end := Run(Step(met, Complete(token)), post);
            && |met.completions| < |end.completions|
            && Received(end, |met.completions|) == if NoRelease(mid, token) then Some(value) else None
  {
    var s1 := Step(s, Await(token, value));
    AwaitStep(s, token, value);
    var e, met := s1.exchanges[token], Run(s1, mid);
    RunKeepsInv(s1, mid);
    ValueStays(s1, mid, e, token);
    var s2 := Step(met, Complete(token));
    CompleteStep(met, token);
    if NoRelease(mid, token) {
      ExchangeStays(s1, mid, token);
    } else {
      ReleaseStartsOver(s1, mid, token);
    }
    RunKeepsInv(s2, post);
    ValueStays(s2, post, s2.exchanges[token], token);
    assert s2.completions[|met.completions|] == s2.exchanges[token];
  }

  lemma CompleteFirst(s: State, mid: seq<Op>, post: seq<Op>, token: nat, value: nat)
    requires Inv(s) && Unfulfilled(s, token) && NoAwait(mid, token) && NoAwait(post, token)
    ensures var met := Run(Step(s, Complete(token)), mid); var end := Run(Step(met, Await(token, value)), post);
            && |s.completions| < |end.completions|
            && Received(end, |s.completions|) == if NoRelease(mid, token) then Some(value) else None
  {
    var s1 := Step(s, Complete(token));
    CompleteStep(s, token);
    var e, met := s1.exchanges[token], Run(s1, mid);
    assert s1.completions[|s.completions|] == e;
    RunKeepsInv(s1, mid);
    ValueStays(s1, mid, e, token);
    StaysUnfulfilled(s1, mid, token);
    AwaitStep(met, token, value);
    var s2 := Step(met, Await(token, value));
    if NoRelease(mid, token) {
      ExchangeStays(s1, mid, token);
    } else {
      ReleaseCutsOff(s1, mid, token);
      StaysUnreachable(met, [Await(token, value)], e);
      assert Run(met, [Await(token, value)]) == Run(s2, []) by { assert [Await(token, value)][1..] == []; }
    }
    RunKeepsInv(s2, post);
    ValueStays(s2, post, e, token);
  }

  /** The number of completions in a list of operations. */
  function Completes(ops: seq<Op>): nat {
    if ops == [] then 0 else (if ops[0].Complete? then 1 else 0) + Completes(ops[1..])
  }

  lemma {:induction false} CompletesCount(s: State, ops: seq<Op>)
    ensures |Run(s, ops).completions| == |s.completions| + Completes(ops)
    decreases |ops|
  {
    if ops != [] {
      CompletesCount(Step(s, ops[0]), ops[1..]);
    }
  }

  lemma RunSplit(s: State, ops: seq<Op>, i: nat)
    requires i < |ops|
    ensures Run(s, ops) == Run(Step(Run(s, ops[..i]), ops[i]), ops[i + 1..])
  {
    assert ops == ops[..i] + ops[i..] && ops[i..][1..] == ops[i + 1..];
    RunAppend(s, ops[..i], ops[i..]);
  }

  /** A run, cut at two of its operations. */
  lemma RunInParts(ops: seq<Op>, i: nat, j: nat)
    requires i < j < |ops|
    ensures var met := Run(Step(Run(EMPTY, ops[..i]), ops[i]), ops[i + 1..j]);
            && Run(EMPTY, ops[..j]) == met
            && Run(EMPTY, ops) == Run(Step(met, ops[j]), ops[j + 1..])
  {
    RunSplit(EMPTY, ops, j);
    RunSplit(EMPTY, ops[..j], i);
    assert ops[..j][..i] == ops[..i] && ops[..j][i + 1..] == ops[i + 1..j];
  }

  /** Position `a` alone awaits with the token. */
  ghost predicate OnlyAwait(ops: seq<Op>, a: nat, token: nat, value: nat) {
    && a < |ops| && ops[a] == Await(token, value)
    && forall i | 0 <= i < |ops| && i != a :: !(ops[i].Await? && ops[i].token == token)
  }

  lemma UpTo(ops: seq<Op>, i: nat, token: nat)
    requires i <= |ops| && NoAwait(ops[..i], token)
    ensures Inv(Run(EMPTY, ops[..i])) && Unfulfilled(Run(EMPTY, ops[..i]), token)
    ensures |Run(EMPTY, ops[..i]).completions| == Completes(ops[..i])
  {
    RunKeepsInv(EMPTY, ops[..i]);
    StaysUnfulfilled(EMPTY, ops[..i], token);
    CompletesCount(EMPTY, ops[..i]);
  }

  lemma AwaitThenComplete(ops: seq<Op>, a: nat, c: nat, token: nat, value: nat)
    requires a < c < |ops| && OnlyAwait(ops, a, token, value) && ops[c] == Complete(token)
    ensures Completes(ops[..c]) < |Run(EMPTY, ops).completions|
    ensures Received(Run(EMPTY, ops), Completes(ops[..c]))
            == if NoRelease(ops[a + 1..c], token) then Some(value) else None
  {
    UpTo(ops, a, token);
    RunInParts(ops, a, c);
    CompletesCount(EMPTY, ops[..c]);
    AwaitFirst(Run(EMPTY, ops[..a]), ops[a + 1..c], ops[c + 1..], token, value);
  }

  lemma CompleteThenAwait(ops: seq<Op>, a: nat, c: nat, token: nat, value: nat)
    requires c < a < |ops| && OnlyAwait(ops, a, token, value) && ops[c] == Complete(token)
    ensures Completes(ops[..c]) < |Run(EMPTY, ops).completions|
    ensures Received(Run(EMPTY, ops), Completes(ops[..c]))
            == if NoRelease(ops[c + 1..a], token) then Some(value) else None
  {
    UpTo(ops, c, token);
    RunInParts(ops, c, a);
    CompleteFirst(Run(EMPTY, ops[..c]), ops[c + 1..a], ops[a + 1..], token, value);
  }

  /** A release of the token between the two positions, whichever comes first. */
  ghost predicate ReleasedBetween(ops: seq<Op>, a: nat, c: nat, token: nat) {
    exists i | 0 <= i < |ops| :: ops[i] == Release(token) && (a < i < c || c < i < a)
  }

  lemma BetweenIsMid(ops: seq<Op>, a: nat, c: nat, token: nat)
    requires a < |ops| && c < |ops|
    ensures a < c ==> (ReleasedBetween(ops, a, c, token) <==> !NoRelease(ops[a + 1..c], token))
    ensures c < a ==> (ReleasedBetween(ops, a, c, token) <==> !NoRelease(ops[c + 1..a], token))
  {
    if a != c {
      var i, j := if a < c then a else c, if a < c then c else a;
      var mid := ops[i + 1..j];
      assert forall k | 0 <= k < |mid| :: mid[k] == ops[i + 1 + k];
      assert forall k | i < k < j :: ops[k] == mid[k - i - 1];
    }
  }

  /**
   In any run in which position `a` alone awaits with the token, the completion at position `c`
   receives the value awaited with, whether it comes before or after, if and only if the token is
   not released between the two. Other tokens make no difference.
   */
  lemma RendezvousIsOrderIndependent(ops: seq<Op>, a: nat, c: nat, token: nat, value: nat)
    requires OnlyAwait(ops, a, token, value) && c < |ops| && ops[c] == Complete(token)
    ensures Completes(ops[..c]) < |Run(EMPTY, ops).completions|
    ensures Received(Run(EMPTY, ops), Completes(ops[..c]))
            == if ReleasedBetween(ops, a, c, token) then None else Some(value)
  {
    BetweenIsMid(ops, a, c, token);
    if a < c {
      AwaitThenComplete(ops, a, c, token, value);
    } else {
      CompleteThenAwait(ops, a, c, token, value);
    }
  }

  // ---- any number of awaits ---------------------------------------------------------------

  /** A promise once fulfilled keeps its value. */
  lemma {:induction false} FulfilledStays(s: State, ops: seq<Op>, e: nat)
    requires Inv(s) && e in s.values && s.values[e].Some?
    ensures e in Run(s, ops).values && Run(s, ops).values[e] == s.values[e]
    decreases |ops|
  {
    if ops != [] {
      StepKeepsInv(s, ops[0]);
      FulfilledStays(Step(s, ops[0]), ops[1..], e);
    }
  }

  /** Every await with the token before `p` has a release between it and `p`. */
  ghost predicate CutOffBefore(ops: seq<Op>, p: nat, token: nat)
    requires p <= |ops|
  {
    forall i | 0 <= i < p && ops[i].Await? && ops[i].token == token ::
      exists r | i < r < p :: ops[r] == Release(token)
  }

  lemma {:induction false} UnfulfilledAt(ops: seq<Op>, p: nat, token: nat)
    requires p <= |ops| && CutOffBefore(ops, p, token)
    ensures Inv(Run(EMPTY, ops[..p])) && Unfulfilled(Run(EMPTY, ops[..p]), token)
    decreases p
  {
    RunKeepsInv(EMPTY, ops[..p]);
    if p > 0 {
      RunOneMore(ops, p);
      RunKeepsInv(EMPTY, ops[..p - 1]);
      if ops[p - 1] != Release(token) {
        assert CutOffBefore(ops, p - 1, token);
        UnfulfilledAt(ops, p - 1, token);
        UnfulfilledStep(Run(EMPTY, ops[..p - 1]), ops[p - 1], token);
      }
    }
  }

  lemma RunOneMore(ops: seq<Op>, p: nat)
    requires 0 < p <= |ops|
    ensures Run(EMPTY, ops[..p]) == Step(Run(EMPTY, ops[..p - 1]), ops[p - 1])
  {
    var last := [ops[p - 1]];
    assert ops[..p] == ops[..p - 1] + last && last[1..] == [];
    RunAppend(EMPTY, ops[..p - 1], last);
    assert Run(Run(EMPTY, ops[..p - 1]), last) == Step(Run(EMPTY, ops[..p - 1]), last[0]);
  }

  lemma UnfulfilledStep(s: State, op: Op, token: nat)
    requires Inv(s) && Unfulfilled(s, token) && !(op.Await? && op.token == token)
    ensures Unfulfilled(Step(s, op), token)
  {
  }

  /**
   With any number of awaits: the completion at position `c` receives the value of the await at `a`,
   whichever of the two comes first, if the token is not released between them and every earlier await
   was cut off by a release before both. A later value changes nothing.
   */
  lemma FirstAwaitWins(ops: seq<Op>, a: nat, c: nat, token: nat, value: nat)
    requires a < |ops| && c < |ops| && ops[a] == Await(token, value) && ops[c] == Complete(token)
    requires !ReleasedBetween(ops, a, c, token)
    requires CutOffBefore(ops, if a < c then a else c, token)
    requires c < a ==> NoAwait(ops[c + 1..a], token)
    ensures Completes(ops[..c]) < |Run(EMPTY, ops).completions|
    ensures Received(Run(EMPTY, ops), Completes(ops[..c])) == Some(value)
  {
    BetweenIsMid(ops, a, c, token);
    CompletesCount(EMPTY, ops[..c]);
    if a < c {
      UnfulfilledAt(ops, a, token);
      RunInParts(ops, a, c);
      FirstAwaitThenComplete(Run(EMPTY, ops[..a]), ops[a + 1..c], ops[c + 1..], token, value);
    } else {
      UnfulfilledAt(ops, c, token);
      RunInParts(ops, c, a);
      CompleteThenFirstAwait(Run(EMPTY, ops[..c]), ops[c + 1..a], ops[a + 1..], token, value);
    }
  }

  lemma FirstAwaitThenComplete(s: State, mid: seq<Op>, post: seq<Op>, token: nat, value: nat)
    requires Inv(s) && Unfulfilled(s, token) && NoRelease(mid, token)
    ensures var met := Run(Step(s, Await(token, value)), mid); var end := Run(Step(met, Complete(token)), post);
            |met.completions| < |end.completions| && Received(end, |met.completions|) == Some(value)
  {
    var s1 := Step(s, Await(token, value));
    AwaitStep(s, token, value);
    var e, met := s1.exchanges[token], Run(s1, mid);
    RunKeepsInv(s1, mid);
    FulfilledStays(s1, mid, e);
    ExchangeStays(s1, mid, token);
    var s2 := Step(met, Complete(token));
    CompleteStep(met, token);
    RunKeepsInv(s2, post);
    FulfilledStays(s2, post, e);
    assert s2.completions[|met.completions|] == e;
  }

  lemma CompleteThenFirstAwait(s: State, mid: seq<Op>, post: seq<Op>, token: nat, value: nat)
    requires Inv(s) && Unfulfilled(s, token) && NoAwait(mid, token) && NoRelease(mid, token)
    ensures var met := Run(Step(s, Complete(token)), mid); var end := Run(Step(met, Await(token, value)), post);
            |s.completions| < |end.completions| && Received(end, |s.completions|) == Some(value)
  {
    var s1 := Step(s, Complete(token));
    CompleteStep(s, token);
    var e, met := s1.exchanges[token], Run(s1, mid);
    assert s1.completions[|s.completions|] == e;
    RunKeepsInv(s1, mid);
    StaysUnfulfilled(s1, mid, token);
    ExchangeStays(s1, mid, token);
    AwaitStep(met, token, value);
    var s2 := Step(met, Await(token, value));
    RunKeepsInv(s2, post);
    FulfilledStays(s2, post, e);
  }

  lemma {:induction false} UnreachableStaysEmpty(s: State, ops: seq<Op>, e: nat)
    requires Inv(s) && Unreachable(s, e) && s.values[e] == None
    ensures e in Run(s, ops).values && Run(s, ops).values[e] == None
    decreases |ops|
  {
    if ops != [] {
      StepKeepsInv(s, ops[0]);
      UnreachableStep(s, ops[0], e);
      UnreachableStaysEmpty(Step(s, ops[0]), ops[1..], e);
    }
  }

  lemma UnreachableStep(s: State, op: Op, e: nat)
    requires Inv(s) && Unreachable(s, e)
    ensures Unreachable(Step(s, op), e) && e in Step(s, op).values && Step(s, op).values[e] == s.values[e]
  {
  }

  /** Every await with the token comes after a release of it. */
  ghost predicate CutOffAfter(ops: seq<Op>, token: nat) {
    forall i | 0 <= i < |ops| && ops[i].Await? && ops[i].token == token ::
      exists r | 0 <= r < i :: ops[r] == Release(token)
  }

  lemma {:induction false} StaysEmpty(s: State, ops: seq<Op>, e: nat, token: nat)
    requires Inv(s) && OnlyBy(s, e, token) && s.values[e] == None && CutOffAfter(ops, token)
    ensures e in Run(s, ops).values && Run(s, ops).values[e] == None
    decreases |ops|
  {
    if ops != [] {
      StepKeepsInv(s, ops[0]);
      var s1 := Step(s, ops[0]);
      if ops[0] == Release(token) {
        UnreachableStaysEmpty(s1, ops[1..], e);
      } else {
        ValueStaysStep(s, ops[0], e, token);
        forall i | 0 <= i < |ops[1..]| && ops[1..][i].Await? && ops[1..][i].token == token
          ensures exists r | 0 <= r < i :: ops[1..][r] == Release(token)
        {
          var r :| 0 <= r < i + 1 && ops[r] == Release(token);
          assert ops[1..][r - 1] == Release(token);
        }
        StaysEmpty(s1, ops[1..], e, token);
      }
    }
  }

  /** And if every await with the token has a release between it and the completion, that never receives anything. */
  lemma NothingReceived(ops: seq<Op>, c: nat, token: nat)
    requires c < |ops| && ops[c] == Complete(token)
    requires CutOffBefore(ops, c, token) && CutOffAfter(ops[c + 1..], token)
    ensures Completes(ops[..c]) < |Run(EMPTY, ops).completions|
    ensures Received(Run(EMPTY, ops), Completes(ops[..c])) == None
  {
    UnfulfilledAt(ops, c, token);
    RunSplit(EMPTY, ops, c);
    CompletesCount(EMPTY, ops[..c]);
    var s := Run(EMPTY, ops[..c]);
    var s1 := Step(s, Complete(token));
    CompleteStep(s, token);
    RunKeepsInv(s1, ops[c + 1..]);
    StaysEmpty(s1, ops[c + 1..], s1.exchanges[token], token);
    assert s1.completions[|s.completions|] == s1.exchanges[token];
  }

  // ---- the code ---------------------------------------------------------------------------

  class GenericVatExchanges {
    var tphExchanges: map<nat, nat>
    var nextExchange: nat
    var values: map<nat, Option<nat>>
    ghost var completions: seq<nat>

    ghost function Abs(): State
      reads this
    {
      State(tphExchanges, nextExchange, values, completions)
    }

    ghost predicate Valid()
      reads this
    {
      Inv(Abs())
    }

    constructor ()
      ensures Valid() && Abs() == EMPTY
    {
      tphExchanges, nextExchange, values, completions := map[], 0, map[], [];
    }

    method GetThirdPartyExchange(token: nat) returns (exchange: nat)
      requires Valid()
      modifies this`tphExchanges, this`nextExchange, this`values
      ensures Valid() && (Abs(), exchange) == GetExchange(old(Abs()), token) && exchange in values
    {
      GetKeepsInv(Abs(), token);
      if token in tphExchanges {
        return tphExchanges[token];
      }
      exchange := nextExchange;
      nextExchange := nextExchange + 1;
      values := values[exchange := None];
      tphExchanges := tphExchanges[token := exchange];
    }

    method AwaitThirdParty(token: nat, value: nat)
      requires Valid()
      modifies this
      ensures Valid() && Abs() == Step(old(Abs()), Await(token, value))
    {
      StepKeepsInv(Abs(), Await(token, value));
      var exchange := GetThirdPartyExchange(token);
      if values[exchange].None? {
        values := values[exchange := Some(value)];
      }
    }

    /** The exchange whose promise the caller waits on. */
    method CompleteThirdParty(token: nat) returns (exchange: nat)
      requires Valid()
      modifies this
      ensures Valid() && Abs() == Step(old(Abs()), Complete(token)) && completions == old(completions) + [exchange]
    {
      StepKeepsInv(Abs(), Complete(token));
      exchange := GetThirdPartyExchange(token);
      completions := completions + [exchange];
    }

    method EraseThirdPartyExchange(token: nat)
      requires Valid()
      modifies this`tphExchanges
      ensures Valid() && Abs() == Step(old(Abs()), Release(token))
    {
      StepKeepsInv(Abs(), Release(token));
      tphExchanges := tphExchanges - {token};
    }
  }
}

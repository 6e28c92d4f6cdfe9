/**
 What the combinators wait for. Given when and how every primitive promise ends, a promise ends when
 and how its parts make it.
 */
module KjOutcomes {
  import opened Words
  import opened KjPromises

  datatype Outcome = Outcome(at: nat, ok: bool)

  function Later(a: nat, b: nat): nat {
    if a < b then b else a
  }

  /** When and how a promise ends if the primitive promise `id` ends as `ends(id)` says. */
  function OutcomeOf(p: Promise, ends: nat -> Outcome): Outcome
    decreases p, 0
  {
    match p
    case Primitive(id) => ends(id)
    case Then(a, b) =>
      var first, second := OutcomeOf(a, ends), OutcomeOf(b, ends);
      if first.ok then Outcome(Later(first.at, second.at), second.ok) else first
    case Catch(a, b) =>
      var first, second := OutcomeOf(a, ends), OutcomeOf(b, ends);
      if first.ok then first else Outcome(Later(first.at, second.at), second.ok)
    case All(parts) => OutcomeOfAll(parts, ends)
    case Race(a, b) =>
      var first, second := OutcomeOf(a, ends), OutcomeOf(b, ends);
      if first.at <= second.at then first else second
  }

  /** A join waits for every part, and fails if one does. */
  function OutcomeOfAll(parts: seq<Promise>, ends: nat -> Outcome): Outcome
    decreases parts, |parts|
  {
    if parts == [] then Outcome(0, true)
    else
      var first, rest := OutcomeOf(parts[0], ends), OutcomeOfAll(parts[1..], ends);
      Outcome(Later(first.at, rest.at), first.ok && rest.ok)
  }

  lemma {:induction false} AllExact(parts: seq<Promise>, ends: nat -> Outcome)
    ensures var all := OutcomeOfAll(parts, ends);
            && (all.ok <==> forall i | 0 <= i < |parts| :: OutcomeOf(parts[i], ends).ok)
            && (forall i | 0 <= i < |parts| :: OutcomeOf(parts[i], ends).at <= all.at)
            && (parts == [] || exists i | 0 <= i < |parts| :: OutcomeOf(parts[i], ends).at == all.at)
    decreases |parts|
  {
    if parts != [] {
      var first, rest := OutcomeOf(parts[0], ends), parts[1..];
      AllExact(rest, ends);
      assert forall i | 0 <= i < |rest| :: parts[i + 1] == rest[i];
      assert forall i | 0 < i < |parts| :: parts[i] == rest[i - 1];
      if rest == [] || OutcomeOfAll(rest, ends).at <= first.at {
        assert OutcomeOf(parts[0], ends).at == OutcomeOfAll(parts, ends).at;
      } else {
        var i :| 0 <= i < |rest| && OutcomeOf(rest[i], ends).at == OutcomeOfAll(rest, ends).at;
        assert OutcomeOf(parts[i + 1], ends).at == OutcomeOfAll(parts, ends).at;
      }
    }
  }

  lemma {:induction false} RaceExact(parts: seq<Promise>, ends: nat -> Outcome)
    requires parts != []
    ensures var race := OutcomeOf(RaceOf(parts), ends);
            && (exists i | 0 <= i < |parts| :: OutcomeOf(parts[i], ends) == race)
            && (forall i | 0 <= i < |parts| :: race.at <= OutcomeOf(parts[i], ends).at)
    decreases |parts|
  {
    if |parts| == 1 {
      assert OutcomeOf(parts[0], ends) == OutcomeOf(RaceOf(parts), ends);
    } else {
      var front, last := parts[..|parts| - 1], parts[|parts| - 1];
      RaceExact(front, ends);
      assert forall i | 0 <= i < |front| :: parts[i] == front[i];
      var race := OutcomeOf(RaceOf(parts), ends);
      if race == OutcomeOf(RaceOf(front), ends) {
        var i :| 0 <= i < |front| && OutcomeOf(front[i], ends) == race;
        assert OutcomeOf(parts[i], ends) == race;
      } else {
        assert OutcomeOf(parts[|parts| - 1], ends) == race;
      }
    }
  }

  /** How a combination of promises with these outcomes may end. */
  ghost predicate Combines(kind: Kind, outcomes: seq<Outcome>, combined: Outcome) {
    match kind
    case ThenKind =>
      && |outcomes| == 2 && (combined.ok <==> outcomes[0].ok && outcomes[1].ok)
      && combined.at == if outcomes[0].ok then Later(outcomes[0].at, outcomes[1].at) else outcomes[0].at
    case CatchKind =>
      && |outcomes| == 2 && (combined.ok <==> outcomes[0].ok || outcomes[1].ok)
      && combined.at == if outcomes[0].ok then outcomes[0].at else Later(outcomes[0].at, outcomes[1].at)
    case AllKind =>
      && (combined.ok <==> forall outcome | outcome in outcomes :: outcome.ok)
      && (forall outcome | outcome in outcomes :: outcome.at <= combined.at)
      && (outcomes != [] ==> exists outcome :: outcome in outcomes && outcome.at == combined.at)
    case RaceKind =>
      combined in outcomes && forall outcome | outcome in outcomes :: combined.at <= outcome.at
  }

  lemma BuildMeans(kind: Kind, parts: seq<Promise>, outcomes: seq<Outcome>, ends: nat -> Outcome)
    requires Fits(kind, |parts|) && |outcomes| == |parts|
    requires forall i | 0 <= i < |parts| :: outcomes[i] == OutcomeOf(parts[i], ends)
    ensures Combines(kind, outcomes, OutcomeOf(Build(kind, parts), ends))
  {
    match kind
    case AllKind =>
      AllExact(parts, ends);
      assert forall i | 0 <= i < |outcomes| :: outcomes[i] in outcomes;
    case RaceKind =>
      RaceExact(parts, ends);
      assert forall i | 0 <= i < |outcomes| :: outcomes[i] in outcomes;
    case _ =>
  }

  /**
   Combining means what it says: `then` succeeds if both promises do and fails as soon as the first
   fails, `catch` succeeds if either does and does not wait for the fallback without need, `all` waits
   for every promise and succeeds if all do, and a race ends as the first to end.
   */
  lemma CombineMeans(s: State, kind: Kind, ids: seq<uint32>, outcomes: seq<Outcome>, ends: nat -> Outcome)
    requires (kind == RaceKind || Fits(kind, |ids|)) && |s.live| < U32 && Combine(s, kind, ids).1.Ok?
    requires |outcomes| == |ids|
    requires forall i | 0 <= i < |ids| && ids[i] in s.live :: outcomes[i] == OutcomeOf(s.live[ids[i]], ends)
    ensures var (s', r) := Combine(s, kind, ids);
            r.value in s'.live && Combines(kind, outcomes, OutcomeOf(s'.live[r.value], ends))
  {
    var k: nat :| ValidPrefix(s, ids, k) by { ValidPrefixExists(s, ids); }
    CombineExact(s, kind, ids, k);
    BuildMeans(kind, TakenParts(s, ids), outcomes, ends);
  }
}

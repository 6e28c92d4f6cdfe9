/**
 What becomes of queued operations: which outcome each completion is set to, and where promises,
 tasks and cancelers go on the way.
 */
module WorkOutcomes {
  import opened Words
  import opened WorkQueue

  /** Only what waits is still to be set. */
  lemma WaitingIsUnset(s: State, ticket: nat)
    requires Inv(s) && ticket < s.next
    ensures ticket in s.sets && (Waiting(s, ticket) <==> s.sets[ticket] == [])
  {
    assert SetRight(s, ticket);
  }

  lemma CurrentIsWaiting(s: State)
    requires Inv(s) && s.current.Some?
    ensures var ticket := s.current.value.ticket;
            ticket < s.next && ticket in s.sets && s.sets[ticket] == []
  {
    var op := s.current.value;
    HasOne(op, op.ticket);
    Places(s, op.ticket);
    WaitingIsUnset(s, op.ticket);
  }

  lemma FirstOutcome(outcome: Outcome)
    ensures [] + [outcome] == [outcome]
  {
  }

  /** Before the stop an operation is queued with its completion open, after it the completion is refused. */
  lemma EnqueueExact(s: State, work: Work)
    requires Inv(s)
    ensures var s' := Next(s, Enqueue(work));
            if s.stopping then s' == s.(next := s.next + 1, sets := s.sets[s.next := [Refused]])
            else s' == s.(next := s.next + 1, sets := s.sets[s.next := []],
                          queue := s.queue + [Op(s.next, work)], accepted := s.accepted + [Op(s.next, work)])
  {
    FirstOutcome(Refused);
    assert s.sets[s.next := []][s.next := [Refused]] == s.sets[s.next := [Refused]];
  }

  /** Which promises, cancelers and tasks there are, and what completions are set to. */
  ghost predicate Leaves(s: State, promises: set<PromiseId>, activeCancelers: set<PromiseId>, tasks: map<nat, Task>,
                         sets: map<nat, seq<Outcome>>)
  {
    s.promises == promises && s.activeCancelers == activeCancelers && s.tasks == tasks && s.sets == sets
  }

  /**
   A promise awaited leaves the table for a task of the completion, and its canceler becomes active.
   Awaiting one that is not in the table fails and changes nothing else.
   */
  lemma AwaitExact(s: State, fails: bool, id: uint32, p: PromiseId)
    requires Inv(s) && s.current.Some? && s.current.value.work == AwaitPromise(p)
    ensures var ticket, s' := s.current.value.ticket, HandleCurrent(s, fails, id);
            if p in s.promises then
              Leaves(s', s.promises - {p}, s.activeCancelers + {p}, s.tasks[ticket := Awaiting(p)], s.sets)
            else Leaves(s', s.promises, s.activeCancelers, s.tasks, s.sets[ticket := [Failure]])
  {
    CurrentIsWaiting(s);
    FirstOutcome(Success);
    FirstOutcome(Failure);
  }

  /**
   Releasing takes a promise out of the table, or else the canceler of one that is being awaited. It
   fails, and changes nothing else, if there is neither.
   */
  lemma ReleaseExact(s: State, fails: bool, id: uint32, p: PromiseId)
    requires Inv(s) && s.current.Some? && s.current.value.work == ReleasePromise(p)
    ensures var ticket, s' := s.current.value.ticket, HandleCurrent(s, fails, id);
            if p in s.promises then
              Leaves(s', s.promises - {p}, s.activeCancelers, s.tasks, s.sets[ticket := [Success]])
            else if p in s.activeCancelers then
              Leaves(s', s.promises, s.activeCancelers - {p}, s.tasks, s.sets[ticket := [Success]])
            else Leaves(s', s.promises, s.activeCancelers, s.tasks, s.sets[ticket := [Failure]])
  {
    CurrentIsWaiting(s);
    FirstOutcome(Success);
    FirstOutcome(Failure);
    if p !in s.activeCancelers { assert s.activeCancelers - {p} == s.activeCancelers; }
  }

  /** A started promise enters the table, a call goes on as a task, and anything else is done with at once. */
  lemma OthersExact(s: State, fails: bool, id: uint32)
    requires Inv(s) && s.current.Some?
    requires !s.current.value.work.AwaitPromise? && !s.current.value.work.ReleasePromise?
    ensures var op, s' := s.current.value, HandleCurrent(s, fails, id);
            if fails then Leaves(s', s.promises, s.activeCancelers, s.tasks, s.sets[op.ticket := [Failure]])
            else
              match op.work
              case RawCall => Leaves(s', s.promises, s.activeCancelers, s.tasks[op.ticket := Call], s.sets)
              case StartPromise(kind) =>
                Leaves(s', s.promises + {PromiseId(kind, id)}, s.activeCancelers, s.tasks,
                       s.sets[op.ticket := [Success]])
              case _ => Leaves(s', s.promises, s.activeCancelers, s.tasks, s.sets[op.ticket := [Success]])
  {
    CurrentIsWaiting(s);
    FirstOutcome(Success);
    FirstOutcome(Failure);
  }

  /** A task sets its completion to what it has come to, and takes its canceler along. */
  lemma FinishExact(s: State, ticket: nat, outcome: Outcome)
    requires Inv(s) && Enabled(s, Finish(ticket, outcome))
    ensures var task := s.tasks[ticket];
            Leaves(Next(s, Finish(ticket, outcome)), s.promises,
                   if task.Awaiting? then s.activeCancelers - {task.promise} else s.activeCancelers,
                   s.tasks - {ticket}, s.sets[ticket := [outcome]])
  {
    Places(s, ticket);
    WaitingIsUnset(s, ticket);
    FirstOutcome(outcome);
  }

  // ---- over whole runs --------------------------------------------------------------------

  lemma StepKeepsOutcome(s: State, step: Step, ticket: nat)
    requires Inv(s) && Enabled(s, step) && ticket in s.sets && s.sets[ticket] != []
    ensures ticket in Next(s, step).sets && Next(s, step).sets[ticket] == s.sets[ticket]
  {
    WaitingIsUnset(s, ticket);
    match step
    case Handle(_, _) => CurrentIsWaiting(s);
    case _ =>
  }

  /** What a completion has been set to it stays, whatever else happens. */
  lemma {:induction false} OutcomeIsFinal(s: State, steps: seq<Step>, ticket: nat)
    requires Inv(s) && AllEnabled(s, steps) && ticket in s.sets && s.sets[ticket] != []
    ensures ticket in Run(s, steps).sets && Run(s, steps).sets[ticket] == s.sets[ticket]
    decreases |steps|
  {
    if steps != [] {
      StepKeepsOutcome(s, steps[0], ticket);
      StepKeepsInv(s, steps[0]);
      OutcomeIsFinal(Next(s, steps[0]), steps[1..], ticket);
    }
  }

  /** Does the step start this promise? */
  predicate Starts(s: State, step: Step, p: PromiseId) {
    && step.Handle? && !step.fails && s.current.Some?
    && s.current.value.work.StartPromise? && PromiseId(s.current.value.work.kind, step.id) == p
  }

  ghost predicate NeverStarts(s: State, steps: seq<Step>, p: PromiseId)
    requires AllEnabled(s, steps)
    decreases |steps|
  {
    steps != [] ==> !Starts(s, steps[0], p) && NeverStarts(Next(s, steps[0]), steps[1..], p)
  }

  lemma StepLeavesAway(s: State, step: Step, p: PromiseId)
    requires Inv(s) && Enabled(s, step) && !Starts(s, step, p) && p !in s.promises
    ensures p !in Next(s, step).promises
  {
    if step.Handle? {
      var work := s.current.value.work;
      match work
      case AwaitPromise(q) => AwaitExact(s, step.fails, step.id, q);
      case ReleasePromise(q) => ReleaseExact(s, step.fails, step.id, q);
      case _ => OthersExact(s, step.fails, step.id);
    }
  }

  lemma {:induction false} StaysAway(s: State, steps: seq<Step>, p: PromiseId)
    requires Inv(s) && AllEnabled(s, steps) && NeverStarts(s, steps, p) && p !in s.promises
    ensures p !in Run(s, steps).promises && Inv(Run(s, steps))
    decreases |steps|
  {
    if steps != [] {
      StepLeavesAway(s, steps[0], p);
      StepKeepsInv(s, steps[0]);
      StaysAway(Next(s, steps[0]), steps[1..], p);
    }
  }

  /**
   A promise can be awaited once. When one await or release of it has been handled, every later await
   of it fails, and stays failed, unless the promise has been started anew.
   */
  lemma AwaitedOnce(s: State, fails: bool, id: uint32, p: PromiseId, steps: seq<Step>, later: seq<Step>, again: Step)
    requires Inv(s) && s.current.Some? && Enabled(s, Handle(fails, id))
    requires s.current.value.work == AwaitPromise(p) || s.current.value.work == ReleasePromise(p)
    requires AllEnabled(HandleCurrent(s, fails, id), steps) && NeverStarts(HandleCurrent(s, fails, id), steps, p)
    requires var end := Run(HandleCurrent(s, fails, id), steps);
             && end.current.Some? && end.current.value.work == AwaitPromise(p)
             && again.Handle? && Enabled(end, again) && AllEnabled(Next(end, again), later)
    ensures var end := Run(HandleCurrent(s, fails, id), steps);
            var ticket, last := end.current.value.ticket, Run(Next(end, again), later);
            ticket in last.sets && last.sets[ticket] == [Failure]
  {
    var s1 := HandleCurrent(s, fails, id);
    if s.current.value.work.AwaitPromise? { AwaitExact(s, fails, id, p); } else { ReleaseExact(s, fails, id, p); }
    StepKeepsInv(s, Handle(fails, id));
    StaysAway(s1, steps, p);
    var end := Run(s1, steps);
    CurrentIsWaiting(end);
    AwaitExact(end, again.fails, again.id, p);
    StepKeepsInv(end, again);
    OutcomeIsFinal(Next(end, again), later, end.current.value.ticket);
  }
}

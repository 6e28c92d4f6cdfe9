/**
 The queue between the callers' threads and the one worker thread, as a state machine. Each step is
 what one holder of the queue mutex, the worker, or one finished task does atomically.
 */
module WorkQueue {
  import opened Words

  datatype Kind = RegisterPromise | UnitPromise

  datatype PromiseId = PromiseId(kind: Kind, id: uint32)

  /** What an operation does to the queue's own state; all else that it does is left open. */
  datatype Work =
    | RawCall
    | StartPromise(kind: Kind)
    | AwaitPromise(promise: PromiseId)
    | ReleasePromise(promise: PromiseId)
    | DisembargoTrace
    | ResetDisembargoTrace
    | Other

  /** The ticket stands for the completion handed to the caller. */
  datatype Op = Op(ticket: nat, work: Work)

  datatype Outcome = Refused | Success | Failure

  datatype Task = Call | Awaiting(promise: PromiseId)

  /**
   `sets` lists, for every completion made, what it has been set to so far. `accepted` and
   `handled` are the observer's record of the operations queued and of those taken care of.
   */
  datatype State = State(
    queue: seq<Op>, current: Option<Op>, tasks: map<nat, Task>, stopping: bool, exited: bool,
    promises: set<PromiseId>, activeCancelers: set<PromiseId>,
    next: nat, sets: map<nat, seq<Outcome>>, accepted: seq<Op>, handled: seq<Op>)

  const INITIAL := State([], None, map[], false, false, {}, {}, 0, map[], [], [])

  datatype Step =
    | Enqueue(work: Work)
    | Stop
    | Pop
    | Handle(fails: bool, id: uint32)
    | Finish(ticket: nat, outcome: Outcome)
    | Exit

  // ---- the step relation ------------------------------------------------------------------

  function Complete(s: State, ticket: nat, outcome: Outcome): State {
    s.(sets := s.sets[ticket := (if ticket in s.sets then s.sets[ticket] else []) + [outcome]])
  }

  /** When stopping, the completion fails at once; otherwise the operation goes to the back. */
  function EnqueueWork(s: State, work: Work): State {
    var s1 := s.(next := s.next + 1, sets := s.sets[s.next := []]);
    var op := Op(s.next, work);
    if s.stopping then Complete(s1, s.next, Refused)
    else s1.(queue := s.queue + [op], accepted := s.accepted + [op])
  }

  /** Taking the promise of an await out of the table, and giving its canceler a place. */
  function Schedule(s: State, ticket: nat, task: Task): State {
    s.(tasks := s.tasks[ticket := task],
       promises := if task.Awaiting? then s.promises - {task.promise} else s.promises,
       activeCancelers := if task.Awaiting? then s.activeCancelers + {task.promise} else s.activeCancelers)
  }

  datatype Fate = Completed(outcome: Outcome) | LeftTo(task: Task)

  /** The operation popped last is either completed or left to a task. `fails` says if it throws. */
  function FateOf(s: State, work: Work, fails: bool): Fate {
    match work
    case RawCall => if fails then Completed(Failure) else LeftTo(Call)
    case AwaitPromise(p) => if p in s.promises then LeftTo(Awaiting(p)) else Completed(Failure)
    case ReleasePromise(p) => Completed(if p in s.promises || p in s.activeCancelers then Success else Failure)
    case _ => Completed(if fails then Failure else Success)
  }

  /** Starting adds a promise; releasing takes one out, or the canceler of one being awaited. */
  function Tables(s: State, work: Work, fails: bool, id: uint32): (set<PromiseId>, set<PromiseId>) {
    match work
    case StartPromise(kind) =>
      (if fails then s.promises else s.promises + {PromiseId(kind, id)}, s.activeCancelers)
    case ReleasePromise(p) =>
      if p in s.promises then (s.promises - {p}, s.activeCancelers) else (s.promises, s.activeCancelers - {p})
    case _ => (s.promises, s.activeCancelers)
  }

  function HandleCurrent(s: State, fails: bool, id: uint32): State
    requires s.current.Some?
  {
    var op := s.current.value;
    var (promises, activeCancelers) := Tables(s, op.work, fails, id);
    var s1 := s.(current := None, handled := s.handled + [op],
                 promises := promises, activeCancelers := activeCancelers);
    var fate := FateOf(s, op.work, fails);
    if fate.Completed? then Complete(s1, op.ticket, fate.outcome) else Schedule(s1, op.ticket, fate.task)
  }

  function FinishTask(s: State, ticket: nat, outcome: Outcome): State
    requires ticket in s.tasks
  {
    var task := s.tasks[ticket];
    Complete(s.(tasks := s.tasks - {ticket},
                activeCancelers := if task.Awaiting? then s.activeCancelers - {task.promise} else s.activeCancelers),
             ticket, outcome)
  }

  /** Tasks finish whenever the worker lets the event loop run, also while it handles an operation. */
  ghost predicate Enabled(s: State, step: Step) {
    match step
    case Enqueue(_) => true
    case Stop => true
    case Pop => !s.exited && s.current.None? && s.queue != []
    case Handle(fails, id) =>
      && s.current.Some?
      && (s.current.value.work.StartPromise? && !fails ==> PromiseId(s.current.value.work.kind, id) !in s.promises)
    case Finish(ticket, outcome) => !s.exited && ticket in s.tasks && outcome != Refused
    case Exit => !s.exited && s.current.None? && s.queue == [] && s.stopping && s.tasks == map[]
  }

  ghost function Next(s: State, step: Step): State
    requires Enabled(s, step)
  {
    match step
    case Enqueue(work) => EnqueueWork(s, work)
    case Stop => s.(stopping := true)
    case Pop => s.(current := Some(s.queue[0]), queue := s.queue[1..])
    case Handle(fails, id) => HandleCurrent(s, fails, id)
    case Finish(ticket, outcome) => FinishTask(s, ticket, outcome)
    case Exit => s.(exited := true, promises := {})
  }

  ghost predicate AllEnabled(s: State, steps: seq<Step>)
    decreases |steps|
  {
    steps != [] ==> Enabled(s, steps[0]) && AllEnabled(Next(s, steps[0]), steps[1..])
  }

  ghost function Run(s: State, steps: seq<Step>): State
    requires AllEnabled(s, steps)
    decreases |steps|
  {
    if steps == [] then s else Run(Next(s, steps[0]), steps[1..])
  }

  // ---- every completion has one place -----------------------------------------------------

  function Current(s: State): seq<Op> {
    if s.current.Some? then [s.current.value] else []
  }

  ghost predicate Has(ops: seq<Op>, ticket: nat) {
    exists i | 0 <= i < |ops| :: ops[i].ticket == ticket
  }

  ghost predicate Increasing(ops: seq<Op>) {
    forall i, j | 0 <= i < j < |ops| :: ops[i].ticket < ops[j].ticket
  }

  /** The operation of this completion has neither been completed nor refused. */
  ghost predicate Waiting(s: State, ticket: nat) {
    ticket in s.tasks || Has(Current(s), ticket) || Has(s.queue, ticket)
  }

  /** Nothing while the operation waits, and one outcome from then on. */
  ghost predicate SetRight(s: State, ticket: nat) {
    && ticket in s.sets
    && if Waiting(s, ticket) then s.sets[ticket] == []
       else |s.sets[ticket]| == 1 && (s.sets[ticket][0] == Refused <==> !Has(s.accepted, ticket))
  }

  ghost predicate Ordered(s: State) {
    && s.accepted == s.handled + Current(s) + s.queue
    && Increasing(s.accepted)
    && (forall i | 0 <= i < |s.accepted| :: s.accepted[i].ticket < s.next)
    && (forall ticket | ticket in s.tasks :: Has(s.handled, ticket))
  }

  ghost predicate CancelersOwned(s: State) {
    forall p | p in s.activeCancelers :: exists ticket | ticket in s.tasks :: s.tasks[ticket] == Awaiting(p)
  }

  ghost predicate Left(s: State) {
    s.exited ==> s.stopping && s.current.None? && s.queue == [] && s.tasks == map[] && s.promises == {}
  }

  ghost predicate AllSetRight(s: State) {
    && (forall ticket | ticket in s.sets :: ticket < s.next)
    && (forall ticket: nat | ticket < s.next :: SetRight(s, ticket))
  }

  ghost predicate Inv(s: State) {
    Ordered(s) && AllSetRight(s) && CancelersOwned(s) && Left(s)
  }

  lemma HasAppend(a: seq<Op>, b: seq<Op>, ticket: nat)
    ensures Has(a + b, ticket) <==> Has(a, ticket) || Has(b, ticket)
  {
    if i :| 0 <= i < |a| && a[i].ticket == ticket {
      assert (a + b)[i].ticket == ticket;
    }
    if j :| 0 <= j < |b| && b[j].ticket == ticket {
      assert (a + b)[|a| + j].ticket == ticket;
    }
  }

  lemma IncreasingApart(a: seq<Op>, b: seq<Op>, ticket: nat)
    requires Increasing(a + b)
    ensures !(Has(a, ticket) && Has(b, ticket))
    ensures Increasing(a) && Increasing(b)
  {
    forall i, j | 0 <= i < |a| && 0 <= j < |b|
      ensures a[i].ticket < b[j].ticket
    {
      assert (a + b)[i] == a[i] && (a + b)[|a| + j] == b[j];
    }
    assert forall i | 0 <= i < |a| :: (a + b)[i] == a[i];
    assert forall j | 0 <= j < |b| :: (a + b)[|a| + j] == b[j];
  }

  /** Handled, in the worker's hands, or queued: an accepted operation is exactly one of the three. */
  lemma Places(s: State, ticket: nat)
    requires Ordered(s)
    ensures Has(s.accepted, ticket) <==> Has(s.handled, ticket) || Has(Current(s), ticket) || Has(s.queue, ticket)
    ensures !(Has(s.handled, ticket) && Has(Current(s), ticket))
    ensures !(Has(s.handled, ticket) && Has(s.queue, ticket))
    ensures !(Has(Current(s), ticket) && Has(s.queue, ticket))
    ensures Has(s.accepted, ticket) ==> ticket < s.next
    ensures ticket in s.tasks ==> Has(s.handled, ticket)
  {
    var front := s.handled + Current(s);
    HasAppend(front, s.queue, ticket);
    HasAppend(s.handled, Current(s), ticket);
    IncreasingApart(front, s.queue, ticket);
    IncreasingApart(s.handled, Current(s), ticket);
  }

  lemma HasOne(op: Op, ticket: nat)
    ensures Has([op], ticket) <==> op.ticket == ticket
  {
    if op.ticket == ticket {
      assert [op][0].ticket == ticket;
    }
  }

  lemma EnqueueKeepsInv(s: State, work: Work)
    requires Inv(s)
    ensures Inv(EnqueueWork(s, work))
  {
    var s', op := EnqueueWork(s, work), Op(s.next, work);
    if !s.stopping {
      assert s.handled + Current(s) + (s.queue + [op]) == s.handled + Current(s) + s.queue + [op];
    }
    assert Ordered(s');
    forall ticket: nat | ticket < s'.next
      ensures SetRight(s', ticket)
    {
      Places(s, ticket);
      HasAppend(s.queue, [op], ticket);
      HasAppend(s.accepted, [op], ticket);
      HasOne(op, ticket);
      if ticket < s.next { assert SetRight(s, ticket); }
    }
  }

  lemma PopKeepsInv(s: State)
    requires Inv(s) && Enabled(s, Pop)
    ensures Inv(Next(s, Pop))
  {
    var s' := Next(s, Pop);
    assert s.queue == [s.queue[0]] + s.queue[1..];
    assert s.handled + [] == s.handled;
    assert s.handled + ([s.queue[0]] + s.queue[1..]) == s.handled + [s.queue[0]] + s.queue[1..];
    forall ticket: nat | ticket < s'.next
      ensures SetRight(s', ticket)
    {
      HasAppend([s.queue[0]], s.queue[1..], ticket);
      assert SetRight(s, ticket);
    }
  }

  /** The worker has let go of the operation; its completion is still to be set. */
  function Dropped(s: State): State
    requires s.current.Some?
  {
    s.(current := None, handled := s.handled + [s.current.value])
  }

  lemma DroppedIsOrdered(s: State)
    requires Ordered(s) && s.current.Some?
    ensures Ordered(Dropped(s))
    ensures forall ticket :: Waiting(s, ticket) <==> Waiting(Dropped(s), ticket) || ticket == s.current.value.ticket
    ensures !Waiting(Dropped(s), s.current.value.ticket) && Has(Dropped(s).handled, s.current.value.ticket)
  {
    var op := s.current.value;
    assert s.handled + [op] + [] == s.handled + [op];
    forall ticket
      ensures Waiting(s, ticket) <==> Waiting(Dropped(s), ticket) || ticket == op.ticket
      ensures Has(s.handled + [op], ticket) <==> Has(s.handled, ticket) || ticket == op.ticket
    {
      HasOne(op, ticket);
      HasAppend(s.handled, [op], ticket);
    }
    Places(s, op.ticket);
    HasOne(op, op.ticket);
  }

  /** Setting the completion of an operation just let go of. */
  lemma CompleteKeepsInv(s: State, s': State, outcome: Outcome)
    requires Inv(s) && s.current.Some? && outcome != Refused
    requires s' == Complete(Dropped(s), s.current.value.ticket, outcome)
                   .(promises := s'.promises, activeCancelers := s'.activeCancelers)
    requires s'.activeCancelers <= s.activeCancelers
    ensures Inv(s')
  {
    DroppedIsOrdered(s);
    var t := s.current.value.ticket;
    Places(s, t);
    assert SetRight(s, t);
    forall ticket: nat | ticket < s'.next
      ensures SetRight(s', ticket)
    {
      assert Waiting(s', ticket) <==> Waiting(Dropped(s), ticket);
      assert SetRight(s, ticket);
    }
  }

  lemma ScheduleKeepsInv(s: State, task: Task)
    requires Inv(s) && s.current.Some?
    ensures Inv(Schedule(Dropped(s), s.current.value.ticket, task))
  {
    DroppedIsOrdered(s);
    var t := s.current.value.ticket;
    var s' := Schedule(Dropped(s), t, task);
    assert t !in s.tasks;
    forall ticket: nat | ticket < s'.next
      ensures SetRight(s', ticket)
    {
      assert Waiting(s', ticket) <==> Waiting(Dropped(s), ticket) || ticket == t;
      assert SetRight(s, ticket);
    }
    forall p | p in s'.activeCancelers
      ensures exists ticket | ticket in s'.tasks :: s'.tasks[ticket] == Awaiting(p)
    {
      if p in s.activeCancelers {
        var ticket :| ticket in s.tasks && s.tasks[ticket] == Awaiting(p);
        assert s'.tasks[ticket] == Awaiting(p);
      } else {
        assert s'.tasks[t] == Awaiting(p);
      }
    }
  }

  lemma HandleKeepsInv(s: State, fails: bool, id: uint32)
    requires Inv(s) && Enabled(s, Handle(fails, id))
    ensures Inv(HandleCurrent(s, fails, id))
  {
    var work := s.current.value.work;
    var fate := FateOf(s, work, fails);
    if fate.Completed? {
      CompleteKeepsInv(s, HandleCurrent(s, fails, id), fate.outcome);
    } else {
      assert Tables(s, work, fails, id) == (s.promises, s.activeCancelers);
      ScheduleKeepsInv(s, fate.task);
    }
  }

  lemma FinishKeepsInv(s: State, ticket: nat, outcome: Outcome)
    requires Inv(s) && Enabled(s, Finish(ticket, outcome))
    ensures Inv(FinishTask(s, ticket, outcome))
  {
    var s' := FinishTask(s, ticket, outcome);
    assert Current(s') == Current(s);
    Places(s, ticket);
    forall t: nat | t < s'.next
      ensures SetRight(s', t)
    {
      assert SetRight(s, t);
    }
    forall p | p in s'.activeCancelers
      ensures exists t | t in s'.tasks :: s'.tasks[t] == Awaiting(p)
    {
      var t :| t in s.tasks && s.tasks[t] == Awaiting(p);
      assert t in s'.tasks;
    }
  }

  lemma StepKeepsInv(s: State, step: Step)
    requires Inv(s) && Enabled(s, step)
    ensures Inv(Next(s, step))
  {
    match step
    case Enqueue(work) => EnqueueKeepsInv(s, work);
    case Pop => PopKeepsInv(s);
    case Handle(fails, id) => HandleKeepsInv(s, fails, id);
    case Finish(ticket, outcome) => FinishKeepsInv(s, ticket, outcome);
    case Stop => SameTickets(s, s.(stopping := true));
    case Exit => SameTickets(s, s.(exited := true, promises := {}));
  }

  lemma SameTickets(s: State, s': State)
    requires AllSetRight(s)
    requires s' == s.(stopping := s'.stopping, exited := s'.exited, promises := s'.promises)
    ensures AllSetRight(s')
  {
    forall ticket: nat | ticket < s'.next ensures SetRight(s', ticket) {
      assert SetRight(s, ticket);
    }
  }

  lemma {:induction false} RunKeepsInv(s: State, steps: seq<Step>)
    requires Inv(s) && AllEnabled(s, steps)
    ensures Inv(Run(s, steps))
    decreases |steps|
  {
    if steps != [] {
      StepKeepsInv(s, steps[0]);
      RunKeepsInv(Next(s, steps[0]), steps[1..]);
    }
  }

  // ---- what callers can rely on -----------------------------------------------------------

  /** Over any run: no completion is set twice, and operations are handled in the order accepted. */
  lemma NoCompletionIsSetTwice(steps: seq<Step>)
    requires AllEnabled(INITIAL, steps)
    ensures var s := Run(INITIAL, steps);
            && (forall ticket: nat | ticket < s.next :: ticket in s.sets && |s.sets[ticket]| <= 1)
            && s.handled + Current(s) + s.queue == s.accepted
  {
    RunKeepsInv(INITIAL, steps);
    var s := Run(INITIAL, steps);
    forall ticket: nat | ticket < s.next ensures ticket in s.sets && |s.sets[ticket]| <= 1 {
      assert SetRight(s, ticket);
    }
  }

  lemma LeftIsDone(s: State)
    requires Inv(s) && s.exited
    ensures s.queue == [] && s.tasks == map[] && s.activeCancelers == {} && s.promises == {}
    ensures s.handled == s.accepted
    ensures forall ticket: nat | ticket < s.next :: ticket in s.sets && |s.sets[ticket]| == 1
    ensures forall ticket: nat | ticket < s.next :: s.sets[ticket] == [Refused] <==> !Has(s.accepted, ticket)
  {
    forall ticket: nat | ticket < s.next
      ensures ticket in s.sets && |s.sets[ticket]| == 1 && (s.sets[ticket] == [Refused] <==> !Has(s.accepted, ticket))
    {
      assert SetRight(s, ticket);
      assert s.sets[ticket] == [s.sets[ticket][0]];
    }
    assert s.handled + [] + [] == s.handled;
    assert forall p :: p !in s.activeCancelers;
  }

  /**
   When the worker has left its loop, every completion ever handed out has been set exactly once,
   also one asked for afterwards: to a refusal if the operation came after the stop, and otherwise
   to what became of it. Everything accepted was handled, in order, and no promise or canceler is left.
   */
  lemma ExitLeavesNothingOpen(steps: seq<Step>)
    requires AllEnabled(INITIAL, steps) && Run(INITIAL, steps).exited
    ensures var s := Run(INITIAL, steps);
            && s.queue == [] && s.tasks == map[] && s.activeCancelers == {} && s.promises == {}
            && s.handled == s.accepted
            && (forall ticket: nat | ticket < s.next :: ticket in s.sets && |s.sets[ticket]| == 1)
            && (forall ticket: nat | ticket < s.next :: s.sets[ticket] == [Refused] <==> !Has(s.accepted, ticket))
  {
    RunKeepsInv(INITIAL, steps);
    LeftIsDone(Run(INITIAL, steps));
  }

  /** After the stop nothing is accepted any more, whatever else happens. */
  lemma {:induction false} StopIsFinal(s: State, steps: seq<Step>)
    requires s.stopping && AllEnabled(s, steps)
    ensures Run(s, steps).stopping && Run(s, steps).accepted == s.accepted
    decreases |steps|
  {
    if steps != [] {
      StopIsFinal(Next(s, steps[0]), steps[1..]);
    }
  }

  // ---- the worker gets done ---------------------------------------------------------------

  /** Steps the worker and its tasks still have to take, at most. */
  function WorkLeft(s: State): nat {
    3 * |s.queue| + 2 * |Current(s)| + |s.tasks|
  }

  predicate IsWork(step: Step) {
    step.Pop? || step.Handle? || step.Finish?
  }

  function WorkSteps(steps: seq<Step>): nat {
    if steps == [] then 0 else (if IsWork(steps[0]) then 1 else 0) + WorkSteps(steps[1..])
  }

  lemma TaskCount(tasks: map<nat, Task>, ticket: nat, task: Task)
    ensures |tasks[ticket := task]| <= |tasks| + 1
    ensures ticket in tasks ==> |tasks - {ticket}| + 1 == |tasks|
  {
    assert tasks[ticket := task].Keys == tasks.Keys + {ticket};
    assert |tasks.Keys| == |tasks| && |tasks[ticket := task].Keys| == |tasks[ticket := task]|;
    assert (tasks - {ticket}).Keys == tasks.Keys - {ticket};
    assert |(tasks - {ticket}).Keys| == |tasks - {ticket}|;
  }

  lemma HandleLetsGo(s: State, fails: bool, id: uint32)
    requires s.current.Some?
    ensures var s' := HandleCurrent(s, fails, id);
            s'.queue == s.queue && s'.current == None && |s'.tasks| <= |s.tasks| + 1
  {
    var op := s.current.value;
    var fate := FateOf(s, op.work, fails);
    if fate.LeftTo? {
      TaskCount(s.tasks, op.ticket, fate.task);
    }
  }

  lemma WorkFalls(s: State, step: Step)
    requires Enabled(s, step) && s.stopping
    ensures WorkLeft(Next(s, step)) + (if IsWork(step) then 1 else 0) <= WorkLeft(s)
  {
    match step
    case Finish(ticket, _) => TaskCount(s.tasks, ticket, Call);
    case Handle(fails, id) => HandleLetsGo(s, fails, id);
    case Pop => assert |s.queue[1..]| == |s.queue| - 1;
    case _ =>
  }

  /** After the stop, the pops, handlings and task ends are limited by what was there at the stop. */
  lemma {:induction false} WorkIsBounded(s: State, steps: seq<Step>)
    requires s.stopping && AllEnabled(s, steps)
    ensures WorkSteps(steps) + WorkLeft(Run(s, steps)) <= WorkLeft(s)
    decreases |steps|
  {
    if steps != [] {
      WorkFalls(s, steps[0]);
      WorkIsBounded(Next(s, steps[0]), steps[1..]);
    }
  }

  lemma SomeWork(s: State) returns (step: Step)
    requires Inv(s) && s.stopping && !s.exited && !Enabled(s, Exit)
    ensures Enabled(s, step) && IsWork(step)
  {
    if s.current.Some? {
      step := Handle(true, 0);
    } else if s.queue != [] {
      step := Pop;
    } else {
      var ticket :| ticket in s.tasks;
      step := Finish(ticket, Success);
    }
  }

  lemma FirstStep(s: State, step: Step, rest: seq<Step>)
    requires Enabled(s, step) && AllEnabled(Next(s, step), rest)
    ensures AllEnabled(s, [step] + rest) && Run(s, [step] + rest) == Run(Next(s, step), rest)
  {
    assert ([step] + rest)[1..] == rest;
  }

  lemma StaysIn(s: State, step: Step)
    requires Inv(s) && s.stopping && !s.exited && Enabled(s, step) && IsWork(step)
    ensures Next(s, step).stopping && !Next(s, step).exited
  {
  }

  /**
   The worker is never stuck: from any reachable state after the stop it can get out, in as many
   steps as there is work left and one more.
   */
  lemma {:induction false} WorkerCanLeave(s: State) returns (steps: seq<Step>)
    requires Inv(s) && s.stopping && !s.exited
    ensures AllEnabled(s, steps) && Run(s, steps).exited && |steps| <= WorkLeft(s) + 1
    decreases WorkLeft(s)
  {
    if Enabled(s, Exit) {
      FirstStep(s, Exit, []);
      steps := [Exit] + [];
    } else {
      var step := SomeWork(s);
      WorkFalls(s, step);
      StepKeepsInv(s, step);
      StaysIn(s, step);
      var rest := WorkerCanLeave(Next(s, step));
      FirstStep(s, step, rest);
      steps := [step] + rest;
    }
  }

  // ---- failing what is still queued -------------------------------------------------------

  /** The two kinds of operation that the failing of queued operations has no case for. */
  predicate Unhandled(work: Work) {
    work.DisembargoTrace? || work.ResetDisembargoTrace?
  }

  /** Completes `pending` front to back; `false` if it hits an assertion on the way. */
  function FailQueued(s: State, pending: seq<Op>): (State, bool)
    decreases |pending|
  {
    if pending == [] then (s, true)
    else if Unhandled(pending[0].work) then (s, false)
    else FailQueued(Complete(s, pending[0].ticket, Failure), pending[1..])
  }

  function FailPending(s: State): (State, bool) {
    FailQueued(s.(queue := []), s.queue)
  }

  lemma {:induction false} FailQueuedAt(s: State, pending: seq<Op>, k: nat, ticket: nat)
    requires k <= |pending| && Increasing(pending) && ticket in s.sets
    requires forall i | 0 <= i < k :: !Unhandled(pending[i].work)
    requires k < |pending| ==> Unhandled(pending[k].work)
    ensures var (s', ok) := FailQueued(s, pending);
            && (ok <==> k == |pending|) && s' == s.(sets := s'.sets) && ticket in s'.sets
            && s'.sets[ticket] == if Has(pending[..k], ticket) then s.sets[ticket] + [Failure] else s.sets[ticket]
    decreases |pending|
  {
    if k == 0 {
      assert pending[..0] == [];
    } else {
      var op, rest := pending[0], pending[1..];
      FailQueuedAt(Complete(s, op.ticket, Failure), rest, k - 1, ticket);
      assert pending[..k] == [op] + rest[..k - 1];
      HasAppend([op], rest[..k - 1], ticket);
      HasOne(op, ticket);
      IncreasingApart([op], rest[..k - 1], ticket);
    }
  }

  /**
   What a worker that leaves by an exception does to the queue: operations before the first unhandled
   one fail, that one and all after it stay open for ever. So all get an answer if and only if
   the queue holds no operation of those two kinds.
   */
  lemma FailPendingExact(s: State, k: nat, i: nat)
    requires Inv(s) && i < |s.queue|
    requires k <= |s.queue| && forall j | 0 <= j < k :: !Unhandled(s.queue[j].work)
    requires k < |s.queue| ==> Unhandled(s.queue[k].work)
    ensures FailPending(s).1 <==> forall op | op in s.queue :: !Unhandled(op.work)
    ensures FailPending(s).0.queue == []
    ensures s.queue[i].ticket in FailPending(s).0.sets
    ensures FailPending(s).0.sets[s.queue[i].ticket] == if i < k then [Failure] else []
  {
    var ticket := s.queue[i].ticket;
    IncreasingApart(s.handled + Current(s), s.queue, ticket);
    assert Has(s.queue, ticket);
    Places(s, ticket);
    assert SetRight(s, ticket);
    FailQueuedAt(s.(queue := []), s.queue, k, ticket);
    assert Has(s.queue[..k], ticket) <==> i < k by {
      if i < k { assert s.queue[..k][i].ticket == ticket; }
      assert s.queue == s.queue[..k] + s.queue[k..];
      IncreasingApart(s.queue[..k], s.queue[k..], ticket);
      if i >= k { assert s.queue[k..][i - k].ticket == ticket; }
    }
  }

  /** It happens: with one such operation queued first, neither it nor the one behind it gets an answer. */
  lemma UnhandledOperationStaysOpen(work: Work, behind: Work)
    requires Unhandled(work)
    ensures var steps := [Enqueue(work), Enqueue(behind)];
            && AllEnabled(INITIAL, steps)
            && var s := FailPending(Run(INITIAL, steps)).0;
               0 in s.sets && 1 in s.sets && s.sets[0] == [] && s.sets[1] == []
  {
    var s1 := EnqueueWork(INITIAL, work);
    var s2 := EnqueueWork(s1, behind);
    FirstStep(s1, Enqueue(behind), []);
    FirstStep(INITIAL, Enqueue(work), [Enqueue(behind)]);
    assert Run(INITIAL, [Enqueue(work), Enqueue(behind)]) == s2;
    assert s2.queue[0] == Op(0, work);
  }

  /** After the normal exit there is nothing to fail. */
  lemma NothingToFail(s: State)
    requires Inv(s) && s.exited
    ensures FailPending(s) == (s, true)
  {
  }

  // ---- the code ---------------------------------------------------------------------------

  /** Failing the pending calls aside, every method keeps what `Valid` says. */
  class RuntimeQueue {
    var queue: seq<Op>
    var stopping: bool
    var completions: map<nat, seq<Outcome>>
    var nextCompletion: nat
    var promises: set<PromiseId>
    var activePromiseCancelers: set<PromiseId>
    var tasks: map<nat, Task>
    ghost var current: Option<Op>
    ghost var exited: bool
    ghost var accepted: seq<Op>
    ghost var handled: seq<Op>

    ghost function Abs(): State
      reads this
    {
      State(queue, current, tasks, stopping, exited, promises, activePromiseCancelers,
            nextCompletion, completions, accepted, handled)
    }

    ghost predicate Valid()
      reads this
    {
      Inv(Abs())
    }

    constructor ()
      ensures Valid() && Abs() == INITIAL
    {
      queue, stopping, completions, nextCompletion := [], false, map[], 0;
      promises, activePromiseCancelers, tasks := {}, {}, map[];
      current, exited, accepted, handled := None, false, [], [];
    }

    lemma KeptBy(step: Step)
      ensures Valid() && Enabled(Abs(), step) ==> Inv(Next(Abs(), step))
    {
      if Valid() && Enabled(Abs(), step) {
        StepKeepsInv(Abs(), step);
      }
    }

    method SetCompletion(completion: nat, outcome: Outcome)
      modifies this`completions
      ensures Abs() == Complete(old(Abs()), completion, outcome)
    {
      var before := if completion in completions then completions[completion] else [];
      completions := completions[completion := before + [outcome]];
    }

    /** What every enqueue does while it holds the queue mutex. */
    method EnqueueWithCompletion(work: Work) returns (completion: nat)
      modifies this
      ensures completion == old(nextCompletion) && Abs() == Next(old(Abs()), Enqueue(work))
      ensures old(Valid()) ==> Valid()
    {
      KeptBy(Enqueue(work));
      completion := nextCompletion;
      nextCompletion := nextCompletion + 1;
      completions := completions[completion := []];
      if stopping {
        SetCompletion(completion, Refused);
        return;
      }
      queue := queue + [Op(completion, work)];
      accepted := accepted + [Op(completion, work)];
    }

    method Shutdown()
      modifies this`stopping
      ensures Abs() == Next(old(Abs()), Stop)
      ensures old(Valid()) ==> Valid()
    {
      KeptBy(Stop);
      if stopping {
        return;
      }
      stopping := true;
    }

    /** The worker at the top of its loop: an operation, a wait for events, or the way out. */
    method TakeOperation() returns (op: Option<Op>, leave: bool)
      requires Valid() && !exited && current.None?
      modifies this
      ensures Valid()
      ensures op.Some? <==> old(queue) != []
      ensures op.Some? ==> !leave && current == op && Abs() == Next(old(Abs()), Pop)
      ensures op.None? ==> (leave <==> Enabled(old(Abs()), Exit))
      ensures op.None? ==> Abs() == if leave then Next(old(Abs()), Exit) else old(Abs())
    {
      op, leave := None, false;
      KeptBy(if queue != [] then Pop else Exit);
      if queue != [] {
        op := Some(queue[0]);
        queue := queue[1..];
        current := op;
      } else if stopping {
        if tasks == map[] {
          leave := true;
          promises := {};
          exited := true;
        }
      }
    }

    method SchedulePromiseCompletion(promise: PromiseId, completion: nat)
      modifies this`activePromiseCancelers, this`tasks
      ensures activePromiseCancelers == old(activePromiseCancelers) + {promise}
      ensures tasks == old(tasks)[completion := Awaiting(promise)]
    {
      activePromiseCancelers := activePromiseCancelers + {promise};
      tasks := tasks[completion := Awaiting(promise)];
    }

    method AwaitPromise(promise: PromiseId, completion: nat)
      requires current == Some(Op(completion, Work.AwaitPromise(promise)))
      modifies this
      ensures Abs() == HandleCurrent(old(Abs()), false, 0)
      ensures old(Valid()) ==> Valid()
    {
      KeptBy(Handle(false, 0));
      ghost var op := current.value;
      current, handled := None, handled + [op];
      if promise !in promises {
        SetCompletion(completion, Failure);
        return;
      }
      promises := promises - {promise};
      SchedulePromiseCompletion(promise, completion);
    }

    method ReleasePromise(promise: PromiseId, completion: nat)
      requires current == Some(Op(completion, Work.ReleasePromise(promise)))
      modifies this
      ensures Abs() == HandleCurrent(old(Abs()), false, 0)
      ensures old(Valid()) ==> Valid()
    {
      KeptBy(Handle(false, 0));
      ghost var op := current.value;
      current, handled := None, handled + [op];
      if promise in promises {
        promises := promises - {promise};
        SetCompletion(completion, Success);
        return;
      }
      if promise in activePromiseCancelers {
        activePromiseCancelers := activePromiseCancelers - {promise};
        SetCompletion(completion, Success);
        return;
      }
      assert activePromiseCancelers - {promise} == activePromiseCancelers;
      SetCompletion(completion, Failure);
    }

    /** The continuation of an awaited promise or of a call. */
    method TaskDone(completion: nat, outcome: Outcome)
      requires completion in tasks
      modifies this
      ensures Abs() == FinishTask(old(Abs()), completion, outcome)
      ensures old(Valid()) && !exited && outcome != Refused ==> Valid()
    {
      KeptBy(Finish(completion, outcome));
      var task := tasks[completion];
      tasks := tasks - {completion};
      if task.Awaiting? {
        activePromiseCancelers := activePromiseCancelers - {task.promise};
      }
      SetCompletion(completion, outcome);
    }

    /** `false` if the loop ran into its failing assertion. */
    method FailPendingCalls() returns (ok: bool)
      modifies this`queue, this`completions
      ensures (Abs(), ok) == FailPending(old(Abs()))
    {
      var pending := queue;
      queue := [];
      for i := 0 to |pending|
        invariant FailQueued(Abs(), pending[i..]) == FailPending(old(Abs()))
      {
        assert pending[i..][1..] == pending[i + 1..];
        if Unhandled(pending[i].work) {
          return false;
        }
        SetCompletion(pending[i].ticket, Failure);
      }
      ok := true;
    }
  }
}

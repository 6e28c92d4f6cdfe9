/**
 Cancellation of deferred Lean tasks: a queue of weak references to the tasks that allow it, from
 which the release of a pending call cancels one.
 */
module DeferredTasks {
  import opened Words

  /**
   The Lean tasks to wait for and to cancel, which can be one and the same. `alive` ends when the last
   strong reference goes.
   */
  datatype Task = Task(wait: nat, cancel: nat, allowCancellation: bool, completed: bool, requested: bool, alive: bool)

  /** A Lean task that was told to cancel, on behalf of a deferred task. */
  datatype Event = Cancelled(id: nat, leanTask: nat)

  datatype State = State(tasks: map<nat, Task>, next: nat, queue: seq<nat>, pendingCalls: set<uint32>, log: seq<Event>)

  const EMPTY := State(map[], 0, [], {}, [])

  // ---- operations -------------------------------------------------------------------------

  /** Would a request for cancellation cancel the task? */
  predicate Accepts(task: Task) {
    task.allowCancellation && !task.completed && !task.requested
  }

  /** Each Lean task has a holder of its own, so that one in both roles is told twice. */
  function Events(id: nat, task: Task): seq<Event> {
    [Cancelled(id, task.cancel), Cancelled(id, task.wait)]
  }

  function Request(s: State, id: nat): (State, bool)
    requires id in s.tasks
  {
    var task := s.tasks[id];
    if !task.allowCancellation || task.completed then (s, false)
    else if task.requested then (s, false)
    else (s.(tasks := s.tasks[id := task.(requested := true)], log := s.log + Events(id, task)), true)
  }

  /** A handler defers; only tasks that allow cancellation get into the queue. */
  function Defer(s: State, wait: nat, cancel: nat, allowCancellation: bool): State {
    s.(tasks := s.tasks[s.next := Task(wait, cancel, allowCancellation, false, false, true)], next := s.next + 1,
       queue := if allowCancellation then s.queue + [s.next] else s.queue)
  }

  function Complete(s: State, id: nat): State
    requires id in s.tasks
  {
    s.(tasks := s.tasks[id := s.tasks[id].(completed := true)])
  }

  /** The destructor asks for cancellation too. */
  function Destroy(s: State, id: nat): State
    requires id in s.tasks
  {
    Request(s.(tasks := s.tasks[id := s.tasks[id].(alive := false)]), id).0
  }

  function CancelOne(s: State): State
    requires forall id | id in s.queue :: id in s.tasks
    decreases |s.queue|
  {
    if s.queue == [] then s
    else
      var id, s1 := s.queue[0], s.(queue := s.queue[1..]);
      if !s.tasks[id].alive then CancelOne(s1)
      else
        var (s2, cancelled) := Request(s1, id);
        if cancelled then s2 else CancelOne(s2)
  }

  function Release(s: State, call: uint32): (State, bool)
    requires forall id | id in s.queue :: id in s.tasks
  {
    if call !in s.pendingCalls then (s, false)
    else
      var s' := CancelOne(s);
      (s'.(pendingCalls := s'.pendingCalls - {call}), true)
  }

  datatype Op =
    | DoDefer(wait: nat, cancel: nat, allowCancellation: bool)
    | DoComplete(id: nat)
    | DoDestroy(id: nat)
    | DoStartCall(call: uint32)
    | DoAwaitCall(call: uint32)
    | DoReleaseCall(call: uint32)

  ghost predicate Queued(s: State) {
    forall id | id in s.queue :: id in s.tasks
  }

  ghost predicate Proper(s: State, op: Op) {
    (op.DoComplete? || op.DoDestroy?) ==> op.id in s.tasks && s.tasks[op.id].alive
  }

  ghost function Step(s: State, op: Op): State
    requires Proper(s, op) && Queued(s)
  {
    match op
    case DoDefer(wait, cancel, allowCancellation) => Defer(s, wait, cancel, allowCancellation)
    case DoComplete(id) => Complete(s, id)
    case DoDestroy(id) => Destroy(s, id)
    case DoStartCall(call) => s.(pendingCalls := s.pendingCalls + {call})
    case DoAwaitCall(call) => s.(pendingCalls := s.pendingCalls - {call})
    case DoReleaseCall(call) => Release(s, call).0
  }

  // ---- what one release does --------------------------------------------------------------

  predicate CanCancel(task: Task) {
    task.alive && Accepts(task)
  }

  predicate Cancellable(s: State, id: nat)
    requires id in s.tasks
  {
    CanCancel(s.tasks[id])
  }

  /** `k` is the first position in the queue whose task can be cancelled; the length if there is none. */
  ghost predicate FirstCancellable(s: State, k: nat)
    requires Queued(s)
  {
    && k <= |s.queue|
    && (forall j | 0 <= j < k :: !Cancellable(s, s.queue[j]))
    && (k < |s.queue| ==> Cancellable(s, s.queue[k]))
  }

  /** That one task is cancelled and no other, and the queue is left with what came after it. */
  lemma {:induction false} CancelOneExact(s: State, k: nat)
    requires Queued(s) && FirstCancellable(s, k)
    ensures CancelOne(s) == if k == |s.queue| then s.(queue := [])
                            else Request(s.(queue := s.queue[k + 1..]), s.queue[k]).0
    decreases |s.queue|
  {
    if k == 0 {
      if s.queue == [] { assert s == s.(queue := []); }
    } else {
      var s1 := s.(queue := s.queue[1..]);
      assert !Cancellable(s, s.queue[0]);
      assert forall j | 0 <= j < |s1.queue| :: s1.queue[j] == s.queue[j + 1];
      CancelOneExact(s1, k - 1);
      assert k < |s.queue| ==> s1.queue[k..] == s.queue[k + 1..];
    }
  }

  lemma {:induction false} FirstCancellableExists(s: State, n: nat) returns (k: nat)
    requires Queued(s) && n <= |s.queue| && forall j | 0 <= j < n :: !Cancellable(s, s.queue[j])
    ensures FirstCancellable(s, k)
    decreases |s.queue| - n
  {
    if n == |s.queue| || Cancellable(s, s.queue[n]) {
      k := n;
    } else {
      k := FirstCancellableExists(s, n + 1);
    }
  }

  // ---- over whole runs --------------------------------------------------------------------

  /** How often a deferred task has told this Lean task to cancel. */
  function Times(log: seq<Event>, event: Event): nat {
    multiset(log)[event]
  }

  /** The queue is in order of age and holds every task that can be cancelled. */
  ghost predicate QueueRight(s: State) {
    && Queued(s)
    && (forall i, j | 0 <= i < j < |s.queue| :: s.queue[i] < s.queue[j])
    && (forall id | id in s.tasks :: Cancellable(s, id) ==> id in s.queue)
  }

  /** In how many roles a deferred task has this Lean task. */
  function Roles(task: Task, leanTask: nat): nat {
    (if task.cancel == leanTask then 1 else 0) + (if task.wait == leanTask then 1 else 0)
  }

  /** A task has been told to cancel exactly if cancellation was requested, and then once for each role. */
  ghost predicate ToldOnce(s: State) {
    forall event: Event ::
      Times(s.log, event)
      == if event.id in s.tasks && s.tasks[event.id].requested then Roles(s.tasks[event.id], event.leanTask) else 0
  }

  ghost predicate Inv(s: State) {
    QueueRight(s) && ToldOnce(s) && forall id | id in s.tasks :: id < s.next
  }

  lemma RequestKeepsInv(s: State, id: nat)
    requires id in s.tasks && Inv(s)
    ensures Inv(Request(s, id).0)
  {
    var s', told := Request(s, id).0, Events(id, s.tasks[id]);
    if Accepts(s.tasks[id]) {
      forall event: Event
        ensures Times(s'.log, event) == Times(s.log, event) + multiset(told)[event]
      {
        assert multiset(s.log + told) == multiset(s.log) + multiset(told);
      }
    }
  }

  /** Entries may go from the queue's front once they cannot be cancelled. */
  lemma DiscardKeepsInv(s: State, k: nat)
    requires Inv(s) && k <= |s.queue| && forall j | 0 <= j < k :: !Cancellable(s, s.queue[j])
    ensures Inv(s.(queue := s.queue[k..]))
  {
    var s' := s.(queue := s.queue[k..]);
    forall id | id in s'.tasks && Cancellable(s', id)
      ensures id in s'.queue
    {
      var j :| 0 <= j < |s.queue| && s.queue[j] == id;
      assert s'.queue[j - k] == id;
    }
  }

  lemma RequestThenDiscard(s: State, k: nat)
    requires Inv(s) && FirstCancellable(s, k) && k < |s.queue|
    ensures CancelOne(s) == Request(s, s.queue[k]).0.(queue := s.queue[k + 1..])
    ensures Inv(Request(s, s.queue[k]).0) && Request(s, s.queue[k]).0.queue == s.queue
    ensures forall j | 0 <= j < k + 1 :: !Cancellable(Request(s, s.queue[k]).0, s.queue[j])
  {
    CancelOneExact(s, k);
    RequestKeepsInv(s, s.queue[k]);
  }

  lemma CancelOneKeepsInv(s: State)
    requires Inv(s)
    ensures Inv(CancelOne(s))
  {
    var k := FirstCancellableExists(s, 0);
    if k == |s.queue| {
      CancelOneExact(s, k);
      DiscardKeepsInv(s, k);
    } else {
      RequestThenDiscard(s, k);
      DiscardKeepsInv(Request(s, s.queue[k]).0, k + 1);
    }
  }

  lemma DeferKeepsInv(s: State, wait: nat, cancel: nat, allowCancellation: bool)
    requires Inv(s)
    ensures Inv(Defer(s, wait, cancel, allowCancellation))
  {
    var s' := Defer(s, wait, cancel, allowCancellation);
    assert forall id | id in s.queue :: id < s.next;
    forall i, j | 0 <= i < j < |s'.queue|
      ensures s'.queue[i] < s'.queue[j]
    {
      if j == |s.queue| { assert s.queue[i] in s.queue; }
    }
    assert forall id | id in s.tasks :: Cancellable(s', id) == Cancellable(s, id);
    assert forall id | id in s.queue :: id in s'.queue;
    assert allowCancellation ==> s'.queue[|s.queue|] == s.next;
  }

  lemma MarkKeepsInv(s: State, id: nat, task: Task)
    requires Inv(s) && id in s.tasks
    requires task == s.tasks[id].(alive := false) || task == s.tasks[id].(completed := true)
    ensures Inv(s.(tasks := s.tasks[id := task]))
  {
    var s' := s.(tasks := s.tasks[id := task]);
    assert forall i | i in s'.tasks && Cancellable(s', i) :: Cancellable(s, i);
  }

  lemma StepKeepsInv(s: State, op: Op)
    requires Inv(s) && Proper(s, op)
    ensures Inv(Step(s, op))
  {
    match op
    case DoDefer(wait, cancel, allowCancellation) => DeferKeepsInv(s, wait, cancel, allowCancellation);
    case DoComplete(id) => MarkKeepsInv(s, id, s.tasks[id].(completed := true));
    case DoDestroy(id) =>
      var dead := s.tasks[id].(alive := false);
      MarkKeepsInv(s, id, dead);
      RequestKeepsInv(s.(tasks := s.tasks[id := dead]), id);
    case DoReleaseCall(call) => CancelOneKeepsInv(s);
    case _ =>
  }

  ghost predicate AllProper(s: State, ops: seq<Op>)
    requires Inv(s)
    decreases |ops|
  {
    ops != [] ==> Proper(s, ops[0]) && (StepKeepsInv(s, ops[0]); AllProper(Step(s, ops[0]), ops[1..]))
  }

  ghost function Run(s: State, ops: seq<Op>): (s': State)
    requires Inv(s) && AllProper(s, ops)
    ensures Inv(s')
    decreases |ops|
  {
    if ops == [] then s else StepKeepsInv(s, ops[0]); Run(Step(s, ops[0]), ops[1..])
  }

  /** Where every run starts. */
  ghost function Start(): (s: State)
    ensures s == EMPTY && Inv(s)
  {
    EMPTY
  }

  /**
   Over any run, the destructor's request included: a deferred task tells a Lean task to cancel as
   often as it has it in a role, which is once where the two are different, if cancellation was
   requested, and never otherwise.
   */
  lemma ToldOncePerRole(ops: seq<Op>, event: Event)
    requires AllProper(Start(), ops)
    ensures var s := Run(Start(), ops);
            && Times(s.log, event)
               == (if event.id in s.tasks && s.tasks[event.id].requested
                   then Roles(s.tasks[event.id], event.leanTask) else 0)
            && (Times(s.log, event) > 1 ==> s.tasks[event.id].wait == s.tasks[event.id].cancel)
  {
    assert ToldOnce(Run(Start(), ops));
  }

  // ---- who is told --------------------------------------------------------------------------

  /** A request takes effect on a task that allows it, is not completed and has had none; no other task changes. */
  lemma RequestExact(s: State, id: nat)
    requires id in s.tasks
    ensures var task, (s', cancelled) := s.tasks[id], Request(s, id);
            && (cancelled <==> task.allowCancellation && !task.completed && !task.requested)
            && s' == if cancelled then
                       s.(tasks := s.tasks[id := task.(requested := true)],
                          log := s.log + [Cancelled(id, task.cancel), Cancelled(id, task.wait)])
                     else s
  {
  }

  /** The last reference going is a request too. */
  lemma DestroyExact(s: State, id: nat)
    requires id in s.tasks
    ensures var task, s' := s.tasks[id], Destroy(s, id);
            var told := task.allowCancellation && !task.completed && !task.requested;
            && s'.tasks == s.tasks[id := task.(alive := false, requested := task.requested || told)]
            && s'.log == s.log + if told then [Cancelled(id, task.cancel), Cancelled(id, task.wait)] else []
  {
    RequestExact(s.(tasks := s.tasks[id := s.tasks[id].(alive := false)]), id);
  }

  /** A deferred task starts with nothing requested, last in the queue if it may be cancelled at all. */
  lemma DeferExact(s: State, wait: nat, cancel: nat, allowCancellation: bool)
    ensures var s' := Defer(s, wait, cancel, allowCancellation);
            && s'.tasks == s.tasks[s.next := Task(wait, cancel, allowCancellation, false, false, true)]
            && s'.next == s.next + 1 && s'.log == s.log
            && s'.queue == s.queue + if allowCancellation then [s.next] else []
  {
  }

  /** Neither completed tasks nor those that do not allow it can be cancelled any more. */
  predicate Immune(task: Task) {
    (task.completed || !task.allowCancellation) && !task.requested
  }

  lemma StepLeavesImmune(s: State, op: Op, id: nat)
    requires Inv(s) && Proper(s, op) && id in s.tasks && Immune(s.tasks[id])
    ensures id in Step(s, op).tasks && Immune(Step(s, op).tasks[id])
  {
    match op
    case DoDestroy(other) => DestroyExact(s, other);
    case DoReleaseCall(_) =>
      var k := FirstCancellableExists(s, 0);
      CancelOneExact(s, k);
      if k < |s.queue| { RequestExact(s.(queue := s.queue[k + 1..]), s.queue[k]); }
    case _ =>
  }

  lemma {:induction false} RunLeavesImmune(s: State, ops: seq<Op>, id: nat)
    requires Inv(s) && AllProper(s, ops) && id in s.tasks && Immune(s.tasks[id])
    ensures id in Run(s, ops).tasks && Immune(Run(s, ops).tasks[id])
    decreases |ops|
  {
    if ops != [] {
      StepKeepsInv(s, ops[0]);
      StepLeavesImmune(s, ops[0], id);
      RunLeavesImmune(Step(s, ops[0]), ops[1..], id);
    }
  }

  /** Completing a task marks it and nothing else. */
  lemma CompleteExact(s: State, id: nat)
    requires id in s.tasks
    ensures Complete(s, id) == s.(tasks := s.tasks[id := s.tasks[id].(completed := true)])
    ensures !s.tasks[id].requested ==> Immune(Complete(s, id).tasks[id])
  {
  }

  /**
   A task that was completed before anybody asked to cancel it is never told to, however many calls are
   released after that and whenever its last reference goes. Nor is one that does not allow it.
   */
  lemma ImmuneIsNeverTold(s: State, id: nat, ops: seq<Op>, leanTask: nat)
    requires Inv(s) && AllProper(s, ops) && id in s.tasks && Immune(s.tasks[id])
    ensures Times(Run(s, ops).log, Cancelled(id, leanTask)) == 0
  {
    RunLeavesImmune(s, ops, id);
    assert ToldOnce(Run(s, ops));
  }

  lemma OldestIsFirst(s: State, id: nat) returns (k: nat)
    requires Inv(s) && id in s.tasks && Cancellable(s, id)
    requires forall other | other in s.tasks && Cancellable(s, other) :: id <= other
    ensures k < |s.queue| && s.queue[k] == id && FirstCancellable(s, k)
  {
    k :| 0 <= k < |s.queue| && s.queue[k] == id;
    forall j | 0 <= j < k ensures !Cancellable(s, s.queue[j]) {
      assert s.queue[j] in s.queue && s.queue[j] < id;
    }
  }

  lemma InFront(queue: seq<nat>, n: nat, x: nat) returns (j: nat)
    requires n <= |queue| && x in queue && x !in queue[n..]
    ensures j < n && queue[j] == x
  {
    assert queue == queue[..n] + queue[n..];
    assert x in queue[..n];
    j :| 0 <= j < n && queue[..n][j] == x;
  }

  /**
   Releasing a pending call cancels the oldest task that can be cancelled, and no other; the
   entries thrown out of the queue on the way could not be cancelled.
   */
  lemma ReleaseCancelsTheOldest(s: State, call: uint32, id: nat)
    requires Inv(s) && call in s.pendingCalls && id in s.tasks && Cancellable(s, id)
    requires forall other | other in s.tasks && Cancellable(s, other) :: id <= other
    ensures var s' := Release(s, call).0;
            && s'.tasks == s.tasks[id := s.tasks[id].(requested := true)]
            && s'.log == s.log + Events(id, s.tasks[id])
            && (forall other | other in s.queue && other !in s'.queue :: !Cancellable(s', other))
  {
    var k := OldestIsFirst(s, id);
    RequestThenDiscard(s, k);
    var s1, s' := Request(s, id).0, CancelOne(s);
    forall other | other in s.queue && other !in s'.queue
      ensures !Cancellable(s', other)
    {
      var j := InFront(s.queue, k + 1, other);
      assert !Cancellable(s1, s.queue[j]);
    }
  }

  /** A known call goes, whatever it cancels, and an unknown one is told so. */
  lemma ReleaseExact(s: State, call: uint32)
    requires Inv(s)
    ensures Release(s, call).1 <==> call in s.pendingCalls
    ensures Release(s, call).0.pendingCalls == s.pendingCalls - {call}
  {
    var k := FirstCancellableExists(s, 0);
    CancelOneExact(s, k);
    if call !in s.pendingCalls { assert s.pendingCalls - {call} == s.pendingCalls; }
  }

  /** With nothing to cancel a release cancels nothing, and neither does one of an unknown call. */
  lemma ReleaseCancelsNothingElse(s: State, call: uint32)
    requires Inv(s)
    ensures call !in s.pendingCalls ==> Release(s, call) == (s, false)
    ensures (forall id | id in s.tasks :: !Cancellable(s, id))
            ==> Release(s, call).0.tasks == s.tasks && Release(s, call).0.log == s.log
  {
    if forall id | id in s.tasks :: !Cancellable(s, id) {
      CancelOneExact(s, |s.queue|);
    }
  }

  lemma StepStaysUncancellable(s: State, op: Op, id: nat)
    requires Inv(s) && Proper(s, op) && id in s.tasks && !Cancellable(s, id)
    ensures id in Step(s, op).tasks && !Cancellable(Step(s, op), id)
  {
    if op.DoReleaseCall? {
      var k := FirstCancellableExists(s, 0);
      CancelOneExact(s, k);
    }
  }

  /** So what a release throws out of the queue is never missed: it cannot become cancellable again. */
  lemma {:induction false} StaysUncancellable(s: State, ops: seq<Op>, id: nat)
    requires Inv(s) && AllProper(s, ops) && id in s.tasks && !Cancellable(s, id)
    ensures id in Run(s, ops).tasks && !Cancellable(Run(s, ops), id)
    decreases |ops|
  {
    if ops != [] {
      StepKeepsInv(s, ops[0]);
      StepStaysUncancellable(s, ops[0], id);
      StaysUncancellable(Step(s, ops[0]), ops[1..], id);
    }
  }

  // ---- the code ---------------------------------------------------------------------------

  /** The holder of one reference to a Lean task. */
  class DeferredLeanTask {
    const task: nat

    constructor (task: nat)
      ensures this.task == task
    {
      this.task := task;
    }
  }

  class DeferredLeanTaskState {
    const waitTask: DeferredLeanTask
    const cancelTask: DeferredLeanTask
    const allowCancellation: bool
    var completed: bool
    var cancellationRequested: bool
    /** Ends with the last strong reference; a weak one then leads nowhere. */
    var alive: bool
    /** The Lean tasks told to cancel. */
    ghost var told: seq<nat>

    constructor (waitTask: DeferredLeanTask, cancelTask: DeferredLeanTask, allowCancellation: bool)
      ensures this.waitTask == waitTask && this.cancelTask == cancelTask
      ensures AsTask() == Task(waitTask.task, cancelTask.task, allowCancellation, false, false, true) && told == []
    {
      this.waitTask, this.cancelTask, this.allowCancellation := waitTask, cancelTask, allowCancellation;
      completed, cancellationRequested, alive, told := false, false, true, [];
    }

    function AsTask(): Task
      reads this
    {
      Task(waitTask.task, cancelTask.task, allowCancellation, completed, cancellationRequested, alive)
    }

    /** The Lean tasks it cancels. The holders are compared, not the Lean tasks in them. */
    function Cancels(): seq<nat> {
      [cancelTask.task] + if waitTask != cancelTask then [waitTask.task] else []
    }

    /** With a holder for each role it is what the specification logs: every Lean task once for each role it has. */
    lemma CancelsAreEvents(id: nat, leanTask: nat)
      requires waitTask != cancelTask
      ensures |Cancels()| == |Events(id, AsTask())|
      ensures forall i | 0 <= i < |Cancels()| :: Events(id, AsTask())[i] == Cancelled(id, Cancels()[i])
      ensures multiset(Cancels())[leanTask] == Roles(AsTask(), leanTask)
    {
    }

    method RequestCancellation() returns (cancelled: bool)
      modifies this`cancellationRequested, this`told
      ensures cancelled == Accepts(old(AsTask()))
      ensures AsTask() == if cancelled then old(AsTask()).(requested := true) else old(AsTask())
      ensures told == if cancelled then old(told) + Cancels() else old(told)
      ensures cancelled <==> allowCancellation && !completed && !old(cancellationRequested)
      ensures cancelled && waitTask != cancelTask ==> told == old(told) + [cancelTask.task, waitTask.task]
      ensures cancelled && waitTask == cancelTask ==> told == old(told) + [cancelTask.task]
    {
      if !allowCancellation || completed {
        return false;
      }
      var before := cancellationRequested;
      cancellationRequested := true;
      if before {
        return false;
      }
      told := told + [cancelTask.task];
      if waitTask != cancelTask {
        told := told + [waitTask.task];
      }
      cancelled := true;
    }

    method Destroy()
      requires alive
      modifies this`alive, this`cancellationRequested, this`told
      ensures AsTask()
              == old(AsTask()).(alive := false, requested := old(cancellationRequested) || Accepts(old(AsTask())))
      ensures told == if Accepts(old(AsTask())) then old(told) + Cancels() else old(told)
    {
      alive := false;
      var cancelled := RequestCancellation();
    }
  }

  class PendingCalls {
    var activeCancelableDeferredTasks: seq<DeferredLeanTaskState>
    var pendingCalls: set<uint32>

    constructor ()
      ensures activeCancelableDeferredTasks == [] && pendingCalls == {}
    {
      activeCancelableDeferredTasks, pendingCalls := [], {};
    }

    /** A decoded action has a new holder for each of its two tasks. */
    method DeferTask(wait: nat, cancel: nat, allowCancellation: bool) returns (state: DeferredLeanTaskState)
      modifies this`activeCancelableDeferredTasks
      ensures fresh(state) && state.waitTask != state.cancelTask
      ensures state.AsTask() == Task(wait, cancel, allowCancellation, false, false, true)
      ensures activeCancelableDeferredTasks
              == old(activeCancelableDeferredTasks) + if allowCancellation then [state] else []
    {
      var waitTask := new DeferredLeanTask(wait);
      var cancelTask := new DeferredLeanTask(cancel);
      state := new DeferredLeanTaskState(waitTask, cancelTask, allowCancellation);
      if allowCancellation {
        activeCancelableDeferredTasks := activeCancelableDeferredTasks + [state];
      }
    }

    /**
     `queue` is the old queue, and `k` the first position in it whose task can be cancelled, or its length if there is
     none. That task has been cancelled and has told its Lean tasks so, the queue is what came after it,
     and all other tasks of the queue are as they were.
     */
    twostate predicate FirstCancelled(queue: seq<DeferredLeanTaskState>, k: nat)
      reads this, queue
    {
      && k <= |queue|
      && (forall j | 0 <= j < k :: !CanCancel(old(queue[j].AsTask())))
      && (k < |queue| ==>
            && CanCancel(old(queue[k].AsTask()))
            && queue[k].AsTask() == old(queue[k].AsTask()).(requested := true)
            && queue[k].told == old(queue[k].told) + queue[k].Cancels())
      && activeCancelableDeferredTasks == (if k < |queue| then queue[k + 1..] else [])
      && (forall j | 0 <= j < |queue| && (k == |queue| || queue[j] != queue[k]) :: unchanged(queue[j]))
    }

    method CancelOneActiveDeferredTask() returns (ghost k: nat)
      modifies this`activeCancelableDeferredTasks, activeCancelableDeferredTasks
      ensures FirstCancelled(old(activeCancelableDeferredTasks), k)
    {
      k := 0;
      ghost var queue := activeCancelableDeferredTasks;
      while activeCancelableDeferredTasks != []
        invariant k <= |queue| && activeCancelableDeferredTasks == queue[k..]
        invariant forall j | 0 <= j < k :: !CanCancel(old(activeCancelableDeferredTasks[j].AsTask()))
        invariant forall j | 0 <= j < |queue| :: unchanged(queue[j])
        decreases |activeCancelableDeferredTasks|
      {
        var taskState := activeCancelableDeferredTasks[0];
        activeCancelableDeferredTasks := activeCancelableDeferredTasks[1..];
        if taskState.alive {
          var cancelled := taskState.RequestCancellation();
          if cancelled {
            return;
          }
        }
        k := k + 1;
      }
    }

    method ReleasePendingCall(call: uint32) returns (known: bool, ghost k: nat)
      modifies this, activeCancelableDeferredTasks
      ensures known == (call in old(pendingCalls)) && pendingCalls == old(pendingCalls) - {call}
      ensures !known ==> activeCancelableDeferredTasks == old(activeCancelableDeferredTasks)
      ensures !known ==>
                forall j | 0 <= j < |activeCancelableDeferredTasks| :: unchanged(activeCancelableDeferredTasks[j])
      ensures known ==> FirstCancelled(old(activeCancelableDeferredTasks), k)
    {
      if call !in pendingCalls {
        return false, 0;
      }
      k := CancelOneActiveDeferredTask();
      pendingCalls := pendingCalls - {call};
      known := true;
    }
  }
}

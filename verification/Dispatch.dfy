/**
 Dispatch of an incoming call to a Lean handler. The capabilities of the request get ids for the
 duration of the call; what the call comes to, and which of them survive it, is what this module pins
 down. The servers that carry it out are in `DispatchServers`.
 */
module Dispatch {
  import opened Words
  import opened IdAllocator
  import opened TargetTable
  import opened TargetRuns
  import opened CapTable
  import opened HandlerActions
  import opened RemoteExceptions

  // ---- request capabilities ---------------------------------------------------------------

  /** A null entry of the request's capability table gets no id. */
  function Imports(entries: seq<Option<Cap>>): seq<Op> {
    if entries == [] then []
    else (if entries[0].Some? then [Register(entries[0].value)] else []) + Imports(entries[1..])
  }

  /** The ids written into the table handed to the handler: 0 for a null entry. */
  ghost function TableIds(t: Table, entries: seq<Option<Cap>>): seq<uint32>
    decreases |entries|
  {
    if entries == [] then []
    else if entries[0].Some? then [FreshId(t)] + TableIds(AddTarget(t, entries[0].value), entries[1..])
    else [0] + TableIds(t, entries[1..])
  }

  /** The ids issued for the request. */
  ghost function RequestIds(t: Table, entries: seq<Option<Cap>>): seq<uint32>
    decreases |entries|
  {
    if entries == [] then []
    else if entries[0].Some? then [FreshId(t)] + RequestIds(AddTarget(t, entries[0].value), entries[1..])
    else RequestIds(t, entries[1..])
  }

  lemma {:induction false} RunConcat(t: Table, a: seq<Op>, b: seq<Op>)
    ensures Run(t, a + b) == Run(Run(t, a), b)
    decreases |a|
  {
    if a == [] {
      assert a + b == b;
    } else {
      assert (a + b)[1..] == a[1..] + b;
      RunConcat(Step(t, a[0]), a[1..], b);
    }
  }

  lemma {:induction false} HistoryConcat(h: History, t: Table, a: seq<Op>, b: seq<Op>)
    ensures HistoryOf(h, t, a + b) == HistoryOf(HistoryOf(h, t, a), Run(t, a), b)
    decreases |a|
  {
    if a == [] {
      assert a + b == b;
    } else {
      assert (a + b)[1..] == a[1..] + b;
      HistoryConcat(Observe(h, t, a[0]), Step(t, a[0]), a[1..], b);
    }
  }

  /** The table as the handler left it. */
  ghost function AfterHandler(t: Table, entries: seq<Option<Cap>>, handler: seq<Op>): Table {
    Run(t, Imports(entries) + handler)
  }

  /** Enough ids are left for the request and for all the handler does. */
  ghost predicate IdsSuffice(h: History, t: Table, entries: seq<Option<Cap>>, handler: seq<Op>) {
    Inv(h, t) && HistoryOf(h, t, Imports(entries) + handler).issued + 1 < U32
  }

  lemma DistinctCons(x: uint32, s: seq<uint32>)
    requires x !in s && Distinct(s)
    ensures Distinct([x] + s)
  {
  }

  /** Request ids are new, nonzero and pairwise distinct. */
  lemma {:induction false} RequestIdsAreFresh(h: History, t: Table, entries: seq<Option<Cap>>)
    requires Inv(h, t) && HistoryOf(h, t, Imports(entries)).issued + 1 < U32
    ensures forall id | id in RequestIds(t, entries) :: t.next <= id && 0 < id && id !in t.targets
    ensures Distinct(RequestIds(t, entries))
    decreases |entries|
  {
    if entries != [] {
      if entries[0].Some? {
        var op := Register(entries[0].value);
        assert Imports(entries)[1..] == Imports(entries[1..]);
        IssuedGrows(Observe(h, t, op), Step(t, op), Imports(entries[1..]));
        FreshIsCounter(h, t);
        StepKeepsInv(h, t, op);
        RequestIdsAreFresh(Observe(h, t, op), Step(t, op), entries[1..]);
        var rest := RequestIds(Step(t, op), entries[1..]);
        assert RequestIds(t, entries) == [t.next] + rest && t.next !in rest;
        DistinctCons(t.next, rest);
      } else {
        assert Imports(entries) == Imports(entries[1..]);
        RequestIdsAreFresh(h, t, entries[1..]);
      }
    }
  }

  /** Encoding `entries` from `start` has come to table `t`, with `rest` still to do. */
  ghost predicate EncodesRest(start: Table, entries: seq<Option<Cap>>, h: History, t: Table, rest: seq<Option<Cap>>,
                              issued: seq<uint32>, written: seq<uint32>)
  {
    && Run(t, Imports(rest)) == Run(start, Imports(entries))
    && HistoryOf(h, t, Imports(rest)).issued + 1 < U32
    && issued + RequestIds(t, rest) == RequestIds(start, entries)
    && written + TableIds(t, rest) == TableIds(start, entries)
  }

  lemma Regroup(a: seq<uint32>, x: uint32, b: seq<uint32>)
    ensures a + [x] + b == a + ([x] + b)
  {
  }

  lemma ImportsHead(entry: Option<Cap>, rest: seq<Option<Cap>>, entries: seq<Option<Cap>>)
    requires entries == [entry] + rest
    ensures Imports(entries) == (if entry.Some? then [Register(entry.value)] else []) + Imports(rest)
    ensures if entry.Some? then Imports(entries)[1..] == Imports(rest) else Imports(entries) == Imports(rest)
  {
    assert entries[1..] == rest;
  }

  lemma EncodeOneMore(start: Table, entries: seq<Option<Cap>>, h: History, t: Table, rest: seq<Option<Cap>>,
                      issued: seq<uint32>, written: seq<uint32>)
    requires rest != [] && EncodesRest(start, entries, h, t, rest, issued, written)
    ensures rest[0].Some? ==>
              var op := Register(rest[0].value);
              && Observe(h, t, op).issued + 1 < U32
              && EncodesRest(start, entries, Observe(h, t, op), Step(t, op), rest[1..],
                             issued + [FreshId(t)], written + [FreshId(t)])
    ensures rest[0].None? ==> EncodesRest(start, entries, h, t, rest[1..], issued, written + [0])
  {
    ImportsHead(rest[0], rest[1..], rest);
    if rest[0].Some? {
      var op := Register(rest[0].value);
      var t' := Step(t, op);
      IssuedGrows(Observe(h, t, op), t', Imports(rest[1..]));
      Regroup(issued, FreshId(t), RequestIds(t', rest[1..]));
      Regroup(written, FreshId(t), TableIds(t', rest[1..]));
    } else {
      Regroup(written, 0, TableIds(t, rest[1..]));
    }
  }

  // ---- looking capabilities up ------------------------------------------------------------

  function FirstUnknown(live: set<uint32>, caps: seq<uint32>): (id: Option<uint32>)
    ensures id == None <==> forall c | c in caps && c != 0 :: c in live
    ensures id.Some? ==> id.value in caps && id.value != 0 && id.value !in live
  {
    if caps == [] then None
    else if caps[0] != 0 && caps[0] !in live then Some(caps[0])
    else FirstUnknown(live, caps[1..])
  }

  lemma {:induction false} FirstUnknownWithin(live: set<uint32>, fewer: set<uint32>, caps: seq<uint32>)
    requires forall c | c in caps && c != 0 :: c in live <==> c in fewer
    ensures FirstUnknown(live, caps) == FirstUnknown(fewer, caps)
  {
    if caps != [] {
      FirstUnknownWithin(live, fewer, caps[1..]);
    }
  }

  lemma EncodeDone(start: Table, entries: seq<Option<Cap>>, h: History, t: Table, rest: seq<Option<Cap>>,
                   issued: seq<uint32>, written: seq<uint32>)
    requires rest == [] && EncodesRest(start, entries, h, t, rest, issued, written)
    ensures t == Run(start, Imports(entries))
    ensures issued == RequestIds(start, entries) && written == TableIds(start, entries)
  {
    assert issued + [] == issued && written + [] == written;
  }

  /** Dropping request ids a response does not name does not change what the response finds. */
  lemma KeptLookups(t: Table, requestIds: seq<uint32>, response: seq<uint32>)
    ensures FirstUnknown(DropAll(t, Elems(requestIds) - NonZero(response)).targets.Keys, response)
            == FirstUnknown(t.targets.Keys, response)
  {
    FirstUnknownWithin(
      DropAll(t, Elems(requestIds) - NonZero(response)).targets.Keys, t.targets.Keys, response);
  }

  // ---- verdicts ---------------------------------------------------------------------------

  /**
   Whether the message reader accepts the payload and the pipeline bytes; and, should the action wait
   for a task, how that task has failed if it is finished already and has.
   */
  datatype Environment = Environment(payload: bool, pipeline: bool, taskFailure: Option<Failure>)

  datatype Failure =
    | HandlerFailed
    | TaskFailed
    | Undecodable(error: HandlerActions.DecodeError)
    | ForwardOptionsWithoutForwardCall
    | ExceptionTypeWithoutThrow
    | PipelineWithoutDefer
    | OnlyPipelineWithoutCaller
    | CapsWithoutPayload
    | BadPayload
    | BadCapTable
    | UnknownCap(id: uint32)
    | Remote(exceptionType: ExceptionType, message: string, detail: Bytes)
    | LateCancellation
    | LateStreaming

  /** The call that an action forwards. */
  datatype Outgoing = Outgoing(
    target: uint32, interfaceId: nat, methodId: nat, payload: Bytes, caps: seq<uint32>,
    resultsToCaller: bool, noPromisePipelining: bool, onlyPromisePipeline: bool)

  /** How a dispatch ends; `cleaned` says whether the throwing branch has cleaned up itself. */
  datatype Verdict =
    | Answered(response: seq<uint32>)
    | AnswerFailed(response: seq<uint32>, failure: Failure)
    | Streamed(response: seq<uint32>)
    | Forwarded(call: Outgoing)
    | Deferred
    | Threw(failure: Failure, cleaned: bool)
  {
    predicate Throws() { AnswerFailed? || Threw? }
    predicate Cleans() { !Deferred? && (Threw? ==> cleaned) }
  }

  /** A payload and the ids of its capability table, as results or as a pipeline. */
  function PayloadFailure(live: set<uint32>, caps: seq<uint32>, readable: bool): Option<Failure> {
    if !readable then Some(BadPayload)
    else if FirstUnknown(live, caps).Some? then Some(UnknownCap(FirstUnknown(live, caps).value))
    else None
  }

  /** The same where an empty payload is allowed, without capabilities. */
  function OptionalPayloadFailure(live: set<uint32>, bytes: Bytes, caps: seq<uint32>, readable: bool): Option<Failure> {
    if bytes != [] then PayloadFailure(live, caps, readable)
    else if caps != [] then Some(CapsWithoutPayload)
    else None
  }

  function PipelineFailure(live: set<uint32>, bytes: Bytes, caps: Bytes, readable: bool): Option<Failure> {
    if bytes == [] then (if caps != [] then Some(CapsWithoutPayload) else None)
    else
      match DecodeCaps(caps)
      case Err(_) => Some(BadCapTable)
      case Ok(ids) => PayloadFailure(live, ids, readable)
  }

  predicate ForwardOptions(o: Options) {
    o.sendResultsToCaller || o.noPromisePipelining || o.onlyPromisePipeline
  }

  /** The checks made before the core of the action is looked at. */
  function OptionsFailure(live: set<uint32>, a: Action, env: Environment): Option<Failure> {
    var o := a.options;
    if ForwardOptions(o) && !a.core.AsyncCall? then Some(ForwardOptionsWithoutForwardCall)
    else if o.exceptionType != Failed && !a.core.ThrowRemote? then Some(ExceptionTypeWithoutThrow)
    else if o.pipeline == None then None
    else if !a.core.AwaitTask? then Some(PipelineWithoutDefer)
    else PipelineFailure(live, o.pipeline.value.0, o.pipeline.value.1, env.pipeline)
  }

  function CallVerdict(live: set<uint32>, core: Core, o: Options, env: Environment): Verdict
    requires core.AsyncCall? || core.TailCall?
  {
    if core.target !in live then Threw(UnknownCap(core.target), true)
    else
      match DecodeCaps(core.payloadCaps)
      case Err(_) => Threw(BadCapTable, false)
      case Ok(ids) =>
        var failure := OptionalPayloadFailure(live, core.payloadBytes, ids, env.payload);
        if failure.Some? then Threw(failure.value, false)
        else if core.AsyncCall? && !o.sendResultsToCaller && o.onlyPromisePipeline then
          Threw(OnlyPipelineWithoutCaller, true)
        else
          Forwarded(Outgoing(core.target, core.interfaceId, core.methodId, core.payloadBytes, ids,
                             core.TailCall? || o.sendResultsToCaller, o.noPromisePipelining, o.onlyPromisePipeline))
  }

  function AnswerVerdict(live: set<uint32>, caps: Bytes, streaming: bool, env: Environment): Verdict {
    match DecodeCaps(caps)
    case Err(_) => Threw(BadCapTable, false)
    case Ok(ids) =>
      if streaming then Streamed(ids)
      else
        match PayloadFailure(live, ids, env.payload)
        case None => Answered(ids)
        case Some(f) => AnswerFailed(ids, f)
  }

  function Judge(live: set<uint32>, a: Action, env: Environment): Verdict {
    var failure := OptionsFailure(live, a, env);
    if failure.Some? then Threw(failure.value, true)
    else
      match a.core
      case ReturnPayload(_, caps) => AnswerVerdict(live, caps, a.options.isStreaming, env)
      case AsyncCall(_, _, _, _, _) => CallVerdict(live, a.core, a.options, env)
      case TailCall(_, _, _, _, _) => CallVerdict(live, a.core, a.options, env)
      case ThrowRemote(message, detail) => Threw(Remote(a.options.exceptionType, message, detail), true)
      case AwaitTask(_, _) => if env.taskFailure.Some? then Threw(env.taskFailure.value, false) else Deferred
  }

  /** The request ids a branch keeps: those its response names. */
  ghost function Kept(v: Verdict): set<uint32> {
    if v.Answered? || v.AnswerFailed? then NonZero(v.response) else {}
  }

  /** What a dispatch releases once it has cleaned up. A streaming response gives its own caps up too. */
  ghost function Released(v: Verdict, requestIds: seq<uint32>): set<uint32> {
    Elems(requestIds) - Kept(v) + (if v.Streamed? then NonZero(v.response) else {})
  }

  /**
   After a dispatch that has cleaned up, the request ids left are those the handler did not drop and
   the branch taken keeps. No other id has gone, but for the capabilities of a streaming response.
   */
  lemma RequestIdsLeft(t: Table, v: Verdict, requestIds: seq<uint32>, id: uint32)
    ensures id in requestIds ==>
              (id in DropAll(t, Released(v, requestIds)).targets <==> id in t.targets && id in Kept(v))
    ensures id !in requestIds && id != 0 ==>
              (id in DropAll(t, Released(v, requestIds)).targets
               <==> id in t.targets && !(v.Streamed? && id in v.response))
  {
    assert id in NonZero(if v.Streamed? then v.response else []) <==> v.Streamed? && id != 0 && id in v.response;
  }

  /** The bytes of a capability table in which every id is null or live. */
  ghost predicate NamesOnly(live: set<uint32>, caps: Bytes) {
    exists ids :: caps == EncodeCaps(ids) && forall id | id in ids :: id == 0 || id in live
  }

  /** An empty payload without capabilities, or one that can be read and names only what is live. */
  ghost predicate Sendable(live: set<uint32>, bytes: Bytes, caps: Bytes, readable: bool) {
    if bytes == [] then caps == [] else readable && NamesOnly(live, caps)
  }

  lemma NamesOnlyIff(live: set<uint32>, caps: Bytes)
    ensures NamesOnly(live, caps) <==> DecodeCaps(caps).Ok? && FirstUnknown(live, DecodeCaps(caps).value) == None
  {
    if ids :| caps == EncodeCaps(ids) && forall id | id in ids :: id == 0 || id in live {
      CapsRoundTrip(caps, ids);
    }
    if DecodeCaps(caps).Ok? {
      CapsRoundTrip(caps, DecodeCaps(caps).value);
    } else {
      CapsRoundTrip(caps, []);
    }
  }

  lemma SendableIff(live: set<uint32>, bytes: Bytes, caps: Bytes, readable: bool)
    ensures Sendable(live, bytes, caps, readable)
            <==> DecodeCaps(caps).Ok? && OptionalPayloadFailure(live, bytes, DecodeCaps(caps).value, readable) == None
    ensures Sendable(live, bytes, caps, readable) <==> PipelineFailure(live, bytes, caps, readable) == None
  {
    NamesOnlyIff(live, caps);
    CapsRoundTrip(caps, []);
    assert EncodeCaps([]) == [];
  }

  /** Options that fit the kind of action, and a pipeline that can be set. */
  ghost predicate OptionsFit(live: set<uint32>, a: Action, env: Environment) {
    var o := a.options;
    && (ForwardOptions(o) ==> a.core.AsyncCall?)
    && (o.exceptionType != Failed ==> a.core.ThrowRemote?)
    && (o.pipeline.Some? ==>
          a.core.AwaitTask? && Sendable(live, o.pipeline.value.0, o.pipeline.value.1, env.pipeline))
  }

  /**
   An action is carried out exactly when its options fit and it answers with something readable that
   names only live ids (a streaming answer just with whole ids), forwards something sendable to a
   live target, or waits for a task that has not failed already.
   */
  lemma AcceptedIff(live: set<uint32>, a: Action, env: Environment)
    ensures !Judge(live, a, env).Throws() <==>
            && OptionsFit(live, a, env)
            && match a.core
               case ReturnPayload(_, caps) =>
                 if a.options.isStreaming then |caps| % 4 == 0 else env.payload && NamesOnly(live, caps)
               case AsyncCall(_, target, _, bytes, caps) =>
                 && target in live && Sendable(live, bytes, caps, env.payload)
                 && (a.options.onlyPromisePipeline ==> a.options.sendResultsToCaller)
               case TailCall(_, target, _, bytes, caps) => target in live && Sendable(live, bytes, caps, env.payload)
               case ThrowRemote(_, _) => false
               case AwaitTask(_, _) => env.taskFailure == None
  {
    var o := a.options;
    if o.pipeline.Some? {
      SendableIff(live, o.pipeline.value.0, o.pipeline.value.1, env.pipeline);
    }
    if a.core.ReturnPayload? {
      NamesOnlyIff(live, a.core.payloadCaps);
    } else if a.core.AsyncCall? || a.core.TailCall? {
      SendableIff(live, a.core.payloadBytes, a.core.payloadCaps, env.payload);
    }
  }

  function PlainFailure(live: set<uint32>, reply: Option<Bytes>, env: Environment): Option<Failure> {
    if reply == None then Some(HandlerFailed)
    else
      match DecodeCaps(reply.value)
      case Err(_) => Some(BadCapTable)
      case Ok(ids) => PayloadFailure(live, ids, env.payload)
  }

  function AdvancedVerdict(live: set<uint32>, reply: Option<RawAction>, env: Environment): Verdict {
    if reply == None then Threw(HandlerFailed, true)
    else
      match Meaning(Wrappers(reply.value), Inside(reply.value))
      case Err(e) => Threw(Undecodable(e), false)
      case Ok(a) => Judge(live, a, env)
  }

  function ResumeVerdict(live: set<uint32>, task: Result<Action, Failure>, early: Options, env: Environment): Verdict {
    match task
    case Err(failure) => Threw(failure, true)
    case Ok(a) =>
      if a.options.allowCancellation && !early.allowCancellation then Threw(LateCancellation, true)
      else if a.options.isStreaming && !early.isStreaming then Threw(LateStreaming, true)
      else Judge(live, a, env)
  }

  /**
   One continuation of a deferred call: what other work does to the table before it runs, what the
   task has come to, and the environment of the dispatch that follows.
   */
  datatype Resume = Resume(meanwhile: seq<Op>, task: Result<Action, Failure>, env: Environment)

  /**
   A deferred call from its first deferral on: the table its last continuation finds, the verdict of
   that, and whether the request ids have been cleaned up. A continuation's exceptions clean up, if
   the throwing branch has not, only when it is `nested` in an earlier continuation.
   */
  ghost function Chain(t: Table, early: Options, resumes: seq<Resume>, nested: bool): (Table, Verdict, bool)
    decreases |resumes|
  {
    if resumes == [] then (t, Deferred, false)
    else
      var r, t' := resumes[0], Run(t, resumes[0].meanwhile);
      var v := ResumeVerdict(t'.targets.Keys, r.task, early, r.env);
      if v == Deferred then Chain(t', r.task.value.options, resumes[1..], true)
      else (t', v, v.Cleans() || (nested && v.Throws()))
  }

  /** All that happens to the table between the continuations. */
  function Meanwhile(resumes: seq<Resume>): seq<Op> {
    if resumes == [] then [] else resumes[0].meanwhile + Meanwhile(resumes[1..])
  }

  /** A whole call of the advanced server, from the handler's reply on. */
  ghost function Call(t: Table, reply: Option<RawAction>, env: Environment, resumes: seq<Resume>)
    : (Table, Verdict, bool)
  {
    var v := AdvancedVerdict(t.targets.Keys, reply, env);
    if v != Deferred then (t, v, true)
    else Chain(t, Meaning(Wrappers(reply.value), Inside(reply.value)).value.options, resumes, false)
  }

  /**
   An action that throws and leaves the cleanup to others: its options fit, and it answers with broken
   ids, forwards to a live target what cannot be sent, or waits for a task that has failed already.
   */
  ghost predicate LeavesCleanup(live: set<uint32>, a: Action, env: Environment) {
    && OptionsFit(live, a, env)
    && match a.core
       case ReturnPayload(_, caps) => |caps| % 4 != 0
       case AsyncCall(_, target, _, bytes, caps) => target in live && !Sendable(live, bytes, caps, env.payload)
       case TailCall(_, target, _, bytes, caps) => target in live && !Sendable(live, bytes, caps, env.payload)
       case ThrowRemote(_, _) => false
       case AwaitTask(_, _) => env.taskFailure.Some?
  }

  /** Was this allowed only before the first deferral? */
  predicate Late(a: Action, early: Options) {
    || (a.options.allowCancellation && !early.allowCancellation)
    || (a.options.isStreaming && !early.isStreaming)
  }

  /** The task of a first continuation that leaves the request ids. */
  ghost predicate Leaks(live: set<uint32>, task: Result<Action, Failure>, early: Options, env: Environment) {
    task.Ok? && !Late(task.value, early) && LeavesCleanup(live, task.value, env)
  }

  lemma LeaksIffUncleaned(live: set<uint32>, task: Result<Action, Failure>, early: Options, env: Environment)
    ensures var v := ResumeVerdict(live, task, early, env);
            v != Deferred && !v.Cleans() <==> Leaks(live, task, early, env)
  {
    if task.Ok? {
      var a := task.value;
      if a.options.pipeline.Some? {
        SendableIff(live, a.options.pipeline.value.0, a.options.pipeline.value.1, env.pipeline);
      }
      if a.core.AsyncCall? || a.core.TailCall? {
        SendableIff(live, a.core.payloadBytes, a.core.payloadCaps, env.payload);
      }
    }
  }

  /** Once a second task is being waited for, whatever ends the call cleans up. */
  lemma {:induction false} NestedChainCleans(t: Table, early: Options, resumes: seq<Resume>)
    ensures var (_, v, cleaned) := Chain(t, early, resumes, true); cleaned <==> v != Deferred
    decreases |resumes|
  {
    if resumes != [] {
      var r, t' := resumes[0], Run(t, resumes[0].meanwhile);
      if ResumeVerdict(t'.targets.Keys, r.task, early, r.env) == Deferred {
        NestedChainCleans(t', r.task.value.options, resumes[1..]);
      }
    }
  }

  /**
   A call of any number of continuations leaves its request ids exactly if it is still waiting, or
   has been dropped while waiting, or if its very first continuation leaks.
   */
  lemma CallLeavesRequestIdsIff(t: Table, reply: Option<RawAction>, env: Environment, resumes: seq<Resume>)
    ensures var (_, v, cleaned) := Call(t, reply, env, resumes);
            !cleaned <==>
            || v == Deferred
            || (AdvancedVerdict(t.targets.Keys, reply, env) == Deferred && resumes != []
                && Leaks(Run(t, resumes[0].meanwhile).targets.Keys, resumes[0].task,
                         Meaning(Wrappers(reply.value), Inside(reply.value)).value.options, resumes[0].env))
  {
    if AdvancedVerdict(t.targets.Keys, reply, env) == Deferred && resumes != [] {
      var early, r := Meaning(Wrappers(reply.value), Inside(reply.value)).value.options, resumes[0];
      var t' := Run(t, r.meanwhile);
      LeaksIffUncleaned(t'.targets.Keys, r.task, early, r.env);
      if ResumeVerdict(t'.targets.Keys, r.task, early, r.env) == Deferred {
        NestedChainCleans(t', r.task.value.options, resumes[1..]);
      }
    }
  }

  /** The table when the call has come to its end, or as far as it has come. */
  ghost function AfterCall(t: Table, reply: Option<RawAction>, env: Environment, resumes: seq<Resume>,
                           requestIds: seq<uint32>): Table
  {
    var (end, v, cleaned) := Call(t, reply, env, resumes);
    if cleaned then DropAll(end, Released(v, requestIds)) else end
  }

  /** A request id is left by a call that leaves them all, or keeps it. */
  lemma LeftByVerdict(t: Table, reply: Option<RawAction>, env: Environment, resumes: seq<Resume>,
                      requestIds: seq<uint32>, id: uint32)
    requires id in requestIds && id in Call(t, reply, env, resumes).0.targets
    ensures var (_, v, cleaned) := Call(t, reply, env, resumes);
            id in AfterCall(t, reply, env, resumes, requestIds).targets <==> !cleaned || id in Kept(v)
  {
    var (end, v, _) := Call(t, reply, env, resumes);
    RequestIdsLeft(end, v, requestIds, id);
  }

  const CALM := Environment(true, true, None)

  /** A handler's reply that defers, without wrappers. */
  function Defers(): RawAction {
    RawAction.Result(AwaitTask(0, 1))
  }

  lemma DefersIsDeferred(live: set<uint32>)
    ensures Meaning(Wrappers(Defers()), Inside(Defers())) == Ok(Action(AwaitTask(0, 1), NO_OPTIONS))
    ensures AdvancedVerdict(live, Some(Defers()), CALM) == Deferred
  {
    DecodeFromMeaning([], Defers());
    assert OptionsOf([]) == NO_OPTIONS;
  }

  /**
   Two calls that leave a request id for good: the task of a deferred call answers with three bytes for
   a capability table, or it defers once more, to a task that has failed already.
   */
  lemma SomeCallsLeak(cap: Cap, failure: Failure)
    ensures var t := AfterHandler(EMPTY, [Some(cap)], []);
            var broken := [Resume([], Ok(Action(ReturnPayload([], [0, 0, 0]), NO_OPTIONS)), CALM)];
            var failed := [Resume([], Ok(Action(AwaitTask(2, 3), NO_OPTIONS)), CALM.(taskFailure := Some(failure)))];
            && RequestIds(EMPTY, [Some(cap)]) == [1]
            && Call(t, Some(Defers()), CALM, broken).1.Throws() && Call(t, Some(Defers()), CALM, failed).1.Throws()
            && 1 in AfterCall(t, Some(Defers()), CALM, broken, [1]).targets
            && 1 in AfterCall(t, Some(Defers()), CALM, failed, [1]).targets
  {
    OneRequestId(cap);
    var t := AfterHandler(EMPTY, [Some(cap)], []);
    DefersIsDeferred(t.targets.Keys);
    var broken := Resume([], Ok(Action(ReturnPayload([], [0, 0, 0]), NO_OPTIONS)), CALM);
    var failed := Resume([], Ok(Action(AwaitTask(2, 3), NO_OPTIONS)), CALM.(taskFailure := Some(failure)));
    assert ResumeVerdict(t.targets.Keys, broken.task, NO_OPTIONS, CALM) == Threw(BadCapTable, false);
    assert ResumeVerdict(t.targets.Keys, failed.task, NO_OPTIONS, failed.env) == Threw(failure, false);
    LeftByVerdict(t, Some(Defers()), CALM, [broken], [1], 1);
    LeftByVerdict(t, Some(Defers()), CALM, [failed], [1], 1);
  }

  lemma OneRequestId(cap: Cap)
    ensures RequestIds(EMPTY, [Some(cap)]) == [1]
    ensures 1 in AfterHandler(EMPTY, [Some(cap)], []).targets
  {
    FreshIsCounter(NO_HISTORY, EMPTY);
    assert [Some(cap)][1..] == [] && Imports([Some(cap)]) == [Register(cap)] && [Register(cap)] + [] == [Register(cap)];
    assert [Register(cap)][1..] == [];
    assert Run(EMPTY, [Register(cap)]) == AddTarget(EMPTY, cap);
  }
}

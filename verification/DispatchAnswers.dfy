/**
 What a call comes to, from the bytes its handler returns: each kind of action with its outcome, and
 from that which request ids are live when the call is over.
 */
module DispatchAnswers {
  import opened Words
  import opened IdAllocator
  import opened TargetTable
  import opened TargetRuns
  import opened CapTable
  import opened HandlerActions
  import opened RemoteExceptions
  import opened Dispatch

  // ---- one action -------------------------------------------------------------------------

  lemma OptionsFitIff(live: set<uint32>, a: Action, env: Environment)
    ensures OptionsFit(live, a, env) <==> OptionsFailure(live, a, env) == None
  {
    if a.options.pipeline.Some? {
      SendableIff(live, a.options.pipeline.value.0, a.options.pipeline.value.1, env.pipeline);
    }
  }

  /** Options that do not fit are refused, for the first of these reasons, and cleaned up after. */
  lemma MisfitExact(live: set<uint32>, a: Action, env: Environment)
    requires !OptionsFit(live, a, env)
    ensures var o, v := a.options, Judge(live, a, env);
            && v.Threw? && v.cleaned
            && if ForwardOptions(o) && !a.core.AsyncCall? then v.failure == ForwardOptionsWithoutForwardCall
               else if o.exceptionType != Failed && !a.core.ThrowRemote? then v.failure == ExceptionTypeWithoutThrow
               else if !a.core.AwaitTask? then v.failure == PipelineWithoutDefer
               else if o.pipeline.value.0 == [] then v.failure == CapsWithoutPayload
               else if |o.pipeline.value.1| % 4 != 0 then v.failure == BadCapTable
               else v.failure == BadPayload || v.failure.UnknownCap?
  {
    OptionsFitIff(live, a, env);
    if a.options.pipeline.Some? {
      CapsRoundTrip(a.options.pipeline.value.1, []);
    }
  }

  /** Position `k` has the first id that is neither null nor live. */
  ghost predicate FirstBad(live: set<uint32>, ids: seq<uint32>, k: nat) {
    && k <= |ids| && (forall j | 0 <= j < k :: ids[j] == 0 || ids[j] in live)
    && (k < |ids| ==> ids[k] != 0 && ids[k] !in live)
  }

  lemma {:induction false} FirstUnknownAt(live: set<uint32>, ids: seq<uint32>, k: nat)
    requires FirstBad(live, ids, k)
    ensures FirstUnknown(live, ids) == if k < |ids| then Some(ids[k]) else None
  {
    if k > 0 {
      assert FirstBad(live, ids[1..], k - 1);
      FirstUnknownAt(live, ids[1..], k - 1);
    }
  }

  /**
   An answer whose bytes encode `ids` answers with just these ids. It fails for a payload that cannot
   be read or else at the first id that is neither null nor live; a streaming one does not look.
   */
  lemma AnswerExact(live: set<uint32>, a: Action, env: Environment, ids: seq<uint32>, k: nat)
    requires a.core.ReturnPayload? && OptionsFit(live, a, env) && FirstBad(live, ids, k)
    ensures |a.core.payloadCaps| % 4 != 0 ==> Judge(live, a, env) == Threw(BadCapTable, false)
    ensures a.core.payloadCaps == EncodeCaps(ids) ==>
              Judge(live, a, env)
              == if a.options.isStreaming then Streamed(ids)
                 else if !env.payload then AnswerFailed(ids, BadPayload)
                 else if k < |ids| then AnswerFailed(ids, UnknownCap(ids[k]))
                 else Answered(ids)
  {
    OptionsFitIff(live, a, env);
    CapsRoundTrip(a.core.payloadCaps, ids);
    FirstUnknownAt(live, ids, k);
  }

  /** What is forwarded is what the action says, to the target it names. */
  lemma ForwardExact(live: set<uint32>, a: Action, env: Environment, ids: seq<uint32>)
    requires (a.core.AsyncCall? || a.core.TailCall?) && OptionsFit(live, a, env)
    requires a.core.payloadCaps == EncodeCaps(ids)
    ensures var core, o := a.core, a.options; var toCaller := core.TailCall? || o.sendResultsToCaller;
            && (core.target !in live ==> Judge(live, a, env) == Threw(UnknownCap(core.target), true))
            && (core.target in live && !Sendable(live, core.payloadBytes, core.payloadCaps, env.payload) ==>
                  Judge(live, a, env).Threw? && !Judge(live, a, env).cleaned)
            && (core.target in live && Sendable(live, core.payloadBytes, core.payloadCaps, env.payload) ==>
                  Judge(live, a, env)
                  == if !toCaller && o.onlyPromisePipeline then Threw(OnlyPipelineWithoutCaller, true)
                     else Forwarded(Outgoing(core.target, core.interfaceId, core.methodId, core.payloadBytes, ids,
                                             toCaller, o.noPromisePipelining, o.onlyPromisePipeline)))
  {
    OptionsFitIff(live, a, env);
    CapsRoundTrip(a.core.payloadCaps, ids);
    SendableIff(live, a.core.payloadBytes, a.core.payloadCaps, env.payload);
  }

  /** Does the action wait for a task that has not failed already? */
  ghost predicate Waits(live: set<uint32>, a: Action, env: Environment) {
    a.core.AwaitTask? && OptionsFit(live, a, env) && env.taskFailure == None
  }

  lemma WaitsIff(live: set<uint32>, a: Action, env: Environment)
    ensures Judge(live, a, env) == Deferred <==> Waits(live, a, env)
    ensures a.core.AwaitTask? && OptionsFit(live, a, env) && env.taskFailure.Some? ==>
              Judge(live, a, env) == Threw(env.taskFailure.value, false)
  {
    OptionsFitIff(live, a, env);
  }

  /**
   From end to end: an exception thrown by the handler arrives as what it was thrown as, with its message
   and detail, whatever control wrappers are around it and however often its type is given.
   */
  lemma ThrownExceptionArrives(live: set<uint32>, raw: RawAction, exceptionType: ExceptionType, message: string,
                               detail: HandlerActions.Bytes, env: Environment)
    requires Inside(raw) == Some(ThrowRemote(message, detail))
    requires forall w | w in Wrappers(raw) :: w.Control? || w == ExceptionKind(Tag(exceptionType))
    requires ExceptionKind(Tag(exceptionType)) in Wrappers(raw)
    ensures AdvancedVerdict(live, Some(raw), env) == Threw(Remote(exceptionType, message, detail), true)
  {
    var ws := Wrappers(raw);
    ExceptionTypeRoundTrip(exceptionType, Tag(exceptionType));
    InnermostTypeIsNamed(ws);
    PipelineOfNone(ws);
  }

  /** Why a call is refused before an action is carried out. */
  lemma RefusalsExact(live: set<uint32>, raw: RawAction, error: HandlerActions.DecodeError, failure: Failure, a: Action,
                      early: Options, env: Environment)
    ensures AdvancedVerdict(live, None, env) == Threw(HandlerFailed, true)
    ensures Meaning(Wrappers(raw), Inside(raw)) == Err(error) ==>
              AdvancedVerdict(live, Some(raw), env) == Threw(Undecodable(error), false)
    ensures ResumeVerdict(live, Err(failure), early, env) == Threw(failure, true)
    ensures Late(a, early) ==>
              ResumeVerdict(live, Ok(a), early, env)
              == Threw(if a.options.allowCancellation && !early.allowCancellation then LateCancellation
                       else LateStreaming, true)
  {
  }

  // ---- a whole call -----------------------------------------------------------------------

  /**
   Where a call stands: it waits for a task, it was refused for what the handler or the task has come
   to, or this action is its last.
   */
  datatype End = Waiting | Refused | Last(live: set<uint32>, action: Action, env: Environment)

  /** The table then, and how many continuations there have been. */
  ghost function EndFrom(t: Table, early: Options, resumes: seq<Resume>): (Table, End, nat)
    decreases |resumes|
  {
    if resumes == [] then (t, Waiting, 0)
    else
      var task, env, t' := resumes[0].task, resumes[0].env, Run(t, resumes[0].meanwhile);
      if task.Err? || Late(task.value, early) then (t', Refused, 1)
      else if Waits(t'.targets.Keys, task.value, env) then
        var (t'', end, n) := EndFrom(t', task.value.options, resumes[1..]);
        (t'', end, n + 1)
      else (t', Last(t'.targets.Keys, task.value, env), 1)
  }

  ghost function EndOf(t: Table, reply: Option<RawAction>, env: Environment, resumes: seq<Resume>)
    : (Table, End, nat)
  {
    if reply == None then (t, Refused, 0)
    else
      var decoded := Meaning(Wrappers(reply.value), Inside(reply.value));
      if decoded.Err? then (t, Refused, 0)
      else if Waits(t.targets.Keys, decoded.value, env) then EndFrom(t, decoded.value.options, resumes)
      else (t, Last(t.targets.Keys, decoded.value, env), 0)
  }

  /** Is the call's last action an answer whose capability table has this id? */
  ghost predicate AnswerNames(end: End, id: uint32) {
    && end.Last? && end.action.core.ReturnPayload? && !end.action.options.isStreaming
    && OptionsFit(end.live, end.action, end.env)
    && exists ids :: end.action.core.payloadCaps == EncodeCaps(ids) && id in ids
  }

  lemma KeptIff(live: set<uint32>, a: Action, env: Environment, id: uint32)
    ensures id in Kept(Judge(live, a, env)) <==> id != 0 && AnswerNames(Last(live, a, env), id)
  {
    OptionsFitIff(live, a, env);
    if a.core.ReturnPayload? {
      var caps := a.core.payloadCaps;
      if DecodeCaps(caps).Ok? {
        CapsRoundTrip(caps, DecodeCaps(caps).value);
      }
      if ids :| caps == EncodeCaps(ids) && id in ids {
        CapsRoundTrip(caps, ids);
      }
    }
  }

  lemma CleansIff(live: set<uint32>, a: Action, env: Environment)
    requires !Waits(live, a, env)
    ensures !Judge(live, a, env).Cleans() <==> LeavesCleanup(live, a, env)
  {
    WaitsIff(live, a, env);
    LeaksIffUncleaned(live, Ok(a), a.options, env);
  }

  lemma {:induction false} ChainEnds(t: Table, early: Options, resumes: seq<Resume>, nested: bool, id: uint32)
    ensures var (end, v, cleaned) := Chain(t, early, resumes, nested);
            var (end', how, n) := EndFrom(t, early, resumes);
            && end == end' && (v == Deferred <==> how.Waiting?)
            && (id in Kept(v) <==> id != 0 && AnswerNames(how, id))
            && (!cleaned <==>
                  how.Waiting? || (!nested && n == 1 && how.Last? && LeavesCleanup(how.live, how.action, how.env)))
    decreases |resumes|
  {
    if resumes != [] {
      var task, env, t' := resumes[0].task, resumes[0].env, Run(t, resumes[0].meanwhile);
      if task.Ok? && !Late(task.value, early) {
        var live := t'.targets.Keys;
        WaitsIff(live, task.value, env);
        KeptIff(live, task.value, env, id);
        if Waits(live, task.value, env) {
          ChainEnds(t', task.value.options, resumes[1..], true, id);
        } else {
          CleansIff(live, task.value, env);
        }
      }
    }
  }

  lemma CallEnds(t: Table, reply: Option<RawAction>, env: Environment, resumes: seq<Resume>, id: uint32)
    ensures var (end, v, cleaned) := Call(t, reply, env, resumes);
            var (end', how, n) := EndOf(t, reply, env, resumes);
            && end == end' && (v == Deferred <==> how.Waiting?)
            && (id in Kept(v) <==> id != 0 && AnswerNames(how, id))
            && (!cleaned <==>
                  how.Waiting? || (n == 1 && how.Last? && LeavesCleanup(how.live, how.action, how.env)))
  {
    if reply.Some? && Meaning(Wrappers(reply.value), Inside(reply.value)).Ok? {
      var a := Meaning(Wrappers(reply.value), Inside(reply.value)).value;
      WaitsIff(t.targets.Keys, a, env);
      KeptIff(t.targets.Keys, a, env, id);
      if Waits(t.targets.Keys, a, env) {
        ChainEnds(t, a.options, resumes, false, id);
      }
    }
  }

  /**
   The fate of a request id over a whole call, with any number of deferrals and any other work between
   them, read off what the handler and its tasks return. If nobody else has dropped it, it is live after
   the call if and only if the call still waits or was dropped while waiting, or it was its first
   continuation that ended it and left the cleanup, or the bytes of its answer name the id.
   */
  lemma RequestIdStaysIff(t: Table, reply: Option<RawAction>, env: Environment, resumes: seq<Resume>,
                          requestIds: seq<uint32>, id: uint32)
    requires id in requestIds && id != 0 && id in EndOf(t, reply, env, resumes).0.targets
    ensures var (_, end, n) := EndOf(t, reply, env, resumes);
            id in AfterCall(t, reply, env, resumes, requestIds).targets <==>
            || end.Waiting?
            || (n == 1 && end.Last? && LeavesCleanup(end.live, end.action, end.env))
            || AnswerNames(end, id)
  {
    CallEnds(t, reply, env, resumes, id);
    LeftByVerdict(t, reply, env, resumes, requestIds, id);
  }

  // ---- the request ------------------------------------------------------------------------

  /** The table with the request's capabilities in it. */
  ghost function Imported(t: Table, entries: seq<Option<Cap>>): Table {
    Run(t, Imports(entries))
  }

  lemma ImportOne(h: History, t: Table, entries: seq<Option<Cap>>)
    requires Inv(h, t) && HistoryOf(h, t, Imports(entries)).issued + 1 < U32
    requires entries != [] && entries[0].Some?
    ensures var op := Register(entries[0].value);
            && Inv(Observe(h, t, op), Step(t, op))
            && HistoryOf(Observe(h, t, op), Step(t, op), Imports(entries[1..])).issued + 1 < U32
            && Imported(t, entries) == Imported(Step(t, op), entries[1..])
            && FreshId(t) !in t.targets && Step(t, op).targets == t.targets[FreshId(t) := entries[0].value]
  {
    var op := Register(entries[0].value);
    ImportsHead(entries[0], entries[1..], entries);
    IssuedGrows(Observe(h, t, op), Step(t, op), Imports(entries[1..]));
    FreshIsCounter(h, t);
    StepKeepsInv(h, t, op);
  }

  /** Importing adds the request ids to the table and changes none of the others. */
  lemma {:induction false} ImportAdds(h: History, t: Table, entries: seq<Option<Cap>>, id: uint32)
    requires Inv(h, t) && HistoryOf(h, t, Imports(entries)).issued + 1 < U32
    ensures id in Imported(t, entries).targets <==> id in t.targets || id in RequestIds(t, entries)
    ensures id in t.targets ==> Imported(t, entries).targets[id] == t.targets[id]
    decreases |entries|
  {
    if entries != [] {
      ImportsHead(entries[0], entries[1..], entries);
      if entries[0].Some? {
        var op := Register(entries[0].value);
        ImportOne(h, t, entries);
        ImportAdds(Observe(h, t, op), Step(t, op), entries[1..], id);
      } else {
        ImportAdds(h, t, entries[1..], id);
      }
    }
  }

  /** The id at place `i` stands for the entry there: 0 for none, and a request id filed for a capability. */
  ghost predicate StandsFor(t: Table, entry: Option<Cap>, id: uint32, requestIds: seq<uint32>) {
    if entry.None? then id == 0
    else id in requestIds && id in t.targets && t.targets[id] == entry.value
  }

  lemma FirstStandsFor(h: History, t: Table, entries: seq<Option<Cap>>)
    requires Inv(h, t) && HistoryOf(h, t, Imports(entries)).issued + 1 < U32
    requires entries != []
    ensures TableIds(t, entries) != []
    ensures StandsFor(Imported(t, entries), entries[0], TableIds(t, entries)[0], RequestIds(t, entries))
  {
    if entries[0].Some? {
      var op := Register(entries[0].value);
      ImportOne(h, t, entries);
      ImportAdds(Observe(h, t, op), Step(t, op), entries[1..], FreshId(t));
    }
  }

  /**
   Each entry of the request's table stands for its capability, by the id at its place in the table
   handed to the handler; a null entry has 0 there.
   */
  lemma {:induction false} RequestTableExact(h: History, t: Table, entries: seq<Option<Cap>>, i: nat)
    requires Inv(h, t) && HistoryOf(h, t, Imports(entries)).issued + 1 < U32
    ensures |TableIds(t, entries)| == |entries|
    ensures i < |entries| ==>
              StandsFor(Imported(t, entries), entries[i], TableIds(t, entries)[i], RequestIds(t, entries))
    decreases |entries|
  {
    if entries != [] {
      FirstStandsFor(h, t, entries);
      var next := if i == 0 then 0 else i - 1;
      if entries[0].Some? {
        var op := Register(entries[0].value);
        ImportOne(h, t, entries);
        RequestTableExact(Observe(h, t, op), Step(t, op), entries[1..], next);
      } else {
        ImportsHead(entries[0], entries[1..], entries);
        RequestTableExact(h, t, entries[1..], next);
      }
    }
  }

  /** A plain handler's answer is accepted exactly if its bytes encode ids that are null or live. */
  lemma PlainAcceptedIff(live: set<uint32>, reply: Option<HandlerActions.Bytes>, env: Environment)
    ensures PlainFailure(live, reply, env) == None <==> reply.Some? && env.payload && NamesOnly(live, reply.value)
    ensures reply == None ==> PlainFailure(live, reply, env) == Some(HandlerFailed)
    ensures reply.Some? && |reply.value| % 4 != 0 ==> PlainFailure(live, reply, env) == Some(BadCapTable)
    ensures reply.Some? && |reply.value| % 4 == 0 && !env.payload ==> PlainFailure(live, reply, env) == Some(BadPayload)
    ensures reply.Some? && |reply.value| % 4 == 0 && env.payload && !NamesOnly(live, reply.value) ==>
              PlainFailure(live, reply, env).Some? && PlainFailure(live, reply, env).value.UnknownCap?
  {
    if reply.Some? {
      NamesOnlyIff(live, reply.value);
      CapsRoundTrip(reply.value, []);
    }
  }
}

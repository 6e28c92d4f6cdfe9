/**
 The servers that dispatch calls to Lean handlers, over the runtime's own target store. Each carries
 out what `Dispatch` says, and cleans the request's ids up as the code does.
 */
module DispatchServers {
  import opened Words
  import opened IdAllocator
  import opened TargetTable
  import opened TargetRuns
  import opened CapTable
  import opened HandlerActions
  import opened RemoteExceptions
  import opened Dispatch
  import opened DispatchAnswers
  import RuntimeTargets

  class CleanupState {
    const requestIds: seq<uint32>
    var done: bool
    /** How often a cleanup has taken effect. */
    ghost var effective: nat

    ghost predicate Valid()
      reads this
    {
      effective == if done then 1 else 0
    }

    constructor (requestIds: seq<uint32>)
      ensures this.requestIds == requestIds && Valid() && !done
    {
      this.requestIds, done, effective := requestIds, false, 0;
    }
  }

  class LeanServers {
    const store: RuntimeTargets.TargetStore

    constructor (store: RuntimeTargets.TargetStore)
      ensures this.store == store
    {
      this.store := store;
    }

    ghost function Frame(): set<object>
    {
      {store, store.loopback, store.network}
    }

    /** One table operation by its code. */
    method Perform(op: Op, ghost h: History)
      requires store.Valid() && Inv(h, store.Abs()) && Observe(h, store.Abs(), op).issued + 1 < U32
      modifies Frame()
      ensures store.Valid() && store.Abs() == Step(old(store.Abs()), op)
      ensures Inv(Observe(h, old(store.Abs()), op), store.Abs())
    {
      StepKeepsInv(h, store.Abs(), op);
      FreshIdHasNoPeer(h, store.Abs());
      match op {
        case Register(cap) =>
          var id := store.AddTarget(cap);
        case Open(kind, cap, peer) =>
          if kind == Loopback {
            var id := store.RegisterLoopbackTarget(cap, peer);
          } else {
            var id := store.ConnectTargetPeer(cap, peer);
          }
        case Keep(id) =>
          var r := store.RetainTarget(id);
        case TailCall(id) =>
          var r := store.RegisterTailCallTarget(id);
        case Release(ids) =>
          var r := store.ReleaseTargets(ids);
      }
    }

    /** What a handler does to the table, on the worker thread, while it runs. */
    method PerformAll(ops: seq<Op>, ghost h: History)
      requires store.Valid() && Inv(h, store.Abs()) && HistoryOf(h, store.Abs(), ops).issued + 1 < U32
      modifies Frame()
      ensures store.Valid() && store.Abs() == Run(old(store.Abs()), ops)
    {
      ghost var h' := h;
      for i := 0 to |ops|
        invariant store.Valid() && Inv(h', store.Abs())
        invariant Run(store.Abs(), ops[i..]) == Run(old(store.Abs()), ops)
        invariant HistoryOf(h', store.Abs(), ops[i..]) == HistoryOf(h, old(store.Abs()), ops)
      {
        assert ops[i..][0] == ops[i] && ops[i..][1..] == ops[i + 1..];
        ghost var t := store.Abs();
        IssuedGrows(Observe(h', t, ops[i]), Step(t, ops[i]), ops[i + 1..]);
        Perform(ops[i], h');
        h' := Observe(h', t, ops[i]);
      }
    }

    method ImportCap(cap: Cap, ghost h: History) returns (capId: uint32)
      requires store.Valid()
      requires Inv(h, store.Abs()) && Observe(h, store.Abs(), Register(cap)).issued + 1 < U32
      modifies Frame()
      ensures store.Valid() && store.Abs() == AddTarget(old(store.Abs()), cap) && capId == FreshId(old(store.Abs()))
      ensures Inv(Observe(h, old(store.Abs()), Register(cap)), store.Abs())
    {
      StepKeepsInv(h, store.Abs(), Register(cap));
      FreshIdHasNoPeer(h, store.Abs());
      capId := store.AddTarget(cap);
    }

    /** An id for one entry of the request's capability table, 0 for a null entry. */
    method ImportEntry(entry: Option<Cap>, ghost h: History, ghost start: Table, ghost entries: seq<Option<Cap>>,
                       ghost rest: seq<Option<Cap>>, ghost issued: seq<uint32>, ghost written: seq<uint32>)
      returns (capId: uint32, ghost h': History)
      requires store.Valid() && Inv(h, store.Abs()) && rest != [] && rest[0] == entry
      requires EncodesRest(start, entries, h, store.Abs(), rest, issued, written)
      modifies Frame()
      ensures store.Valid() && Inv(h', store.Abs())
      ensures entry == None ==> capId == 0
      ensures EncodesRest(start, entries, h', store.Abs(), rest[1..],
                          if entry.Some? then issued + [capId] else issued, written + [capId])
    {
      EncodeOneMore(start, entries, h, store.Abs(), rest, issued, written);
      capId, h' := 0, h;
      if entry.Some? {
        h' := Observe(h, store.Abs(), Register(entry.value));
        capId := ImportCap(entry.value, h);
      }
    }

    /** Issues an id per capability of the request and writes the table for the handler. */
    method EncodeRequest(entries: seq<Option<Cap>>, ghost h: History)
      returns (requestCaps: array<byte>, requestIds: seq<uint32>)
      requires store.Valid()
      requires Inv(h, store.Abs()) && HistoryOf(h, store.Abs(), Imports(entries)).issued + 1 < U32
      modifies Frame()
      ensures store.Valid() && store.Abs() == Run(old(store.Abs()), Imports(entries))
      ensures requestIds == RequestIds(old(store.Abs()), entries)
      ensures fresh(requestCaps) && requestCaps[..] == EncodeCaps(TableIds(old(store.Abs()), entries))
    {
      ghost var start, h' := store.Abs(), h;
      var tableIds: seq<uint32> := [];
      requestIds := [];
      for i := 0 to |entries|
        invariant store.Valid() && Inv(h', store.Abs())
        invariant EncodesRest(start, entries, h', store.Abs(), entries[i..], requestIds, tableIds)
      {
        assert entries[i..][1..] == entries[i + 1..];
        var capId;
        capId, h' := ImportEntry(entries[i], h', start, entries, entries[i..], requestIds, tableIds);
        if entries[i].Some? {
          requestIds := requestIds + [capId];
        }
        tableIds := tableIds + [capId];
      }
      EncodeDone(start, entries, h', store.Abs(), entries[|entries|..], requestIds, tableIds);
      requestCaps := WriteCapTable(tableIds);
    }

    lemma StoreIsValid()
      requires store.Valid()
      ensures TargetTable.Valid(store.Abs())
    {
    }

    method DropRequestCaps(ids: seq<uint32>)
      requires store.Valid()
      modifies Frame()
      ensures store.Valid() && store.Abs() == DropAll(old(store.Abs()), Elems(ids))
    {
      StoreIsValid();
      DropAllNothing(store.Abs(), {});
      assert Elems(ids[..0]) == {};
      for i := 0 to |ids|
        invariant store.Valid() && store.Abs() == DropAll(old(store.Abs()), Elems(ids[..i]))
      {
        DropAllTwice(old(store.Abs()), Elems(ids[..i]), {ids[i]});
        assert Elems(ids[..i + 1]) == Elems(ids[..i]) + {ids[i]};
        var erased := store.DropTargetIfPresent(ids[i]);
      }
      assert ids[..|ids|] == ids;
    }

    method DropRequestCapsExcept(ids: seq<uint32>, retainedCaps: seq<uint32>)
      requires store.Valid()
      modifies Frame()
      ensures store.Valid() && store.Abs() == DropAll(old(store.Abs()), Elems(ids) - NonZero(retainedCaps))
    {
      if |retainedCaps| == 0 {
        DropRequestCaps(ids);
        assert Elems(ids) - NonZero(retainedCaps) == Elems(ids);
        return;
      }
      var retained := {};
      for i := 0 to |retainedCaps|
        invariant retained == NonZero(retainedCaps[..i])
      {
        if retainedCaps[i] != 0 {
          retained := retained + {retainedCaps[i]};
        }
      }
      assert retainedCaps[..|retainedCaps|] == retainedCaps;
      StoreIsValid();
      DropAllNothing(store.Abs(), {});
      assert Elems(ids[..0]) - retained == {};
      for i := 0 to |ids|
        invariant store.Valid() && store.Abs() == DropAll(old(store.Abs()), Elems(ids[..i]) - retained)
      {
        assert Elems(ids[..i + 1]) == Elems(ids[..i]) + {ids[i]};
        if ids[i] !in retained {
          DropAllTwice(old(store.Abs()), Elems(ids[..i]) - retained, {ids[i]});
          assert Elems(ids[..i + 1]) - retained == Elems(ids[..i]) - retained + {ids[i]};
          var erased := store.DropTargetIfPresent(ids[i]);
        } else {
          assert Elems(ids[..i + 1]) - retained == Elems(ids[..i]) - retained;
        }
      }
      assert ids[..|ids|] == ids;
    }

    method DropRequestCapsExceptOne(ids: seq<uint32>, retained: uint32)
      requires store.Valid()
      modifies Frame()
      ensures store.Valid() && store.Abs() == DropAll(old(store.Abs()), Elems(ids) - {0, retained})
    {
      StoreIsValid();
      DropAllNothing(store.Abs(), {});
      assert Elems(ids[..0]) - {0, retained} == {};
      for i := 0 to |ids|
        invariant store.Valid() && store.Abs() == DropAll(old(store.Abs()), Elems(ids[..i]) - {0, retained})
      {
        assert Elems(ids[..i + 1]) == Elems(ids[..i]) + {ids[i]};
        if ids[i] == 0 || ids[i] == retained {
          assert Elems(ids[..i + 1]) - {0, retained} == Elems(ids[..i]) - {0, retained};
          continue;
        }
        DropAllTwice(old(store.Abs()), Elems(ids[..i]) - {0, retained}, {ids[i]});
        assert Elems(ids[..i + 1]) - {0, retained} == Elems(ids[..i]) - {0, retained} + {ids[i]};
        var erased := store.DropTargetIfPresent(ids[i]);
      }
      assert ids[..|ids|] == ids;
    }

    /** The loop that turns ids into capability hooks, and throws at the first unknown one. */
    method FindUnknown(caps: seq<uint32>) returns (id: Option<uint32>)
      ensures id == FirstUnknown(store.targets.Keys, caps)
    {
      for i := 0 to |caps|
        invariant FirstUnknown(store.targets.Keys, caps[i..]) == FirstUnknown(store.targets.Keys, caps)
      {
        assert caps[i..][1..] == caps[i + 1..];
        if caps[i] == 0 {
          continue;
        }
        if caps[i] !in store.targets {
          return Some(caps[i]);
        }
      }
      return None;
    }

    method ReadPayload(caps: seq<uint32>, readable: bool) returns (failure: Option<Failure>)
      ensures failure == PayloadFailure(store.targets.Keys, caps, readable)
    {
      if !readable {
        return Some(BadPayload);
      }
      var unknown := FindUnknown(caps);
      if unknown.Some? {
        return Some(UnknownCap(unknown.value));
      }
      return None;
    }

    method SetRequestPayload(bytes: Bytes, caps: seq<uint32>, readable: bool) returns (failure: Option<Failure>)
      ensures failure == OptionalPayloadFailure(store.targets.Keys, bytes, caps, readable)
    {
      if bytes == [] {
        if caps != [] {
          return Some(CapsWithoutPayload);
        }
        return None;
      }
      failure := ReadPayload(caps, readable);
    }

    method SetContextPipeline(bytes: Bytes, caps: Bytes, readable: bool) returns (failure: Option<Failure>)
      ensures failure == PipelineFailure(store.targets.Keys, bytes, caps, readable)
    {
      if bytes == [] {
        if caps != [] {
          return Some(CapsWithoutPayload);
        }
        return None;
      }
      var ids: seq<uint32> := [];
      if caps != [] {
        var decoded := DecodeCapTable(caps);
        if decoded.Err? {
          return Some(BadCapTable);
        }
        ids := decoded.value;
      }
      failure := ReadPayload(ids, readable);
    }

    // ---- the plain server -----------------------------------------------------------------

    /**
     A plain handler: on a normal return the request ids its response names stay, on any throw none.
     `reply` is the response's capability table, absent for an IO error.
     */
    method DispatchPlain(entries: seq<Option<Cap>>, handler: seq<Op>, reply: Option<Bytes>, env: Environment,
                         ghost h: History)
      returns (failure: Option<Failure>)
      requires store.Valid() && IdsSuffice(h, store.Abs(), entries, handler)
      modifies Frame()
      ensures store.Valid()
      ensures var requestIds := RequestIds(old(store.Abs()), entries);
              var t := AfterHandler(old(store.Abs()), entries, handler);
              && failure == PlainFailure(t.targets.Keys, reply, env)
              && store.Abs() == DropAll(t, Elems(requestIds) -
                                        if failure == None then NonZero(DecodeCaps(reply.value).value) else {})
    {
      var requestIds := BeginCall(entries, handler, h);
      failure := AnswerPlain(requestIds, reply, env);
    }

    method AnswerPlain(requestIds: seq<uint32>, reply: Option<Bytes>, env: Environment)
      returns (failure: Option<Failure>)
      requires store.Valid() && 0 !in requestIds
      modifies Frame()
      ensures store.Valid() && failure == PlainFailure(old(store.targets).Keys, reply, env)
      ensures store.Abs() == DropAll(old(store.Abs()), Elems(requestIds) -
                                     if failure == None then NonZero(DecodeCaps(reply.value).value) else {})
    {
      ghost var t := store.Abs();
      if reply == None {
        DropRequestCapsExceptOne(requestIds, 0);
        assert Elems(requestIds) - {0, 0} == Elems(requestIds) == Elems(requestIds) - {};
        return Some(HandlerFailed);
      }
      var decoded := DecodeCapTable(reply.value);
      if decoded.Err? {
        DropRequestCaps(requestIds);
        assert Elems(requestIds) - {} == Elems(requestIds);
        return Some(BadCapTable);
      }
      DropRequestCapsExcept(requestIds, decoded.value);
      KeptLookups(t, requestIds, decoded.value);
      failure := ReadPayload(decoded.value, env.payload);
      if failure.Some? {
        DropAllTwice(t, Elems(requestIds) - NonZero(decoded.value), Elems(requestIds));
        assert Elems(requestIds) - NonZero(decoded.value) + Elems(requestIds) == Elems(requestIds) - {};
        DropRequestCaps(requestIds);
      }
    }

    /** The part all servers share: ids for the request's capabilities, then the handler runs. */
    method BeginCall(entries: seq<Option<Cap>>, handler: seq<Op>, ghost h: History)
      returns (requestIds: seq<uint32>)
      requires store.Valid() && IdsSuffice(h, store.Abs(), entries, handler)
      modifies Frame()
      ensures store.Valid() && store.Abs() == AfterHandler(old(store.Abs()), entries, handler)
      ensures requestIds == RequestIds(old(store.Abs()), entries) && 0 !in requestIds
    {
      ghost var t := store.Abs();
      HistoryConcat(h, t, Imports(entries), handler);
      RunConcat(t, Imports(entries), handler);
      IssuedGrows(HistoryOf(h, t, Imports(entries)), Run(t, Imports(entries)), handler);
      RequestIdsAreFresh(h, t, entries);
      RunKeepsInv(h, t, Imports(entries));
      var requestCaps;
      requestCaps, requestIds := EncodeRequest(entries, h);
      PerformAll(handler, HistoryOf(h, t, Imports(entries)));
    }

    // ---- the tail-call server -------------------------------------------------------------

    /** A tail-call handler names the id to forward to: the only request id that can stay. */
    method DispatchTailCall(entries: seq<Option<Cap>>, handler: seq<Op>, reply: Option<uint32>, ghost h: History)
      returns (failure: Option<Failure>)
      requires store.Valid() && IdsSuffice(h, store.Abs(), entries, handler)
      modifies Frame()
      ensures store.Valid()
      ensures var requestIds := RequestIds(old(store.Abs()), entries);
              var t := AfterHandler(old(store.Abs()), entries, handler);
              && (failure == None <==> reply.Some? && reply.value in t.targets)
              && (failure.Some? ==>
                    failure.value == if reply == None then HandlerFailed else UnknownCap(reply.value))
              && store.Abs() == DropAll(t, Elems(requestIds) - if failure == None then {reply.value} else {})
    {
      var requestIds := BeginCall(entries, handler, h);
      if reply == None {
        DropRequestCapsExceptOne(requestIds, 0);
        assert Elems(requestIds) - {0, 0} == Elems(requestIds) == Elems(requestIds) - {};
        return Some(HandlerFailed);
      }
      if reply.value !in store.targets {
        DropRequestCapsExceptOne(requestIds, 0);
        assert Elems(requestIds) - {0, 0} == Elems(requestIds) == Elems(requestIds) - {};
        return Some(UnknownCap(reply.value));
      }
      DropRequestCapsExceptOne(requestIds, reply.value);
      assert Elems(requestIds) - {0, reply.value} == Elems(requestIds) - {reply.value};
      return None;
    }

    // ---- the advanced server --------------------------------------------------------------

    method CleanupRequestCaps(state: CleanupState, retainedCaps: seq<uint32>)
      requires store.Valid() && state.Valid()
      modifies Frame(), state
      ensures store.Valid() && state.Valid() && state.done
      ensures store.Abs() == if old(state.done) then old(store.Abs())
                             else DropAll(old(store.Abs()), Elems(state.requestIds) - NonZero(retainedCaps))
    {
      if state.done {
        return;
      }
      DropRequestCapsExcept(state.requestIds, retainedCaps);
      state.done := true;
      state.effective := state.effective + 1;
    }

    /** A cleanup that keeps nothing. */
    method CleanupAll(state: CleanupState)
      requires store.Valid() && state.Valid()
      modifies Frame(), state
      ensures store.Valid() && state.Valid() && state.done
      ensures store.Abs() == if old(state.done) then old(store.Abs())
                             else DropAll(old(store.Abs()), Elems(state.requestIds))
    {
      CleanupRequestCaps(state, []);
      assert Elems(state.requestIds) - NonZero([]) == Elems(state.requestIds);
    }

    /** The checks before the core, each of which cleans up before it throws. */
    method CheckOptions(a: Action, env: Environment, state: CleanupState) returns (failure: Option<Failure>)
      requires store.Valid() && state.Valid() && !state.done
      modifies Frame(), state
      ensures store.Valid() && state.Valid() && state.done == failure.Some?
      ensures failure == OptionsFailure(old(store.targets).Keys, a, env)
      ensures store.Abs() == if failure.Some? then DropAll(old(store.Abs()), Elems(state.requestIds))
                             else old(store.Abs())
    {
      var o := a.options;
      if (o.sendResultsToCaller || o.noPromisePipelining || o.onlyPromisePipeline) && !a.core.AsyncCall? {
        CleanupAll(state);
        return Some(ForwardOptionsWithoutForwardCall);
      }
      if o.exceptionType != Failed && !a.core.ThrowRemote? {
        CleanupAll(state);
        return Some(ExceptionTypeWithoutThrow);
      }
      if o.pipeline.Some? {
        if !a.core.AwaitTask? {
          CleanupAll(state);
          return Some(PipelineWithoutDefer);
        }
        failure := SetContextPipeline(o.pipeline.value.0, o.pipeline.value.1, env.pipeline);
        if failure.Some? {
          CleanupAll(state);
          return;
        }
      }
      return None;
    }

    method DropResponseCaps(ids: seq<uint32>)
      requires store.Valid()
      modifies Frame()
      ensures store.Valid() && store.Abs() == DropAll(old(store.Abs()), NonZero(ids))
    {
      StoreIsValid();
      DropAllNothing(store.Abs(), {});
      assert NonZero(ids[..0]) == {};
      for i := 0 to |ids|
        invariant store.Valid() && store.Abs() == DropAll(old(store.Abs()), NonZero(ids[..i]))
      {
        assert ids[..i + 1] == ids[..i] + [ids[i]];
        if ids[i] != 0 {
          DropAllTwice(old(store.Abs()), NonZero(ids[..i]), {ids[i]});
          assert NonZero(ids[..i + 1]) == NonZero(ids[..i]) + {ids[i]};
          var erased := store.DropTargetIfPresent(ids[i]);
        } else {
          assert NonZero(ids[..i + 1]) == NonZero(ids[..i]);
        }
      }
      assert ids[..|ids|] == ids;
    }

    method AnswerCall(caps: Bytes, streaming: bool, env: Environment, state: CleanupState) returns (v: Verdict)
      requires store.Valid() && state.Valid() && !state.done
      modifies Frame(), state
      ensures store.Valid() && state.Valid()
      ensures v == AnswerVerdict(old(store.targets).Keys, caps, streaming, env)
      ensures |caps| % 4 != 0 ==> v == Threw(BadCapTable, false)
      ensures |caps| % 4 == 0 ==> !v.Threw? && !v.Forwarded? && !v.Deferred?
      ensures |caps| % 4 == 0 ==> EncodeCaps(v.response) == caps && (v.Streamed? <==> streaming)
      ensures |caps| % 4 == 0 && !streaming ==>
                (v.Answered? <==> env.payload && NamesOnly(old(store.targets).Keys, caps))
      ensures state.done == v.Cleans()
      ensures store.Abs() == if v.Cleans() then DropAll(old(store.Abs()), Released(v, state.requestIds))
                             else old(store.Abs())
    {
      var decoded := DecodeCapTable(caps);
      CapsRoundTrip(caps, if decoded.Ok? then decoded.value else []);
      NamesOnlyIff(store.targets.Keys, caps);
      if decoded.Err? {
        return Threw(BadCapTable, false);
      }
      if streaming {
        StreamAnswer(decoded.value, state);
        return Streamed(decoded.value);
      }
      var failure := KeepAndAnswer(decoded.value, env, state);
      v := if failure == None then Answered(decoded.value) else AnswerFailed(decoded.value, failure.value);
      assert Released(v, state.requestIds) == Elems(state.requestIds) - NonZero(decoded.value);
    }

    /** A streaming call has no results: the request's and the response's capabilities all go. */
    method StreamAnswer(response: seq<uint32>, state: CleanupState)
      requires store.Valid() && state.Valid() && !state.done
      modifies Frame(), state
      ensures store.Valid() && state.Valid() && state.done
      ensures store.Abs() == DropAll(old(store.Abs()), Released(Streamed(response), state.requestIds))
    {
      CleanupAll(state);
      DropResponseCaps(response);
      DropAllTwice(old(store.Abs()), Elems(state.requestIds), NonZero(response));
      assert Released(Streamed(response), state.requestIds) == Elems(state.requestIds) + NonZero(response);
    }

    method KeepAndAnswer(response: seq<uint32>, env: Environment, state: CleanupState)
      returns (failure: Option<Failure>)
      requires store.Valid() && state.Valid() && !state.done
      modifies Frame(), state
      ensures store.Valid() && state.Valid() && state.done
      ensures failure == PayloadFailure(old(store.targets).Keys, response, env.payload)
      ensures store.Abs() == DropAll(old(store.Abs()), Elems(state.requestIds) - NonZero(response))
    {
      KeptLookups(store.Abs(), state.requestIds, response);
      CleanupRequestCaps(state, response);
      failure := ReadPayload(response, env.payload);
    }

    method ForwardCall(core: Core, o: Options, env: Environment, state: CleanupState) returns (v: Verdict)
      requires (core.AsyncCall? || core.TailCall?) && store.Valid() && state.Valid() && !state.done
      modifies Frame(), state
      ensures store.Valid() && state.Valid()
      ensures v == CallVerdict(old(store.targets).Keys, core, o, env)
      ensures state.done == v.Cleans()
      ensures store.Abs() == if v.Cleans() then DropAll(old(store.Abs()), Elems(state.requestIds))
                             else old(store.Abs())
    {
      if core.target !in store.targets {
        CleanupAll(state);
        return Threw(UnknownCap(core.target), true);
      }
      var decoded := DecodeCapTable(core.payloadCaps);
      if decoded.Err? {
        return Threw(BadCapTable, false);
      }
      var failure := SetRequestPayload(core.payloadBytes, decoded.value, env.payload);
      if failure.Some? {
        return Threw(failure.value, false);
      }
      CleanupAll(state);
      if core.AsyncCall? && !o.sendResultsToCaller && o.onlyPromisePipeline {
        return Threw(OnlyPipelineWithoutCaller, true);
      }
      return Forwarded(Outgoing(core.target, core.interfaceId, core.methodId, core.payloadBytes, decoded.value,
                                core.TailCall? || o.sendResultsToCaller, o.noPromisePipelining, o.onlyPromisePipeline));
    }

    /** Carries a decoded action out. A throwing branch may leave the cleanup to its caller. */
    method DispatchDecodedAction(a: Action, env: Environment, state: CleanupState) returns (v: Verdict)
      requires store.Valid() && state.Valid() && !state.done
      modifies Frame(), state
      ensures store.Valid() && state.Valid()
      ensures v == Judge(old(store.targets).Keys, a, env)
      ensures state.done == v.Cleans()
      ensures store.Abs() == if v.Cleans() then DropAll(old(store.Abs()), Released(v, state.requestIds))
                             else old(store.Abs())
    {
      var failure := CheckOptions(a, env, state);
      if failure.Some? {
        assert Released(Threw(failure.value, true), state.requestIds) == Elems(state.requestIds);
        return Threw(failure.value, true);
      }
      match a.core {
        case ReturnPayload(_, caps) =>
          v := AnswerCall(caps, a.options.isStreaming, env, state);
        case AsyncCall(_, _, _, _, _) =>
          v := ForwardCall(a.core, a.options, env, state);
        case TailCall(_, _, _, _, _) =>
          v := ForwardCall(a.core, a.options, env, state);
        case ThrowRemote(message, detail) =>
          CleanupAll(state);
          v := Threw(Remote(a.options.exceptionType, message, detail), true);
        case AwaitTask(_, _) =>
          v := if env.taskFailure.Some? then Threw(env.taskFailure.value, false) else Deferred;
      }
      assert !v.Streamed? && Kept(v) == {} ==> Released(v, state.requestIds) == Elems(state.requestIds);
    }

    /** What is left of the request ids when the handler's own action has been carried out. */
    lemma WhatIsLeft(t: Table, reply: Option<RawAction>, env: Environment, requestIds: seq<uint32>)
      requires 0 !in requestIds
      ensures var v := AdvancedVerdict(t.targets.Keys, reply, env);
              var (_, end, _) := EndOf(t, reply, env, []);
              && (v == Deferred <==> end.Waiting?)
              && forall id | id in requestIds ::
                   id in (if v == Deferred then t else DropAll(t, Released(v, requestIds))).targets
                   <==> id in t.targets && (end.Waiting? || AnswerNames(end, id))
    {
      CallEnds(t, reply, env, [], 0);
      forall id | id in requestIds
        ensures var v := AdvancedVerdict(t.targets.Keys, reply, env);
                var (_, end, _) := EndOf(t, reply, env, []);
                id in (if v == Deferred then t else DropAll(t, Released(v, requestIds))).targets
                <==> id in t.targets && (end.Waiting? || AnswerNames(end, id))
      {
        CallEnds(t, reply, env, [], id);
        RequestIdsLeft(t, AdvancedVerdict(t.targets.Keys, reply, env), requestIds, id);
      }
    }

    /**
     The advanced server. Unless the call is deferred, the request ids left are those the branch
     keeps, whatever throws on the way, and the cleanup has taken effect exactly once.
     */
    method DispatchAdvanced(entries: seq<Option<Cap>>, handler: seq<Op>, reply: Option<RawAction>, env: Environment,
                            ghost h: History)
      returns (v: Verdict, state: CleanupState)
      requires store.Valid() && IdsSuffice(h, store.Abs(), entries, handler)
      modifies Frame()
      ensures store.Valid() && state.Valid() && fresh(state)
      ensures state.requestIds == RequestIds(old(store.Abs()), entries)
      ensures var t := AfterHandler(old(store.Abs()), entries, handler);
              && v == AdvancedVerdict(t.targets.Keys, reply, env)
              && store.Abs() == if v == Deferred then t else DropAll(t, Released(v, state.requestIds))
      ensures state.effective == if v == Deferred then 0 else 1
      ensures var t := AfterHandler(old(store.Abs()), entries, handler);
              var (_, end, _) := EndOf(t, reply, env, []);
              && (v == Deferred <==> end.Waiting?)
              && forall id | id in state.requestIds ::
                   id in store.targets <==> id in t.targets && (end.Waiting? || AnswerNames(end, id))
    {
      var requestIds := BeginCall(entries, handler, h);
      state := new CleanupState(requestIds);
      WhatIsLeft(store.Abs(), reply, env, requestIds);
      if reply == None {
        CleanupAll(state);
        v := Threw(HandlerFailed, true);
        assert Released(v, state.requestIds) == Elems(state.requestIds);
        return;
      }
      var decoded := DecodeAction(reply.value);
      if decoded.Err? {
        v := Threw(Undecodable(decoded.error), false);
      } else {
        v := DispatchDecodedAction(decoded.value, env, state);
      }
      if v.Throws() {
        CleanupAll(state);
        assert v.Threw? ==> Released(v, state.requestIds) == Elems(state.requestIds);
      }
    }

    /**
     The continuation of a deferred call once its task has finished. An exception out of the nested
     dispatch goes past the error handler of the same promise. Only a continuation that is `nested` in
     another has that one's handler above it; of the first, request ids stay where the throwing branch
     has not cleaned up.
     */
    method ResumeDeferred(task: Result<Action, Failure>, early: Options, env: Environment, nested: bool,
                          state: CleanupState)
      returns (v: Verdict)
      requires store.Valid() && state.Valid() && !state.done
      modifies Frame(), state
      ensures store.Valid() && state.Valid()
      ensures v == ResumeVerdict(old(store.targets).Keys, task, early, env)
      ensures state.done == (v.Cleans() || (nested && v.Throws()))
      ensures store.Abs() == if state.done then DropAll(old(store.Abs()), Released(v, state.requestIds))
                             else old(store.Abs())
    {
      var refusal: Option<Failure> := None;
      if task.Err? {
        refusal := Some(task.error);
      } else if task.value.options.allowCancellation && !early.allowCancellation {
        refusal := Some(LateCancellation);
      } else if task.value.options.isStreaming && !early.isStreaming {
        refusal := Some(LateStreaming);
      }
      if refusal.Some? {
        CleanupAll(state);
        v := Threw(refusal.value, true);
        assert Released(v, state.requestIds) == Elems(state.requestIds);
        return;
      }
      v := DispatchDecodedAction(task.value, env, state);
      if nested && v.Throws() {
        CleanupAll(state);
        assert v.Threw? ==> Released(v, state.requestIds) == Elems(state.requestIds);
      }
    }

    /** All continuations of a deferred call, one after the other, until it is answered or no more come. */
    method FinishDeferred(early: Options, resumes: seq<Resume>, state: CleanupState, ghost h: History)
      returns (v: Verdict)
      requires store.Valid() && state.Valid() && !state.done
      requires Inv(h, store.Abs()) && HistoryOf(h, store.Abs(), Meanwhile(resumes)).issued + 1 < U32
      modifies Frame(), state
      ensures store.Valid() && state.Valid()
      ensures var (t, verdict, cleaned) := Chain(old(store.Abs()), early, resumes, false);
              && v == verdict && state.done == cleaned
              && store.Abs() == if cleaned then DropAll(t, Released(v, state.requestIds)) else t
    {
      ghost var h', start := h, store.Abs();
      var options, nested := early, false;
      v := Deferred;
      for i := 0 to |resumes|
        invariant store.Valid() && state.Valid() && !state.done && v == Deferred
        invariant Inv(h', store.Abs()) && HistoryOf(h', store.Abs(), Meanwhile(resumes[i..])).issued + 1 < U32
        invariant Chain(store.Abs(), options, resumes[i..], nested) == Chain(start, early, resumes, false)
      {
        var r := resumes[i];
        assert resumes[i..][0] == r && resumes[i..][1..] == resumes[i + 1..];
        ghost var t, rest := store.Abs(), Meanwhile(resumes[i + 1..]);
        HistoryConcat(h', t, r.meanwhile, rest);
        IssuedGrows(HistoryOf(h', t, r.meanwhile), Run(t, r.meanwhile), rest);
        RunKeepsInv(h', t, r.meanwhile);
        PerformAll(r.meanwhile, h');
        h' := HistoryOf(h', t, r.meanwhile);
        v := ResumeDeferred(r.task, options, r.env, nested, state);
        if v != Deferred {
          return;
        }
        options, nested := r.task.value.options, true;
      }
    }
  }
}

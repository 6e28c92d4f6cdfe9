/**
 Decoding of the action an advanced Lean handler returns: wrappers nested around one core result.
 The decoder peels wrappers off from the outside; the specification works on the list of wrappers.
 */
module HandlerActions {
  import opened Words
  import opened LittleEndian
  import opened RemoteExceptions

  type Bytes = seq<byte>

  datatype Wrapper =
    | Control(releaseParams: bool, allowCancellation: bool, isStreaming: bool)
    | SendResultsToCaller
    | CallHints(noPromisePipelining: bool, onlyPromisePipeline: bool)
    | ExceptionKind(tag: byte)
    | SetPipeline(pipelineBytes: Bytes, pipelineCaps: Bytes)

  datatype Core =
    | ReturnPayload(payloadBytes: Bytes, payloadCaps: Bytes)
    | AsyncCall(interfaceId: nat, target: uint32, methodId: nat, payloadBytes: Bytes, payloadCaps: Bytes)
    | TailCall(interfaceId: nat, target: uint32, methodId: nat, payloadBytes: Bytes, payloadCaps: Bytes)
    | ThrowRemote(message: string, detailBytes: Bytes)
    | AwaitTask(waitTask: nat, cancelTask: nat)

  /** A Lean object as the handler returns it; `Unknown` is any constructor tag the decoder has no case for. */
  datatype RawAction = Wrap(wrapper: Wrapper, inner: RawAction) | Result(core: Core) | Unknown(tag: nat)

  /** What the wrappers have asked for. */
  datatype Options = Options(
    releaseParams: bool, allowCancellation: bool, isStreaming: bool, sendResultsToCaller: bool,
    noPromisePipelining: bool, onlyPromisePipeline: bool, exceptionType: ExceptionType,
    pipeline: Option<(Bytes, Bytes)>)

  datatype Action = Action(core: Core, options: Options)

  datatype DecodeError = PipelineSetTwice | UnknownTag

  // ---- what an action means ---------------------------------------------------------------

  function Wrappers(raw: RawAction): seq<Wrapper> {
    match raw
    case Wrap(w, inner) => [w] + Wrappers(inner)
    case _ => []
  }

  /** What the wrappers are around: a core result, or nothing the decoder knows. */
  function Inside(raw: RawAction): Option<Core> {
    match raw
    case Wrap(_, inner) => Inside(inner)
    case Result(core) => Some(core)
    case Unknown(_) => None
  }

  function PipelineCount(ws: seq<Wrapper>): nat {
    if ws == [] then 0 else (if ws[0].SetPipeline? then 1 else 0) + PipelineCount(ws[1..])
  }

  /** The type named by the innermost of the exception wrappers, `Failed` without any. */
  function InnermostType(ws: seq<Wrapper>): ExceptionType {
    if ws == [] then Failed
    else if ws[|ws| - 1].ExceptionKind? then DecodeExceptionType(ws[|ws| - 1].tag)
    else InnermostType(ws[..|ws| - 1])
  }

  function PipelineOf(ws: seq<Wrapper>): Option<(Bytes, Bytes)> {
    if ws == [] then None
    else if ws[0].SetPipeline? then Some((ws[0].pipelineBytes, ws[0].pipelineCaps))
    else PipelineOf(ws[1..])
  }

  predicate Releases(w: Wrapper) { w.Control? && w.releaseParams }
  predicate Cancels(w: Wrapper) { w.Control? && w.allowCancellation }
  predicate Streams(w: Wrapper) { w.Control? && w.isStreaming }
  predicate NoPromise(w: Wrapper) { w.CallHints? && w.noPromisePipelining }
  predicate OnlyPipeline(w: Wrapper) { w.CallHints? && w.onlyPromisePipeline }

  // A flag is raised as soon as one wrapper raises it.
  predicate AnyReleases(ws: seq<Wrapper>) { exists w :: w in ws && Releases(w) }
  predicate AnyCancels(ws: seq<Wrapper>) { exists w :: w in ws && Cancels(w) }
  predicate AnyStreams(ws: seq<Wrapper>) { exists w :: w in ws && Streams(w) }
  predicate AnyNoPromise(ws: seq<Wrapper>) { exists w :: w in ws && NoPromise(w) }
  predicate AnyOnlyPipeline(ws: seq<Wrapper>) { exists w :: w in ws && OnlyPipeline(w) }

  function OptionsOf(ws: seq<Wrapper>): Options {
    Options(AnyReleases(ws), AnyCancels(ws), AnyStreams(ws), SendResultsToCaller in ws,
            AnyNoPromise(ws), AnyOnlyPipeline(ws), InnermostType(ws), PipelineOf(ws))
  }

  /** Two pipelines are refused before the core is looked at. */
  function Meaning(ws: seq<Wrapper>, inside: Option<Core>): Result<Action, DecodeError> {
    if PipelineCount(ws) >= 2 then Err(PipelineSetTwice)
    else if inside == None then Err(UnknownTag)
    else Ok(Action(inside.value, OptionsOf(ws)))
  }

  // ---- order does not matter --------------------------------------------------------------

  /** All exception wrappers name one type. */
  ghost predicate OneExceptionType(ws: seq<Wrapper>) {
    forall v, w | v in ws && w in ws && v.ExceptionKind? && w.ExceptionKind? ::
      DecodeExceptionType(v.tag) == DecodeExceptionType(w.tag)
  }

  lemma {:induction false} InnermostTypeIsNamed(ws: seq<Wrapper>)
    ensures (exists w :: w in ws && w.ExceptionKind? && InnermostType(ws) == DecodeExceptionType(w.tag))
            || (InnermostType(ws) == Failed && forall w | w in ws :: !w.ExceptionKind?)
  {
    if ws != [] {
      var last := ws[|ws| - 1];
      assert ws == ws[..|ws| - 1] + [last];
      assert last in ws;
      if !last.ExceptionKind? {
        InnermostTypeIsNamed(ws[..|ws| - 1]);
      }
    }
  }

  lemma SplitAt(s: seq<Wrapper>, w: Wrapper) returns (a: seq<Wrapper>, b: seq<Wrapper>)
    requires w in s
    ensures s == a + [w] + b
  {
    var i :| 0 <= i < |s| && s[i] == w;
    a, b := s[..i], s[i + 1..];
  }

  lemma {:induction false} CountOfConcat(a: seq<Wrapper>, b: seq<Wrapper>)
    ensures PipelineCount(a + b) == PipelineCount(a) + PipelineCount(b)
  {
    if a == [] {
      assert a + b == b;
    } else {
      assert (a + b)[1..] == a[1..] + b;
      CountOfConcat(a[1..], b);
    }
  }

  lemma TakeOut(ws: seq<Wrapper>, vs: seq<Wrapper>) returns (a: seq<Wrapper>, b: seq<Wrapper>)
    requires multiset(ws) == multiset(vs) && ws != []
    ensures vs == a + [ws[0]] + b && multiset(ws[1..]) == multiset(a + b)
  {
    assert ws == [ws[0]] + ws[1..];
    assert ws[0] in multiset(vs);
    a, b := SplitAt(vs, ws[0]);
    assert multiset(vs) == multiset(a + b) + multiset{ws[0]};
    assert multiset(ws) == multiset(ws[1..]) + multiset{ws[0]};
    assert multiset(ws[1..]) == multiset(ws) - multiset{ws[0]};
  }

  lemma {:induction false} CountIsOrderFree(ws: seq<Wrapper>, vs: seq<Wrapper>)
    requires multiset(ws) == multiset(vs)
    ensures PipelineCount(ws) == PipelineCount(vs)
    decreases |ws|
  {
    if ws == [] {
      assert |vs| == |multiset(vs)| == 0;
    } else {
      var a, b := TakeOut(ws, vs);
      CountIsOrderFree(ws[1..], a + b);
      CountOfConcat(a, b);
      CountOfConcat(a, [ws[0]]);
      CountOfConcat(a + [ws[0]], b);
    }
  }

  lemma {:induction false} PipelineOfNone(ws: seq<Wrapper>)
    ensures PipelineCount(ws) == 0 <==> forall w | w in ws :: !w.SetPipeline?
    ensures PipelineOf(ws) == None <==> PipelineCount(ws) == 0
  {
    if ws != [] {
      assert ws == [ws[0]] + ws[1..];
      PipelineOfNone(ws[1..]);
    }
  }

  /** With one pipeline wrapper, that is the pipeline. */
  lemma {:induction false} PipelineOfOne(ws: seq<Wrapper>, w: Wrapper)
    requires PipelineCount(ws) == 1 && w in ws && w.SetPipeline?
    ensures PipelineOf(ws) == Some((w.pipelineBytes, w.pipelineCaps))
  {
    assert ws == [ws[0]] + ws[1..];
    if ws[0].SetPipeline? {
      PipelineOfNone(ws[1..]);
    } else {
      PipelineOfOne(ws[1..], w);
    }
  }

  lemma PipelineIsOrderFree(ws: seq<Wrapper>, vs: seq<Wrapper>)
    requires multiset(ws) == multiset(vs) && PipelineCount(ws) <= 1
    ensures PipelineOf(ws) == PipelineOf(vs)
  {
    CountIsOrderFree(ws, vs);
    PipelineOfNone(ws);
    PipelineOfNone(vs);
    if PipelineCount(ws) == 1 {
      var w :| w in ws && w.SetPipeline?;
      assert w in multiset(vs);
      PipelineOfOne(ws, w);
      PipelineOfOne(vs, w);
    }
  }

  /** Any reordering of the wrappers decodes to the same result, if the exception wrappers agree. */
  lemma WrapperOrderIsFree(ws: seq<Wrapper>, vs: seq<Wrapper>, inside: Option<Core>)
    requires multiset(ws) == multiset(vs) && OneExceptionType(ws)
    ensures Meaning(ws, inside) == Meaning(vs, inside)
  {
    assert forall w :: w in ws <==> w in multiset(ws);
    assert forall w :: w in vs <==> w in multiset(vs);
    CountIsOrderFree(ws, vs);
    InnermostTypeIsNamed(ws);
    InnermostTypeIsNamed(vs);
    if PipelineCount(ws) <= 1 {
      PipelineIsOrderFree(ws, vs);
    }
  }

  /**
   That is the exact condition: exception wrappers naming two types can be reordered so that the
   result changes, whenever there is a result.
   */
  lemma WrapperOrderMatters(ws: seq<Wrapper>, inside: Option<Core>) returns (vs: seq<Wrapper>)
    requires !OneExceptionType(ws) && Meaning(ws, inside).Ok?
    ensures multiset(vs) == multiset(ws) && Meaning(vs, inside) != Meaning(ws, inside)
  {
    var w :| w in ws && w.ExceptionKind? && DecodeExceptionType(w.tag) != InnermostType(ws);
    var a, b := SplitAt(ws, w);
    vs := a + b + [w];
    assert multiset(vs) == multiset(ws);
    assert InnermostType(vs) == DecodeExceptionType(w.tag);
  }

  ghost predicate OrderFree(ws: seq<Wrapper>, inside: Option<Core>) {
    forall vs: seq<Wrapper> | multiset(ws) == multiset(vs) :: Meaning(ws, inside) == Meaning(vs, inside)
  }

  /**
   Reordering the wrappers makes no difference if and only if the exception wrappers name one type or
   decoding fails, which it then does in every order.
   */
  lemma OrderFreeIff(ws: seq<Wrapper>, inside: Option<Core>)
    ensures OrderFree(ws, inside) <==> OneExceptionType(ws) || PipelineCount(ws) >= 2 || inside == None
  {
    if OneExceptionType(ws) || PipelineCount(ws) >= 2 || inside == None {
      forall vs: seq<Wrapper> | multiset(ws) == multiset(vs)
        ensures Meaning(ws, inside) == Meaning(vs, inside)
      {
        if OneExceptionType(ws) {
          WrapperOrderIsFree(ws, vs, inside);
        } else {
          CountIsOrderFree(ws, vs);
        }
      }
    } else {
      var vs := WrapperOrderMatters(ws, inside);
    }
  }

  // ---- what each wrapper asks for ---------------------------------------------------------

  lemma {:induction false} InnermostTypeAt(ws: seq<Wrapper>, i: nat)
    requires i < |ws| && ws[i].ExceptionKind? && forall j | i < j < |ws| :: !ws[j].ExceptionKind?
    ensures InnermostType(ws) == DecodeExceptionType(ws[i].tag)
    decreases |ws|
  {
    if i < |ws| - 1 {
      InnermostTypeAt(ws[..|ws| - 1], i);
    }
  }

  lemma {:induction false} TwoPipelines(ws: seq<Wrapper>, i: nat, j: nat)
    requires i < j < |ws| && ws[i].SetPipeline? && ws[j].SetPipeline?
    ensures PipelineCount(ws) >= 2
  {
    if i == 0 {
      PipelineOfNone(ws[1..]);
      assert ws[1..][j - 1] in ws[1..];
    } else {
      TwoPipelines(ws[1..], i - 1, j - 1);
    }
  }

  lemma {:induction false} TwoOfMany(ws: seq<Wrapper>) returns (i: nat, j: nat)
    requires PipelineCount(ws) >= 2
    ensures i < j < |ws| && ws[i].SetPipeline? && ws[j].SetPipeline?
  {
    if ws[0].SetPipeline? {
      PipelineOfNone(ws[1..]);
      var w :| w in ws[1..] && w.SetPipeline?;
      var k :| 0 <= k < |ws[1..]| && ws[1..][k] == w;
      i, j := 0, k + 1;
    } else {
      i, j := TwoOfMany(ws[1..]);
      i, j := i + 1, j + 1;
    }
  }

  /** Decoding fails for two pipelines, wherever they are, and else only for an unknown innermost action. */
  lemma DecodingFailsIff(ws: seq<Wrapper>, inside: Option<Core>)
    ensures Meaning(ws, inside) == Err(PipelineSetTwice)
            <==> exists i, j | 0 <= i < j < |ws| :: ws[i].SetPipeline? && ws[j].SetPipeline?
    ensures Meaning(ws, inside) == Err(UnknownTag) <==> Meaning(ws, inside) != Err(PipelineSetTwice) && inside == None
  {
    if PipelineCount(ws) >= 2 {
      var i, j := TwoOfMany(ws);
    }
    if i, j :| 0 <= i < j < |ws| && ws[i].SetPipeline? && ws[j].SetPipeline? {
      TwoPipelines(ws, i, j);
    }
  }

  /** Every wrapper has its say, wherever it is in the list, and nothing else is asked for. */
  lemma EveryWrapperCounts(ws: seq<Wrapper>, inside: Option<Core>, i: nat)
    requires i < |ws| && Meaning(ws, inside).Ok?
    ensures var a := Meaning(ws, inside).value;
            && inside == Some(a.core)
            && match ws[i]
               case Control(release, allow, streaming) =>
                 && (release ==> a.options.releaseParams) && (allow ==> a.options.allowCancellation)
                 && (streaming ==> a.options.isStreaming)
               case SendResultsToCaller => a.options.sendResultsToCaller
               case CallHints(noPromise, onlyPipeline) =>
                 (noPromise ==> a.options.noPromisePipelining) && (onlyPipeline ==> a.options.onlyPromisePipeline)
               case ExceptionKind(tag) =>
                 (forall j | i < j < |ws| :: !ws[j].ExceptionKind?) ==>
                   a.options.exceptionType == DecodeExceptionType(tag)
               case SetPipeline(bytes, caps) => a.options.pipeline == Some((bytes, caps))
  {
    assert ws[i] in ws;
    if ws[i].ExceptionKind? && forall j | i < j < |ws| :: !ws[j].ExceptionKind? {
      InnermostTypeAt(ws, i);
    } else if ws[i].SetPipeline? {
      PipelineOfNone(ws);
      PipelineOfOne(ws, ws[i]);
    }
  }

  /** A list without a wrapper that asks for it leaves an option as it is without wrappers. */
  lemma NothingElseIsAsked(ws: seq<Wrapper>, inside: Option<Core>)
    requires Meaning(ws, inside).Ok?
    ensures var o := Meaning(ws, inside).value.options;
            && (o.releaseParams ==> exists w :: w in ws && w.Control? && w.releaseParams)
            && (o.allowCancellation ==> exists w :: w in ws && w.Control? && w.allowCancellation)
            && (o.isStreaming ==> exists w :: w in ws && w.Control? && w.isStreaming)
            && (o.sendResultsToCaller ==> SendResultsToCaller in ws)
            && (o.noPromisePipelining ==> exists w :: w in ws && w.CallHints? && w.noPromisePipelining)
            && (o.onlyPromisePipeline ==> exists w :: w in ws && w.CallHints? && w.onlyPromisePipeline)
            && (o.exceptionType != Failed ==> exists w :: w in ws && w.ExceptionKind?)
            && (o.pipeline.Some? ==> exists w :: w in ws && w.SetPipeline?)
  {
    var o := Meaning(ws, inside).value.options;
    InnermostTypeIsNamed(ws);
    PipelineOfNone(ws);
    if w :| w in ws && Releases(w) { assert w.Control? && w.releaseParams; }
    if w :| w in ws && Cancels(w) { assert w.Control? && w.allowCancellation; }
    if w :| w in ws && Streams(w) { assert w.Control? && w.isStreaming; }
    if w :| w in ws && NoPromise(w) { assert w.CallHints? && w.noPromisePipelining; }
    if w :| w in ws && OnlyPipeline(w) { assert w.CallHints? && w.onlyPromisePipeline; }
  }

  // ---- the decoder ------------------------------------------------------------------------

  lemma FlagsAppend(ws: seq<Wrapper>, w: Wrapper)
    ensures AnyReleases(ws + [w]) == (AnyReleases(ws) || Releases(w))
    ensures AnyCancels(ws + [w]) == (AnyCancels(ws) || Cancels(w))
    ensures AnyStreams(ws + [w]) == (AnyStreams(ws) || Streams(w))
    ensures AnyNoPromise(ws + [w]) == (AnyNoPromise(ws) || NoPromise(w))
    ensures AnyOnlyPipeline(ws + [w]) == (AnyOnlyPipeline(ws) || OnlyPipeline(w))
    ensures SendResultsToCaller in ws + [w] <==> SendResultsToCaller in ws || w == SendResultsToCaller
  {
    assert forall v :: v in ws + [w] <==> v in ws || v == w;
  }

  /** What one more wrapper adds, inside the others; a second pipeline adds nothing. */
  function Absorb(o: Options, w: Wrapper): Options {
    match w
    case Control(release, allow, streaming) =>
      o.(releaseParams := o.releaseParams || release, allowCancellation := o.allowCancellation || allow,
         isStreaming := o.isStreaming || streaming)
    case SendResultsToCaller => o.(sendResultsToCaller := true)
    case CallHints(noPromise, onlyPipeline) =>
      o.(noPromisePipelining := o.noPromisePipelining || noPromise,
         onlyPromisePipeline := o.onlyPromisePipeline || onlyPipeline)
    case ExceptionKind(tag) => o.(exceptionType := DecodeExceptionType(tag))
    case SetPipeline(bytes, caps) => if o.pipeline.Some? then o else o.(pipeline := Some((bytes, caps)))
  }

  lemma OptionsAppend(ws: seq<Wrapper>, w: Wrapper)
    ensures OptionsOf(ws + [w]) == Absorb(OptionsOf(ws), w)
    ensures PipelineCount(ws + [w]) == PipelineCount(ws) + (if w.SetPipeline? then 1 else 0)
    ensures OptionsOf(ws).pipeline.Some? <==> PipelineCount(ws) > 0
  {
    FlagsAppend(ws, w);
    PipelineOfAppend(ws, w);
    PipelineOfNone(ws);
    CountOfConcat(ws, [w]);
    assert (ws + [w])[..|ws|] == ws;
    assert [w][1..] == [];
  }

  const NO_OPTIONS := Options(false, false, false, false, false, false, Failed, None)

  /** Decoding from the outside in, with what the wrappers so far have asked for. */
  function DecodeFrom(o: Options, raw: RawAction): Result<Action, DecodeError>
    decreases raw
  {
    match raw
    case Wrap(w, inner) =>
      if w.SetPipeline? && o.pipeline.Some? then Err(PipelineSetTwice) else DecodeFrom(Absorb(o, w), inner)
    case Result(core) => Ok(Action(core, o))
    case Unknown(_) => Err(UnknownTag)
  }

  lemma {:induction false} DecodeFromMeaning(seen: seq<Wrapper>, raw: RawAction)
    requires PipelineCount(seen) <= 1
    ensures DecodeFrom(OptionsOf(seen), raw) == Meaning(seen + Wrappers(raw), Inside(raw))
    decreases raw
  {
    match raw
    case Wrap(w, inner) =>
      OptionsAppend(seen, w);
      assert seen + Wrappers(raw) == seen + [w] + Wrappers(inner);
      if w.SetPipeline? && OptionsOf(seen).pipeline.Some? {
        CountOfConcat(seen + [w], Wrappers(inner));
      } else {
        DecodeFromMeaning(seen + [w], inner);
      }
    case Result(_) =>
      assert seen + [] == seen;
    case Unknown(_) =>
      assert seen + [] == seen;
  }

  /** Peels wrappers off from the outside, accumulating what they ask for. */
  method DecodeAction(raw: RawAction) returns (r: Result<Action, DecodeError>)
    ensures r == Meaning(Wrappers(raw), Inside(raw))
  {
    assert DecodeFrom(NO_OPTIONS, raw) == Meaning(Wrappers(raw), Inside(raw)) by {
      DecodeFromMeaning([], raw);
      assert [] + Wrappers(raw) == Wrappers(raw);
    }
    var obj, o := raw, NO_OPTIONS;
    while obj.Wrap?
      invariant DecodeFrom(o, obj) == DecodeFrom(NO_OPTIONS, raw)
      decreases obj
    {
      ghost var before := o;
      match obj.wrapper {
        case Control(release, allow, streaming) =>
          if release { o := o.(releaseParams := true); }
          if allow { o := o.(allowCancellation := true); }
          if streaming { o := o.(isStreaming := true); }
        case SendResultsToCaller =>
          o := o.(sendResultsToCaller := true);
        case CallHints(noPromise, onlyPipeline) =>
          if noPromise { o := o.(noPromisePipelining := true); }
          if onlyPipeline { o := o.(onlyPromisePipeline := true); }
        case ExceptionKind(tag) =>
          o := o.(exceptionType := DecodeExceptionType(tag));
        case SetPipeline(bytes, caps) =>
          if o.pipeline.Some? {
            return Err(PipelineSetTwice);
          }
          o := o.(pipeline := Some((bytes, caps)));
      }
      assert o == Absorb(before, obj.wrapper);
      obj := obj.inner;
    }
    match obj {
      case Result(core) =>
        return Ok(Action(core, o));
      case Unknown(_) =>
        return Err(UnknownTag);
    }
  }

  lemma {:induction false} PipelineOfAppend(ws: seq<Wrapper>, w: Wrapper)
    ensures PipelineOf(ws + [w])
            == if PipelineOf(ws).Some? then PipelineOf(ws)
               else if w.SetPipeline? then Some((w.pipelineBytes, w.pipelineCaps)) else None
  {
    if ws == [] {
      assert [] + [w] == [w] && [w][1..] == [];
    } else {
      assert (ws + [w])[1..] == ws[1..] + [w];
      PipelineOfAppend(ws[1..], w);
    }
  }
}

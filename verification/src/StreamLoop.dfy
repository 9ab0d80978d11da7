/** The streaming loop as the proxy runs it, over the mutable run, inspector, decoder and hold table. */
module StreamLoop {
  import opened Prelude
  import opened Inspection
  import opened RunMachine
  import opened RunEntity
  import opened Judging
  import opened Streaming
  import opened StreamWire
  import Sse

  function RawHolds(holds: map<Id, seq<Frame>>): map<Id, seq<Bytes>> {
    map id | id in holds :: Raws(holds[id])
  }

  /** The loop's variables hold what the stream state says. */
  ghost predicate Coupled(env: Env, s: Stream, run: Run, inspector: Inspector, holds: map<Id, seq<Bytes>>,
                          out: seq<Bytes>)
    reads run, inspector
  {
    && run.Valid() && inspector.Valid()
    && run.budgets == env.settings.budgets && inspector.oracles == env.oracles
    && run.Model() == s.run && inspector.Model() == s.trail
    && (!s.ended ==> holds == RawHolds(s.holds))
    && out == WireOutput(env, s.out)
  }

  datatype Emit = Emit(frames: seq<Bytes>, terminate: bool, holds: map<Id, seq<Bytes>>)

  function Bucket(holds: map<Id, seq<Bytes>>, id: Id): seq<Bytes> {
    if id in holds then holds[id] else []
  }

  /** What an action does with the frame in hand and the hold table. */
  function Applied(env: Env, action: InspectionAction, raw: Bytes, holds: map<Id, seq<Bytes>>): Emit {
    match action
    case Forward => Emit([raw], false, holds)
    case Hold(id) => Emit([], false, holds[id := Bucket(holds, id) + [raw]])
    case FlushCall(id) => Emit(Bucket(holds, id) + [raw], false, holds - {id})
    case DropCall(id, _) => Emit([], false, holds - {id})
    case ForwardTransformed(replacement) =>
      var bytes := env.render(replacement);
      Emit([if bytes.Some? then bytes.value else raw], false, holds)
    case Drop(_) => Emit([], false, holds)
    case TerminateRun(reason) => Emit([env.failure(reason)], true, map[])
  }

  /** Apply one action to the hold table: the frames to relay, in order, and whether the run ends. */
  method ApplyAction(env: Env, action: InspectionAction, raw: Bytes, holds: map<Id, seq<Bytes>>)
    returns (frames: seq<Bytes>, terminate: bool, holds': map<Id, seq<Bytes>>)
    ensures Emit(frames, terminate, holds') == Applied(env, action, raw, holds)
  {
    frames, terminate, holds' := [], false, holds;
    match action {
      case Forward =>
        frames := [raw];
      case Hold(id) =>
        holds' := holds'[id := Bucket(holds', id) + [raw]];
      case FlushCall(id) =>
        frames := Bucket(holds', id);
        holds' := holds' - {id};
        frames := frames + [raw];
      case DropCall(id, _) =>
        holds' := holds' - {id};
      case ForwardTransformed(replacement) =>
        var bytes := env.render(replacement);
        match bytes {
          case Some(value) => frames := [value];
          case None => frames := [raw];
        }
      case Drop(_) =>
      case TerminateRun(reason) =>
        holds' := map[];
        frames := [env.failure(reason)];
        terminate := true;
    }
  }

  lemma RawHoldsRemove(holds: map<Id, seq<Frame>>, id: Id)
    ensures RawHolds(holds - {id}) == RawHolds(holds) - {id}
  {
  }

  lemma RawHoldsAdd(holds: map<Id, seq<Frame>>, id: Id, frame: Frame)
    ensures var raws := RawHolds(holds);
            RawHolds(holds[id := HeldUnder(holds, id) + [frame]])
            == raws[id := Bucket(raws, id) + [frame.event.raw]]
  {
    assert Raws(HeldUnder(holds, id) + [frame]) == Raws(HeldUnder(holds, id)) + [frame.event.raw];
  }

  /** Judge one fragment and carry the action out. */
  method InspectOne(env: Env, run: Run, inspector: Inspector, fragment: Fragment, frame: Frame,
                    holds: map<Id, seq<Bytes>>, out: seq<Bytes>, ghost s: Stream)
    returns (out': seq<Bytes>, holds': map<Id, seq<Bytes>>, ended: bool)
    requires Coupled(env, s, run, inspector, holds, out) && !s.ended
    modifies run, inspector
    ensures var s' := OnFragment(env, s, fragment, frame);
            Coupled(env, s', run, inspector, holds', out') && ended == s'.ended && s'.log == s.log
  {
    ghost var step := InspectFragment(env.settings.budgets, s.run, fragment);
    OutcomeApplied(env, s.(run := step.state), step.outcome, frame);
    var action := inspector.Inspect(run, fragment);
    var frames, terminate, kept := ApplyAction(env, action, frame.event.raw, holds);
    out', holds', ended := out + frames, kept, terminate;
  }

  /** The wire output, the end of the run and the hold table change as an action says. */
  ghost predicate HasEffect(env: Env, s: Stream, s': Stream, emit: Emit) {
    && WireOutput(env, s'.out) == WireOutput(env, s.out) + emit.frames
    && s'.ended == emit.terminate
    && (!s'.ended ==> RawHolds(s'.holds) == emit.holds)
  }

  lemma OneRaw(frame: Frame)
    ensures Raws([frame]) == [frame.event.raw]
  {
  }

  lemma RawsConcat(a: seq<Frame>, b: seq<Frame>)
    ensures Raws(a + b) == Raws(a) + Raws(b)
  {
  }

  lemma EmitApplied(env: Env, s: Stream, e: Emission)
    requires !s.ended
    ensures HasEffect(env, s, s.(out := s.out + [e]), Emit(WireFrames(env, e), false, RawHolds(s.holds)))
  {
    WireSnoc(env, s.out, e);
  }

  lemma EndApplied(env: Env, s: Stream, reason: Reason, inHand: seq<Frame>)
    ensures HasEffect(env, s, End(s, reason, inHand), Emit([env.failure(reason)], true, map[]))
  {
    WireSnoc(env, s.out, Failed(reason));
  }

  lemma LoseApplied(env: Env, s: Stream, indices: set<nat>, cause: Cause)
    requires !s.ended
    ensures HasEffect(env, s, Lose(s, indices, cause), Emit([], false, RawHolds(s.holds)))
  {
    assert WireOutput(env, s.out) + [] == WireOutput(env, s.out);
  }

  /** What a verdict on a standalone event puts on the wire. */
  function EventWire(env: Env, v: Verdict, raw: Bytes): seq<Bytes> {
    match v
    case Terminate(reason) => [env.failure(reason)]
    case Deny(_) => []
    case Transform(replacement) => [if env.render(replacement).Some? then env.render(replacement).value else raw]
    case _ => [raw]
  }

  lemma EventActionApplied(env: Env, v: Verdict, raw: Bytes, holds: map<Id, seq<Bytes>>)
    ensures Applied(env, EventAction(v), raw, holds)
         == Emit(EventWire(env, v, raw), v.Terminate?, if v.Terminate? then map[] else holds)
  {
  }

  lemma SettleEventHas(env: Env, s: Stream, n: nat, v: Verdict, frame: Frame)
    requires !s.ended && !v.Terminate? && !v.Deny?
    ensures HasEffect(env, s, SettleEvent(env, s, n, v, frame),
                      Emit(EventWire(env, v, frame.event.raw), false, RawHolds(s.holds)))
  {
    OneRaw(frame);
    var e := if v.Transform? && env.render(v.replacement).Some?
             then Rewritten(n, frame, env.render(v.replacement).value) else Cleared(n, [frame]);
    assert SettleEvent(env, s, n, v, frame) == s.(out := s.out + [e]);
    EmitApplied(env, s, e);
  }

  /** A verdict on a standalone event has the effect of its action. */
  lemma SettleEventApplied(env: Env, s: Stream, n: nat, v: Verdict, frame: Frame)
    requires !s.ended
    ensures HasEffect(env, s, SettleEvent(env, s, n, v, frame),
                      Applied(env, EventAction(v), frame.event.raw, RawHolds(s.holds)))
  {
    EventActionApplied(env, v, frame.event.raw, RawHolds(s.holds));
    if v.Terminate? {
      EndApplied(env, s, v.reason, [frame]);
    } else if v.Deny? {
      LoseApplied(env, s, {frame.index}, Denied(n));
    } else {
      SettleEventHas(env, s, n, v, frame);
    }
  }

  /** What a verdict on an assembled call puts on the wire. */
  function CallWire(env: Env, v: Verdict, frames: seq<Bytes>): seq<Bytes> {
    match v
    case Terminate(reason) => [env.failure(reason)]
    case Deny(_) => []
    case _ => frames
  }

  lemma SettleCallHas(env: Env, s: Stream, n: nat, v: Verdict, id: Id, inHand: seq<Frame>)
    requires !s.ended
    ensures HasEffect(env, s, SettleCall(s, n, v, id, inHand),
                      Emit(CallWire(env, v, Bucket(RawHolds(s.holds), id) + Raws(inHand)), v.Terminate?,
                           RawHolds(s.holds) - {id}))
  {
    RawHoldsRemove(s.holds, id);
    if v.Terminate? {
      EndApplied(env, s, v.reason, inHand);
    } else if v.Deny? {
      var frames := HeldUnder(s.holds, id) + inHand;
      LoseApplied(env, s, Indices(frames), Denied(n));
      assert SettleCall(s, n, v, id, inHand) == Lose(s, Indices(frames), Denied(n)).(holds := s.holds - {id});
    } else {
      FlushApplied(env, s, n, id, inHand);
      assert SettleCall(s, n, v, id, inHand)
          == s.(holds := s.holds - {id}, out := s.out + [Cleared(n, HeldUnder(s.holds, id) + inHand)]);
    }
  }

  lemma FlushApplied(env: Env, s: Stream, n: nat, id: Id, inHand: seq<Frame>)
    requires !s.ended
    ensures HasEffect(env, s, s.(holds := s.holds - {id}, out := s.out + [Cleared(n, HeldUnder(s.holds, id) + inHand)]),
                      Emit(Bucket(RawHolds(s.holds), id) + Raws(inHand), false, RawHolds(s.holds) - {id}))
  {
    var held := HeldUnder(s.holds, id);
    RawsConcat(held, inHand);
    RawHoldsRemove(s.holds, id);
    WireSnoc(env, s.out, Cleared(n, held + inHand));
  }

  /** A verdict on an assembled call has the effect of its action. */
  lemma SettleCallApplied(env: Env, s: Stream, n: nat, v: Verdict, id: Id, frame: Frame)
    requires !s.ended
    ensures HasEffect(env, s, SettleCall(s, n, v, id, [frame]),
                      Applied(env, CallAction(id, v), frame.event.raw, RawHolds(s.holds)))
  {
    OneRaw(frame);
    SettleCallHas(env, s, n, v, id, [frame]);
    CallActionApplied(env, id, v, frame.event.raw, RawHolds(s.holds));
  }

  lemma CallActionApplied(env: Env, id: Id, v: Verdict, raw: Bytes, holds: map<Id, seq<Bytes>>)
    ensures Applied(env, CallAction(id, v), raw, holds)
         == Emit(CallWire(env, v, Bucket(holds, id) + [raw]), v.Terminate?,
                 if v.Terminate? then map[] else holds - {id})
  {
  }

  lemma HoldApplied(env: Env, s: Stream, id: Id, frame: Frame)
    requires !s.ended
    ensures HasEffect(env, s, s.(holds := s.holds[id := HeldUnder(s.holds, id) + [frame]]),
                      Applied(env, Hold(id), frame.event.raw, RawHolds(s.holds)))
  {
    RawHoldsAdd(s.holds, id, frame);
    assert WireOutput(env, s.out) + [] == WireOutput(env, s.out);
  }

  /** A frame has the effect of the action the inspector decides on. */
  lemma OutcomeApplied(env: Env, s: Stream, outcome: StructuralOutcome, frame: Frame)
    requires !s.ended
    ensures var s' := OnOutcome(env, s, outcome, frame);
            && HasEffect(env, s, s',
                         Applied(env, Decided(env.oracles, s.trail, outcome), frame.event.raw, RawHolds(s.holds)))
            && s'.trail == DecidedTrail(env.oracles, s.trail, outcome) && s'.run == s.run && s'.log == s.log
  {
    if outcome.Buffering? {
      HoldApplied(env, s, outcome.id, frame);
    } else if outcome.Reject? {
      EndApplied(env, s, outcome.reason, [frame]);
    } else if outcome.Ready? {
      ReadyApplied(env, s, outcome.event, frame);
    } else {
      CallApplied(env, s, outcome.id, outcome.event, frame);
    }
  }

  lemma ReadyApplied(env: Env, s: Stream, event: AgentEvent, frame: Frame)
    requires !s.ended
    ensures var s' := Standalone(env, s, event, frame);
            && s'.trail == Recorded(env.oracles, s.trail, event) && s'.run == s.run && s'.log == s.log
            && HasEffect(env, s, s', Applied(env, EventAction(Judged(env.oracles, s.trail, event)), frame.event.raw,
                                             RawHolds(s.holds)))
  {
    var s1, v := Record(env, s, event), Judged(env.oracles, s.trail, event);
    SettleEventApplied(env, s1, |s.trail.audit|, v, frame);
    SettleKeepsTrail(env, s1, |s.trail.audit|, v, frame, []);
  }

  lemma SettleKeepsTrail(env: Env, s: Stream, n: nat, v: Verdict, frame: Frame, id: Id)
    ensures var r := SettleEvent(env, s, n, v, frame); r.trail == s.trail && r.run == s.run && r.log == s.log
    ensures var r := SettleCall(s, n, v, id, [frame]); r.trail == s.trail && r.run == s.run && r.log == s.log
  {
  }

  lemma CallApplied(env: Env, s: Stream, id: Id, event: AgentEvent, frame: Frame)
    requires !s.ended
    ensures var s' := Resolve(env, s, id, event, [frame]);
            && s'.trail == Recorded(env.oracles, s.trail, event) && s'.run == s.run && s'.log == s.log
            && HasEffect(env, s, s', Applied(env, CallAction(id, Judged(env.oracles, s.trail, event)), frame.event.raw,
                                             RawHolds(s.holds)))
  {
    var s1, v := Record(env, s, event), Judged(env.oracles, s.trail, event);
    SettleCallApplied(env, s1, |s.trail.audit|, v, id, frame);
    SettleKeepsTrail(env, s1, |s.trail.audit|, v, frame, id);
  }

  /** Judge one call left open; its frames are flushed or dropped on the verdict. */
  method SweepOne(env: Env, run: Run, inspector: Inspector, id: Id, call: AgentEvent,
                  holds: map<Id, seq<Bytes>>, out: seq<Bytes>, ghost s: Stream)
    returns (out': seq<Bytes>, holds': map<Id, seq<Bytes>>, ended: bool)
    requires Coupled(env, s, run, inspector, holds, out) && !s.ended
    modifies inspector
    ensures var s' := Resolve(env, s, id, call, []);
            Coupled(env, s', run, inspector, holds', out') && ended == s'.ended && s'.log == s.log
  {
    SweepApplied(env, s, id, call);
    out', holds', ended := out, holds, false;
    var action := inspector.AuthorizeCall(id, call);
    match action {
      case FlushCall(id) =>
        out' := out' + Bucket(holds', id);
        holds' := holds' - {id};
      case DropCall(id, _) =>
        holds' := holds' - {id};
      case TerminateRun(reason) =>
        out' := out' + [env.failure(reason)];
        ended := true;
      case _ =>
    }
  }

  lemma SweepApplied(env: Env, s: Stream, id: Id, event: AgentEvent)
    requires !s.ended
    ensures var s' := Resolve(env, s, id, event, []);
            var v := Judged(env.oracles, s.trail, event);
            && s'.trail == Recorded(env.oracles, s.trail, event) && s'.run == s.run && s'.log == s.log
            && s'.ended == v.Terminate?
            && (!s'.ended ==> RawHolds(s'.holds) == RawHolds(s.holds) - {id})
            && WireOutput(env, s'.out) == match CallAction(id, v)
                                          case FlushCall(_) => WireOutput(env, s.out) + Bucket(RawHolds(s.holds), id)
                                          case TerminateRun(reason) => WireOutput(env, s.out) + [env.failure(reason)]
                                          case _ => WireOutput(env, s.out)
  {
    var s1, v := Record(env, s, event), Judged(env.oracles, s.trail, event);
    SettleCallHas(env, s1, |s.trail.audit|, v, id, []);
    assert Bucket(RawHolds(s.holds), id) + Raws([]) == Bucket(RawHolds(s.holds), id);
    assert WireOutput(env, s.out) + [] == WireOutput(env, s.out);
  }

  /** Judge every call still open, in the order the table yields them. */
  method SweepOpenCalls(env: Env, run: Run, inspector: Inspector, events: nat,
                        holds: map<Id, seq<Bytes>>, out: seq<Bytes>, ghost s: Stream)
    returns (out': seq<Bytes>, holds': map<Id, seq<Bytes>>, ended: bool)
    requires ValidEnv(env) && Coupled(env, s, run, inspector, holds, out) && !s.ended && events == |s.log|
    modifies run, inspector
    ensures var s' := Sweep(env, s);
            Coupled(env, s', run, inspector, holds', out') && ended == s'.ended && s'.log == s.log
  {
    var order := env.order(events, run.openToolCalls.Keys);
    ghost var open := s.run.open;
    assert Enumerates(order, open.Keys);
    var calls := run.DrainOpen(order);
    out', holds', ended := out, holds, false;
    ghost var t := s.(run := s.run.(open := map[]));
    var i := 0;
    assert order[0..] == order;
    while i < |calls| && !ended
      invariant 0 <= i <= |calls| == |order|
      invariant Coupled(env, t, run, inspector, holds', out') && ended == t.ended && t.log == s.log
      invariant SweepCalls(env, t, open, order[i..]) == Sweep(env, s)
    {
      assert order[i..][1..] == order[i + 1..];
      ghost var next := Resolve(env, t, calls[i].0, calls[i].1, []);
      out', holds', ended := SweepOne(env, run, inspector, calls[i].0, calls[i].1, holds', out', t);
      t := next;
      i := i + 1;
    }
  }

  /** What the payload resolves to decides what happens to its frame. */
  method HandlePayload(env: Env, run: Run, inspector: Inspector, frame: Frame, holds: map<Id, seq<Bytes>>,
                       out: seq<Bytes>, ghost s: Stream)
    returns (out': seq<Bytes>, holds': map<Id, seq<Bytes>>, ended: bool)
    requires ValidEnv(env) && Coupled(env, s, run, inspector, holds, out) && !s.ended && frame.index + 1 == |s.log|
    modifies run, inspector
    ensures var s' := OnDecoded(env, s, env.decode(frame.event.data), frame);
            Coupled(env, s', run, inspector, holds', out') && ended == s'.ended && (!ended ==> s'.log == s.log)
  {
    out', holds', ended := out, holds, false;
    match env.decode(frame.event.data) {
      case PassThrough =>
        EmitApplied(env, s, Passed(frame));
        out' := out + [frame.event.raw];
      case MalformedDrop =>
      case MalformedTerminate =>
        EndApplied(env, s, "malformed protocol event", [frame]);
        return out + [env.failure("malformed protocol event")], map[], true;
      case Inspect(fragment) =>
        out', holds', ended := HandleFragment(env, run, inspector, fragment, frame, holds, out, s);
    }
  }

  /** One decoded event: the response budget, the payload, the sweep before a run end, then inspection. */
  method HandleEvent(env: Env, run: Run, inspector: Inspector, event: Sse.SseEvent, seenEvents: nat, seenBytes: nat,
                     holds: map<Id, seq<Bytes>>, out: seq<Bytes>, ghost s: Stream)
    returns (out': seq<Bytes>, holds': map<Id, seq<Bytes>>, ended: bool)
    requires ValidEnv(env) && Coupled(env, s, run, inspector, holds, out) && !s.ended
    requires seenEvents == |s.log| + 1 && seenBytes == Total(s.log + [event])
    modifies run, inspector
    ensures var s' := OnEvent(env, s, event);
            Coupled(env, s', run, inspector, holds', out') && ended == s'.ended &&
              (!ended ==> s'.log == s.log + [event])
  {
    out', holds', ended := out, holds, false;
    var frame := Frame(seenEvents - 1, event);
    ghost var s1 := s.(log := s.log + [event]);
    var over := Exceeded(env.settings, seenEvents, seenBytes);
    if over.Some? {
      EndApplied(env, s1, over.value, [frame]);
      return out + [env.failure(over.value)], map[], true;
    }
    out', holds', ended := HandlePayload(env, run, inspector, frame, holds, out, s1);
  }

  /** A run end sweeps the open calls first, and is not inspected if the sweep ended the run. */
  method HandleFragment(env: Env, run: Run, inspector: Inspector, fragment: Fragment, frame: Frame,
                        holds: map<Id, seq<Bytes>>, out: seq<Bytes>, ghost s: Stream)
    returns (out': seq<Bytes>, holds': map<Id, seq<Bytes>>, ended: bool)
    requires ValidEnv(env) && Coupled(env, s, run, inspector, holds, out) && !s.ended && frame.index + 1 == |s.log|
    modifies run, inspector
    ensures var s' := OnInspected(env, s, fragment, frame);
            Coupled(env, s', run, inspector, holds', out') && ended == s'.ended && s'.log == s.log
  {
    out', holds', ended := out, holds, false;
    ghost var t := s;
    if IsRunEnd(fragment) {
      out', holds', ended := SweepOpenCalls(env, run, inspector, frame.index + 1, holds, out, s);
      t := Sweep(env, s);
    }
    if !ended {
      out', holds', ended := InspectOne(env, run, inspector, fragment, frame, holds', out', t);
    }
  }

  /** The events one chunk completed, until one of them ends the run. */
  method HandleEvents(env: Env, run: Run, inspector: Inspector, events: seq<Sse.SseEvent>, seenEvents: nat,
                      seenBytes: nat,
                      holds: map<Id, seq<Bytes>>, out: seq<Bytes>, ghost s: Stream)
    returns (out': seq<Bytes>, holds': map<Id, seq<Bytes>>, seenEvents': nat, seenBytes': nat, ended: bool)
    requires ValidEnv(env) && Coupled(env, s, run, inspector, holds, out) && !s.ended
    requires seenEvents == |s.log| && seenBytes == Total(s.log)
    modifies run, inspector
    ensures var s' := OnEvents(env, s, events);
            && Coupled(env, s', run, inspector, holds', out') && ended == s'.ended
            && (!ended ==> seenEvents' == |s'.log| && seenBytes' == Total(s'.log))
  {
    out', holds', seenEvents', seenBytes', ended := out, holds, seenEvents, seenBytes, false;
    ghost var t := s;
    var j := 0;
    assert events[0..] == events;
    while j < |events| && !ended
      invariant 0 <= j <= |events| && ended == t.ended
      invariant Coupled(env, t, run, inspector, holds', out')
      invariant !ended ==> seenEvents' == |t.log| && seenBytes' == Total(t.log)
      invariant OnEvents(env, t, events[j..]) == OnEvents(env, s, events)
    {
      assert events[j..][1..] == events[j + 1..];
      assert (t.log + [events[j]])[..|t.log|] == t.log;
      ghost var next := OnEvent(env, t, events[j]);
      seenEvents' := seenEvents' + 1;
      seenBytes' := seenBytes' + |events[j].raw|;
      out', holds', ended := HandleEvent(env, run, inspector, events[j], seenEvents', seenBytes', holds', out', t);
      t := next;
      j := j + 1;
    }
  }

  /** One chunk of the upstream: an oversized unfinished frame ends the run, else its events are handled. */
  method HandleChunk(env: Env, decoder: Sse.SseDecoder, run: Run, inspector: Inspector, chunk: Bytes,
                     seenEvents: nat, seenBytes: nat, holds: map<Id, seq<Bytes>>, out: seq<Bytes>, ghost s: Stream)
    returns (out': seq<Bytes>, holds': map<Id, seq<Bytes>>, seenEvents': nat, seenBytes': nat, ended: bool)
    requires ValidEnv(env) && decoder.Valid() && Coupled(env, s, run, inspector, holds, out) && !s.ended
    requires seenEvents == |s.log| && seenBytes == Total(s.log)
    modifies decoder, run, inspector
    ensures decoder.Valid() && decoder.Model() == Sse.Feed(old(decoder.Model()), chunk).state
    ensures var s' := OnChunk(env, Sse.Feed(old(decoder.Model()), chunk), s);
            && out' == WireOutput(env, s'.out) && ended == s'.ended
            && (!ended ==> Coupled(env, s', run, inspector, holds', out'))
            && (!ended ==> seenEvents' == |s'.log| && seenBytes' == Total(s'.log))
  {
    var events := decoder.Push(chunk);
    if env.settings.maxFrameBytes != 0 && decoder.PendingLen() > env.settings.maxFrameBytes {
      EndApplied(env, s, "response frame exceeded the size limit", []);
      return out + [env.failure("response frame exceeded the size limit")], map[], seenEvents, seenBytes, true;
    }
    out', holds', seenEvents', seenBytes', ended :=
      HandleEvents(env, run, inspector, events, seenEvents, seenBytes, holds, out, s);
  }

  /** What the proxy sends for an upstream response, and its bound under a nonzero event limit. */
  method InspectStream(env: Env, upstream: seq<Result<Bytes, Reason>>) returns (out: seq<Bytes>)
    requires ValidEnv(env)
    ensures out == WireOutput(env, InspectUpstream(env, upstream).out)
    ensures env.settings.maxEvents != 0 ==> |out| <= env.settings.maxEvents + 1
  {
    out := RelayChunks(env, upstream);
    WireIsBounded(env, upstream);
  }

  /** The proxy's loop over the upstream's chunks. */
  method RelayChunks(env: Env, upstream: seq<Result<Bytes, Reason>>) returns (out: seq<Bytes>)
    requires ValidEnv(env)
    ensures out == WireOutput(env, InspectUpstream(env, upstream).out)
  {
    var decoder := new Sse.SseDecoder();
    var run := new Run(env.settings.budgets);
    var inspector := new Inspector(env.oracles, env.session);
    var holds: map<Id, seq<Bytes>> := map[];
    var seenEvents, seenBytes := 0, 0;
    out := [];
    ghost var s := Start(env);
    var ended := false;
    var i := 0;
    assert upstream[0..] == upstream;
    while i < |upstream|
      invariant 0 <= i <= |upstream| && decoder.Valid() && !s.ended
      invariant Coupled(env, s, run, inspector, holds, out) && seenEvents == |s.log| && seenBytes == Total(s.log)
      invariant Proxy(env, decoder.Model(), s, upstream[i..]) == InspectUpstream(env, upstream)
    {
      assert upstream[i..][1..] == upstream[i + 1..];
      if upstream[i].Err? {
        EndApplied(env, s, upstream[i].error, []);
        return out + [env.failure(upstream[i].error)];
      }
      ghost var next := OnChunk(env, Sse.Feed(decoder.Model(), upstream[i].value), s);
      out, holds, seenEvents, seenBytes, ended :=
        HandleChunk(env, decoder, run, inspector, upstream[i].value, seenEvents, seenBytes, holds, out, s);
      s := next;
      if ended {
        return;
      }
      i := i + 1;
    }
    out, holds, ended := SweepOpenCalls(env, run, inspector, seenEvents, holds, out, s);
  }
}

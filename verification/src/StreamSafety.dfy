/**
 What holds at every event boundary of every run, whatever the upstream sends and the oracles answer:
 exactly the open calls are held, each as its own frames, and what is relayed is what was judged.
 */
module StreamSafety {
  import opened Prelude
  import opened Inspection
  import opened RunMachine
  import opened Judging
  import opened Streaming
  import Sse

  // ---- Frames of one call ----

  predicate IsStart(env: Env, f: Frame, id: Id, name: Bytes) {
    env.decode(f.event.data) == Inspect(ToolCallStarted(id, name))
  }

  predicate IsArgs(env: Env, f: Frame, id: Id) {
    var d := env.decode(f.event.data);
    d.Inspect? && d.fragment.ToolCallArgs? && d.fragment.id == id
  }

  predicate IsEnd(env: Env, f: Frame, id: Id) {
    env.decode(f.event.data) == Inspect(ToolCallEnded(id))
  }

  /** The argument bytes frames carry, in order. */
  function Deltas(env: Env, frames: seq<Frame>): Bytes {
    if frames == [] then []
    else
      var d := env.decode(frames[|frames| - 1].event.data);
      Deltas(env, frames[..|frames| - 1])
        + (if d.Inspect? && d.fragment.ToolCallArgs? then d.fragment.delta else [])
  }

  /** A START, then ARGS, of one call, whose deltas concatenate to the arguments. */
  predicate Assembles(env: Env, frames: seq<Frame>, id: Id, call: ToolCallBuffer) {
    && frames != []
    && IsStart(env, frames[0], id, call.name)
    && (forall k :: 1 <= k < |frames| ==> IsArgs(env, frames[k], id))
    && Deltas(env, frames) == call.arguments
  }

  /** The same, closed by the call's END. */
  predicate AssemblesClosed(env: Env, frames: seq<Frame>, id: Id, call: ToolCallBuffer) {
    && frames != []
    && Assembles(env, frames[..|frames| - 1], id, call)
    && IsEnd(env, frames[|frames| - 1], id)
  }

  /** Frames of the upstream, in arrival order. */
  predicate FromLog(log: seq<Sse.SseEvent>, frames: seq<Frame>) {
    && (forall k :: 0 <= k < |frames| ==> frames[k].index < |log| && log[frames[k].index] == frames[k].event)
    && (forall j, k :: 0 <= j < k < |frames| ==> frames[j].index < frames[k].index)
  }

  /** Exactly the given calls are held, each with its own frames. */
  predicate HoldsAre(env: Env, log: seq<Sse.SseEvent>, holds: map<Id, seq<Frame>>, open: map<Id, ToolCallBuffer>) {
    && holds.Keys == open.Keys
    && (forall id :: id in open ==> Assembles(env, holds[id], id, open[id]) && FromLog(log, holds[id]))
  }

  // ---- What is relayed is what was judged ----

  /** Whether a fragment is the wire form of a standalone event. */
  predicate Carries(f: Fragment, event: AgentEvent) {
    match event
    case MessageChunk(message, text) => f == MessageFragment(message, text)
    case ToolResult(id, _, content) => f == ToolResultFragment(id, content)
    case StateMutated(mutation) => f == StateFragment(mutation)
    case Lifecycle(phase) => f == LifecycleFragment(phase)
    case Opaque(kind) => f == OpaqueFragment(kind)
    case ToolCall(_, _, _) => false
  }

  predicate IsWireFormOf(env: Env, frame: Frame, event: AgentEvent) {
    var d := env.decode(frame.event.data);
    d.Inspect? && Carries(d.fragment, event)
  }

  /** The frames cleared by a record are together the event it records. */
  predicate IsJudged(env: Env, frames: seq<Frame>, event: AgentEvent) {
    if event.ToolCall? then
      var call := ToolCallBuffer(event.name, event.arguments);
      Assembles(env, frames, event.id, call) || AssemblesClosed(env, frames, event.id, call)
    else
      |frames| == 1 && IsWireFormOf(env, frames[0], event)
  }

  /** A standalone event whose replacement can be rendered must not leave as it came. */
  predicate MustRewrite(env: Env, record: AuditRecord) {
    !record.event.ToolCall? && record.verdict.Transform? && env.render(record.verdict.replacement).Some?
  }

  /** One emission is justified by the audit trail. */
  predicate Justified(env: Env, audit: seq<AuditRecord>, e: Emission) {
    match e
    case Passed(frame) => env.decode(frame.event.data) == PassThrough
    case Cleared(n, frames) =>
      n < |audit| && Passes(audit[n].verdict) && !MustRewrite(env, audit[n]) && IsJudged(env, frames, audit[n].event)
    case Rewritten(n, frame, bytes) =>
      && n < |audit| && audit[n].verdict.Transform?
      && env.render(audit[n].verdict.replacement) == Some(bytes)
      && IsWireFormOf(env, frame, audit[n].event)
    case Failed(_) => true
  }

  predicate AllJustified(env: Env, audit: seq<AuditRecord>, out: seq<Emission>) {
    forall i :: 0 <= i < |out| ==> Justified(env, audit, out[i])
  }

  lemma JustifiedLater(env: Env, audit: seq<AuditRecord>, record: AuditRecord, e: Emission)
    requires Justified(env, audit, e)
    ensures Justified(env, audit + [record], e)
  {
  }

  // ---- The whole invariant ----

  /** Nothing is open unless the run is active, exactly the open calls are held, all output is justified. */
  predicate Inv(env: Env, s: Stream) {
    && (s.run.phase != Running ==> s.run.open == map[])
    && HoldsAre(env, s.log, s.holds, s.run.open)
    && AllJustified(env, s.trail.audit, s.out)
  }

  /** An ended run holds nothing; a live one satisfies the invariant. */
  predicate Safe(env: Env, s: Stream) {
    if s.ended then s.holds == map[] && AllJustified(env, s.trail.audit, s.out) else Inv(env, s)
  }

  lemma RecordJustified(env: Env, s: Stream, event: AgentEvent)
    requires AllJustified(env, s.trail.audit, s.out)
    ensures AllJustified(env, Record(env, s, event).trail.audit, s.out)
  {
    var record := AuditRecord(event, Judged(env.oracles, s.trail, event));
    forall i | 0 <= i < |s.out| ensures Justified(env, s.trail.audit + [record], s.out[i]) {
      JustifiedLater(env, s.trail.audit, record, s.out[i]);
    }
  }

  lemma EmissionJustified(env: Env, s: Stream, e: Emission)
    requires AllJustified(env, s.trail.audit, s.out) && Justified(env, s.trail.audit, e)
    ensures AllJustified(env, s.trail.audit, s.out + [e])
  {
  }

  lemma HoldsWithoutOne(env: Env, s: Stream, open: map<Id, ToolCallBuffer>, id: Id)
    requires HoldsAre(env, s.log, s.holds, open)
    ensures HoldsAre(env, s.log, s.holds - {id}, open - {id})
  {
  }

  lemma ClosedAssembles(env: Env, frames: seq<Frame>, end: Frame, id: Id, call: ToolCallBuffer)
    requires Assembles(env, frames, id, call) && IsEnd(env, end, id)
    ensures AssemblesClosed(env, frames + [end], id, call)
  {
    assert (frames + [end])[..|frames|] == frames;
  }

  /** The held frames of a call, with its END if that is what resolved it, are the call. */
  lemma HeldFramesAreTheCall(env: Env, frames: seq<Frame>, inHand: seq<Frame>, id: Id, call: ToolCallBuffer)
    requires Assembles(env, frames, id, call)
    requires inHand == [] || (|inHand| == 1 && IsEnd(env, inHand[0], id))
    ensures IsJudged(env, frames + inHand, Assembled(id, call))
  {
    if inHand == [] {
      assert frames + inHand == frames;
    } else {
      assert inHand == [inHand[0]];
      ClosedAssembles(env, frames, inHand[0], id, call);
    }
  }

  /** A call resolved by its END, or by the sweep, takes its own frames and no others. */
  lemma ResolveSafe(env: Env, s: Stream, open: map<Id, ToolCallBuffer>, id: Id, inHand: seq<Frame>)
    requires id in open && HoldsAre(env, s.log, s.holds, open) && AllJustified(env, s.trail.audit, s.out) && !s.ended
    requires inHand == [] || (|inHand| == 1 && IsEnd(env, inHand[0], id))
    ensures var r := Resolve(env, s, id, Assembled(id, open[id]), inHand);
            && r.run == s.run && r.log == s.log && AllJustified(env, r.trail.audit, r.out)
            && (if r.ended then r.holds == map[] else HoldsAre(env, r.log, r.holds, open - {id}))
  {
    var event := Assembled(id, open[id]);
    var s1 := Record(env, s, event);
    RecordJustified(env, s, event);
    HoldsWithoutOne(env, s, open, id);
    HeldFramesAreTheCall(env, s.holds[id], inHand, id, open[id]);
    var e := Cleared(|s.trail.audit|, s.holds[id] + inHand);
    match Judged(env.oracles, s.trail, event) {
      case Terminate(reason) => EmissionJustified(env, s1, Failed(reason));
      case Deny(_) =>
      case _ => EmissionJustified(env, s1, e);
    }
  }

  lemma StandaloneSafe(env: Env, s: Stream, event: AgentEvent, frame: Frame)
    requires AllJustified(env, s.trail.audit, s.out) && !s.ended && IsWireFormOf(env, frame, event)
    ensures var r := Standalone(env, s, event, frame);
            && r.run == s.run && r.log == s.log && AllJustified(env, r.trail.audit, r.out)
            && r.holds == if r.ended then map[] else s.holds
  {
    var s1 := Record(env, s, event);
    var n := |s.trail.audit|;
    RecordJustified(env, s, event);
    var verdict := Judged(env.oracles, s.trail, event);
    assert s1.trail.audit[n] == AuditRecord(event, verdict);
    if Passes(verdict) {
      assert IsJudged(env, [frame], event);
      if verdict.Transform? && env.render(verdict.replacement).Some? {
        EmissionJustified(env, s1, Rewritten(n, frame, env.render(verdict.replacement).value));
      } else {
        EmissionJustified(env, s1, Cleared(n, [frame]));
      }
    }
  }

  /** The frame in hand is the newest of the log. */
  predicate IsNewest(log: seq<Sse.SseEvent>, frame: Frame) {
    log != [] && frame == Frame(|log| - 1, log[|log| - 1])
  }

  /** No held frame is as new as the one in hand. */
  predicate HoldsAreOlder(s: Stream) {
    forall id :: id in s.holds ==> Older(s.holds[id], |s.log| - 1)
  }

  predicate Older(frames: seq<Frame>, n: int) {
    forall k :: 0 <= k < |frames| ==> frames[k].index < n
  }

  lemma FromLogSnoc(log: seq<Sse.SseEvent>, frames: seq<Frame>, frame: Frame)
    requires FromLog(log, frames) && Older(frames, frame.index)
    requires frame.index < |log| && log[frame.index] == frame.event
    ensures FromLog(log, frames + [frame])
  {
  }

  lemma StartHeld(env: Env, s: Stream, id: Id, name: Bytes, frame: Frame)
    requires HoldsAre(env, s.log, s.holds, s.run.open) && id !in s.run.open
    requires IsNewest(s.log, frame) && IsStart(env, frame, id, name)
    ensures HoldsAre(env, s.log, s.holds[id := HeldUnder(s.holds, id) + [frame]],
                     s.run.open[id := ToolCallBuffer(name, [])])
  {
    assert [] + [frame] == [frame];
    assert Deltas(env, [frame]) == [];
  }

  lemma ArgsAssemble(env: Env, frames: seq<Frame>, id: Id, call: ToolCallBuffer, delta: Bytes, frame: Frame)
    requires Assembles(env, frames, id, call) && env.decode(frame.event.data) == Inspect(ToolCallArgs(id, delta))
    ensures Assembles(env, frames + [frame], id, call.(arguments := call.arguments + delta))
  {
    assert (frames + [frame])[..|frames|] == frames;
  }

  lemma ArgsHeld(env: Env, s: Stream, id: Id, delta: Bytes, frame: Frame)
    requires HoldsAre(env, s.log, s.holds, s.run.open) && id in s.run.open && HoldsAreOlder(s)
    requires IsNewest(s.log, frame) && env.decode(frame.event.data) == Inspect(ToolCallArgs(id, delta))
    ensures var call := s.run.open[id];
            HoldsAre(env, s.log, s.holds[id := HeldUnder(s.holds, id) + [frame]],
                     s.run.open[id := call.(arguments := call.arguments + delta)])
  {
    ArgsAssemble(env, s.holds[id], id, s.run.open[id], delta, frame);
    FromLogSnoc(s.log, s.holds[id], frame);
  }

  /** What each structural outcome says about the fragment and the state it leaves. */
  lemma OutcomeShape(b: Budgets, run: RunState, f: Fragment)
    ensures var step := InspectFragment(b, run, f);
            match step.outcome
            case Reject(_) => step.state == run
            case Ready(_) => step.state.open == run.open && (IsRunEnd(f) || step.state.phase == Running)
            case Buffering(id) =>
              && run.phase == Running && step.state.phase == Running
              && ((f.ToolCallStarted? && f.id == id && id !in run.open
                     && step.state.open == run.open[id := ToolCallBuffer(f.name, [])])
                  || (f.ToolCallArgs? && f.id == id && id in run.open
                     && step.state.open ==
                       run.open[id := run.open[id].(arguments := run.open[id].arguments + f.delta)]))
            case ResolvedCall(id, event) =>
              && f == ToolCallEnded(id) && id in run.open && event == Assembled(id, run.open[id])
              && run.phase == Running && step.state.phase == Running && step.state.open == run.open - {id}
  {
  }

  lemma OnFragmentSafe(env: Env, s: Stream, f: Fragment, frame: Frame)
    requires Inv(env, s) && !s.ended && HoldsAreOlder(s) && IsNewest(s.log, frame)
    requires env.decode(frame.event.data) == Inspect(f)
    requires IsRunEnd(f) ==> s.run.open == map[]
    ensures Safe(env, OnFragment(env, s, f, frame))
    ensures OnFragment(env, s, f, frame).log == s.log
  {
    var step := InspectFragment(env.settings.budgets, s.run, f);
    OutcomeShape(env.settings.budgets, s.run, f);
    if step.outcome.Buffering? {
      if f.ToolCallStarted? {
        StartHeld(env, s, f.id, f.name, frame);
      } else {
        ArgsHeld(env, s, f.id, f.delta, frame);
      }
    } else {
      OnResolvedSafe(env, s, f, frame, step);
    }
  }

  lemma OnResolvedSafe(env: Env, s: Stream, f: Fragment, frame: Frame, step: Step)
    requires Inv(env, s) && !s.ended
    requires env.decode(frame.event.data) == Inspect(f)
    requires IsRunEnd(f) ==> s.run.open == map[]
    requires step == InspectFragment(env.settings.budgets, s.run, f) && !step.outcome.Buffering?
    ensures Safe(env, OnFragment(env, s, f, frame))
    ensures OnFragment(env, s, f, frame).log == s.log
  {
    var s1 := s.(run := step.state);
    OutcomeShape(env.settings.budgets, s.run, f);
    match step.outcome {
      case Reject(reason) =>
      case Ready(event) =>
        ReadyIsWireForm(env.settings.budgets, s.run, f);
        StandaloneSafe(env, s1, event, frame);
      case ResolvedCall(id, event) =>
        ResolveSafe(env, s1, s.run.open, id, [frame]);
    }
  }

  lemma ReadyIsWireForm(b: Budgets, run: RunState, f: Fragment)
    requires InspectFragment(b, run, f).outcome.Ready?
    ensures Carries(f, InspectFragment(b, run, f).outcome.event)
  {
  }

  lemma {:induction false} SweepCallsSafe(env: Env, s: Stream, open: map<Id, ToolCallBuffer>,
                                          left: map<Id, ToolCallBuffer>,
                                          order: seq<Id>)
    requires Enumerates(order, left.Keys) && (forall id :: id in left ==> id in open && left[id] == open[id])
    requires AllJustified(env, s.trail.audit, s.out)
    requires if s.ended then s.holds == map[] else HoldsAre(env, s.log, s.holds, left)
    ensures var r := SweepCalls(env, s, open, order);
            r.run == s.run && r.log == s.log && r.holds == map[] && AllJustified(env, r.trail.audit, r.out)
    decreases |order|
  {
    if order != [] && !s.ended {
      var id := order[0];
      ResolveSafe(env, s, left, id, []);
      EnumeratesTail(order, left.Keys);
      SweepCallsSafe(env, Resolve(env, s, id, Assembled(id, open[id]), []), open, left - {id}, order[1..]);
    } else if order == [] && !s.ended {
      assert s.holds.Keys == {};
    }
  }

  lemma EnumeratesTail(order: seq<Id>, ids: set<Id>)
    requires Enumerates(order, ids) && order != []
    ensures Enumerates(order[1..], ids - {order[0]})
  {
    assert order == [order[0]] + order[1..];
  }

  /** The sweep resolves every open call: nothing is held after it. */
  lemma SweepSafe(env: Env, s: Stream)
    requires ValidEnv(env) && Inv(env, s) && !s.ended
    ensures var r := Sweep(env, s);
            && r.run == s.run.(open := map[]) && r.log == s.log && r.holds == map[] && Safe(env, r) && HoldsAreOlder(r)
  {
    var order := env.order(|s.log|, s.run.open.Keys);
    assert Enumerates(order, s.run.open.Keys);
    SweepCallsSafe(env, s.(run := s.run.(open := map[])), s.run.open, s.run.open, order);
  }

  lemma OnInspectedSafe(env: Env, s: Stream, f: Fragment, frame: Frame)
    requires ValidEnv(env) && Inv(env, s) && !s.ended && HoldsAreOlder(s) && IsNewest(s.log, frame)
    requires env.decode(frame.event.data) == Inspect(f)
    ensures Safe(env, OnInspected(env, s, f, frame))
    ensures OnInspected(env, s, f, frame).log == s.log
  {
    if IsRunEnd(f) {
      SweepSafe(env, s);
      OnSweptSafe(env, Sweep(env, s), f, frame);
    } else {
      OnSweptSafe(env, s, f, frame);
    }
  }

  lemma OnSweptSafe(env: Env, s: Stream, f: Fragment, frame: Frame)
    requires Safe(env, s) && HoldsAreOlder(s) && IsNewest(s.log, frame) && (IsRunEnd(f) ==> s.run.open == map[])
    requires env.decode(frame.event.data) == Inspect(f)
    ensures Safe(env, OnSwept(env, s, f, frame))
    ensures OnSwept(env, s, f, frame).log == s.log
  {
    if !s.ended { OnFragmentSafe(env, s, f, frame); }
  }

  lemma LogGrows(env: Env, s: Stream, event: Sse.SseEvent)
    requires Inv(env, s)
    ensures var s1 := s.(log := s.log + [event]);
            Inv(env, s1) && HoldsAreOlder(s1) && IsNewest(s1.log, Frame(|s.log|, event))
  {
  }

  /** The invariant at every event boundary. */
  lemma OnEventSafe(env: Env, s: Stream, event: Sse.SseEvent)
    requires ValidEnv(env) && Inv(env, s) && !s.ended
    ensures Safe(env, OnEvent(env, s, event))
    ensures OnEvent(env, s, event).log == s.log + [event]
  {
    var frame := Frame(|s.log|, event);
    var s1 := s.(log := s.log + [event]);
    LogGrows(env, s, event);
    var over := Exceeded(env.settings, |s1.log|, Total(s1.log));
    if over.Some? {
      EndIsSafe(env, s1, over.value, [frame]);
    } else {
      OnDecodedSafe(env, s1, env.decode(event.data), frame);
    }
  }

  lemma EndIsSafe(env: Env, s: Stream, message: Reason, inHand: seq<Frame>)
    requires AllJustified(env, s.trail.audit, s.out)
    ensures Safe(env, End(s, message, inHand)) && End(s, message, inHand).log == s.log
  {
  }

  lemma OnDecodedSafe(env: Env, s: Stream, decoded: Decoded, frame: Frame)
    requires ValidEnv(env) && Inv(env, s) && !s.ended && HoldsAreOlder(s) && IsNewest(s.log, frame)
    requires decoded == env.decode(frame.event.data)
    ensures Safe(env, OnDecoded(env, s, decoded, frame))
    ensures OnDecoded(env, s, decoded, frame).log == s.log
  {
    match decoded {
      case PassThrough => EmissionJustified(env, s, Passed(frame));
      case MalformedDrop =>
      case MalformedTerminate => EndIsSafe(env, s, "malformed protocol event", [frame]);
      case Inspect(f) => OnInspectedSafe(env, s, f, frame);
    }
  }

  lemma {:induction false} OnEventsSafe(env: Env, s: Stream, events: seq<Sse.SseEvent>)
    requires ValidEnv(env) && Safe(env, s)
    ensures Safe(env, OnEvents(env, s, events))
    decreases |events|
  {
    if events == [] || s.ended {
    } else {
      OnEventSafe(env, s, events[0]);
      OnEventsSafe(env, OnEvent(env, s, events[0]), events[1..]);
    }
  }

  lemma {:induction false} ProxySafe(env: Env, decoder: Sse.State, s: Stream, upstream: seq<Result<Bytes, Reason>>)
    requires ValidEnv(env) && Sse.LF !in decoder.buffer && Safe(env, s)
    ensures var r := Proxy(env, decoder, s, upstream); r.holds == map[] && AllJustified(env, r.trail.audit, r.out)
    decreases |upstream|
  {
    if s.ended {
    } else if upstream == [] {
      SweepSafe(env, s);
    } else if upstream[0].Ok? {
      var fed := Sse.Feed(decoder, upstream[0].value);
      OnEventsSafe(env, s, Sse.Events(fed.blocks));
      ProxySafe(env, fed.state, OnChunk(env, fed, s), upstream[1..]);
    }
  }

  /**
   What is judged is what is relayed, on every run: each batch of relayed frames is a pass-through, or
   was cleared by an audit record that did not deny and records exactly the event those frames make up,
   or is the rendering of the replacement its record ordered. And when the run is over nothing is held.
   */
  lemma RelayedWasJudged(env: Env, upstream: seq<Result<Bytes, Reason>>)
    requires ValidEnv(env)
    ensures var r := InspectUpstream(env, upstream); r.holds == map[] && AllJustified(env, r.trail.audit, r.out)
  {
    ProxySafe(env, Sse.FRESH, Start(env), upstream);
  }
}

/** Nothing vanishes silently: a decoded frame that is not emitted was denied, malformed, or the run ended. */
module StreamLosses {
  import opened Prelude
  import opened Inspection
  import opened RunMachine
  import opened Judging
  import opened Streaming
  import opened StreamSafety
  import opened StreamConservation
  import Sse

  /** Whether a wire event is part of a judged event. */
  predicate BelongsTo(env: Env, wire: Sse.SseEvent, event: AgentEvent) {
    var d := env.decode(wire.data);
    d.Inspect? &&
    if event.ToolCall? then
      (d.fragment.ToolCallStarted? || d.fragment.ToolCallArgs? || d.fragment.ToolCallEnded?) &&
        d.fragment.id == event.id
    else Carries(d.fragment, event)
  }

  predicate LossJustified(env: Env, audit: seq<AuditRecord>, ended: bool, wire: Sse.SseEvent, cause: Cause) {
    match cause
    case Denied(n) => n < |audit| && audit[n].verdict.Deny? && BelongsTo(env, wire, audit[n].event)
    case Malformed => env.decode(wire.data) == MalformedDrop
    case RunEnded => ended
  }

  predicate LossesJustified(env: Env, s: Stream) {
    forall i :: i in s.lost ==> i < |s.log| && LossJustified(env, s.trail.audit, s.ended, s.log[i], s.lost[i])
  }

  lemma RecordKeepsLosses(env: Env, s: Stream, event: AgentEvent)
    requires LossesJustified(env, s)
    ensures LossesJustified(env, Record(env, s, event))
  {
  }

  lemma EndKeepsLosses(env: Env, s: Stream, message: Reason, inHand: seq<Frame>)
    requires LossesJustified(env, s) && HeldIndices(s.holds) + Indices(inHand) <= UpTo(|s.log|)
    ensures LossesJustified(env, End(s, message, inHand))
  {
  }

  lemma LoseDenied(env: Env, s: Stream, frames: seq<Frame>, n: nat)
    requires LossesJustified(env, s) && InLog(s.log, frames) && n < |s.trail.audit| && s.trail.audit[n].verdict.Deny?
    requires forall k :: 0 <= k < |frames| ==> BelongsTo(env, frames[k].event, s.trail.audit[n].event)
    ensures LossesJustified(env, Lose(s, Indices(frames), Denied(n)))
  {
    var r := Lose(s, Indices(frames), Denied(n));
    forall i | i in r.lost ensures i < |s.log| && LossJustified(env, s.trail.audit, s.ended, s.log[i], r.lost[i]) {
      if i in Indices(frames) {
        var k :| 0 <= k < |frames| && frames[k].index == i;
      }
    }
  }

  lemma CallFramesBelong(env: Env, log: seq<Sse.SseEvent>, held: seq<Frame>, inHand: seq<Frame>, id: Id,
                         call: ToolCallBuffer)
    requires Assembles(env, held, id, call) && FromLog(log, held) && InLog(log, inHand)
    requires inHand == [] || (|inHand| == 1 && IsEnd(env, inHand[0], id))
    ensures var frames := held + inHand;
            InLog(log, frames) && forall k :: 0 <= k < |frames| ==> BelongsTo(env, frames[k].event, Assembled(id, call))
  {
    var frames := held + inHand;
    forall k | 0 <= k < |frames|
      ensures BelongsTo(env, frames[k].event, Assembled(id, call))
      ensures frames[k].index < |log| && log[frames[k].index] == frames[k].event
    {
      if k < |held| { assert frames[k] == held[k]; } else { assert frames[k] == inHand[0]; }
    }
  }

  lemma ResolveLosses(env: Env, s: Stream, open: map<Id, ToolCallBuffer>, id: Id, inHand: seq<Frame>, hand: set<nat>)
    requires id in open && HoldsAre(env, s.log, s.holds, open) && LossesJustified(env, s)
    requires inHand == [] || (|inHand| == 1 && IsEnd(env, inHand[0], id))
    requires InLog(s.log, inHand) && hand !! Indices(inHand) && Conserved(s, hand + Indices(inHand))
    ensures LossesJustified(env, Resolve(env, s, id, Assembled(id, open[id]), inHand))
  {
    var event := Assembled(id, open[id]);
    var n := |s.trail.audit|;
    var s1 := Record(env, s, event);
    var r := Resolve(env, s, id, event, inHand);
    RecordKeepsLosses(env, s, event);
    match Judged(env.oracles, s.trail, event) {
      case Terminate(reason) =>
        assert r == End(s1, reason, inHand);
        EndKeepsLosses(env, s1, reason, inHand);
      case Deny(_) =>
        var s2 := s1.(holds := s.holds - {id});
        assert r == Lose(s2, Indices(s.holds[id] + inHand), Denied(n));
        CallFramesBelong(env, s.log, s.holds[id], inHand, id, open[id]);
        LoseDenied(env, s2, s.holds[id] + inHand, n);
      case _ =>
    }
  }

  lemma StandaloneLosses(env: Env, s: Stream, event: AgentEvent, frame: Frame)
    requires LossesJustified(env, s) && IsWireFormOf(env, frame, event)
    requires Conserved(s, {frame.index}) && InLog(s.log, [frame])
    ensures LossesJustified(env, Standalone(env, s, event, frame))
  {
    var s1 := Record(env, s, event);
    var r := Standalone(env, s, event, frame);
    RecordKeepsLosses(env, s, event);
    JustThisFrame(frame);
    match Judged(env.oracles, s.trail, event) {
      case Terminate(reason) =>
        assert r == End(s1, reason, [frame]);
        EndKeepsLosses(env, s1, reason, [frame]);
      case Deny(_) =>
        assert r == Lose(s1, Indices([frame]), Denied(|s.trail.audit|));
        LoseDenied(env, s1, [frame], |s.trail.audit|);
      case _ =>
    }
  }

  lemma OnFragmentLosses(env: Env, s: Stream, f: Fragment, frame: Frame)
    requires HoldsAre(env, s.log, s.holds, s.run.open) && LossesJustified(env, s)
    requires IsNewest(s.log, frame) && Conserved(s, {frame.index}) && env.decode(frame.event.data) == Inspect(f)
    ensures LossesJustified(env, OnFragment(env, s, f, frame))
  {
    var step := InspectFragment(env.settings.budgets, s.run, f);
    OutcomeShape(env.settings.budgets, s.run, f);
    JustThisFrame(frame);
    if step.outcome.Reject? {
      var s1 := s.(run := step.state);
      assert OnFragment(env, s, f, frame) == End(s1, step.outcome.reason, [frame]);
      EndKeepsLosses(env, s1, step.outcome.reason, [frame]);
    } else if !step.outcome.Buffering? {
      JudgedFragmentLosses(env, s, f, frame, step);
    }
  }

  lemma JudgedFragmentLosses(env: Env, s: Stream, f: Fragment, frame: Frame, step: Step)
    requires HoldsAre(env, s.log, s.holds, s.run.open) && LossesJustified(env, s)
    requires IsNewest(s.log, frame) && Conserved(s, {frame.index}) && env.decode(frame.event.data) == Inspect(f)
    requires step == InspectFragment(env.settings.budgets, s.run, f)
    requires step.outcome.Ready? || step.outcome.ResolvedCall?
    ensures LossesJustified(env, OnFragment(env, s, f, frame))
  {
    OutcomeShape(env.settings.budgets, s.run, f);
    var s1 := s.(run := step.state);
    assert Conserved(s1, {frame.index}) && LossesJustified(env, s1);
    JustThisFrame(frame);
    if step.outcome.Ready? {
      assert OnFragment(env, s, f, frame) == Standalone(env, s1, step.outcome.event, frame);
      ReadyIsWireForm(env.settings.budgets, s.run, f);
      StandaloneLosses(env, s1, step.outcome.event, frame);
    } else {
      assert OnFragment(env, s, f, frame) == Resolve(env, s1, f.id, step.outcome.event, [frame]);
      ResolveLosses(env, s1, s.run.open, f.id, [frame], {});
    }
  }

  lemma {:induction false} SweepCallsLosses(env: Env, s: Stream, open: map<Id, ToolCallBuffer>,
                                            left: map<Id, ToolCallBuffer>, order: seq<Id>, hand: set<nat>)
    requires Enumerates(order, left.Keys) && (forall id :: id in left ==> id in open && left[id] == open[id])
    requires AllJustified(env, s.trail.audit, s.out) && LossesJustified(env, s)
    requires if s.ended then s.holds == map[] else HoldsAre(env, s.log, s.holds, left)
    requires Conserved(s, hand)
    ensures LossesJustified(env, SweepCalls(env, s, open, order))
    decreases |order|
  {
    if order == [] || s.ended {
    } else {
      var id := order[0];
      ResolveSafe(env, s, left, id, []);
      assert hand + Indices([]) == hand;
      ResolveConserves(env, s, left, id, [], hand);
      ResolveLosses(env, s, left, id, [], hand);
      EnumeratesTail(order, left.Keys);
      SweepCallsLosses(env, Resolve(env, s, id, Assembled(id, open[id]), []), open, left - {id}, order[1..], hand);
    }
  }

  lemma SweepLosses(env: Env, s: Stream, hand: set<nat>)
    requires ValidEnv(env) && Inv(env, s) && !s.ended && LossesJustified(env, s) && Conserved(s, hand)
    ensures LossesJustified(env, Sweep(env, s))
  {
    var order := env.order(|s.log|, s.run.open.Keys);
    assert Enumerates(order, s.run.open.Keys);
    SweepCallsLosses(env, s.(run := s.run.(open := map[])), s.run.open, s.run.open, order, hand);
  }

  lemma OnInspectedLosses(env: Env, s: Stream, f: Fragment, frame: Frame)
    requires ValidEnv(env) && Inv(env, s) && !s.ended && LossesJustified(env, s)
    requires IsNewest(s.log, frame) && Conserved(s, {frame.index}) && env.decode(frame.event.data) == Inspect(f)
    ensures LossesJustified(env, OnInspected(env, s, f, frame))
  {
    if IsRunEnd(f) {
      OnRunEndLosses(env, s, f, frame);
    } else {
      OnFragmentLosses(env, s, f, frame);
      assert OnInspected(env, s, f, frame) == OnFragment(env, s, f, frame);
    }
  }

  lemma OnRunEndLosses(env: Env, s: Stream, f: Fragment, frame: Frame)
    requires ValidEnv(env) && Inv(env, s) && !s.ended && LossesJustified(env, s)
    requires IsNewest(s.log, frame) && Conserved(s, {frame.index}) && env.decode(frame.event.data) == Inspect(f) &&
        IsRunEnd(f)
    ensures LossesJustified(env, OnInspected(env, s, f, frame))
  {
    SweepSafe(env, s);
    SweepConserves(env, s, {frame.index});
    SweepLosses(env, s, {frame.index});
    var s1 := Sweep(env, s);
    if s1.ended {
      assert OnInspected(env, s, f, frame) == Lose(s1, {frame.index}, RunEnded);
    } else {
      OnFragmentLosses(env, s1, f, frame);
      assert OnInspected(env, s, f, frame) == OnFragment(env, s1, f, frame);
    }
  }

  lemma OnEventLosses(env: Env, s: Stream, event: Sse.SseEvent)
    requires ValidEnv(env) && Accounted(env, s) && !s.ended && LossesJustified(env, s)
    ensures LossesJustified(env, OnEvent(env, s, event))
  {
    var frame := Frame(|s.log|, event);
    var s1 := s.(log := s.log + [event]);
    LogGrows(env, s, event);
    LogGrowsConserved(s, event);
    JustThisFrame(frame);
    var over := Exceeded(env.settings, |s1.log|, Total(s1.log));
    if over.Some? {
      EndKeepsLosses(env, s1, over.value, [frame]);
    } else {
      OnDecodedLosses(env, s1, env.decode(event.data), frame);
    }
  }

  lemma OnDecodedLosses(env: Env, s: Stream, decoded: Decoded, frame: Frame)
    requires ValidEnv(env) && Inv(env, s) && !s.ended && LossesJustified(env, s)
    requires IsNewest(s.log, frame) && Conserved(s, {frame.index}) && decoded == env.decode(frame.event.data)
    ensures LossesJustified(env, OnDecoded(env, s, decoded, frame))
  {
    JustThisFrame(frame);
    match decoded {
      case PassThrough =>
      case MalformedDrop => assert OnDecoded(env, s, decoded, frame) == Lose(s, {frame.index}, Malformed);
      case MalformedTerminate => EndKeepsLosses(env, s, "malformed protocol event", [frame]);
      case Inspect(f) => OnInspectedLosses(env, s, f, frame);
    }
  }

  lemma {:induction false} OnEventsLosses(env: Env, s: Stream, events: seq<Sse.SseEvent>)
    requires ValidEnv(env) && Accounted(env, s) && LossesJustified(env, s)
    ensures LossesJustified(env, OnEvents(env, s, events))
    decreases |events|
  {
    if events == [] || s.ended {
    } else {
      OnEventAccounted(env, s, events[0]);
      OnEventLosses(env, s, events[0]);
      OnEventsLosses(env, OnEvent(env, s, events[0]), events[1..]);
    }
  }

  lemma {:induction false} ProxyLosses(env: Env, decoder: Sse.State, s: Stream, upstream: seq<Result<Bytes, Reason>>)
    requires ValidEnv(env) && Sse.LF !in decoder.buffer && Accounted(env, s) && LossesJustified(env, s)
    ensures LossesJustified(env, Proxy(env, decoder, s, upstream))
    decreases |upstream|
  {
    assert HeldIndices(s.holds) + Indices([]) <= UpTo(|s.log|);
    if s.ended {
    } else if upstream == [] {
      SweepLosses(env, s, {});
    } else if upstream[0].Err? {
      EndKeepsLosses(env, s, upstream[0].error, []);
    } else {
      var fed := Sse.Feed(decoder, upstream[0].value);
      EndKeepsLosses(env, s, "response frame exceeded the size limit", []);
      EndAccounted(env, s, "response frame exceeded the size limit");
      OnEventsLosses(env, s, Sse.Events(fed.blocks));
      OnEventsAccounted(env, s, Sse.Events(fed.blocks));
      ProxyLosses(env, fed.state, OnChunk(env, fed, s), upstream[1..]);
    }
  }

  /**
   On every run, a decoded frame that did not leave was part of an event the audit trail denies, was
   malformed under the drop mode, or fell with the run when it was ended.
   */
  lemma EveryLossIsExplained(env: Env, upstream: seq<Result<Bytes, Reason>>)
    requires ValidEnv(env)
    ensures var r := InspectUpstream(env, upstream);
            forall i: nat :: i < |r.log| && i !in Indices(Sent(r.out)) ==>
              i in r.lost && LossJustified(env, r.trail.audit, r.ended, r.log[i], r.lost[i])
  {
    StartAccounted(env);
    ProxyLosses(env, Sse.FRESH, Start(env), upstream);
    OutputIsBounded(env, upstream);
    var r := InspectUpstream(env, upstream);
    assert HeldIndices(r.holds) == {};
    forall i: nat | i < |r.log| && i !in Indices(Sent(r.out)) ensures i in r.lost {
      assert i in UpTo(|r.log|);
    }
  }
}

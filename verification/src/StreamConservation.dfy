/**
 Where every decoded frame is: emitted once, held, lost for a stated cause, or in hand; and the bounds
 on what a run emits that follow from it.
 */
module StreamConservation {
  import opened Prelude
  import opened Inspection
  import opened RunMachine
  import opened Judging
  import opened Streaming
  import opened StreamSafety
  import Sse

  // ---- The places ----

  /** The frames an emission relays or replaces. */
  function FramesOf(e: Emission): seq<Frame> {
    match e
    case Passed(frame) => [frame]
    case Cleared(_, frames) => frames
    case Rewritten(_, frame, _) => [frame]
    case Failed(_) => []
  }

  /** All frames that have left, in order. */
  function Sent(out: seq<Emission>): seq<Frame> {
    if out == [] then [] else Sent(out[..|out| - 1]) + FramesOf(out[|out| - 1])
  }

  predicate NoRepeat(frames: seq<Frame>) {
    forall j, k :: 0 <= j < k < |frames| ==> frames[j].index != frames[k].index
  }

  predicate InLog(log: seq<Sse.SseEvent>, frames: seq<Frame>) {
    forall k :: 0 <= k < |frames| ==> frames[k].index < |log| && log[frames[k].index] == frames[k].event
  }

  function UpTo(n: nat): (all: set<nat>)
    ensures forall i: nat :: i in all <==> i < n
  {
    if n == 0 then {} else UpTo(n - 1) + {n - 1}
  }

  /** Four disjoint places that together are every index below n. */
  predicate Partition(n: nat, sent: set<nat>, lost: set<nat>, held: set<nat>, hand: set<nat>) {
    && sent + lost + held + hand == UpTo(n)
    && sent !! lost !! held !! hand
  }

  /** Every decoded frame is in one place; those that left did so once, as they came. */
  predicate Conserved(s: Stream, hand: set<nat>) {
    && Partition(|s.log|, Indices(Sent(s.out)), s.lost.Keys, HeldIndices(s.holds), hand)
    && NoRepeat(Sent(s.out))
    && InLog(s.log, Sent(s.out))
  }

  lemma SentSnoc(out: seq<Emission>, e: Emission)
    ensures Sent(out + [e]) == Sent(out) + FramesOf(e)
    ensures Indices(Sent(out + [e])) == Indices(Sent(out)) + Indices(FramesOf(e))
  {
    assert (out + [e])[..|out|] == out;
    IndicesConcat(Sent(out), FramesOf(e));
  }

  lemma IndicesConcat(a: seq<Frame>, b: seq<Frame>)
    ensures Indices(a + b) == Indices(a) + Indices(b)
  {
    forall i | i in Indices(a) + Indices(b) ensures i in Indices(a + b) {
      if i in Indices(a) {
        var k :| 0 <= k < |a| && a[k].index == i;
        assert (a + b)[k].index == i;
      } else {
        var k :| 0 <= k < |b| && b[k].index == i;
        assert (a + b)[|a| + k].index == i;
      }
    }
  }

  lemma NoRepeatConcat(a: seq<Frame>, b: seq<Frame>)
    requires NoRepeat(a) && NoRepeat(b) && Indices(a) !! Indices(b)
    ensures NoRepeat(a + b)
  {
    forall j, k | 0 <= j < k < |a + b| ensures (a + b)[j].index != (a + b)[k].index {
      if j < |a| <= k {
        assert a[j].index in Indices(a) && b[k - |a|].index in Indices(b);
      }
    }
  }

  /** Emitting frames that were in no other place. */
  lemma EmitConserves(s: Stream, e: Emission, hand: set<nat>)
    requires Conserved(s, hand + Indices(FramesOf(e))) && hand !! Indices(FramesOf(e))
    requires NoRepeat(FramesOf(e)) && InLog(s.log, FramesOf(e))
    ensures Conserved(s.(out := s.out + [e]), hand)
  {
    SentSnoc(s.out, e);
    NoRepeatConcat(Sent(s.out), FramesOf(e));
  }

  lemma LoseConserves(s: Stream, indices: set<nat>, cause: Cause, hand: set<nat>)
    requires Conserved(s, hand + indices) && hand !! indices
    ensures Conserved(Lose(s, indices, cause), hand)
  {
    assert Lose(s, indices, cause).lost.Keys == s.lost.Keys + indices;
  }

  /** Letting go of everything held. */
  lemma EndConserves(s: Stream, message: Reason, inHand: seq<Frame>, hand: set<nat>)
    requires Conserved(s, hand + Indices(inHand)) && hand !! Indices(inHand)
    ensures Conserved(End(s, message, inHand), hand)
  {
    var s1 := s.(holds := map[]);
    var gone := HeldIndices(s.holds) + Indices(inHand);
    assert HeldIndices(s1.holds) == {};
    assert Conserved(s1, hand + gone);
    LoseConserves(s1, gone, RunEnded, hand);
    var s2 := Lose(s1, gone, RunEnded);
    assert FramesOf(Failed(message)) == [] && Indices([]) == {};
    EmitConserves(s2, Failed(message), hand);
    assert End(s, message, inHand) == s2.(out := s2.out + [Failed(message)], ended := true);
  }

  // ---- Held frames belong to one call ----

  lemma HeldDisjoint(env: Env, log: seq<Sse.SseEvent>, holds: map<Id, seq<Frame>>, open: map<Id, ToolCallBuffer>,
                     id: Id)
    requires HoldsAre(env, log, holds, open) && id in open
    ensures HeldIndices(holds - {id}) == HeldIndices(holds) - Indices(holds[id])
    ensures Indices(holds[id]) <= HeldIndices(holds)
    ensures NoRepeat(holds[id]) && InLog(log, holds[id])
  {
    forall i | i in HeldIndices(holds - {id}) ensures i in HeldIndices(holds) && i !in Indices(holds[id]) {
      HeldByOther(env, log, holds, open, id, i);
    }
    forall i | i in HeldIndices(holds) && i !in Indices(holds[id]) ensures i in HeldIndices(holds - {id}) {
      StillHeld(holds, id, i);
    }
    forall i | i in Indices(holds[id]) ensures i in HeldIndices(holds) {
      var k :| 0 <= k < |holds[id]| && holds[id][k].index == i;
    }
  }

  lemma StillHeld(holds: map<Id, seq<Frame>>, id: Id, i: nat)
    requires id in holds && i in HeldIndices(holds) && i !in Indices(holds[id])
    ensures i in HeldIndices(holds - {id})
  {
    var other, k :| other in holds && 0 <= k < |holds[other]| && holds[other][k].index == i;
    assert other != id;
    var rest: map<Id, seq<Frame>> := holds - {id};
    assert other in rest && rest[other][k].index == i;
  }

  /** A frame held for another call is not held for this one. */
  lemma HeldByOther(env: Env, log: seq<Sse.SseEvent>, holds: map<Id, seq<Frame>>, open: map<Id, ToolCallBuffer>,
                    id: Id, i: nat)
    requires HoldsAre(env, log, holds, open) && id in open && i in HeldIndices(holds - {id})
    ensures i in HeldIndices(holds) && i !in Indices(holds[id])
  {
    var other, k :| other in holds - {id} && 0 <= k < |holds[other]| && holds[other][k].index == i;
    assert holds[other][k].index in HeldIndices(holds);
    if i in Indices(holds[id]) {
      var j :| 0 <= j < |holds[id]| && holds[id][j].index == i;
      OneCallPerFrame(env, holds[id], id, open[id], j, holds[other], other, open[other], k);
      assert false;
    }
  }

  lemma OneCallPerFrame(env: Env, frames: seq<Frame>, id: Id, call: ToolCallBuffer, j: nat,
                        frames': seq<Frame>, id': Id, call': ToolCallBuffer, k: nat)
    requires Assembles(env, frames, id, call) && Assembles(env, frames', id', call')
    requires j < |frames| && k < |frames'| && frames[j].event == frames'[k].event
    ensures id == id'
  {
  }

  lemma HeldSnoc(holds: map<Id, seq<Frame>>, id: Id, frame: Frame)
    ensures HeldIndices(holds[id := HeldUnder(holds, id) + [frame]]) == HeldIndices(holds) + {frame.index}
  {
    var held := HeldUnder(holds, id);
    var holds' := holds[id := held + [frame]];
    forall i | i in HeldIndices(holds) + {frame.index} ensures i in HeldIndices(holds') {
      if i == frame.index {
        assert holds'[id][|held|].index == i;
      } else {
        var other, k :| other in holds && 0 <= k < |holds[other]| && holds[other][k].index == i;
        assert holds'[other][k].index == i;
      }
    }
  }

  // ---- Every step conserves ----

  /** A call's frames out of the holds and into the hand. */
  lemma TakeHeld(env: Env, s: Stream, open: map<Id, ToolCallBuffer>, id: Id, inHand: seq<Frame>, hand: set<nat>)
    requires id in open && HoldsAre(env, s.log, s.holds, open)
    requires |inHand| <= 1 && InLog(s.log, inHand) && hand !! Indices(inHand)
    requires Conserved(s, hand + Indices(inHand))
    ensures var frames := s.holds[id] + inHand;
            && Conserved(s.(holds := s.holds - {id}), hand + Indices(frames)) && hand !! Indices(frames)
            && NoRepeat(frames) && InLog(s.log, frames)
  {
    HeldDisjoint(env, s.log, s.holds, open, id);
    IndicesConcat(s.holds[id], inHand);
    NoRepeatConcat(s.holds[id], inHand);
  }

  lemma ResolveConserves(env: Env, s: Stream, open: map<Id, ToolCallBuffer>, id: Id, inHand: seq<Frame>, hand: set<nat>)
    requires id in open && HoldsAre(env, s.log, s.holds, open)
    requires |inHand| <= 1 && InLog(s.log, inHand) && hand !! Indices(inHand)
    requires Conserved(s, hand + Indices(inHand))
    ensures Conserved(Resolve(env, s, id, Assembled(id, open[id]), inHand), hand)
  {
    var event := Assembled(id, open[id]);
    var n := |s.trail.audit|;
    var s1 := Record(env, s, event);
    var frames := s.holds[id] + inHand;
    assert Conserved(s1, hand + Indices(inHand));
    var s2 := s1.(holds := s.holds - {id});
    var r := Resolve(env, s, id, event, inHand);
    match Judged(env.oracles, s.trail, event) {
      case Terminate(reason) =>
        assert r == End(s1, reason, inHand);
        EndConserves(s1, reason, inHand, hand);
      case Deny(_) =>
        assert r == Lose(s2, Indices(frames), Denied(n));
        TakeHeld(env, s1, open, id, inHand, hand);
        LoseConserves(s2, Indices(frames), Denied(n), hand);
      case _ =>
        assert r == s2.(out := s2.out + [Cleared(n, frames)]);
        TakeHeld(env, s1, open, id, inHand, hand);
        EmitConserves(s2, Cleared(n, frames), hand);
    }
  }

  lemma EmitOneConserves(s: Stream, e: Emission, frame: Frame)
    requires FramesOf(e) == [frame] && Conserved(s, {frame.index}) && InLog(s.log, [frame])
    ensures Conserved(s.(out := s.out + [e]), {})
  {
    JustThisFrame(frame);
    EmitConserves(s, e, {});
  }

  lemma StandaloneConserves(env: Env, s: Stream, event: AgentEvent, frame: Frame)
    requires Conserved(s, {frame.index}) && InLog(s.log, [frame])
    ensures Conserved(Standalone(env, s, event, frame), {})
  {
    var s1 := Record(env, s, event);
    assert Conserved(s1, {frame.index});
    JustThisFrame(frame);
    var n := |s.trail.audit|;
    var r := Standalone(env, s, event, frame);
    match Judged(env.oracles, s.trail, event) {
      case Terminate(reason) =>
        assert r == End(s1, reason, [frame]);
        EndConserves(s1, reason, [frame], {});
      case Deny(_) =>
        assert r == Lose(s1, {frame.index}, Denied(n));
        LoseConserves(s1, {frame.index}, Denied(n), {});
      case Transform(replacement) =>
        var bytes := env.render(replacement);
        var e := if bytes.Some? then Rewritten(n, frame, bytes.value) else Cleared(n, [frame]);
        assert r == s1.(out := s1.out + [e]);
        EmitOneConserves(s1, e, frame);
      case _ =>
        assert r == s1.(out := s1.out + [Cleared(n, [frame])]);
        EmitOneConserves(s1, Cleared(n, [frame]), frame);
    }
  }

  lemma JustThisFrame(frame: Frame)
    ensures Indices([frame]) == {frame.index}
    ensures {} + Indices([frame]) == {frame.index}
    ensures {} + {frame.index} == {frame.index}
  {
    assert [frame][0].index == frame.index;
  }

  lemma HoldConserves(s: Stream, id: Id, frame: Frame)
    requires Conserved(s, {frame.index})
    ensures Conserved(s.(holds := s.holds[id := HeldUnder(s.holds, id) + [frame]]), {})
  {
    HeldSnoc(s.holds, id, frame);
  }

  lemma OnFragmentConserves(env: Env, s: Stream, f: Fragment, frame: Frame)
    requires HoldsAre(env, s.log, s.holds, s.run.open) && IsNewest(s.log, frame) && Conserved(s, {frame.index})
    ensures Conserved(OnFragment(env, s, f, frame), {})
  {
    var step := InspectFragment(env.settings.budgets, s.run, f);
    OutcomeShape(env.settings.budgets, s.run, f);
    var s1 := s.(run := step.state);
    JustThisFrame(frame);
    assert Conserved(s1, {frame.index});
    OutcomeConserves(env, s1, s.run.open, step.outcome, frame);
  }

  lemma OutcomeConserves(env: Env, s: Stream, open: map<Id, ToolCallBuffer>, outcome: StructuralOutcome, frame: Frame)
    requires HoldsAre(env, s.log, s.holds, open) && IsNewest(s.log, frame) && Conserved(s, {frame.index})
    requires outcome.ResolvedCall? ==> outcome.id in open && outcome.event == Assembled(outcome.id, open[outcome.id])
    ensures Conserved(OnOutcome(env, s, outcome, frame), {})
  {
    JustThisFrame(frame);
    match outcome {
      case Buffering(id) => HoldConserves(s, id, frame);
      case Reject(reason) => EndConserves(s, reason, [frame], {});
      case Ready(event) => StandaloneConserves(env, s, event, frame);
      case ResolvedCall(id, event) => ResolveConserves(env, s, open, id, [frame], {});
    }
  }

  lemma {:induction false} SweepCallsConserves(env: Env, s: Stream, open: map<Id, ToolCallBuffer>,
                                               left: map<Id, ToolCallBuffer>, order: seq<Id>, hand: set<nat>)
    requires Enumerates(order, left.Keys) && (forall id :: id in left ==> id in open && left[id] == open[id])
    requires AllJustified(env, s.trail.audit, s.out)
    requires if s.ended then s.holds == map[] else HoldsAre(env, s.log, s.holds, left)
    requires Conserved(s, hand)
    ensures Conserved(SweepCalls(env, s, open, order), hand)
    decreases |order|
  {
    if order == [] || s.ended {
    } else {
      var id := order[0];
      ResolveSafe(env, s, left, id, []);
      assert hand + Indices([]) == hand;
      ResolveConserves(env, s, left, id, [], hand);
      EnumeratesTail(order, left.Keys);
      SweepCallsConserves(env, Resolve(env, s, id, Assembled(id, open[id]), []), open, left - {id}, order[1..], hand);
    }
  }

  lemma SweepConserves(env: Env, s: Stream, hand: set<nat>)
    requires ValidEnv(env) && Inv(env, s) && !s.ended && Conserved(s, hand)
    ensures Conserved(Sweep(env, s), hand)
  {
    var order := env.order(|s.log|, s.run.open.Keys);
    assert Enumerates(order, s.run.open.Keys);
    SweepCallsConserves(env, s.(run := s.run.(open := map[])), s.run.open, s.run.open, order, hand);
  }

  lemma OnInspectedConserves(env: Env, s: Stream, f: Fragment, frame: Frame)
    requires ValidEnv(env) && Inv(env, s) && !s.ended && IsNewest(s.log, frame) && Conserved(s, {frame.index})
    ensures Conserved(OnInspected(env, s, f, frame), {})
  {
    if IsRunEnd(f) {
      SweepSafe(env, s);
      SweepConserves(env, s, {frame.index});
      var s1 := Sweep(env, s);
      if s1.ended {
        assert {} + {frame.index} == {frame.index};
        LoseConserves(s1, {frame.index}, RunEnded, {});
      } else {
        OnFragmentConserves(env, s1, f, frame);
      }
    } else {
      OnFragmentConserves(env, s, f, frame);
    }
  }

  lemma LogGrowsConserved(s: Stream, event: Sse.SseEvent)
    requires Conserved(s, {})
    ensures Conserved(s.(log := s.log + [event]), {|s.log|})
  {
    assert UpTo(|s.log| + 1) == UpTo(|s.log|) + {|s.log|};
    assert |s.log| !in UpTo(|s.log|);
  }

  /** At every event boundary, each decoded frame is in exactly one place. */
  lemma OnEventConserves(env: Env, s: Stream, event: Sse.SseEvent)
    requires ValidEnv(env) && Inv(env, s) && !s.ended && Conserved(s, {})
    ensures Conserved(OnEvent(env, s, event), {})
  {
    var frame := Frame(|s.log|, event);
    var s1 := s.(log := s.log + [event]);
    LogGrows(env, s, event);
    LogGrowsConserved(s, event);
    JustThisFrame(frame);
    var over := Exceeded(env.settings, |s1.log|, Total(s1.log));
    if over.Some? {
      EndConserves(s1, over.value, [frame], {});
    } else {
      match env.decode(event.data) {
        case PassThrough => EmitOneConserves(s1, Passed(frame), frame);
        case MalformedDrop => LoseConserves(s1, {frame.index}, Malformed, {});
        case MalformedTerminate => EndConserves(s1, "malformed protocol event", [frame], {});
        case Inspect(f) => OnInspectedConserves(env, s1, f, frame);
      }
    }
  }

  // ---- Failure is last, and the response budget bounds what is emitted ----

  /** A failure is emitted exactly when the run ended early, once, and after everything else. */
  predicate FailureLast(s: Stream) {
    && (s.ended ==> s.out != [])
    && (forall i :: 0 <= i < |s.out| ==> (s.out[i].Failed? <==> s.ended && i == |s.out| - 1))
  }

  /** The events the response budget admitted: all of them, or all but the one that crossed it. */
  predicate AdmittedCount(env: Env, s: Stream, m: nat) {
    m <= |s.log| && Exceeded(env.settings, m, Total(s.log[..m])).None? && Indices(Sent(s.out)) <= UpTo(m)
  }

  ghost predicate Bounded(env: Env, s: Stream) {
    && FailureLast(s)
    && (!s.ended ==> Exceeded(env.settings, |s.log|, Total(s.log)).None?)
    && exists m: nat :: AdmittedCount(env, s, m)
  }

  lemma ResolveFailureLast(env: Env, s: Stream, id: Id, event: AgentEvent, inHand: seq<Frame>)
    requires FailureLast(s) && !s.ended
    ensures FailureLast(Resolve(env, s, id, event, inHand))
    ensures Resolve(env, s, id, event, inHand).log == s.log
  {
  }

  lemma {:induction false} SweepFailureLast(env: Env, s: Stream, open: map<Id, ToolCallBuffer>, order: seq<Id>)
    requires FailureLast(s) && forall id :: id in order ==> id in open
    ensures FailureLast(SweepCalls(env, s, open, order))
    ensures SweepCalls(env, s, open, order).log == s.log
    decreases |order|
  {
    if order == [] || s.ended {
    } else {
      var event := Assembled(order[0], open[order[0]]);
      ResolveFailureLast(env, s, order[0], event, []);
      SweepFailureLast(env, Resolve(env, s, order[0], event, []), open, order[1..]);
    }
  }

  lemma OnFragmentFailureLast(env: Env, s: Stream, f: Fragment, frame: Frame)
    requires FailureLast(s) && !s.ended
    ensures FailureLast(OnFragment(env, s, f, frame))
    ensures OnFragment(env, s, f, frame).log == s.log
  {
    var step := InspectFragment(env.settings.budgets, s.run, f);
    if step.outcome.ResolvedCall? {
      ResolveFailureLast(env, s.(run := step.state), step.outcome.id, step.outcome.event, [frame]);
    }
  }

  lemma OnInspectedFailureLast(env: Env, s: Stream, f: Fragment, frame: Frame)
    requires ValidEnv(env) && FailureLast(s) && !s.ended
    ensures FailureLast(OnInspected(env, s, f, frame))
    ensures OnInspected(env, s, f, frame).log == s.log
  {
    if IsRunEnd(f) {
      SweepFailureLastAt(env, s);
      var s1 := Sweep(env, s);
      if !s1.ended { OnFragmentFailureLast(env, s1, f, frame); }
    } else {
      OnFragmentFailureLast(env, s, f, frame);
    }
  }

  lemma SweepFailureLastAt(env: Env, s: Stream)
    requires ValidEnv(env) && FailureLast(s)
    ensures FailureLast(Sweep(env, s)) && Sweep(env, s).log == s.log
  {
    var order := env.order(|s.log|, s.run.open.Keys);
    assert Enumerates(order, s.run.open.Keys);
    SweepFailureLast(env, s.(run := s.run.(open := map[])), s.run.open, order);
  }

  lemma OnEventFailureLast(env: Env, s: Stream, event: Sse.SseEvent)
    requires ValidEnv(env) && FailureLast(s) && !s.ended
    ensures FailureLast(OnEvent(env, s, event))
    ensures OnEvent(env, s, event).log == s.log + [event]
  {
    var s1 := s.(log := s.log + [event]);
    var d := env.decode(event.data);
    if d.Inspect? { OnInspectedFailureLast(env, s1, d.fragment, Frame(|s.log|, event)); }
  }

  /** What holds of a run so far: safe, conserved, bounded. */
  ghost predicate Accounted(env: Env, s: Stream) {
    Safe(env, s) && Conserved(s, {}) && Bounded(env, s)
  }

  lemma AdmitEvent(env: Env, s: Stream, r: Stream, event: Sse.SseEvent)
    requires Bounded(env, s) && !s.ended && Conserved(s, {}) && Conserved(r, {})
    requires r.log == s.log + [event] && FailureLast(r)
    requires var over := Exceeded(env.settings, |r.log|, Total(r.log));
             over.Some? ==> r.ended && r.out == s.out + [Failed(over.value)]
    ensures Bounded(env, r)
  {
    if Exceeded(env.settings, |r.log|, Total(r.log)).None? {
      assert r.log[..|r.log|] == r.log;
      assert AdmittedCount(env, r, |r.log|);
    } else {
      RefuseEvent(env, s, r, event, Exceeded(env.settings, |r.log|, Total(r.log)).value);
    }
  }

  lemma RefuseEvent(env: Env, s: Stream, r: Stream, event: Sse.SseEvent, reason: Reason)
    requires Bounded(env, s) && !s.ended && Conserved(s, {}) && r.log == s.log + [event]
    requires r.out == s.out + [Failed(reason)]
    ensures AdmittedCount(env, r, |s.log|)
  {
    assert r.log[..|s.log|] == s.log;
    SentSnoc(s.out, Failed(reason));
    assert Indices([]) == {};
  }

  lemma OnEventAccounted(env: Env, s: Stream, event: Sse.SseEvent)
    requires ValidEnv(env) && Accounted(env, s) && !s.ended
    ensures Accounted(env, OnEvent(env, s, event))
  {
    OnEventSafe(env, s, event);
    OnEventConserves(env, s, event);
    OnEventFailureLast(env, s, event);
    AdmitEvent(env, s, OnEvent(env, s, event), event);
  }

  lemma {:induction false} OnEventsAccounted(env: Env, s: Stream, events: seq<Sse.SseEvent>)
    requires ValidEnv(env) && Accounted(env, s)
    ensures Accounted(env, OnEvents(env, s, events))
    decreases |events|
  {
    if events == [] || s.ended {
    } else {
      OnEventAccounted(env, s, events[0]);
      OnEventsAccounted(env, OnEvent(env, s, events[0]), events[1..]);
    }
  }

  /** Ending or sweeping adds no decoded event, so the same events stay admitted. */
  lemma StaysBounded(env: Env, s: Stream, r: Stream)
    requires Bounded(env, s) && !s.ended && Conserved(s, {}) && Conserved(r, {})
    requires r.log == s.log && FailureLast(r)
    ensures Bounded(env, r)
  {
    assert r.log[..|r.log|] == r.log;
    assert AdmittedCount(env, r, |r.log|);
  }

  lemma EndAccounted(env: Env, s: Stream, message: Reason)
    requires Accounted(env, s) && !s.ended
    ensures Accounted(env, End(s, message, []))
  {
    assert {} + Indices([]) == {};
    EndConserves(s, message, [], {});
    StaysBounded(env, s, End(s, message, []));
  }

  lemma {:induction false} ProxyAccounted(env: Env, decoder: Sse.State, s: Stream, upstream: seq<Result<Bytes, Reason>>)
    requires ValidEnv(env) && Sse.LF !in decoder.buffer && Accounted(env, s)
    ensures Accounted(env, Proxy(env, decoder, s, upstream))
    decreases |upstream|
  {
    if s.ended {
    } else if upstream == [] {
      SweepSafe(env, s);
      SweepConserves(env, s, {});
      SweepFailureLastAt(env, s);
      StaysBounded(env, s, Sweep(env, s));
    } else if upstream[0].Err? {
      EndAccounted(env, s, upstream[0].error);
    } else {
      var fed := Sse.Feed(decoder, upstream[0].value);
      EndAccounted(env, s, "response frame exceeded the size limit");
      OnEventsAccounted(env, s, Sse.Events(fed.blocks));
      ProxyAccounted(env, fed.state, OnChunk(env, fed, s), upstream[1..]);
    }
  }

  lemma StartAccounted(env: Env)
    ensures Accounted(env, Start(env))
  {
    assert Sent(Start(env).out) == [] && Indices([]) == {} && HeldIndices(map[]) == {} && UpTo(0) == {};
    assert Total([]) == 0;
    assert AdmittedCount(env, Start(env), 0);
  }

  // ---- Counting ----

  function RawBytes(frames: seq<Frame>): nat {
    if frames == [] then 0 else RawBytes(frames[..|frames| - 1]) + |frames[|frames| - 1].event.raw|
  }

  lemma {:induction false} RawBytesConcat(a: seq<Frame>, b: seq<Frame>)
    ensures RawBytes(a + b) == RawBytes(a) + RawBytes(b)
    decreases |b|
  {
    if b == [] {
      assert a + b == a;
    } else {
      assert (a + b)[..|a + b| - 1] == a + b[..|b| - 1];
      RawBytesConcat(a, b[..|b| - 1]);
    }
  }

  lemma SomeIndex(frames: seq<Frame>)
    requires frames != []
    ensures Indices(frames) != {}
  {
    assert frames[0].index in Indices(frames);
  }

  /** Distinct frames of the first m events are at most m, and no larger together. */
  lemma {:induction false} DistinctFramesAreFew(log: seq<Sse.SseEvent>, frames: seq<Frame>, m: nat)
    requires m <= |log| && NoRepeat(frames) && InLog(log, frames) && Indices(frames) <= UpTo(m)
    ensures |frames| <= m && RawBytes(frames) <= Total(log[..m])
    decreases m
  {
    if m == 0 {
      if frames != [] {
        SomeIndex(frames);
        assert false;
      }
    } else {
      assert log[..m][..m - 1] == log[..m - 1];
      assert Total(log[..m]) == Total(log[..m - 1]) + |log[m - 1].raw|;
      assert UpTo(m) == UpTo(m - 1) + {m - 1};
      if m - 1 in Indices(frames) {
        var k :| 0 <= k < |frames| && frames[k].index == m - 1;
        var rest := frames[..k] + frames[k + 1..];
        RemoveOne(log, frames, k, m, rest);
        DistinctFramesAreFew(log, rest, m - 1);
      } else {
        DistinctFramesAreFew(log, frames, m - 1);
      }
    }
  }

  lemma RemoveOneBytes(frames: seq<Frame>, k: nat)
    requires k < |frames|
    ensures RawBytes(frames) == RawBytes(frames[..k] + frames[k + 1..]) + |frames[k].event.raw|
  {
    assert frames == (frames[..k] + [frames[k]]) + frames[k + 1..];
    RawBytesConcat(frames[..k] + [frames[k]], frames[k + 1..]);
    RawBytesConcat(frames[..k], [frames[k]]);
    RawBytesConcat(frames[..k], frames[k + 1..]);
    assert RawBytes([frames[k]]) == |frames[k].event.raw| by { assert [frames[k]][..0] == []; }
  }

  lemma RemoveOne(log: seq<Sse.SseEvent>, frames: seq<Frame>, k: nat, m: nat, rest: seq<Frame>)
    requires NoRepeat(frames) && InLog(log, frames) && Indices(frames) <= UpTo(m)
    requires k < |frames| && frames[k].index == m - 1 && rest == frames[..k] + frames[k + 1..]
    ensures NoRepeat(rest) && InLog(log, rest) && Indices(rest) <= UpTo(m - 1)
    ensures RawBytes(frames) == RawBytes(rest) + |log[m - 1].raw|
  {
    RemoveOneBytes(frames, k);
    forall j | 0 <= j < |rest|
      ensures rest[j] == frames[if j < k then j else j + 1] && rest[j].index in UpTo(m - 1)
    {
      assert frames[if j < k then j else j + 1].index in Indices(frames);
    }
  }

  /** The frames an emission relays as they came. */
  function Original(e: Emission): seq<Frame> {
    if e.Passed? || e.Cleared? then FramesOf(e) else []
  }

  function OriginalBytes(out: seq<Emission>): nat {
    if out == [] then 0 else OriginalBytes(out[..|out| - 1]) + RawBytes(Original(out[|out| - 1]))
  }

  /** What reaches the client: every frame sent, and a failure if there was one. */
  function FrameCount(out: seq<Emission>): nat {
    if out == [] then 0
    else
      var last := out[|out| - 1];
      FrameCount(out[..|out| - 1]) + if last.Failed? then 1 else |FramesOf(last)|
  }

  function Failures(out: seq<Emission>): nat {
    if out == [] then 0 else Failures(out[..|out| - 1]) + if out[|out| - 1].Failed? then 1 else 0
  }

  lemma {:induction false} CountSent(out: seq<Emission>)
    ensures OriginalBytes(out) <= RawBytes(Sent(out))
    ensures FrameCount(out) == |Sent(out)| + Failures(out)
  {
    if out == [] {
    } else {
      var front, last := out[..|out| - 1], out[|out| - 1];
      CountSent(front);
      RawBytesConcat(Sent(front), FramesOf(last));
    }
  }

  lemma {:induction false} NoFailures(out: seq<Emission>)
    requires forall i :: 0 <= i < |out| ==> !out[i].Failed?
    ensures Failures(out) == 0
  {
    if out == [] {
    } else {
      NoFailures(out[..|out| - 1]);
    }
  }

  lemma AtMostOneFailure(s: Stream)
    requires FailureLast(s)
    ensures Failures(s.out) == if s.ended then 1 else 0
  {
    if s.ended { NoFailures(s.out[..|s.out| - 1]); } else { NoFailures(s.out); }
  }

  /**
   Every decoded frame ends up emitted once, or lost for a stated cause. A run under nonzero limits emits
   at most max_events + 1 frames and relays at most max_bytes of original bytes, and a proxy-made
   failure is emitted at most once and last.
   */
  lemma OutputIsBounded(env: Env, upstream: seq<Result<Bytes, Reason>>)
    requires ValidEnv(env)
    ensures var r := InspectUpstream(env, upstream);
            && Conserved(r, {}) && r.holds == map[] && FailureLast(r)
            && (env.settings.maxEvents != 0 ==> FrameCount(r.out) <= env.settings.maxEvents + 1)
            && (env.settings.maxBytes != 0 ==> OriginalBytes(r.out) <= env.settings.maxBytes)
  {
    StartAccounted(env);
    ProxyAccounted(env, Sse.FRESH, Start(env), upstream);
    RelayedWasJudged(env, upstream);
    var r := InspectUpstream(env, upstream);
    var m: nat :| AdmittedCount(env, r, m);
    DistinctFramesAreFew(r.log, Sent(r.out), m);
    CountSent(r.out);
    AtMostOneFailure(r);
  }
}

/** What a denial does to the frames of the denied event: all of them are withheld, on its account. */
module StreamDenials {
  import opened Prelude
  import opened Inspection
  import opened RunMachine
  import opened Judging
  import opened Streaming
  import opened StreamSafety
  import opened StreamConservation
  import opened StreamLosses
  import opened StreamCompleteness
  import Sse

  /** These frames are together the event of the record, and each was lost because of it. */
  predicate WithheldAs(env: Env, log: seq<Sse.SseEvent>, lost: map<nat, Cause>, record: AuditRecord, n: nat,
                       frames: seq<Frame>) {
    && InLog(log, frames) && IsJudged(env, frames, record.event)
    && (forall k :: 0 <= k < |frames| ==> frames[k].index in lost && lost[frames[k].index] == Denied(n))
  }

  /** The verdict is the judgement of the event, given the records before it and the ledger they left. */
  predicate Ruled(env: Env, audit: seq<AuditRecord>, n: nat)
    requires n < |audit|
  {
    var before := Trail(audit[..n], LedgerAfter(env.oracles, env.session, audit[..n]));
    audit[n].verdict == Judged(env.oracles, before, audit[n].event)
  }

  ghost predicate CarriedOut(env: Env, log: seq<Sse.SseEvent>, lost: map<nat, Cause>, audit: seq<AuditRecord>, n: nat)
    requires n < |audit|
  {
    && Ruled(env, audit, n)
    && (audit[n].verdict.Deny? ==> exists frames :: WithheldAs(env, log, lost, audit[n], n, frames))
  }

  /** The first m records are carried out. */
  ghost predicate AllCarriedOut(env: Env, s: Stream, m: nat) {
    && m <= |s.trail.audit|
    && (forall n :: 0 <= n < m ==> CarriedOut(env, s.log, s.lost, s.trail.audit, n))
  }

  /** Nothing logged, lost or recorded is forgotten. */
  predicate Grew(s: Stream, r: Stream) {
    && s.log <= r.log && s.trail.audit <= r.trail.audit
    && (forall i :: i in s.lost ==> i in r.lost && r.lost[i] == s.lost[i])
  }

  lemma GrewKeeps(env: Env, s: Stream, r: Stream, m: nat)
    requires AllCarriedOut(env, s, m) && Grew(s, r)
    ensures AllCarriedOut(env, r, m)
  {
    forall n | 0 <= n < m ensures CarriedOut(env, r.log, r.lost, r.trail.audit, n) {
      var record := s.trail.audit[n];
      assert r.trail.audit[..n] == s.trail.audit[..n];
      assert CarriedOut(env, s.log, s.lost, s.trail.audit, n);
      if record.verdict.Deny? {
        var frames :| WithheldAs(env, s.log, s.lost, record, n, frames);
        assert WithheldAs(env, r.log, r.lost, record, n, frames);
      }
    }
  }

  lemma LoseGrows(s: Stream, indices: set<nat>, cause: Cause)
    requires indices !! s.lost.Keys
    ensures Grew(s, Lose(s, indices, cause))
  {
  }

  lemma EndGrows(s: Stream, message: Reason, inHand: seq<Frame>, hand: set<nat>)
    requires Conserved(s, hand + Indices(inHand))
    ensures Grew(s, End(s, message, inHand))
  {
    LoseGrows(s, HeldIndices(s.holds) + Indices(inHand), RunEnded);
  }

  lemma EndKeeps(env: Env, s: Stream, message: Reason, inHand: seq<Frame>, hand: set<nat>)
    requires Conserved(s, hand + Indices(inHand)) && AllCarriedOut(env, s, |s.trail.audit|)
    ensures AllCarriedOut(env, End(s, message, inHand), |End(s, message, inHand).trail.audit|)
  {
    EndGrows(s, message, inHand, hand);
    GrewKeeps(env, s, End(s, message, inHand), |s.trail.audit|);
  }

  lemma NewRecordCarriedOut(env: Env, s: Stream, r: Stream)
    requires s.trail.audit != [] && AllCarriedOut(env, s, |s.trail.audit| - 1) && Grew(s, r) && r.trail == s.trail
    requires var n := |s.trail.audit| - 1; CarriedOut(env, r.log, r.lost, r.trail.audit, n)
    ensures AllCarriedOut(env, r, |r.trail.audit|)
  {
    GrewKeeps(env, s, r, |s.trail.audit| - 1);
  }

  /** The ledger is what the records left of the session's. */
  predicate Remembers(env: Env, t: Trail) {
    t.ledger == LedgerAfter(env.oracles, env.session, t.audit)
  }

  lemma RecordRemembers(env: Env, t: Trail, event: AgentEvent)
    requires Remembers(env, t)
    ensures var t1, n := Recorded(env.oracles, t, event), |t.audit|;
      && |t1.audit| == n + 1 && t1.audit[n] == AuditRecord(event, Judged(env.oracles, t, event))
      && Remembers(env, t1) && Ruled(env, t1.audit, n)
  {
    var t1 := Recorded(env.oracles, t, event);
    assert t1.audit[..|t.audit|] == t.audit;
    assert t == Trail(t.audit, LedgerAfter(env.oracles, env.session, t.audit));
  }

  lemma RecordGrows(env: Env, s: Stream, event: AgentEvent)
    requires AllCarriedOut(env, s, |s.trail.audit|) && Remembers(env, s.trail)
    ensures var s1, n := Record(env, s, event), |s.trail.audit|;
      && |s1.trail.audit| == n + 1 && s1.trail.audit[n] == AuditRecord(event, Judged(env.oracles, s.trail, event))
      && Remembers(env, s1.trail) && Ruled(env, s1.trail.audit, n) && AllCarriedOut(env, s1, n)
  {
    RecordRemembers(env, s.trail, event);
    GrewKeeps(env, s, Record(env, s, event), |s.trail.audit|);
  }

  /** The n-th verdict on a call is carried out on its frames. */
  lemma SettleCallCarriesOut(env: Env, s: Stream, n: nat, v: Verdict, id: Id, inHand: seq<Frame>, hand: set<nat>)
    requires |s.trail.audit| == n + 1 && s.trail.audit[n].verdict == v && Ruled(env, s.trail.audit, n)
    requires AllCarriedOut(env, s, n) && Conserved(s, hand + Indices(inHand))
    requires var frames := HeldUnder(s.holds, id) + inHand;
      InLog(s.log, frames) && IsJudged(env, frames, s.trail.audit[n].event) && Indices(frames) !! s.lost.Keys
    ensures var r := SettleCall(s, n, v, id, inHand); AllCarriedOut(env, r, |r.trail.audit|)
  {
    var r, frames := SettleCall(s, n, v, id, inHand), HeldUnder(s.holds, id) + inHand;
    if v.Terminate? {
      EndGrows(s, v.reason, inHand, hand);
    } else if v.Deny? {
      LoseGrows(s, Indices(frames), Denied(n));
      LostAsDenied(env, s, n, frames);
    }
    NewRecordCarriedOut(env, s, r);
  }

  lemma LostAsDenied(env: Env, s: Stream, n: nat, frames: seq<Frame>)
    requires n < |s.trail.audit| && InLog(s.log, frames) && IsJudged(env, frames, s.trail.audit[n].event)
    ensures WithheldAs(env, s.log, Lose(s, Indices(frames), Denied(n)).lost, s.trail.audit[n], n, frames)
  {
    forall k | 0 <= k < |frames| ensures frames[k].index in Indices(frames) {
    }
  }

  lemma SettleEventCarriesOut(env: Env, s: Stream, n: nat, v: Verdict, frame: Frame)
    requires |s.trail.audit| == n + 1 && s.trail.audit[n].verdict == v && Ruled(env, s.trail.audit, n)
    requires AllCarriedOut(env, s, n) && Conserved(s, {frame.index})
    requires InLog(s.log, [frame]) && IsJudged(env, [frame], s.trail.audit[n].event)
    ensures var r := SettleEvent(env, s, n, v, frame); AllCarriedOut(env, r, |r.trail.audit|)
  {
    var r := SettleEvent(env, s, n, v, frame);
    JustThisFrame(frame);
    if v.Terminate? {
      EndGrows(s, v.reason, [frame], {});
    } else if v.Deny? {
      LoseGrows(s, {frame.index}, Denied(n));
      LostAsDenied(env, s, n, [frame]);
    }
    NewRecordCarriedOut(env, s, r);
  }

  // ---- Through the stream ----

  ghost predicate Done(env: Env, s: Stream) {
    AllCarriedOut(env, s, |s.trail.audit|) && Remembers(env, s.trail)
  }

  /** The frames held for a call and those in hand are the call, and none is lost yet. */
  lemma HeldAreTheCall(env: Env, s: Stream, open: map<Id, ToolCallBuffer>, id: Id, inHand: seq<Frame>, hand: set<nat>)
    requires id in open && HoldsAre(env, s.log, s.holds, open)
    requires inHand == [] || (|inHand| == 1 && IsEnd(env, inHand[0], id))
    requires InLog(s.log, inHand) && hand !! Indices(inHand) && Conserved(s, hand + Indices(inHand))
    ensures var frames := HeldUnder(s.holds, id) + inHand;
      InLog(s.log, frames) && IsJudged(env, frames, Assembled(id, open[id])) && Indices(frames) !! s.lost.Keys
  {
    HeldFramesAreTheCall(env, s.holds[id], inHand, id, open[id]);
    CallFramesBelong(env, s.log, s.holds[id], inHand, id, open[id]);
    HeldDisjoint(env, s.log, s.holds, open, id);
    IndicesConcat(s.holds[id], inHand);
  }

  lemma ResolveDone(env: Env, s: Stream, open: map<Id, ToolCallBuffer>, id: Id, inHand: seq<Frame>, hand: set<nat>)
    requires id in open && HoldsAre(env, s.log, s.holds, open) && Done(env, s)
    requires inHand == [] || (|inHand| == 1 && IsEnd(env, inHand[0], id))
    requires InLog(s.log, inHand) && hand !! Indices(inHand) && Conserved(s, hand + Indices(inHand))
    ensures Done(env, Resolve(env, s, id, Assembled(id, open[id]), inHand))
  {
    var event, n := Assembled(id, open[id]), |s.trail.audit|;
    var s1 := Record(env, s, event);
    RecordGrows(env, s, event);
    HeldAreTheCall(env, s, open, id, inHand, hand);
    SettleCallCarriesOut(env, s1, n, Judged(env.oracles, s.trail, event), id, inHand, hand);
  }

  lemma StandaloneDone(env: Env, s: Stream, event: AgentEvent, frame: Frame)
    requires Done(env, s) && IsWireFormOf(env, frame, event)
    requires Conserved(s, {frame.index}) && InLog(s.log, [frame])
    ensures Done(env, Standalone(env, s, event, frame))
  {
    RecordGrows(env, s, event);
    WireFormIsJudged(env, frame, event);
    SettleEventCarriesOut(env, Record(env, s, event), |s.trail.audit|, Judged(env.oracles, s.trail, event), frame);
  }

  lemma WireFormIsJudged(env: Env, frame: Frame, event: AgentEvent)
    requires IsWireFormOf(env, frame, event)
    ensures IsJudged(env, [frame], event)
  {
  }

  lemma OutcomeDone(env: Env, s: Stream, open: map<Id, ToolCallBuffer>, outcome: StructuralOutcome, frame: Frame)
    requires HoldsAre(env, s.log, s.holds, open) && Done(env, s)
    requires IsNewest(s.log, frame) && Conserved(s, {frame.index})
    requires outcome.ResolvedCall? ==>
               outcome.id in open && outcome.event == Assembled(outcome.id, open[outcome.id]) &&
                 IsEnd(env, frame, outcome.id)
    requires outcome.Ready? ==> IsWireFormOf(env, frame, outcome.event)
    ensures Done(env, OnOutcome(env, s, outcome, frame))
  {
    JustThisFrame(frame);
    match outcome {
      case Buffering(id) => GrewKeeps(env, s, OnOutcome(env, s, outcome, frame), |s.trail.audit|);
      case Reject(reason) => EndKeeps(env, s, reason, [frame], {});
      case Ready(event) => StandaloneDone(env, s, event, frame);
      case ResolvedCall(id, event) => ResolveDone(env, s, open, id, [frame], {});
    }
  }

  lemma OnFragmentDone(env: Env, s: Stream, f: Fragment, frame: Frame)
    requires HoldsAre(env, s.log, s.holds, s.run.open) && Done(env, s)
    requires IsNewest(s.log, frame) && Conserved(s, {frame.index}) && env.decode(frame.event.data) == Inspect(f)
    ensures Done(env, OnFragment(env, s, f, frame))
  {
    var step := InspectFragment(env.settings.budgets, s.run, f);
    var s1 := s.(run := step.state);
    OutcomeShape(env.settings.budgets, s.run, f);
    if step.outcome.Ready? { ReadyIsWireForm(env.settings.budgets, s.run, f); }
    assert Conserved(s1, {frame.index}) && Done(env, s1);
    OutcomeDone(env, s1, s.run.open, step.outcome, frame);
  }

  lemma {:induction false} SweepCallsDone(env: Env, s: Stream, open: map<Id, ToolCallBuffer>,
                                          left: map<Id, ToolCallBuffer>, order: seq<Id>, hand: set<nat>)
    requires Enumerates(order, left.Keys) && (forall id :: id in left ==> id in open && left[id] == open[id])
    requires AllJustified(env, s.trail.audit, s.out) && Done(env, s)
    requires if s.ended then s.holds == map[] else HoldsAre(env, s.log, s.holds, left)
    requires Conserved(s, hand)
    ensures Done(env, SweepCalls(env, s, open, order))
    decreases |order|
  {
    if order == [] || s.ended {
    } else {
      var id := order[0];
      ResolveSafe(env, s, left, id, []);
      assert hand + Indices([]) == hand;
      ResolveConserves(env, s, left, id, [], hand);
      ResolveDone(env, s, left, id, [], hand);
      EnumeratesTail(order, left.Keys);
      SweepCallsDone(env, Resolve(env, s, id, Assembled(id, open[id]), []), open, left - {id}, order[1..], hand);
    }
  }

  lemma SweepDone(env: Env, s: Stream, hand: set<nat>)
    requires ValidEnv(env) && Inv(env, s) && !s.ended && Done(env, s) && Conserved(s, hand)
    ensures Done(env, Sweep(env, s))
  {
    var order := env.order(|s.log|, s.run.open.Keys);
    assert Enumerates(order, s.run.open.Keys);
    SweepCallsDone(env, s.(run := s.run.(open := map[])), s.run.open, s.run.open, order, hand);
  }

  lemma OnInspectedDone(env: Env, s: Stream, f: Fragment, frame: Frame)
    requires ValidEnv(env) && Inv(env, s) && !s.ended && Done(env, s)
    requires IsNewest(s.log, frame) && Conserved(s, {frame.index}) && env.decode(frame.event.data) == Inspect(f)
    ensures Done(env, OnInspected(env, s, f, frame))
  {
    if IsRunEnd(f) {
      OnRunEndDone(env, s, f, frame);
    } else {
      OnFragmentDone(env, s, f, frame);
      assert OnInspected(env, s, f, frame) == OnFragment(env, s, f, frame);
    }
  }

  lemma OnRunEndDone(env: Env, s: Stream, f: Fragment, frame: Frame)
    requires ValidEnv(env) && Inv(env, s) && !s.ended && Done(env, s) && IsRunEnd(f)
    requires IsNewest(s.log, frame) && Conserved(s, {frame.index}) && env.decode(frame.event.data) == Inspect(f)
    ensures Done(env, OnInspected(env, s, f, frame))
  {
    SweepSafe(env, s);
    SweepConserves(env, s, {frame.index});
    SweepDone(env, s, {frame.index});
    var s1 := Sweep(env, s);
    if s1.ended {
      LoseGrows(s1, {frame.index}, RunEnded);
      GrewKeeps(env, s1, Lose(s1, {frame.index}, RunEnded), |s1.trail.audit|);
      assert OnInspected(env, s, f, frame) == Lose(s1, {frame.index}, RunEnded);
    } else {
      OnFragmentDone(env, s1, f, frame);
      assert OnInspected(env, s, f, frame) == OnFragment(env, s1, f, frame);
    }
  }

  lemma OnDecodedDone(env: Env, s: Stream, decoded: Decoded, frame: Frame)
    requires ValidEnv(env) && Inv(env, s) && !s.ended && Done(env, s)
    requires IsNewest(s.log, frame) && Conserved(s, {frame.index}) && decoded == env.decode(frame.event.data)
    ensures Done(env, OnDecoded(env, s, decoded, frame))
  {
    JustThisFrame(frame);
    match decoded {
      case PassThrough => GrewKeeps(env, s, OnDecoded(env, s, decoded, frame), |s.trail.audit|);
      case MalformedDrop =>
        LoseGrows(s, {frame.index}, Malformed);
        GrewKeeps(env, s, Lose(s, {frame.index}, Malformed), |s.trail.audit|);
      case MalformedTerminate => EndKeeps(env, s, "malformed protocol event", [frame], {});
      case Inspect(f) => OnInspectedDone(env, s, f, frame);
    }
  }

  lemma OnEventDone(env: Env, s: Stream, event: Sse.SseEvent)
    requires ValidEnv(env) && Accounted(env, s) && !s.ended && Done(env, s)
    ensures Done(env, OnEvent(env, s, event))
  {
    var frame := Frame(|s.log|, event);
    var s1 := s.(log := s.log + [event]);
    LogGrows(env, s, event);
    LogGrowsConserved(s, event);
    JustThisFrame(frame);
    GrewKeeps(env, s, s1, |s.trail.audit|);
    var over := Exceeded(env.settings, |s1.log|, Total(s1.log));
    if over.Some? {
      EndKeeps(env, s1, over.value, [frame], {});
    } else {
      OnDecodedDone(env, s1, env.decode(event.data), frame);
    }
  }

  lemma {:induction false} OnEventsDone(env: Env, s: Stream, events: seq<Sse.SseEvent>)
    requires ValidEnv(env) && Accounted(env, s) && Done(env, s)
    ensures Done(env, OnEvents(env, s, events))
    decreases |events|
  {
    if events == [] || s.ended {
    } else {
      OnEventAccounted(env, s, events[0]);
      OnEventDone(env, s, events[0]);
      OnEventsDone(env, OnEvent(env, s, events[0]), events[1..]);
    }
  }

  lemma {:induction false} ProxyDone(env: Env, decoder: Sse.State, s: Stream, upstream: seq<Result<Bytes, Reason>>)
    requires ValidEnv(env) && Sse.LF !in decoder.buffer && Accounted(env, s) && Done(env, s)
    ensures Done(env, Proxy(env, decoder, s, upstream))
    decreases |upstream|
  {
    assert {} + Indices([]) == {};
    if s.ended {
    } else if upstream == [] {
      SweepDone(env, s, {});
    } else if upstream[0].Err? {
      EndKeeps(env, s, upstream[0].error, [], {});
    } else {
      var fed := Sse.Feed(decoder, upstream[0].value);
      EndKeeps(env, s, "response frame exceeded the size limit", [], {});
      EndAccounted(env, s, "response frame exceeded the size limit");
      OnEventsDone(env, s, Sse.Events(fed.blocks));
      OnEventsAccounted(env, s, Sse.Events(fed.blocks));
      ProxyDone(env, fed.state, OnChunk(env, fed, s), upstream[1..]);
    }
  }

  /**
   On every run each audit record holds the judgement of its event, given the records before it and the ledger they
   left of the session's; and for each denial the frames that together are the denied event were lost because of it,
   so none left.
   */
  lemma DenialsAreCarriedOut(env: Env, upstream: seq<Result<Bytes, Reason>>)
    requires ValidEnv(env)
    ensures var r := InspectUpstream(env, upstream);
      forall n: nat :: n < |r.trail.audit| ==> CarriedOut(env, r.log, r.lost, r.trail.audit, n)
    ensures var r := InspectUpstream(env, upstream); Remembers(env, r.trail) && r.lost.Keys !! Indices(Sent(r.out))
  {
    StartAccounted(env);
    ProxyDone(env, Sse.FRESH, Start(env), upstream);
    OutputIsBounded(env, upstream);
  }

  /** What the oracles alone decide about an event, when nothing is ever recalled. */
  ghost predicate PolicyCarriedOut(env: Env, r: Stream, n: nat)
    requires n < |r.trail.audit|
  {
    var verdict := Fresh(env.oracles, n, r.trail.audit[n].event);
    && r.trail.audit[n].verdict == verdict
    && if Passes(verdict) then exists i: nat :: OnlyOn(r.out, i, n) && Justified(env, r.trail.audit, r.out[i])
       else forall i: nat :: i < |r.out| ==> !RestsOn(r.out, i, n)
  }

  /**
   With memory off, on every run: each record is the verdict of the URL screen or else the policy, and the frames of the
   event leave, in exactly one emission, if and only if that verdict lets them.
   */
  lemma WithoutMemoryPolicyRules(env: Env, upstream: seq<Result<Bytes, Reason>>)
    requires ValidEnv(env) && MemoryOff(env.oracles)
    ensures var r := InspectUpstream(env, upstream);
      forall n: nat :: n < |r.trail.audit| ==> PolicyCarriedOut(env, r, n)
  {
    var r := InspectUpstream(env, upstream);
    DenialsAreCarriedOut(env, upstream);
    OutputMirrorsAudit(env, upstream);
    RelayedWasJudged(env, upstream);
    forall n: nat | n < |r.trail.audit| ensures PolicyCarriedOut(env, r, n) {
      assert CarriedOut(env, r.log, r.lost, r.trail.audit, n);
      VerdictDecides(env, r, n);
    }
  }

  lemma VerdictDecides(env: Env, r: Stream, n: nat)
    requires n < |r.trail.audit| && r.trail.audit[n].verdict == Fresh(env.oracles, n, r.trail.audit[n].event)
    requires EmittedRecords(r.out) == PassingRecords(r.trail.audit) && AllJustified(env, r.trail.audit, r.out)
    ensures PolicyCarriedOut(env, r, n)
  {
    if Passes(r.trail.audit[n].verdict) {
      var i := PassingEmitsOnce(r.trail.audit, r.out, n);
      assert OnlyOn(r.out, i, n) && Justified(env, r.trail.audit, r.out[i]);
    } else {
      forall i: nat | i < |r.out| ensures !RestsOn(r.out, i, n) {
        NotPassingEmitsNothing(r.trail.audit, r.out, n, i);
      }
    }
  }
}

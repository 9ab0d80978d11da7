/** Every verdict that lets an event pass is carried out, once and in order: emissions mirror the audit trail. */
module StreamCompleteness {
  import opened Prelude
  import opened Inspection
  import opened RunMachine
  import opened Judging
  import opened Streaming
  import Sse

  /** The positions of the records that let their event pass. */
  function PassingRecords(audit: seq<AuditRecord>): seq<nat> {
    if audit == [] then []
    else
      var n := |audit| - 1;
      PassingRecords(audit[..n]) + (if Passes(audit[n].verdict) then [n] else [])
  }

  /** The records the emissions rest on, in order of emission. */
  function EmittedRecords(out: seq<Emission>): seq<nat> {
    if out == [] then []
    else
      var last := out[|out| - 1];
      EmittedRecords(out[..|out| - 1]) + (if last.Cleared? || last.Rewritten? then [last.record] else [])
  }

  predicate Mirrors(s: Stream) {
    EmittedRecords(s.out) == PassingRecords(s.trail.audit)
  }

  lemma EmittedSnoc(out: seq<Emission>, e: Emission)
    ensures EmittedRecords(out + [e]) == EmittedRecords(out) + (if e.Cleared? || e.Rewritten? then [e.record] else [])
  {
    assert (out + [e])[..|out|] == out;
  }

  /** A verdict is carried out: the newest record emits exactly if it passes. */
  lemma SettleMirrors(env: Env, s: Stream, v: Verdict, id: Id, inHand: seq<Frame>, frame: Frame)
    requires s.trail.audit != [] && s.trail.audit[|s.trail.audit| - 1].verdict == v
    requires EmittedRecords(s.out) == PassingRecords(s.trail.audit[..|s.trail.audit| - 1])
    ensures Mirrors(SettleCall(s, |s.trail.audit| - 1, v, id, inHand))
    ensures Mirrors(SettleEvent(env, s, |s.trail.audit| - 1, v, frame))
  {
    var n := |s.trail.audit| - 1;
    assert EmittedRecords(s.out) + [] == EmittedRecords(s.out);
    if v.Terminate? {
      EmittedSnoc(s.out, Failed(v.reason));
    } else if !v.Deny? {
      EmittedSnoc(s.out, Cleared(n, HeldUnder(s.holds, id) + inHand));
      EmittedSnoc(s.out, Cleared(n, [frame]));
      if v.Transform? && env.render(v.replacement).Some? {
        EmittedSnoc(s.out, Rewritten(n, frame, env.render(v.replacement).value));
      }
    }
  }

  lemma JudgeMirrors(env: Env, s: Stream, event: AgentEvent, id: Id, inHand: seq<Frame>, frame: Frame)
    requires Mirrors(s)
    ensures Mirrors(Resolve(env, s, id, event, inHand)) && Mirrors(Standalone(env, s, event, frame))
  {
    var s1, v := Record(env, s, event), Judged(env.oracles, s.trail, event);
    assert s1.trail.audit == s.trail.audit + [AuditRecord(event, v)];
    assert s1.trail.audit[..|s.trail.audit|] == s.trail.audit;
    SettleMirrors(env, s1, v, id, inHand, frame);
  }

  lemma OnFragmentMirrors(env: Env, s: Stream, f: Fragment, frame: Frame)
    requires Mirrors(s)
    ensures Mirrors(OnFragment(env, s, f, frame))
  {
    var step := InspectFragment(env.settings.budgets, s.run, f);
    OutcomeMirrors(env, s.(run := step.state), step.outcome, frame);
  }

  lemma OutcomeMirrors(env: Env, s: Stream, outcome: StructuralOutcome, frame: Frame)
    requires Mirrors(s)
    ensures Mirrors(OnOutcome(env, s, outcome, frame))
  {
    match outcome {
      case Buffering(id) =>
      case Reject(reason) => EmittedSnoc(s.out, Failed(reason));
      case Ready(event) => JudgeMirrors(env, s, event, [], [], frame);
      case ResolvedCall(id, event) => JudgeMirrors(env, s, event, id, [frame], frame);
    }
  }

  lemma {:induction false} SweepCallsMirror(env: Env, s: Stream, open: map<Id, ToolCallBuffer>, order: seq<Id>)
    requires Mirrors(s) && forall id :: id in order ==> id in open
    ensures Mirrors(SweepCalls(env, s, open, order))
    decreases |order|
  {
    if order == [] || s.ended {
    } else {
      var event := Assembled(order[0], open[order[0]]);
      JudgeMirrors(env, s, event, order[0], [], Frame(0, Sse.SseEvent([], None, None, [])));
      SweepCallsMirror(env, Resolve(env, s, order[0], event, []), open, order[1..]);
    }
  }

  lemma SweepMirrors(env: Env, s: Stream)
    requires ValidEnv(env) && Mirrors(s)
    ensures Mirrors(Sweep(env, s))
  {
    var order := env.order(|s.log|, s.run.open.Keys);
    assert Enumerates(order, s.run.open.Keys);
    SweepCallsMirror(env, s.(run := s.run.(open := map[])), s.run.open, order);
  }

  lemma OnInspectedMirrors(env: Env, s: Stream, f: Fragment, frame: Frame)
    requires ValidEnv(env) && Mirrors(s)
    ensures Mirrors(OnInspected(env, s, f, frame))
  {
    SweepMirrors(env, s);
    OnFragmentMirrors(env, Sweep(env, s), f, frame);
    OnFragmentMirrors(env, s, f, frame);
  }

  lemma OnEventMirrors(env: Env, s: Stream, event: Sse.SseEvent)
    requires ValidEnv(env) && Mirrors(s)
    ensures Mirrors(OnEvent(env, s, event))
  {
    var frame := Frame(|s.log|, event);
    var s1 := s.(log := s.log + [event]);
    var over := Exceeded(env.settings, |s1.log|, Total(s1.log));
    if over.Some? {
      EmittedSnoc(s.out, Failed(over.value));
    } else {
      match env.decode(event.data) {
        case PassThrough => EmittedSnoc(s.out, Passed(frame));
        case MalformedDrop =>
        case MalformedTerminate => EmittedSnoc(s.out, Failed("malformed protocol event"));
        case Inspect(f) => OnInspectedMirrors(env, s1, f, frame);
      }
    }
  }

  lemma {:induction false} OnEventsMirror(env: Env, s: Stream, events: seq<Sse.SseEvent>)
    requires ValidEnv(env) && Mirrors(s)
    ensures Mirrors(OnEvents(env, s, events))
    decreases |events|
  {
    if events == [] || s.ended {
    } else {
      OnEventMirrors(env, s, events[0]);
      OnEventsMirror(env, OnEvent(env, s, events[0]), events[1..]);
    }
  }

  lemma {:induction false} ProxyMirrors(env: Env, decoder: Sse.State, s: Stream, upstream: seq<Result<Bytes, Reason>>)
    requires ValidEnv(env) && Mirrors(s) && Sse.LF !in decoder.buffer
    ensures Mirrors(Proxy(env, decoder, s, upstream))
    decreases |upstream|
  {
    if s.ended {
    } else if upstream == [] {
      SweepMirrors(env, s);
    } else if upstream[0].Err? {
      EmittedSnoc(s.out, Failed(upstream[0].error));
    } else {
      var fed := Sse.Feed(decoder, upstream[0].value);
      EmittedSnoc(s.out, Failed("response frame exceeded the size limit"));
      OnEventsMirror(env, s, Sse.Events(fed.blocks));
      ProxyMirrors(env, fed.state, OnChunk(env, fed, s), upstream[1..]);
    }
  }

  /** On every run the emissions rest on exactly the records that let their event pass, once each and in order. */
  lemma OutputMirrorsAudit(env: Env, upstream: seq<Result<Bytes, Reason>>)
    requires ValidEnv(env)
    ensures var r := InspectUpstream(env, upstream); EmittedRecords(r.out) == PassingRecords(r.trail.audit)
  {
    ProxyMirrors(env, Sse.FRESH, Start(env), upstream);
  }

  // ---- One record, one emission ----

  predicate RestsOn(out: seq<Emission>, i: nat, n: nat) {
    i < |out| && (out[i].Cleared? || out[i].Rewritten?) && out[i].record == n
  }

  lemma {:induction false} RestsIsEmitted(out: seq<Emission>, i: nat, n: nat)
    requires RestsOn(out, i, n)
    ensures n in EmittedRecords(out)
  {
    if i == |out| - 1 {
    } else {
      RestsIsEmitted(out[..|out| - 1], i, n);
    }
  }

  lemma {:induction false} EmittedRests(out: seq<Emission>, n: nat) returns (i: nat)
    requires n in EmittedRecords(out)
    ensures RestsOn(out, i, n)
  {
    var last := |out| - 1;
    if RestsOn(out, last, n) { i := last; } else { i := EmittedRests(out[..last], n); }
  }

  predicate Distinct(records: seq<nat>) {
    forall i, j :: 0 <= i < j < |records| ==> records[i] != records[j]
  }

  lemma DistinctSnoc(records: seq<nat>, n: nat)
    ensures Distinct(records + [n]) <==> Distinct(records) && n !in records
  {
    var all := records + [n];
    assert forall i :: 0 <= i < |records| ==> all[i] == records[i];
    if Distinct(all) {
      assert forall i :: 0 <= i < |records| ==> all[i] != all[|records|];
    }
  }

  lemma {:induction false} RestsOnce(out: seq<Emission>, i: nat, j: nat, n: nat)
    requires Distinct(EmittedRecords(out)) && RestsOn(out, i, n) && RestsOn(out, j, n)
    ensures i == j
  {
    var last := |out| - 1;
    var front := out[..last];
    if out[last].Cleared? || out[last].Rewritten? {
      DistinctSnoc(EmittedRecords(front), out[last].record);
    } else {
      assert EmittedRecords(out) == EmittedRecords(front);
    }
    if i < last && j < last {
      RestsOnce(front, i, j, n);
    } else if i < last {
      RestsIsEmitted(front, i, n);
      assert false;
    } else if j < last {
      RestsIsEmitted(front, j, n);
      assert false;
    }
  }

  lemma {:induction false} PassingRecordsAre(audit: seq<AuditRecord>)
    ensures Distinct(PassingRecords(audit))
    ensures forall n: nat :: n in PassingRecords(audit) <==> n < |audit| && Passes(audit[n].verdict)
  {
    if audit == [] {
    } else {
      var last := |audit| - 1;
      PassingRecordsAre(audit[..last]);
      if Passes(audit[last].verdict) {
        DistinctSnoc(PassingRecords(audit[..last]), last);
      } else {
        assert PassingRecords(audit) == PassingRecords(audit[..last]);
      }
    }
  }

  /** This emission, and no other, rests on the record. */
  predicate OnlyOn(out: seq<Emission>, i: nat, n: nat) {
    RestsOn(out, i, n) && forall j: nat :: j < |out| && RestsOn(out, j, n) ==> j == i
  }

  lemma PassingEmitsOnce(audit: seq<AuditRecord>, out: seq<Emission>, n: nat) returns (i: nat)
    requires EmittedRecords(out) == PassingRecords(audit) && n < |audit| && Passes(audit[n].verdict)
    ensures OnlyOn(out, i, n)
  {
    PassingRecordsAre(audit);
    i := EmittedRests(out, n);
    forall j: nat | j < |out| && RestsOn(out, j, n) ensures j == i {
      RestsOnce(out, i, j, n);
    }
  }

  lemma NotPassingEmitsNothing(audit: seq<AuditRecord>, out: seq<Emission>, n: nat, i: nat)
    requires EmittedRecords(out) == PassingRecords(audit) && n < |audit| && !Passes(audit[n].verdict) && i < |out|
    ensures !RestsOn(out, i, n)
  {
    PassingRecordsAre(audit);
    if RestsOn(out, i, n) {
      RestsIsEmitted(out, i, n);
      assert false;
    }
  }
}

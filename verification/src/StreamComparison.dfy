/**
 Two runs over the same upstream: a run whose verdicts are stricter in some places emits what the other
 run emits, less the emissions its own audit trail denies. Non-interference between calls and the effect
 of session memory are instances.
 */
module StreamComparison {
  import opened Prelude
  import opened Collections
  import opened Inspection
  import opened RunMachine
  import opened Judging
  import opened Streaming
  import opened StreamSafety
  import Sse

  /** The record an emission rests on, if it rests on one. */
  function RecordOf(e: Emission): Option<nat> {
    if e.Cleared? || e.Rewritten? then Some(e.record) else None
  }

  /** Not denied by this audit trail. */
  predicate Survives(audit: seq<AuditRecord>, e: Emission) {
    var n := RecordOf(e);
    n.Some? && n.value < |audit| ==> !audit[n.value].verdict.Deny?
  }

  /** The emissions an audit trail does not deny, in order. */
  function Kept(audit: seq<AuditRecord>, out: seq<Emission>): seq<Emission> {
    if out == [] then []
    else
      var last := out[|out| - 1];
      Kept(audit, out[..|out| - 1]) + (if Survives(audit, last) then [last] else [])
  }

  /** Each record is used at most once, in order, and exists. */
  predicate RecordsInOrder(out: seq<Emission>, n: nat) {
    && (forall i :: 0 <= i < |out| && RecordOf(out[i]).Some? ==> RecordOf(out[i]).value < n)
    && (forall i, j :: 0 <= i < j < |out| && RecordOf(out[i]).Some? && RecordOf(out[j]).Some? ==>
          RecordOf(out[i]).value < RecordOf(out[j]).value)
  }

  lemma KeptSnoc(audit: seq<AuditRecord>, out: seq<Emission>, e: Emission)
    ensures Kept(audit, out + [e]) == Kept(audit, out) + (if Survives(audit, e) then [e] else [])
  {
    assert (out + [e])[..|out|] == out;
  }

  lemma {:induction false} KeptLater(audit: seq<AuditRecord>, record: AuditRecord, out: seq<Emission>)
    requires RecordsInOrder(out, |audit|)
    ensures Kept(audit + [record], out) == Kept(audit, out)
  {
    if out == [] {
    } else {
      KeptLater(audit, record, out[..|out| - 1]);
    }
  }

  // ---- The audit trail only grows ----

  lemma OnOutcomeGrows(env: Env, s: Stream, outcome: StructuralOutcome, frame: Frame)
    ensures s.trail.audit <= OnOutcome(env, s, outcome, frame).trail.audit
  {
  }

  lemma OnFragmentGrows(env: Env, s: Stream, f: Fragment, frame: Frame)
    ensures s.trail.audit <= OnFragment(env, s, f, frame).trail.audit
  {
    var step := InspectFragment(env.settings.budgets, s.run, f);
    OnOutcomeGrows(env, s.(run := step.state), step.outcome, frame);
  }

  lemma {:induction false} SweepCallsGrow(env: Env, s: Stream, open: map<Id, ToolCallBuffer>, order: seq<Id>)
    requires forall id :: id in order ==> id in open
    ensures s.trail.audit <= SweepCalls(env, s, open, order).trail.audit
    decreases |order|
  {
    if order == [] || s.ended {
    } else {
      var r := Resolve(env, s, order[0], Assembled(order[0], open[order[0]]), []);
      SweepCallsGrow(env, r, open, order[1..]);
    }
  }

  lemma SweepGrows(env: Env, s: Stream)
    requires ValidEnv(env)
    ensures s.trail.audit <= Sweep(env, s).trail.audit
  {
    var order := env.order(|s.log|, s.run.open.Keys);
    assert Enumerates(order, s.run.open.Keys);
    SweepCallsGrow(env, s.(run := s.run.(open := map[])), s.run.open, order);
  }

  lemma OnInspectedGrows(env: Env, s: Stream, f: Fragment, frame: Frame)
    requires ValidEnv(env)
    ensures s.trail.audit <= OnInspected(env, s, f, frame).trail.audit
  {
    SweepGrows(env, s);
    OnFragmentGrows(env, if IsRunEnd(f) then Sweep(env, s) else s, f, frame);
  }

  lemma OnEventGrows(env: Env, s: Stream, event: Sse.SseEvent)
    requires ValidEnv(env)
    ensures s.trail.audit <= OnEvent(env, s, event).trail.audit
  {
    var d := env.decode(event.data);
    if d.Inspect? { OnInspectedGrows(env, s.(log := s.log + [event]), d.fragment, Frame(|s.log|, event)); }
  }

  lemma {:induction false} OnEventsGrow(env: Env, s: Stream, events: seq<Sse.SseEvent>)
    requires ValidEnv(env)
    ensures s.trail.audit <= OnEvents(env, s, events).trail.audit
    decreases |events|
  {
    if events == [] || s.ended {
    } else {
      OnEventGrows(env, s, events[0]);
      OnEventsGrow(env, OnEvent(env, s, events[0]), events[1..]);
    }
  }

  lemma {:induction false} ProxyGrows(env: Env, decoder: Sse.State, s: Stream, upstream: seq<Result<Bytes, Reason>>)
    requires ValidEnv(env) && Sse.LF !in decoder.buffer
    ensures s.trail.audit <= Proxy(env, decoder, s, upstream).trail.audit
    decreases |upstream|
  {
    if s.ended {
    } else if upstream == [] {
      SweepGrows(env, s);
    } else if upstream[0].Ok? {
      var fed := Sse.Feed(decoder, upstream[0].value);
      OnEventsGrow(env, s, Sse.Events(fed.blocks));
      ProxyGrows(env, fed.state, OnChunk(env, fed, s), upstream[1..]);
    }
  }

  /** How the second run's verdict may relate to the first's at one judgement. */
  datatype Rule = Same | MayDeny | MustDeny

  predicate AsStrict(first: Verdict, second: Verdict, rule: Rule) {
    match rule
    case Same => second == first
    case MayDeny => second == first || (second.Deny? && !first.Terminate?)
    case MustDeny => second.Deny? && !first.Terminate?
  }

  /**
   Wherever the first run goes, given its final audit trail, the second environment judges as the first, except that
   it denies more where the rule says so.
   */
  ghost predicate Stricter(env: Env, env': Env, rule: nat -> Rule, target: seq<AuditRecord>) {
    && env' == env.(oracles := env'.oracles)
    && (forall t: Trail, t': Trail, event: AgentEvent ::
          |t.audit| == |t'.audit| && IsNext(env.oracles, t, event, target) ==>
            AsStrict(Judged(env.oracles, t, event), Judged(env'.oracles, t', event), rule(|t.audit|)))
  }

  /** Judging this event next leads towards the trail. */
  predicate IsNext(o: Oracles, t: Trail, event: AgentEvent, target: seq<AuditRecord>) {
    |t.audit| < |target| && target[|t.audit|] == AuditRecord(event, Judged(o, t, event))
  }

  predicate SameTrail(audit: seq<AuditRecord>, audit': seq<AuditRecord>, rule: nat -> Rule) {
    && |audit| == |audit'|
    && (forall n :: 0 <= n < |audit| ==>
          && audit'[n].event == audit[n].event
          && AsStrict(audit[n].verdict, audit'[n].verdict, rule(n)))
  }

  /** The runs are in the same structural state; the second has emitted the surviving part of the first's output. */
  predicate InStep(s: Stream, s': Stream, rule: nat -> Rule) {
    && s'.run == s.run && s'.holds == s.holds && s'.log == s.log && s'.ended == s.ended
    && SameTrail(s.trail.audit, s'.trail.audit, rule)
    && RecordsInOrder(s.out, |s.trail.audit|)
    && s'.out == Kept(s'.trail.audit, s.out)
  }

  lemma EmitInStep(s: Stream, s': Stream, e: Emission, rule: nat -> Rule)
    requires InStep(s, s', rule) && RecordOf(e) == None
    ensures InStep(s.(out := s.out + [e]), s'.(out := s'.out + [e]), rule)
  {
    KeptSnoc(s'.trail.audit, s.out, e);
  }

  lemma EndInStep(s: Stream, s': Stream, message: Reason, inHand: seq<Frame>, rule: nat -> Rule)
    requires InStep(s, s', rule)
    ensures InStep(End(s, message, inHand), End(s', message, inHand), rule)
  {
    EmitInStep(s, s', Failed(message), rule);
    var t, t' := s.(out := s.out + [Failed(message)]), s'.(out := s'.out + [Failed(message)]);
    assert End(s, message, inHand).out == t.out && End(s', message, inHand).out == t'.out;
  }

  lemma RecordInStep(env: Env, env': Env, s: Stream, s': Stream, event: AgentEvent, rule: nat -> Rule,
                     target: seq<AuditRecord>)
    requires Stricter(env, env', rule, target) && InStep(s, s', rule)
    requires Record(env, s, event).trail.audit <= target
    ensures InStep(Record(env, s, event), Record(env', s', event), rule)
  {
    var record' := AuditRecord(event, Judged(env'.oracles, s'.trail, event));
    assert AsStrict(Judged(env.oracles, s.trail, event), record'.verdict, rule(|s.trail.audit|));
    KeptLater(s'.trail.audit, record', s.out);
  }

  /** The newest record clears an emission in the first run; in the second too, unless it denies. */
  lemma ClearInStep(s: Stream, s': Stream, e: Emission, rule: nat -> Rule)
    requires InStep(s, s', rule) && s.trail.audit != []
    requires RecordsInOrder(s.out, |s.trail.audit| - 1) && RecordOf(e) == Some(|s.trail.audit| - 1)
    ensures var deny := s'.trail.audit[|s.trail.audit| - 1].verdict.Deny?;
            InStep(s.(out := s.out + [e]), if deny then s' else s'.(out := s'.out + [e]), rule)
  {
    KeptSnoc(s'.trail.audit, s.out, e);
    assert Kept(s'.trail.audit, s.out) + [] == Kept(s'.trail.audit, s.out);
  }

  lemma ResolveInStep(env: Env, env': Env, s: Stream, s': Stream, id: Id, event: AgentEvent, inHand: seq<Frame>,
                      rule: nat -> Rule, target: seq<AuditRecord>)
    requires Stricter(env, env', rule, target) && InStep(s, s', rule)
    requires Resolve(env, s, id, event, inHand).trail.audit <= target
    ensures InStep(Resolve(env, s, id, event, inHand), Resolve(env', s', id, event, inHand), rule)
  {
    var v, v' := Judged(env.oracles, s.trail, event), Judged(env'.oracles, s'.trail, event);
    assert AsStrict(v, v', rule(|s.trail.audit|));
    RecordInStep(env, env', s, s', event, rule, target);
    SettleCallInStep(Record(env, s, event), Record(env', s', event), |s.trail.audit|, v, v', id, inHand, rule);
  }

  lemma SettleCallInStep(s: Stream, s': Stream, n: nat, v: Verdict, v': Verdict, id: Id, inHand: seq<Frame>,
                         rule: nat -> Rule)
    requires InStep(s, s', rule) && AsStrict(v, v', rule(n))
    requires |s.trail.audit| == n + 1 && s'.trail.audit[n].verdict == v' && RecordsInOrder(s.out, n)
    ensures InStep(SettleCall(s, n, v, id, inHand), SettleCall(s', n, v', id, inHand), rule)
  {
    if v.Terminate? {
      EndInStep(s, s', v.reason, inHand, rule);
    } else {
      var t, t' := s.(holds := s.holds - {id}), s'.(holds := s.holds - {id});
      var frames := HeldUnder(s.holds, id) + inHand;
      assert InStep(t, t', rule);
      if !v.Deny? {
        ClearInStep(t, t', Cleared(n, frames), rule);
      }
    }
  }

  lemma StandaloneInStep(env: Env, env': Env, s: Stream, s': Stream, event: AgentEvent, frame: Frame,
                         rule: nat -> Rule, target: seq<AuditRecord>)
    requires Stricter(env, env', rule, target) && InStep(s, s', rule)
    requires Standalone(env, s, event, frame).trail.audit <= target
    ensures InStep(Standalone(env, s, event, frame), Standalone(env', s', event, frame), rule)
  {
    var v, v' := Judged(env.oracles, s.trail, event), Judged(env'.oracles, s'.trail, event);
    assert AsStrict(v, v', rule(|s.trail.audit|));
    RecordInStep(env, env', s, s', event, rule, target);
    SettleEventInStep(env, env', Record(env, s, event), Record(env', s', event), |s.trail.audit|, v, v', frame, rule);
  }

  lemma SettleEventInStep(env: Env, env': Env, s: Stream, s': Stream, n: nat, v: Verdict, v': Verdict, frame: Frame,
                          rule: nat -> Rule)
    requires env'.render == env.render && InStep(s, s', rule) && AsStrict(v, v', rule(n))
    requires |s.trail.audit| == n + 1 && s'.trail.audit[n].verdict == v' && RecordsInOrder(s.out, n)
    ensures InStep(SettleEvent(env, s, n, v, frame), SettleEvent(env', s', n, v', frame), rule)
  {
    if v.Terminate? {
      EndInStep(s, s', v.reason, [frame], rule);
    } else if !v.Deny? {
      var e := if v.Transform? && env.render(v.replacement).Some?
               then Rewritten(n, frame, env.render(v.replacement).value) else Cleared(n, [frame]);
      assert SettleEvent(env, s, n, v, frame) == s.(out := s.out + [e]);
      ClearInStep(s, s', e, rule);
    }
  }

  lemma OnFragmentInStep(env: Env, env': Env, s: Stream, s': Stream, f: Fragment, frame: Frame, rule: nat -> Rule,
                         target: seq<AuditRecord>)
    requires Stricter(env, env', rule, target) && InStep(s, s', rule)
    requires OnFragment(env, s, f, frame).trail.audit <= target
    ensures InStep(OnFragment(env, s, f, frame), OnFragment(env', s', f, frame), rule)
  {
    var step := InspectFragment(env.settings.budgets, s.run, f);
    var s1, s1' := s.(run := step.state), s'.(run := step.state);
    assert InStep(s1, s1', rule);
    match step.outcome {
      case Buffering(id) =>
      case Reject(reason) => EndInStep(s1, s1', reason, [frame], rule);
      case Ready(event) => StandaloneInStep(env, env', s1, s1', event, frame, rule, target);
      case ResolvedCall(id, event) => ResolveInStep(env, env', s1, s1', id, event, [frame], rule, target);
    }
  }

  lemma {:induction false} SweepCallsInStep(env: Env, env': Env, s: Stream, s': Stream, open: map<Id, ToolCallBuffer>,
                                            order: seq<Id>, rule: nat -> Rule, target: seq<AuditRecord>)
    requires Stricter(env, env', rule, target) && InStep(s, s', rule) && forall id :: id in order ==> id in open
    requires SweepCalls(env, s, open, order).trail.audit <= target
    ensures InStep(SweepCalls(env, s, open, order), SweepCalls(env', s', open, order), rule)
    decreases |order|
  {
    if order == [] || s.ended {
    } else {
      var event := Assembled(order[0], open[order[0]]);
      SweepCallsGrow(env, Resolve(env, s, order[0], event, []), open, order[1..]);
      ResolveInStep(env, env', s, s', order[0], event, [], rule, target);
      SweepCallsInStep(env, env', Resolve(env, s, order[0], event, []), Resolve(env', s', order[0], event, []),
                       open, order[1..], rule, target);
    }
  }

  lemma SweepInStep(env: Env, env': Env, s: Stream, s': Stream, rule: nat -> Rule, target: seq<AuditRecord>)
    requires ValidEnv(env) && ValidEnv(env') && Stricter(env, env', rule, target) && InStep(s, s', rule)
    requires Sweep(env, s).trail.audit <= target
    ensures InStep(Sweep(env, s), Sweep(env', s'), rule)
  {
    var order := env.order(|s.log|, s.run.open.Keys);
    assert Enumerates(order, s.run.open.Keys);
    var run := s.run.(open := map[]);
    SweepCallsInStep(env, env', s.(run := run), s'.(run := run), s.run.open, order, rule, target);
  }

  lemma OnInspectedInStep(env: Env, env': Env, s: Stream, s': Stream, f: Fragment, frame: Frame, rule: nat -> Rule,
                          target: seq<AuditRecord>)
    requires ValidEnv(env) && ValidEnv(env') && Stricter(env, env', rule, target) && InStep(s, s', rule)
    requires OnInspected(env, s, f, frame).trail.audit <= target
    ensures InStep(OnInspected(env, s, f, frame), OnInspected(env', s', f, frame), rule)
  {
    if IsRunEnd(f) {
      OnFragmentGrows(env, Sweep(env, s), f, frame);
      SweepInStep(env, env', s, s', rule, target);
      var s1, s1' := Sweep(env, s), Sweep(env', s');
      if !s1.ended { OnFragmentInStep(env, env', s1, s1', f, frame, rule, target); }
    } else if !s.ended {
      OnFragmentInStep(env, env', s, s', f, frame, rule, target);
    }
  }

  lemma OnEventInStep(env: Env, env': Env, s: Stream, s': Stream, event: Sse.SseEvent, rule: nat -> Rule,
                      target: seq<AuditRecord>)
    requires ValidEnv(env) && ValidEnv(env') && Stricter(env, env', rule, target) && InStep(s, s', rule)
    requires OnEvent(env, s, event).trail.audit <= target
    ensures InStep(OnEvent(env, s, event), OnEvent(env', s', event), rule)
  {
    var frame := Frame(|s.log|, event);
    var s1, s1' := s.(log := s.log + [event]), s'.(log := s.log + [event]);
    assert InStep(s1, s1', rule);
    var over := Exceeded(env.settings, |s1.log|, Total(s1.log));
    if over.Some? {
      EndInStep(s1, s1', over.value, [frame], rule);
    } else {
      match env.decode(event.data) {
        case PassThrough => EmitInStep(s1, s1', Passed(frame), rule);
        case MalformedDrop =>
        case MalformedTerminate => EndInStep(s1, s1', "malformed protocol event", [frame], rule);
        case Inspect(f) => OnInspectedInStep(env, env', s1, s1', f, frame, rule, target);
      }
    }
  }

  lemma {:induction false} OnEventsInStep(env: Env, env': Env, s: Stream, s': Stream, events: seq<Sse.SseEvent>,
                                          rule: nat -> Rule, target: seq<AuditRecord>)
    requires ValidEnv(env) && ValidEnv(env') && Stricter(env, env', rule, target) && InStep(s, s', rule)
    requires OnEvents(env, s, events).trail.audit <= target
    ensures InStep(OnEvents(env, s, events), OnEvents(env', s', events), rule)
    decreases |events|
  {
    if events == [] || s.ended {
    } else {
      OnEventsGrow(env, OnEvent(env, s, events[0]), events[1..]);
      OnEventInStep(env, env', s, s', events[0], rule, target);
      OnEventsInStep(env, env', OnEvent(env, s, events[0]), OnEvent(env', s', events[0]), events[1..], rule, target);
    }
  }

  lemma {:induction false} ProxyInStep(env: Env, env': Env, decoder: Sse.State, s: Stream, s': Stream,
                                       upstream: seq<Result<Bytes, Reason>>, rule: nat -> Rule,
                                       target: seq<AuditRecord>)
    requires ValidEnv(env) && ValidEnv(env') && Stricter(env, env', rule, target) && InStep(s, s', rule)
    requires Sse.LF !in decoder.buffer
    requires Proxy(env, decoder, s, upstream).trail.audit <= target
    ensures InStep(Proxy(env, decoder, s, upstream), Proxy(env', decoder, s', upstream), rule)
    decreases |upstream|
  {
    if s.ended {
    } else if upstream == [] {
      SweepInStep(env, env', s, s', rule, target);
    } else if upstream[0].Err? {
      EndInStep(s, s', upstream[0].error, [], rule);
    } else {
      var fed := Sse.Feed(decoder, upstream[0].value);
      EndInStep(s, s', "response frame exceeded the size limit", [], rule);
      ProxyGrows(env, fed.state, OnChunk(env, fed, s), upstream[1..]);
      if OnEvents(env, s, Sse.Events(fed.blocks)).trail.audit <= target {
        OnEventsInStep(env, env', s, s', Sse.Events(fed.blocks), rule, target);
      }
      ProxyInStep(env, env', fed.state, OnChunk(env, fed, s), OnChunk(env', fed, s'), upstream[1..], rule, target);
    }
  }

  /** A stricter run emits exactly what survives its own audit trail of the laxer run's output. */
  lemma StricterRunKeepsTheRest(env: Env, env': Env, upstream: seq<Result<Bytes, Reason>>, rule: nat -> Rule)
    requires ValidEnv(env) && ValidEnv(env')
    requires Stricter(env, env', rule, InspectUpstream(env, upstream).trail.audit)
    ensures InStep(InspectUpstream(env, upstream), InspectUpstream(env', upstream), rule)
  {
    var target := InspectUpstream(env, upstream).trail.audit;
    ProxyInStep(env, env', Sse.FRESH, Start(env), Start(env'), upstream, rule, target);
  }

  // ---- Non-interference ----

  /** The same oracles, except that the c-th judgement is a denial. */
  function DenyingAt(o: Oracles, c: nat, reason: Reason): Oracles {
    o.(policy := (n: nat, event: AgentEvent) => if n == c then Deny(reason) else o.policy(n, event))
  }

  /** The output without what rests on record c. */
  function Without(c: nat, out: seq<Emission>): seq<Emission> {
    if out == [] then []
    else
      var last := out[|out| - 1];
      Without(c, out[..|out| - 1]) + (if RecordOf(last) == Some(c) then [] else [last])
  }

  lemma {:induction false} KeptIsWithout(env: Env, audit: seq<AuditRecord>, audit': seq<AuditRecord>,
                                         out: seq<Emission>, c: nat)
    requires AllJustified(env, audit, out) && RecordsInOrder(out, |audit|)
    requires SameTrail(audit, audit', DenyOnly(c))
    ensures Kept(audit', out) == Without(c, out)
  {
    if out == [] {
    } else {
      var last := out[|out| - 1];
      assert Justified(env, audit, last);
      KeptIsWithout(env, audit, audit', out[..|out| - 1], c);
    }
  }

  function DenyOnly(c: nat): nat -> Rule {
    (n: nat) => if n == c then MustDeny else Same
  }

  lemma DenyingAtIsStricter(env: Env, c: nat, reason: Reason, target: seq<AuditRecord>)
    requires MemoryOff(env.oracles) && (c < |target| ==> !target[c].verdict.Terminate?)
    ensures Stricter(env, env.(oracles := DenyingAt(env.oracles, c, reason)), DenyOnly(c), target)
  {
    var o, o' := env.oracles, DenyingAt(env.oracles, c, reason);
    forall t: Trail, t': Trail, event: AgentEvent | |t.audit| == |t'.audit| && IsNext(o, t, event, target)
      ensures AsStrict(Judged(o, t, event), Judged(o', t', event), DenyOnly(c)(|t.audit|))
    {
    }
  }

  /**
   Denying the c-th judged event, whatever it is, takes from the output exactly what rests on that event:
   for a tool call its START, ARGS and END frames. No other call's frames are touched.
   */
  lemma NonInterference(env: Env, c: nat, reason: Reason, upstream: seq<Result<Bytes, Reason>>)
    requires ValidEnv(env) && MemoryOff(env.oracles)
    requires var audit := InspectUpstream(env, upstream).trail.audit; c < |audit| ==> !audit[c].verdict.Terminate?
    ensures var r := InspectUpstream(env, upstream);
            var env' := env.(oracles := DenyingAt(env.oracles, c, reason));
            && ValidEnv(env') && InspectUpstream(env', upstream).out == Without(c, r.out)
            && RecordsInOrder(r.out, |r.trail.audit|)
            && forall i :: 0 <= i < |r.out| && RecordOf(r.out[i]) == Some(c) ==>
                 c < |r.trail.audit| && Justified(env, r.trail.audit, r.out[i])
  {
    var env' := env.(oracles := DenyingAt(env.oracles, c, reason));
    assert ValidEnv(env') by {
      forall n: nat, ids: set<Id> ensures Enumerates(env'.order(n, ids), ids) {
        assert Enumerates(env.order(n, ids), ids);
      }
    }
    DenyingAtIsStricter(env, c, reason, InspectUpstream(env, upstream).trail.audit);
    StricterRunKeepsTheRest(env, env', upstream, DenyOnly(c));
    RelayedWasJudged(env, upstream);
    var r, r' := InspectUpstream(env, upstream), InspectUpstream(env', upstream);
    KeptIsWithout(env, r.trail.audit, r'.trail.audit, r.out, c);
  }

  // ---- Session memory ----

  lemma {:induction false} KeptIsSubsequence(audit: seq<AuditRecord>, out: seq<Emission>)
    ensures Subsequence(Kept(audit, out), out)
  {
    if out == [] {
    } else {
      var front, last := out[..|out| - 1], out[|out| - 1];
      KeptIsSubsequence(audit, front);
      var kept := Kept(audit, front);
      if Survives(audit, last) {
        assert (kept + [last])[..|kept|] == kept;
      } else {
        assert kept + [] == kept;
      }
    }
  }

  /** Under any ledger whatsoever: recalling, expiring or pruning as it likes. */
  lemma MemoryOnlyRemovesOutput(env: Env, recall: (nat, Bytes, Ledger) -> Option<Reason>,
                                upstream: seq<Result<Bytes, Reason>>)
    requires ValidEnv(env) && MemoryOff(env.oracles)
    requires forall record :: record in InspectUpstream(env, upstream).trail.audit ==> !record.verdict.Terminate?
    ensures var env' := env.(oracles := env.oracles.(recall := recall));
            var r, r' := InspectUpstream(env, upstream), InspectUpstream(env', upstream);
            ValidEnv(env') && r'.out == Kept(r'.trail.audit, r.out) && Subsequence(r'.out, r.out)
  {
    var env' := env.(oracles := env.oracles.(recall := recall));
    assert ValidEnv(env') by {
      forall n: nat, ids: set<Id> ensures Enumerates(env'.order(n, ids), ids) {
        assert Enumerates(env.order(n, ids), ids);
      }
    }
    var rule := (n: nat) => MayDeny;
    var target := InspectUpstream(env, upstream).trail.audit;
    assert Stricter(env, env', rule, target) by {
      forall t: Trail, t': Trail, event: AgentEvent | |t.audit| == |t'.audit| && IsNext(env.oracles, t, event, target)
        ensures AsStrict(Judged(env.oracles, t, event), Judged(env'.oracles, t', event), rule(|t.audit|))
      {
      }
    }
    StricterRunKeepsTheRest(env, env', upstream, rule);
    var r, r' := InspectUpstream(env, upstream), InspectUpstream(env', upstream);
    KeptIsSubsequence(r'.trail.audit, r.out);
  }
}

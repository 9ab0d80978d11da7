/**
 Judging complete events: the replay guard of the session ledger, the URL screen, the policy, the
 audit record and the quarantine of a denied tool. The answers of policy, resolver and ledger are
 oracles; each may depend on how many events have been judged before.
 */
module Judging {
  import opened Prelude
  import opened Inspection
  import opened RunMachine
  import opened RunEntity

  /** Denied tools of the session, with the reason. */
  type Ledger = map<Bytes, Reason>

  datatype AuditRecord = AuditRecord(event: AgentEvent, verdict: Verdict)

  /** Everything judging writes: the audit trail and the session ledger. */
  datatype Trail = Trail(audit: seq<AuditRecord>, ledger: Ledger)

  datatype Oracles = Oracles(
    policy: (nat, AgentEvent) -> Verdict,
    disallowedUrl: (nat, Bytes) -> Option<Reason>,
    recall: (nat, Bytes, Ledger) -> Option<Reason>)

  /** The text of an event that may carry a URL. */
  function UrlBearingText(event: AgentEvent): Option<Bytes> {
    match event
    case ToolCall(_, _, arguments) => Some(arguments)
    case MessageChunk(_, text) => Some(text)
    case ToolResult(_, _, content) => Some(content)
    case _ => None
  }

  function ToolNameOf(event: AgentEvent): Option<Bytes> {
    if event.ToolCall? then Some(event.name) else None
  }

  /** The reason the session ledger still holds against the tool of this event. */
  function Recalled(o: Oracles, t: Trail, event: AgentEvent): Option<Reason> {
    if event.ToolCall? then o.recall(|t.audit|, event.name, t.ledger) else None
  }

  /** The verdict without the session ledger. */
  function Fresh(o: Oracles, n: nat, event: AgentEvent): Verdict {
    var text := UrlBearingText(event);
    var url := if text.Some? then o.disallowedUrl(n, text.value) else None;
    if url.Some? then Deny(url.value) else o.policy(n, event)
  }

  function Judged(o: Oracles, t: Trail, event: AgentEvent): Verdict {
    var recalled := Recalled(o, t, event);
    if recalled.Some? then Deny(recalled.value) else Fresh(o, |t.audit|, event)
  }

  /** One record per judged event; a tool denied afresh is remembered. */
  function Recorded(o: Oracles, t: Trail, event: AgentEvent): Trail {
    var verdict := Judged(o, t, event);
    var ledger := if verdict.Deny? && event.ToolCall? && Recalled(o, t, event).None?
                  then t.ledger[event.name := verdict.reason] else t.ledger;
    Trail(t.audit + [AuditRecord(event, verdict)], ledger)
  }

  /** The ledger a session that began with one holds after these records. */
  function LedgerAfter(o: Oracles, session: Ledger, audit: seq<AuditRecord>): Ledger {
    if audit == [] then session
    else
      var n := |audit| - 1;
      var ledger, record := LedgerAfter(o, session, audit[..n]), audit[n];
      if record.verdict.Deny? && record.event.ToolCall? && Recalled(o, Trail(audit[..n], ledger), record.event).None?
      then ledger[record.event.name := record.verdict.reason] else ledger
  }

  /** Nothing is ever recalled. */
  ghost predicate MemoryOff(o: Oracles) {
    forall n: nat, name: Bytes, ledger: Ledger :: o.recall(n, name, ledger) == None
  }

  /** What a verdict on an assembled call means for its held frames. */
  function CallAction(id: Id, verdict: Verdict): InspectionAction {
    match verdict
    case Allow | Transform(_) | Buffer => FlushCall(id)
    case Deny(reason) => DropCall(id, reason)
    case Terminate(reason) => TerminateRun(reason)
  }

  /** What a verdict on a standalone event means for its one frame. */
  function EventAction(verdict: Verdict): InspectionAction {
    match verdict
    case Allow | Buffer => Forward
    case Transform(replacement) => ForwardTransformed(replacement)
    case Deny(reason) => Drop(reason)
    case Terminate(reason) => TerminateRun(reason)
  }

  /** The action a structural outcome leads to. */
  function Decided(o: Oracles, t: Trail, outcome: StructuralOutcome): InspectionAction {
    match outcome
    case Buffering(id) => Hold(id)
    case Reject(reason) => TerminateRun(reason)
    case Ready(event) => EventAction(Judged(o, t, event))
    case ResolvedCall(id, event) => CallAction(id, Judged(o, t, event))
  }

  /** What deciding it writes: only complete events are judged and recorded. */
  function DecidedTrail(o: Oracles, t: Trail, outcome: StructuralOutcome): Trail {
    if outcome.Ready? || outcome.ResolvedCall? then Recorded(o, t, outcome.event) else t
  }

  /** The URL screen denies the event before the policy is asked. */
  predicate Screened(o: Oracles, n: nat, event: AgentEvent) {
    UrlBearingText(event).Some? && o.disallowedUrl(n, UrlBearingText(event).value).Some?
  }

  predicate Passes(v: Verdict) {
    !v.Deny? && !v.Terminate?
  }

  /** The action lets frames out. */
  predicate Releases(action: InspectionAction) {
    action.Forward? || action.ForwardTransformed? || action.FlushCall?
  }

  /** Exactly one record for a complete event and none otherwise; frames are released exactly if its verdict passes. */
  lemma DecidedMeans(o: Oracles, t: Trail, outcome: StructuralOutcome)
    ensures var after, action := DecidedTrail(o, t, outcome), Decided(o, t, outcome);
            if outcome.Ready? || outcome.ResolvedCall? then
              && |after.audit| == |t.audit| + 1 && t.audit <= after.audit
              && after.audit[|t.audit|].event == outcome.event
              && (Releases(action) <==> Passes(after.audit[|t.audit|].verdict))
            else after == t && !Releases(action)
  {
  }

  class Inspector {
    const oracles: Oracles
    var audit: seq<AuditRecord>
    var ledger: Ledger
    /** The judgements the policy was asked about. */
    ghost var asked: set<nat>

    ghost function Model(): Trail
      reads this
    {
      Trail(audit, ledger)
    }

    /** Where the policy was asked, its verdict is the record; where it was not, the record is a denial. */
    ghost predicate Valid()
      reads this
    {
      && (forall n :: n in asked ==> n < |audit| && audit[n].verdict == oracles.policy(n, audit[n].event))
      && (forall n: nat :: n < |audit| && n !in asked ==> audit[n].verdict.Deny?)
    }

    constructor (oracles: Oracles, session: Ledger)
      ensures Valid() && Model() == Trail([], session) && this.oracles == oracles && asked == {}
    {
      this.oracles := oracles;
      audit, ledger, asked := [], session, {};
    }

    /**
     Drive one fragment through the run machine and, if it completes an event, through judgement: then exactly one
     record is written, for that event, and frames are released exactly if its verdict passes. Otherwise nothing is
     written, nobody is asked, and nothing is released.
     */
    method Inspect(run: Run, fragment: Fragment) returns (action: InspectionAction)
      requires Valid() && run.Valid()
      modifies this, run
      ensures Valid() && run.Valid()
      ensures var step := InspectFragment(run.budgets, old(run.Model()), fragment);
              && run.Model() == step.state
              && action == Decided(oracles, old(Model()), step.outcome)
              && Model() == DecidedTrail(oracles, old(Model()), step.outcome)
      ensures var outcome := InspectFragment(run.budgets, old(run.Model()), fragment).outcome;
              if outcome.Ready? || outcome.ResolvedCall? then
                && |audit| == |old(audit)| + 1 && old(audit) <= audit
                && audit[|old(audit)|].event == outcome.event
                && (Releases(action) <==> Passes(audit[|old(audit)|].verdict))
              else
                audit == old(audit) && ledger == old(ledger) && asked == old(asked) && !Releases(action)
    {
      var outcome := run.Inspect(fragment);
      DecidedMeans(oracles, Model(), outcome);
      action := Decide(outcome);
    }

    /** Judge what is complete, hold what is not. */
    method Decide(outcome: StructuralOutcome) returns (action: InspectionAction)
      requires Valid()
      modifies this
      ensures Valid() && action == Decided(oracles, old(Model()), outcome)
      ensures Model() == DecidedTrail(oracles, old(Model()), outcome)
      ensures !outcome.Ready? && !outcome.ResolvedCall? ==> asked == old(asked)
    {
      match outcome {
        case Buffering(id) =>
          action := Hold(id);
        case Reject(reason) =>
          action := TerminateRun(reason);
        case Ready(event) =>
          var verdict := Judge(event);
          action := EventAction(verdict);
        case ResolvedCall(id, event) =>
          action := AuthorizeCall(id, event);
      }
    }

    /** Judge an assembled call and key the verdict to its held frames. */
    method AuthorizeCall(id: Id, event: AgentEvent) returns (action: InspectionAction)
      requires Valid()
      modifies this
      ensures Valid() && action == CallAction(id, Judged(oracles, old(Model()), event))
      ensures Model() == Recorded(oracles, old(Model()), event)
    {
      var verdict := Judge(event);
      action := CallAction(id, verdict);
    }

    /**
     The replay guard, the URL screen, the policy, the record and the quarantine, in that order. The policy is asked
     exactly when neither the ledger recalls the tool nor the screen denies the text.
     */
    method Judge(event: AgentEvent) returns (verdict: Verdict)
      requires Valid()
      modifies this
      ensures Valid() && verdict == Judged(oracles, old(Model()), event)
      ensures Model() == Recorded(oracles, old(Model()), event)
      ensures var n := |old(audit)|;
              asked == if Recalled(oracles, old(Model()), event).Some? || Screened(oracles, n, event) then old(asked)
                       else old(asked) + {n}
    {
      var name := ToolNameOf(event);
      if name.Some? {
        var reason := oracles.recall(|audit|, name.value, ledger);
        if reason.Some? {
          audit := audit + [AuditRecord(event, Deny(reason.value))];
          return Deny(reason.value);
        }
      }
      var n := |audit|;
      var text := UrlBearingText(event);
      if text.Some? {
        var reason := oracles.disallowedUrl(n, text.value);
        if reason.Some? {
          audit := audit + [AuditRecord(event, Deny(reason.value))];
          RememberToolDenial(event, reason.value);
          return Deny(reason.value);
        }
      }
      verdict := oracles.policy(n, event);
      asked := asked + {n};
      audit := audit + [AuditRecord(event, verdict)];
      if verdict.Deny? {
        RememberToolDenial(event, verdict.reason);
      }
    }

    method RememberToolDenial(event: AgentEvent, reason: Reason)
      modifies this`ledger
      ensures ledger == if event.ToolCall? then old(ledger)[event.name := reason] else old(ledger)
    {
      var name := ToolNameOf(event);
      if name.Some? {
        ledger := ledger[name.value := reason];
      }
    }
  }
}

/** The run as the proxy keeps it: fields updated in place, always the ones its accepted fragments spell. */
module RunEntity {
  import opened Prelude
  import opened Inspection
  import opened RunMachine
  import opened RunHistory

  /** What one step of the machine says, read off the history instead of the fields. */
  lemma FragmentAgainstHistory(b: Budgets, history: seq<Op>, s: RunState, f: Fragment)
    requires Describes(history, s) && WithinBudgets(b, s)
    ensures var step := InspectFragment(b, s, f);
      && WithinBudgets(b, step.state)
      && (step.outcome.Reject? ==> step.state == s)
      && (!step.outcome.Reject? ==> Describes(history + [Feed(f)], step.state))
      && (step.outcome.ResolvedCall? ==>
            var call := OpenCall(Project(history, step.outcome.id), step.outcome.id);
            call.Some? && step.outcome.event == ToolCall(step.outcome.id, call.value.name, call.value.arguments))
      && (step.outcome.Ready? && step.outcome.event.ToolResult? ==>
            step.outcome.event.toolName == AwaitingResult(history, step.outcome.event.id))
  {
    var step := InspectFragment(b, s, f);
    BudgetStep(b, s, Feed(f));
    RejectedLeavesNoTrace(b, s, f);
    if !step.outcome.Reject? {
      DescribesStep(b, history, s, Feed(f));
      ResolvedShape(b, s, f);
      if step.outcome.ResolvedCall? {
        CallDependsOnItsOwnFragments(history, step.outcome.id);
      }
    }
  }

  lemma ResolvedShape(b: Budgets, s: RunState, f: Fragment)
    ensures var outcome := InspectFragment(b, s, f).outcome;
      && (outcome.ResolvedCall? ==>
            outcome.id in s.open && outcome.event == Assembled(outcome.id, s.open[outcome.id]))
      && (outcome.Ready? && outcome.event.ToolResult? ==> outcome.event.toolName == Lookup(s.names, outcome.event.id))
  {
  }

  class Run {
    const budgets: Budgets
    var phase: Phase
    var openToolCalls: map<Id, ToolCallBuffer>
    var toolNames: map<Id, Bytes>
    /** What has been accepted so far. */
    ghost var history: seq<Op>

    ghost function Model(): RunState
      reads this
    {
      RunState(phase, openToolCalls, toolNames)
    }

    /** The fields are what the accepted fragments say, and within budget. */
    ghost predicate Valid()
      reads this
    {
      Describes(history, Model()) && WithinBudgets(budgets, Model())
    }

    constructor (budgets: Budgets)
      ensures Valid() && Model() == NEW_RUN && this.budgets == budgets && history == []
    {
      this.budgets := budgets;
      phase, openToolCalls, toolNames, history := Pending, map[], map[], [];
    }

    /**
     Feed one fragment through the machine. A rejected one leaves no trace; an accepted one joins the history. A call
     that resolves is what the accepted fragments of its id spell, and a result is attributed to the latest START of
     its id that no result has consumed.
     */
    method Inspect(fragment: Fragment) returns (outcome: StructuralOutcome)
      requires Valid()
      modifies this
      ensures Valid() && Step(Model(), outcome) == InspectFragment(budgets, old(Model()), fragment)
      ensures outcome.Reject? ==> history == old(history) && Model() == old(Model())
      ensures !outcome.Reject? ==> history == old(history) + [Feed(fragment)]
      ensures outcome.ResolvedCall? ==>
                var call := OpenCall(Project(old(history), outcome.id), outcome.id);
                call.Some? && outcome.event == ToolCall(outcome.id, call.value.name, call.value.arguments)
      ensures outcome.Ready? && outcome.event.ToolResult? ==>
                outcome.event.toolName == AwaitingResult(old(history), outcome.event.id)
    {
      FragmentAgainstHistory(budgets, history, Model(), fragment);
      if fragment.LifecycleFragment? {
        outcome := LifecycleChange(fragment.phase);
      } else if phase != Running {
        outcome := Reject("event outside an active run");
      } else {
        outcome := Content(fragment);
      }
      if !outcome.Reject? {
        history := history + [Feed(fragment)];
      }
    }

    method LifecycleChange(next: LifecyclePhase) returns (outcome: StructuralOutcome)
      modifies this`phase
      ensures Step(Model(), outcome) == InspectLifecycle(old(Model()), next)
    {
      match next {
        case RunStarted =>
          if phase != Pending {
            return Reject("run started more than once");
          }
          phase := Running;
        case RunFinished | RunError =>
          if phase != Running {
            return Reject("run ended without being active");
          }
          phase := Finished;
        case StepStarted(_) | StepFinished(_) =>
          if phase != Running {
            return Reject("step outside an active run");
          }
      }
      outcome := Ready(Lifecycle(next));
    }

    method Content(fragment: Fragment) returns (outcome: StructuralOutcome)
      requires !fragment.LifecycleFragment?
      modifies this`openToolCalls, this`toolNames
      ensures Step(Model(), outcome) == InspectContent(budgets, old(Model()), fragment)
    {
      match fragment {
        case ToolCallStarted(id, name) =>
          if id in openToolCalls {
            return Reject("tool call started twice");
          }
          if |openToolCalls| >= budgets.maxOpenToolCalls {
            return Reject("too many concurrent tool calls");
          }
          toolNames := toolNames[id := name];
          openToolCalls := openToolCalls[id := ToolCallBuffer(name, [])];
          outcome := Buffering(id);
        case ToolCallArgs(id, delta) =>
          if id !in openToolCalls {
            return Reject("arguments for an unknown tool call");
          }
          var buffer := openToolCalls[id];
          if |buffer.arguments| + |delta| > budgets.maxToolArgsBytes {
            return Reject("tool call arguments exceed budget");
          }
          openToolCalls := openToolCalls[id := buffer.(arguments := buffer.arguments + delta)];
          outcome := Buffering(id);
        case ToolCallEnded(id) =>
          if id !in openToolCalls {
            return Reject("end of an unknown tool call");
          }
          var buffer := openToolCalls[id];
          openToolCalls := openToolCalls - {id};
          outcome := ResolvedCall(id, Assembled(id, buffer));
        case ToolResultFragment(id, content) =>
          var name := if id in toolNames then Some(toolNames[id]) else None;
          toolNames := toolNames - {id};
          outcome := Ready(ToolResult(id, name, content));
        case MessageFragment(message, text) =>
          outcome := Ready(MessageChunk(message, text));
        case StateFragment(mutation) =>
          var over := MutationReject(budgets, mutation);
          if over.Some? {
            return Reject(over.value);
          }
          outcome := Ready(StateMutated(mutation));
        case OpaqueFragment(kind) =>
          outcome := Ready(Opaque(kind));
      }
    }

    /** Empty the buffer, assembling every call still open, in whatever order the table yields them. */
    method DrainOpen(order: seq<Id>) returns (calls: seq<(Id, AgentEvent)>)
      requires Valid() && Enumerates(order, openToolCalls.Keys)
      modifies this
      ensures Valid() && Model() == old(Model()).(open := map[]) && history == old(history) + [Op.Drain]
      ensures calls == Drained(old(openToolCalls), order)
    {
      DescribesStep(budgets, history, Model(), Op.Drain);
      calls := [];
      for i := 0 to |order|
        invariant openToolCalls == old(openToolCalls) && phase == old(phase) && toolNames == old(toolNames)
        invariant history == old(history) && calls == Drained(openToolCalls, order[..i])
      {
        assert order[..i + 1][..i] == order[..i];
        assert order[i] in openToolCalls;
        calls := calls + [(order[i], Assembled(order[i], openToolCalls[order[i]]))];
      }
      assert order[..|order|] == order;
      openToolCalls := map[];
      history := history + [Op.Drain];
    }
  }
}

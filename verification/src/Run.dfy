/**
 The per-run state machine: it orders the lifecycle, assembles interleaved tool calls from their
 fragments, attributes results to calls and enforces the structural budgets.
 */
module RunMachine {
  import opened Prelude
  import opened Inspection

  datatype Phase = Pending | Running | Finished

  datatype ToolCallBuffer = ToolCallBuffer(name: Bytes, arguments: Bytes)

  datatype RunState = RunState(phase: Phase, open: map<Id, ToolCallBuffer>, names: map<Id, Bytes>)

  const NEW_RUN := RunState(Pending, map[], map[])

  function Assembled(id: Id, buffer: ToolCallBuffer): AgentEvent {
    ToolCall(id, buffer.name, buffer.arguments)
  }

  datatype Step = Step(state: RunState, outcome: StructuralOutcome)

  function Rejected(s: RunState, reason: Reason): Step {
    Step(s, Reject(reason))
  }

  function InspectLifecycle(s: RunState, phase: LifecyclePhase): Step {
    var ready := Ready(Lifecycle(phase));
    match phase
    case RunStarted =>
      if s.phase != Pending then Rejected(s, "run started more than once") else Step(s.(phase := Running), ready)
    case RunFinished | RunError =>
      if s.phase != Running then Rejected(s, "run ended without being active") else Step(s.(phase := Finished), ready)
    case StepStarted(_) | StepFinished(_) =>
      if s.phase != Running then Rejected(s, "step outside an active run") else Step(s, ready)
  }

  /** Why a state mutation is over budget, if it is. */
  function MutationReject(b: Budgets, m: StateMutation): Option<Reason> {
    if m.byteSize > b.maxStateBytes then Some("state mutation exceeds budget")
    else if m.Snapshot? then None
    else if m.opCount > b.patch.maxOps then Some("state delta has too many operations")
    else if m.maxPathDepth > b.patch.maxPathDepth then Some("state delta operation path is too deep")
    else if m.maxValueBytes > b.patch.maxValueBytes then Some("state delta operation value exceeds budget")
    else None
  }

  function InspectContent(b: Budgets, s: RunState, f: Fragment): Step
    requires !f.LifecycleFragment?
  {
    match f
    case ToolCallStarted(id, name) =>
      if id in s.open then Rejected(s, "tool call started twice")
      else if |s.open| >= b.maxOpenToolCalls then Rejected(s, "too many concurrent tool calls")
      else Step(s.(open := s.open[id := ToolCallBuffer(name, [])], names := s.names[id := name]), Buffering(id))
    case ToolCallArgs(id, delta) =>
      if id !in s.open then Rejected(s, "arguments for an unknown tool call")
      else
        var buffer := s.open[id];
        if |buffer.arguments| + |delta| > b.maxToolArgsBytes then Rejected(s, "tool call arguments exceed budget")
        else Step(s.(open := s.open[id := buffer.(arguments := buffer.arguments + delta)]), Buffering(id))
    case ToolCallEnded(id) =>
      if id !in s.open then Rejected(s, "end of an unknown tool call")
      else Step(s.(open := s.open - {id}), ResolvedCall(id, Assembled(id, s.open[id])))
    case ToolResultFragment(id, content) =>
      var name := if id in s.names then Some(s.names[id]) else None;
      Step(s.(names := s.names - {id}), Ready(ToolResult(id, name, content)))
    case MessageFragment(message, text) => Step(s, Ready(MessageChunk(message, text)))
    case StateFragment(mutation) =>
      var over := MutationReject(b, mutation);
      if over.Some? then Rejected(s, over.value) else Step(s, Ready(StateMutated(mutation)))
    case OpaqueFragment(kind) => Step(s, Ready(Opaque(kind)))
  }

  function InspectFragment(b: Budgets, s: RunState, f: Fragment): Step {
    if f.LifecycleFragment? then InspectLifecycle(s, f.phase)
    else if s.phase != Running then Rejected(s, "event outside an active run")
    else InspectContent(b, s, f)
  }

  /** A sequence that lists each element of a set once. */
  ghost predicate Enumerates<T(!new)>(order: seq<T>, elements: set<T>) {
    && (forall x :: x in order <==> x in elements)
    && (forall i, j :: 0 <= i < j < |order| ==> order[i] != order[j])
  }

  /** The open calls, and the argument bytes of each, are within the limits. */
  predicate WithinBudgets(b: Budgets, s: RunState) {
    && |s.open| <= b.maxOpenToolCalls
    && (forall id :: id in s.open ==> |s.open[id].arguments| <= b.maxToolArgsBytes)
  }

  /** The open calls assembled in the given order. */
  function Drained(open: map<Id, ToolCallBuffer>, order: seq<Id>): (calls: seq<(Id, AgentEvent)>)
    requires forall id :: id in order ==> id in open
    ensures |calls| == |order|
    ensures forall i :: 0 <= i < |order| ==> calls[i] == (order[i], Assembled(order[i], open[order[i]]))
  {
    if order == [] then []
    else
      var n := |order| - 1;
      Drained(open, order[..n]) + [(order[n], Assembled(order[n], open[order[n]]))]
  }
}

/** What the machine's state says about the fragments it has accepted. */
module RunHistory {
  import opened Prelude
  import opened Collections
  import opened Inspection
  import opened RunMachine

  /** What can happen to a run: a fragment arrives, or the open calls are drained. */
  datatype Op = Feed(fragment: Fragment) | Drain

  function Apply(b: Budgets, s: RunState, op: Op): RunState {
    match op
    case Feed(f) => InspectFragment(b, s, f).state
    case Drain => s.(open := map[])
  }

  predicate Accepts(b: Budgets, s: RunState, op: Op) {
    op.Feed? ==> !InspectFragment(b, s, op.fragment).outcome.Reject?
  }

  function Replay(b: Budgets, ops: seq<Op>): RunState {
    if ops == [] then NEW_RUN else Apply(b, Replay(b, ops[..|ops| - 1]), ops[|ops| - 1])
  }

  /** The operations that were not rejected, in order. */
  function Accepted(b: Budgets, ops: seq<Op>): seq<Op> {
    if ops == [] then []
    else
      var n := |ops| - 1;
      Accepted(b, ops[..n]) + (if Accepts(b, Replay(b, ops[..n]), ops[n]) then [ops[n]] else [])
  }

  /** A rejected fragment leaves no trace, so the state is a function of what was accepted. */
  lemma RejectedLeavesNoTrace(b: Budgets, s: RunState, f: Fragment)
    ensures InspectFragment(b, s, f).outcome.Reject? ==> InspectFragment(b, s, f).state == s
  {
  }

  lemma {:induction false} StateIsAcceptedHistory(b: Budgets, ops: seq<Op>)
    ensures Replay(b, ops) == Replay(b, Accepted(b, ops))
    ensures Accepted(b, Accepted(b, ops)) == Accepted(b, ops)
  {
    if ops == [] {
    } else {
      var n := |ops| - 1;
      StateIsAcceptedHistory(b, ops[..n]);
      var kept := Accepted(b, ops[..n]);
      if Accepts(b, Replay(b, ops[..n]), ops[n]) {
        assert (kept + [ops[n]])[..|kept|] == kept;
      } else {
        assert kept + [] == kept;
      }
    }
  }

  // ---- The history, read off without running the machine ----

  /** What one operation does to the call open under an id. */
  function OpenCallAfter(before: Option<ToolCallBuffer>, op: Op, id: Id): Option<ToolCallBuffer> {
    match op
    case Drain => None
    case Feed(ToolCallStarted(i, name)) => if i == id then Some(ToolCallBuffer(name, [])) else before
    case Feed(ToolCallEnded(i)) => if i == id then None else before
    case Feed(ToolCallArgs(i, delta)) =>
      if i == id && before.Some? then Some(before.value.(arguments := before.value.arguments + delta)) else before
    case Feed(_) => before
  }

  /** The call open under an id: what followed the latest START of that id, unless it ended since. */
  function OpenCall(ops: seq<Op>, id: Id): Option<ToolCallBuffer> {
    if ops == [] then None else OpenCallAfter(OpenCall(ops[..|ops| - 1], id), ops[|ops| - 1], id)
  }

  function AwaitingAfter(before: Option<Bytes>, op: Op, id: Id): Option<Bytes> {
    match op
    case Feed(ToolCallStarted(i, name)) => if i == id then Some(name) else before
    case Feed(ToolResultFragment(i, _)) => if i == id then None else before
    case Drain => before
    case Feed(_) => before
  }

  /** The name a result for this id is attributed to: the latest START not yet consumed by a result. */
  function AwaitingResult(ops: seq<Op>, id: Id): Option<Bytes> {
    if ops == [] then None else AwaitingAfter(AwaitingResult(ops[..|ops| - 1], id), ops[|ops| - 1], id)
  }

  predicate StartsRun(op: Op) {
    op == Feed(LifecycleFragment(RunStarted))
  }

  predicate EndsRun(op: Op) {
    op.Feed? && IsRunEnd(op.fragment)
  }

  /** Fragments only: drains may happen anywhere and are not protocol events. */
  function Fragments(ops: seq<Op>): seq<Op> {
    if ops == [] then []
    else Fragments(ops[..|ops| - 1]) + (if ops[|ops| - 1].Feed? then [ops[|ops| - 1]] else [])
  }

  /** A run start, then anything but a start or an end, then at most one end; or a prefix of that. */
  predicate IsRunPrefix(ops: seq<Op>, phase: Phase) {
    && (phase == Pending <==> ops == [])
    && (forall i :: 0 <= i < |ops| ==> (StartsRun(ops[i]) <==> i == 0))
    && (forall i :: 0 <= i < |ops| ==> (EndsRun(ops[i]) <==> i == |ops| - 1 && phase == Finished))
  }

  function Lookup<T>(m: map<Id, T>, id: Id): Option<T> {
    if id in m then Some(m[id]) else None
  }

  /** The phase tells how far an accepted history has come, and the maps are what it says they are. */
  ghost predicate Describes(ops: seq<Op>, s: RunState) {
    && IsRunPrefix(Fragments(ops), s.phase)
    && (forall id :: Lookup(s.open, id) == OpenCall(ops, id))
    && (forall id :: Lookup(s.names, id) == AwaitingResult(ops, id))
  }

  lemma LifecycleKeepsCalls(s: RunState, phase: LifecyclePhase)
    ensures var after := InspectLifecycle(s, phase).state; after.open == s.open && after.names == s.names
  {
  }

  lemma ContentOpens(b: Budgets, s: RunState, f: Fragment, id: Id)
    requires !f.LifecycleFragment? && !InspectContent(b, s, f).outcome.Reject?
    ensures Lookup(InspectContent(b, s, f).state.open, id) == OpenCallAfter(Lookup(s.open, id), Feed(f), id)
  {
  }

  lemma ContentNames(b: Budgets, s: RunState, f: Fragment, id: Id)
    requires !f.LifecycleFragment? && !InspectContent(b, s, f).outcome.Reject?
    ensures Lookup(InspectContent(b, s, f).state.names, id) == AwaitingAfter(Lookup(s.names, id), Feed(f), id)
  {
    if f.ToolCallStarted? {
      assert InspectContent(b, s, f).state.names == s.names[f.id := f.name];
    } else if f.ToolResultFragment? {
      assert InspectContent(b, s, f).state.names == s.names - {f.id};
    } else {
      assert InspectContent(b, s, f).state.names == s.names;
    }
  }

  lemma OpenStep(b: Budgets, s: RunState, op: Op, id: Id)
    requires Accepts(b, s, op)
    ensures Lookup(Apply(b, s, op).open, id) == OpenCallAfter(Lookup(s.open, id), op, id)
    ensures Lookup(Apply(b, s, op).names, id) == AwaitingAfter(Lookup(s.names, id), op, id)
  {
    if op.Feed? {
      if op.fragment.LifecycleFragment? {
        LifecycleKeepsCalls(s, op.fragment.phase);
      } else {
        ContentOpens(b, s, op.fragment, id);
        ContentNames(b, s, op.fragment, id);
      }
    }
  }

  lemma PhaseStep(b: Budgets, s: RunState, op: Op)
    requires op.Feed? && Accepts(b, s, op)
    ensures StartsRun(op) <==> s.phase == Pending
    ensures !StartsRun(op) ==> s.phase == Running
    ensures Apply(b, s, op).phase == if EndsRun(op) then Finished else Running
  {
  }

  lemma RunPrefixSnoc(ops: seq<Op>, phase: Phase, op: Op)
    requires IsRunPrefix(ops, phase)
    requires StartsRun(op) <==> phase == Pending
    requires !StartsRun(op) ==> phase == Running
    ensures IsRunPrefix(ops + [op], if EndsRun(op) then Finished else Running)
  {
  }

  lemma DescribesStep(b: Budgets, ops: seq<Op>, s: RunState, op: Op)
    requires Describes(ops, s) && Accepts(b, s, op)
    ensures Describes(ops + [op], Apply(b, s, op))
  {
    var all := ops + [op];
    assert all[..|all| - 1] == ops;
    forall id
      ensures Lookup(Apply(b, s, op).open, id) == OpenCall(all, id)
      ensures Lookup(Apply(b, s, op).names, id) == AwaitingResult(all, id)
    {
      OpenStep(b, s, op, id);
    }
    if op.Drain? {
      assert Fragments(all) == Fragments(ops);
    } else {
      PhaseStep(b, s, op);
      RunPrefixSnoc(Fragments(ops), s.phase, op);
    }
  }

  lemma DescribesNext(b: Budgets, kept: seq<Op>, s: RunState, op: Op)
    requires Describes(kept, s)
    ensures Describes(kept + if Accepts(b, s, op) then [op] else [], Apply(b, s, op))
  {
    if Accepts(b, s, op) {
      DescribesStep(b, kept, s, op);
    } else {
      assert kept + [] == kept;
    }
  }

  /**
   For every sequence of operations the reached state is described by the accepted ones alone: they are
   a run start, content, at most one end; each open call is its START's name with the concatenated
   deltas since; each awaited result has the name of the latest START not consumed by a result.
   */
  lemma {:induction false} RunAgainstHistory(b: Budgets, ops: seq<Op>)
    ensures Describes(Accepted(b, ops), Replay(b, ops))
  {
    if ops == [] {
    } else {
      var n := |ops| - 1;
      RunAgainstHistory(b, ops[..n]);
      DescribesNext(b, Accepted(b, ops[..n]), Replay(b, ops[..n]), ops[n]);
    }
  }

  /** Whether an operation concerns one call. */
  predicate Concerns(op: Op, id: Id) {
    match op
    case Drain => true
    case Feed(ToolCallStarted(i, _)) => i == id
    case Feed(ToolCallArgs(i, _)) => i == id
    case Feed(ToolCallEnded(i)) => i == id
    case Feed(_) => false
  }

  function Project(ops: seq<Op>, id: Id): seq<Op> {
    if ops == [] then []
    else Project(ops[..|ops| - 1], id) + (if Concerns(ops[|ops| - 1], id) then [ops[|ops| - 1]] else [])
  }

  /** Interleaved calls do not mix: a call's name and arguments come from its own fragments. */
  lemma {:induction false} CallDependsOnItsOwnFragments(ops: seq<Op>, id: Id)
    ensures OpenCall(ops, id) == OpenCall(Project(ops, id), id)
  {
    if ops == [] {
    } else {
      var n := |ops| - 1;
      CallDependsOnItsOwnFragments(ops[..n], id);
      var own := Project(ops[..n], id);
      if Concerns(ops[n], id) {
        assert (own + [ops[n]])[..|own|] == own;
      } else {
        assert own + [] == own;
      }
    }
  }

  /** When a call resolves, what is judged is the assembly of that id's accepted fragments. */
  lemma ResolvedCallIsItsHistory(b: Budgets, ops: seq<Op>, id: Id)
    requires InspectFragment(b, Replay(b, ops), ToolCallEnded(id)).outcome.ResolvedCall?
    ensures var call := OpenCall(Project(Accepted(b, ops), id), id);
            && call.Some?
            && InspectFragment(b, Replay(b, ops), ToolCallEnded(id)).outcome
               == ResolvedCall(id, ToolCall(id, call.value.name, call.value.arguments))
  {
    RunAgainstHistory(b, ops);
    CallDependsOnItsOwnFragments(Accepted(b, ops), id);
  }

  /** Open calls and each call's argument bytes stay within budget on every run. */
  lemma {:induction false} RunStaysWithinBudgets(b: Budgets, ops: seq<Op>)
    ensures WithinBudgets(b, Replay(b, ops))
  {
    if ops == [] {
    } else {
      RunStaysWithinBudgets(b, ops[..|ops| - 1]);
      BudgetStep(b, Replay(b, ops[..|ops| - 1]), ops[|ops| - 1]);
    }
  }

  lemma BudgetStep(b: Budgets, s: RunState, op: Op)
    requires WithinBudgets(b, s)
    ensures WithinBudgets(b, Apply(b, s, op))
  {
    var s' := Apply(b, s, op);
    if op.Feed? && op.fragment.ToolCallArgs? {
      assert s'.open.Keys == s.open.Keys;
    } else if op.Feed? && op.fragment.ToolCallEnded? {
      SubsetSize(s'.open.Keys, s.open.Keys);
    }
  }
}

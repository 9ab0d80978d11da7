/** The protocol-agnostic values of response inspection: fragments in, events judged, actions out. */
module Inspection {
  import opened Prelude

  type Id = Bytes
  type Reason = string

  datatype StateMutation =
    | Snapshot(byteSize: nat, payload: Bytes)
    | Delta(opCount: nat, byteSize: nat, maxPathDepth: nat, maxValueBytes: nat, payload: Bytes)

  datatype LifecyclePhase = RunStarted | RunFinished | RunError | StepStarted(name: Bytes) | StepFinished(name: Bytes)

  datatype OpaqueKind = RawEvent | CustomEvent | EncryptedValue

  /** One wire event, before tool calls are assembled. */
  datatype Fragment =
    | ToolCallStarted(id: Id, name: Bytes)
    | ToolCallArgs(id: Id, delta: Bytes)
    | ToolCallEnded(id: Id)
    | ToolResultFragment(id: Id, content: Bytes)
    | MessageFragment(message: Id, text: Bytes)
    | StateFragment(mutation: StateMutation)
    | LifecycleFragment(phase: LifecyclePhase)
    | OpaqueFragment(kind: OpaqueKind)

  /** One complete event: what policy judges and the audit log records. */
  datatype AgentEvent =
    | MessageChunk(message: Id, text: Bytes)
    | ToolCall(id: Id, name: Bytes, arguments: Bytes)
    | ToolResult(id: Id, toolName: Option<Bytes>, content: Bytes)
    | StateMutated(mutation: StateMutation)
    | Lifecycle(phase: LifecyclePhase)
    | Opaque(kind: OpaqueKind)

  datatype StructuralOutcome =
    | Ready(event: AgentEvent)
    | ResolvedCall(id: Id, event: AgentEvent)
    | Buffering(id: Id)
    | Reject(reason: Reason)

  datatype Verdict =
    | Allow
    | Deny(reason: Reason)
    | Transform(replacement: AgentEvent)
    | Buffer
    | Terminate(reason: Reason)

  datatype InspectionAction =
    | Forward
    | ForwardTransformed(replacement: AgentEvent)
    | Hold(id: Id)
    | FlushCall(id: Id)
    | DropCall(id: Id, reason: Reason)
    | Drop(reason: Reason)
    | TerminateRun(reason: Reason)

  datatype PatchBudget = PatchBudget(maxOps: nat, maxPathDepth: nat, maxValueBytes: nat)

  datatype Budgets = Budgets(maxToolArgsBytes: nat, maxStateBytes: nat, maxOpenToolCalls: nat, patch: PatchBudget)

  /** Whether a fragment ends the run, so that open tool calls must be swept before it. */
  predicate IsRunEnd(f: Fragment) {
    f.LifecycleFragment? && (f.phase.RunFinished? || f.phase.RunError?)
  }
}

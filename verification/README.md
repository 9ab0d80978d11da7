# Verified model of the Agate proxy

Agate sits between an agent and its client. It inspects the agent's event stream, asks a policy about every
complete event, relays what may pass, and records every verdict in a tamper-evident transparency log. This
project models the parts of it whose correctness spans many calls, and proves what they promise.

- **The transparency log** (`MerkleHasher`, `MerkleTree`, `MerkleProofs`, `MerkleSoundness`): the tree hash, audit
  paths and consistency proofs of sections 2.1, 2.1.1 and 2.1.2 of RFC 6962, and both verifiers. The hash is any
  function of one fixed output width. It is not taken to be injective: every soundness result either gives its
  conclusion or names two different inputs with one hash, computed by an extractor from the proof and the leaves.
- **The event transport** (`Sse`): the incremental decoder of sections 9.2.5 and 9.2.6 of the WHATWG HTML standard,
  as narrowed by the code, which ends lines only at LF or CR LF.
- **Inspection** (`Inspection`, `Run`, `RunEntity`, `Inspector`, `Stream`, `StreamLoop` and the `Stream...` files): the
  run state machine, judgement, and the streaming loop with its hold table. `Stream` is the specification of the loop,
  `StreamLoop` the loop itself, and the other files are theorems about every run. The policy is an arbitrary function of
  the event and of how many were judged before, URL screening of the text and that number, session recall of the tool,
  the ledger and that number; a run begins with an arbitrary ledger of its session. The payload mapping is an arbitrary
  function of one payload. The order in which open calls are drained is arbitrary but the same function in two runs that
  are compared.
- **The wire mapping and redaction** (`AgUi`, `Redaction`, `PolicyEvaluator`): JSON events to fragments and back, the
  path of a redact decision to the bytes on the wire, and the rules on secrets with what they keep from leaving. Of JSON
  it is assumed that the events the proxy prints read back and hold no line break, and that strings read are text; of
  text, that it joins to text, and that what stands around an occurrence of text in text is text, as UTF-8 guarantees.
- **The durable log** (`DurableLog`, `DurableLogProofs`, `DurableLogHistory`, `LogGateway`): one log's tables under any
  interleaving of the statements of any number of transactions, with commits that may or may not be acknowledged, and
  the gateway, aggregate, handler and scheduler as code.
- **The audit write path** (`Pipeline`, `Outbox`, `OutboxLoop`, `SharedLog`): the behavior chain of an append with every
  storage fault, the bounded channel with its drain loop, and that loop beside other writers of the durable log.
  `ProvableVerdicts` follows a verdict from the stream through channel, drain loop and log to its inclusion proof.
- **Two text transformations** (`Glob`, `Masking`, `MaskingExact`): globs compiled to anchored expressions, and masking
  of literal markers in bytes.

Some promises do not hold for all inputs of the code, and the exact condition is proved instead:
`MerkleTree.SplitLoopTerminates` (the split loop is left only up to 2^63 leaves),
`Pipeline.BehaviorsNestInOrder` (a transaction that cannot begin turns the call back before what is inside it),
`Pipeline.CountMatchesLogUnlessCommitUnacknowledged` and, over whole runs, `Outbox.LogIsWhatWasCounted` (a commit whose
acknowledgement is lost is counted as dropped though the leaf is stored), `Outbox.NothingUncountedUnlessCancelled` (a
call abandoned while it waits for room is counted nowhere), and `MaskingExact.AlwaysGoneIffNeverTouching` (a marker such
as "red" is part of the mask, and one such as "x[" can be completed by it).

## Model

| member | source | states |
|---|---|---|
| `MerkleHashing.NodeBinds` | crates/agate-audit/src/domain/merkle/services/hasher.rs:37-45 | equal node hashes of children of the output width bind both children, or the two node inputs are a collision; the width hypothesis is needed because children are concatenated without lengths |
| `MerkleTree.SplitPointUnique` | crates/agate-audit/src/domain/merkle/services/tree.rs:30-37 | any power of two k with k < n <= 2k is the split point |
| `MerkleTree.SplitPointStable` | crates/agate-audit/src/domain/merkle/services/tree.rs:30-37 | every size m with split(n) < m <= n splits where n does; this is what lets an old tree share its left half with a new one |
| `MerkleTree.SplitLoopTerminates` | crates/agate-audit/src/domain/merkle/services/tree.rs:30-37 | on 64-bit words the shift loop is left if and only if n <= 2^63; above that the shifted word becomes zero and the loop spins |
| `MerkleTree.SplitPointLoop` | crates/agate-audit/src/domain/merkle/services/tree.rs:30-37 | the shift loop returns the power of two k with k < n <= 2k, for every n it leaves |
| `MerkleTree.RootOfPrefix` | crates/agate-audit/src/domain/merkle/services/tree.rs:13-24 | a prefix that reaches into the right half has the whole left half as its left subtree |
| `MerkleTree.RootBindsRecords` | crates/agate-audit/src/domain/merkle/services/tree.rs:13-24 | two record lists of any lengths with equal roots are equal, or the extractor returns two different inputs with one hash |
| `MerkleProofs.InclusionComplete` | crates/agate-audit/src/domain/merkle/services/proofs.rs:13-44 | an inclusion proof exists for exactly the indices of the log, is accepted, and has at most ceil(log2 n) digests |
| `MerkleProofs.ConsistencyComplete` | crates/agate-audit/src/domain/merkle/services/proofs.rs:46-88 | a consistency proof exists for exactly 1 <= m <= n, is accepted, and has at most ceil(log2 n) + 1 digests |
| `MerkleProofs.AuditPathRebuilds` | crates/agate-audit/src/domain/merkle/services/proofs.rs:94-138 | rebuilding from a leaf along its generated audit path gives the tree hash |
| `MerkleProofs.SubproofRebuilds` | crates/agate-audit/src/domain/merkle/services/proofs.rs:141-198 | rebuilding along a generated consistency path gives the pair of the prefix root and the full root |
| `MerkleSoundness.InclusionUnique` | crates/agate-audit/src/domain/merkle/services/proofs.rs:112-138 | one root admits one leaf and one path per position and size, for all supplied digests of output width, or a collision is extracted |
| `MerkleSoundness.InclusionSound` | crates/agate-audit/src/domain/merkle/services/proofs.rs:29-44 | an accepted inclusion proof against the root of known leaves is the generated one for the leaf at that index, or a collision is extracted |
| `MerkleSoundness.ConsistencySound` | crates/agate-audit/src/domain/merkle/services/proofs.rs:67-88 | if a consistency proof is accepted and the new root is the tree hash of known leaves, the old root is the tree hash of their first m, or a collision is extracted |
| `MerkleSoundness.ConsistencyCarriesInclusion` | crates/agate-audit/src/domain/merkle/services/proofs.rs:165-198 | a consistency path turns any audit path accepted under the old root into one accepted under the new root for the same leaf and index, or a collision is extracted |
| `MerkleSoundness.AppendOnly` | crates/agate-audit/src/domain/merkle/services/proofs.rs:29-88 | for a verifier with no leaves: accepted consistency between two roots and accepted inclusion of index i under both force the two leaves to have equal bytes, or a collision is extracted |
| `Sse.FeedConcat` | crates/agate-proxy/src/infrastructure/sse/decoder.rs:41-65 | from any reachable state, feeding a then b gives the events and the final state of feeding a + b |
| `Sse.BytesConserved` | crates/agate-proxy/src/infrastructure/sse/decoder.rs:36-110 | completed blocks, emitted or discarded, followed by the unfinished tail concatenate to exactly the bytes received |
| `Sse.BlocksEndAtBlankLines` | crates/agate-proxy/src/infrastructure/sse/decoder.rs:41-65 | a completed block is lines of which exactly the last is blank |
| `Sse.SseDecoder.Push` | crates/agate-proxy/src/infrastructure/sse/decoder.rs:41-65 | the draining loop over `buffer` emits the events, and reaches the state, of the reference decoder that sees one byte at a time |
| `Sse.SseDecoder.PendingLen` | crates/agate-proxy/src/infrastructure/sse/decoder.rs:36-38 | it is the length of the unfinished tail |
| `Sse.SseDecoder.TakeLine` | crates/agate-proxy/src/infrastructure/sse/decoder.rs:41-65 | one complete line: a blank one dispatches the block, a comment only adds bytes, a field is parsed |
| `Sse.SseDecoder.Dispatch` | crates/agate-proxy/src/infrastructure/sse/decoder.rs:89-110 | a block is an event exactly when it has a data field, with the joined data, the last event and id values, and its raw bytes; the decoder is left fresh |
| `Sse.EncodeRoundTrip` | crates/agate-proxy/src/infrastructure/sse/mod.rs:17-19 | a fresh decoder gives an encoded payload back if and only if the payload fits one SSE line |
| `RunEntity.Run.Inspect` | crates/agate-proxy/src/domain/inspection/entities/run.rs:59-178 | its fields stay what the accepted fragments spell and within budget; a rejected fragment leaves no trace; a call that resolves is what the accepted fragments of its id say, and a result is attributed to the latest START of its id not consumed by a result |
| `RunEntity.Run.DrainOpen` | crates/agate-proxy/src/domain/inspection/entities/run.rs:186-198 | empties the table and assembles every open call once, in whatever order the table yields them, and joins the history as a drain |
| `RunHistory.StateIsAcceptedHistory` | crates/agate-proxy/src/domain/inspection/entities/run.rs:59-198 | the state after any operations is the state after the accepted ones alone, all of which are accepted again |
| `RunHistory.RunAgainstHistory` | crates/agate-proxy/src/domain/inspection/entities/run.rs:59-178 | accepted fragments are a prefix of one start, content, one end; the open call and the awaited result of every id are what its latest START and what followed say |
| `RunHistory.CallDependsOnItsOwnFragments` | crates/agate-proxy/src/domain/inspection/entities/run.rs:136-178 | the call open under an id is a function of the history projected to that id |
| `RunHistory.ResolvedCallIsItsHistory` | crates/agate-proxy/src/domain/inspection/entities/run.rs:166-178 | an END that resolves gives exactly the name and arguments the accepted fragments of its id spell |
| `RunHistory.RunStaysWithinBudgets` | crates/agate-proxy/src/domain/inspection/entities/run.rs:136-164 | on every run the open calls and the argument bytes of each stay within budget |
| `Judging.Inspector.Inspect` | crates/agate-proxy/src/application/inspection/inspector.rs:45-74 | a fragment that completes an event leads to exactly one audit record, for that event, and frames are released exactly if its verdict passes; any other fragment writes nothing, asks nobody and releases nothing |
| `Judging.Inspector.Judge` | crates/agate-proxy/src/application/inspection/inspector.rs:104-129 | the policy is asked exactly when neither the ledger recalls the tool nor the URL screen denies the text; where it was asked its verdict is the record, where it was not the record is a denial; a fresh tool denial is remembered |
| `StreamLoop.SweepOpenCalls` | crates/agate-proxy/src/presentation/stream.rs:308-341 | judges every open call in the order the table yields, flushing or dropping its frames, and stops when one ends the run |
| `StreamLoop.HandleEvent` | crates/agate-proxy/src/presentation/stream.rs:119-194 | the budget first, then the payload; the run, the trail, the holds and the wire are those of the specified stream after the event |
| `StreamLoop.HandlePayload` | crates/agate-proxy/src/presentation/stream.rs:132-194 | a payload that is not inspected passes, is dropped or ends the run as the mapping says; an inspected one is swept for and judged; state and wire are those of the specified stream |
| `StreamLoop.HandleChunk` | crates/agate-proxy/src/presentation/stream.rs:89-118 | an oversized unfinished frame ends the run; otherwise the completed events are handled |
| `StreamLoop.InspectStream` | crates/agate-proxy/src/presentation/stream.rs:72-194 | the nested loops over decoder, run, holds and counters put on the wire exactly the output of the specified stream, for every upstream, and under a nonzero event limit at most max_events + 1 pieces of it |
| `StreamSafety.OnEventSafe` | crates/agate-proxy/src/presentation/stream.rs:119-194 | at every event boundary exactly the open calls are held, each as its START and ARGS in arrival order whose deltas concatenate to the buffered arguments, nothing is open outside an active run, and all output is justified |
| `StreamSafety.SweepSafe` | crates/agate-proxy/src/presentation/stream.rs:308-341 | the sweep leaves nothing open and nothing held, and flushes each call as its own frames |
| `StreamSafety.RelayedWasJudged` | crates/agate-proxy/src/presentation/stream.rs:72-194 | what is judged is what is relayed: on every run each relayed batch is a pass-through or is together the event its audit record lets pass, nothing is held at the end, and a renderable replacement is never bypassed |
| `StreamConservation.OnEventConserves` | crates/agate-proxy/src/presentation/stream.rs:119-194 | each decoded frame is in exactly one place: emitted once, lost for a cause, or held |
| `StreamConservation.OutputIsBounded` | crates/agate-proxy/src/presentation/stream.rs:89-194 | over whole runs every frame is emitted once or lost, nothing is held at the end, the emissions are within both limits, and a proxy-made failure is emitted at most once and last |
| `StreamWire.WireIsBounded` | crates/agate-proxy/src/application/inspection/response_budget.rs:29-37 | the same bounds on the bytes sent: at most max_events + 1 pieces, among which those relayed as they came stand in order and measure at most max_bytes |
| `StreamLosses.EveryLossIsExplained` | crates/agate-proxy/src/presentation/stream.rs:72-341 | a decoded frame that did not leave was part of an event the audit trail denies, was malformed, or the run ended early |
| `StreamDenials.DenialsAreCarriedOut` | crates/agate-proxy/src/presentation/stream.rs:209-341 | every audit record holds exactly the judgement of its event given the records before it and the ledger they left of the session's (what the ledger recalls against the tool, else the URL screen, else the policy); the ledger at the end is the one the trail leaves; and for every denial the frames that together are the denied event were lost because of it and are in no emission |
| `StreamDenials.WithoutMemoryPolicyRules` | crates/agate-proxy/src/application/inspection/inspector.rs:83-129 | with memory off every record is the verdict of the URL screen or else of the policy, and the frames of the event leave, in exactly one emission, if and only if that verdict lets them |
| `StreamCompleteness.OutputMirrorsAudit` | crates/agate-proxy/src/presentation/stream.rs:209-341 | the emissions rest on exactly the audit records that let their event pass, once each and in order |
| `StreamComparison.StricterRunKeepsTheRest` | crates/agate-proxy/src/presentation/stream.rs:209-341 | a run with stricter verdicts emits exactly what its own audit trail keeps of the laxer run's output |
| `StreamComparison.NonInterference` | crates/agate-proxy/src/presentation/stream.rs:209-341 | with memory off and one sweep order, denying the event of the c-th record, unless that record ended the run, removes from the output exactly the frames that rest on it |
| `StreamComparison.MemoryOnlyRemovesOutput` | crates/agate-proxy/src/application/inspection/inspector.rs:83-129 | whenever the run without memory is not terminated by a verdict, the output with memory, however entries are recalled or forgotten, is the part of it that its own trail does not deny, in order |
| `StreamWire.MemoryOnlyRemovesBytes` | crates/agate-proxy/src/application/inspection/inspector.rs:83-129 | the same on the wire: the bytes sent with memory are a subsequence of those sent without |
| `StreamQuarantine.DeniedToolStaysDenied` | crates/agate-proxy/src/application/inspection/inspector.rs:104-129 | over any number of consecutive runs of a session that begins with any ledger, each with its own policy and limits and a ledger that does not forget: a tool denied once or held from the start is denied at every later call, and the ledger ends with exactly those tools |
| `AgUi.MeasureDeltaLoop` | crates/agate-proxy/src/infrastructure/ag_ui/mapper.rs:142-189 | one pass with two running maxima, left at the first malformed operation, computes the specified measure |
| `AgUi.MeasureIsTight` | crates/agate-proxy/src/infrastructure/ag_ui/mapper.rs:142-189 | the measured bounds cover every operation and each is met by some operation |
| `Redaction.RenderedReadsBack` | crates/agate-proxy/src/infrastructure/ag_ui/mapper.rs:90-107 | a rendered replacement is one SSE event that the decoder and the mapper read back as exactly the replacement |
| `Redaction.RedactionReachesTheWire` | crates/agate-server/src/infrastructure/policy/projection.rs:20-41 | for any policy that decides and any run: a redact decision on a message or tool result that the URL screen lets through is carried out by exactly one emission, whose bytes are read back as the redacted text and whose original frame is in no other emission; on any other event no emission rests on the decision and the frames that were the event are lost because of it |
| `PolicyEvaluator.NoSecretLeaves` | crates/agate-policy/src/domain/decision/services/policy_evaluator.rs:16-52 | for every ruleset with literal markers, every upstream and every run: in no message, tool result or state mutation that leaves does a client read a marker the mask can neither contain nor complete; frames that leave as they came hold no marker at all, and what leaves unjudged carries no such text; the arguments of tool calls are not searched, as in the code |
| `PolicyEvaluator.RedactedIsText` | crates/agate-policy/src/domain/decision/services/text_redactor.rs:24-41 | masking text by markers that are text yields text, so a redaction can always be written |
| `DurableLogProofs.StepKeeps` | crates/agate-audit/src/infrastructure/persistence/log/postgres/command_gateway.rs:33-162 | every statement of every open transaction keeps the invariant: gapless leaves, at most one transaction with uncommitted leaves and those next in line, checkpoints that describe a prefix |
| `DurableLogHistory.CommittedIndicesAreContiguous` | crates/agate-audit/src/infrastructure/persistence/log/postgres/command_gateway.rs:114-162 | in every interleaving of appenders whose read and insert are separate steps, of saves and of issues, committed indices are exactly 0..n-1 and a load reads leaf i at i |
| `DurableLogHistory.HistoryOnlyGrows` | crates/agate-audit/src/infrastructure/persistence/log/postgres/command_gateway.rs:75-162 | a later state of any run extends the earlier log, keeps the first checkpoint of each size as it was anchored, and forgets no reported head |
| `DurableLogHistory.CheckpointsMatchFinalLog` | crates/agate-audit/src/application/usecases/issue_checkpoint/handler.rs:37-64 | every head of size s ever anchored or reported carries the tree hash of the first s leaves of the final log |
| `DurableLogHistory.CheckpointsAreLinked` | crates/agate-audit/src/application/usecases/issue_checkpoint/handler.rs:37-64 | any two such heads with positive first size are linked by a generated consistency proof that verifies |
| `DurableLogHistory.IdleSkipLeavesNoHole` | crates/agate-server/src/infrastructure/audit/scheduler.rs:44-79 | the size a scheduler remembers, and the size at which an issue it asked for is skipped as idle, is anchored |
| `DurableLogHistory.FastAppendRefinesAggregate` | crates/agate-audit/src/infrastructure/persistence/log/postgres/command_gateway.rs:114-162 | a committed fast append, among any other transactions, makes the log load as the earlier log with the aggregate's append applied, under the index the aggregate gives |
| `DurableLogHistory.StaleSaveOnlyExtends` | crates/agate-audit/src/infrastructure/persistence/log/postgres/command_gateway.rs:75-111 | saving an aggregate, however stale, keeps every committed leaf and adds only what the aggregate has beyond the committed log |
| `DurableLogHistory.AppendedRecordIsProvable` | crates/agate-audit/src/infrastructure/persistence/log/postgres/command_gateway.rs:114-162 | once an append has committed, every head attested later over a log that reaches its index has a generated inclusion proof for the record that verifies |
| `DurableLogHistory.UndisturbedAppendCommits` | crates/agate-audit/src/infrastructure/persistence/log/postgres/command_gateway.rs:114-162 | run with nothing between them and the next index free, the statements of an append do commit its leaf |
| `LogGateway.TransparencyLog.Append` | crates/agate-audit/src/domain/merkle/entities/transparency_log.rs:72-79 | the record becomes the leaf at the returned index, provable against the new root, the new root is provably consistent with the old one, and all recorded events stay true of the log |
| `LogGateway.TransparencyLog.CheckpointsStayLinked` | crates/agate-audit/src/domain/merkle/entities/transparency_log.rs:72-112 | every checkpoint ever recorded by the aggregate, if not empty, is linked to its present head by its own proof, which verifies |
| `LogGateway.TransparencyLog.ProveInclusion` | crates/agate-audit/src/domain/merkle/entities/transparency_log.rs:106-108 | a proof for exactly the indices of the log, accepted against its own head |
| `LogGateway.TransparencyLog.ProveConsistency` | crates/agate-audit/src/domain/merkle/entities/transparency_log.rs:110-112 | a proof from exactly the sizes the log has passed, accepted between the roots of then and now |
| `LogGateway.PostgresGateway.Load` | crates/agate-audit/src/infrastructure/persistence/log/postgres/command_gateway.rs:33-72 | the leaves by ascending index when the log row exists, nothing otherwise |
| `LogGateway.PostgresGateway.Save` | crates/agate-audit/src/infrastructure/persistence/log/postgres/command_gateway.rs:75-111 | the loop of conditional inserts leaves every stored row as it is and adds the missing ones |
| `LogGateway.PostgresGateway.AppendRecord` | crates/agate-audit/src/infrastructure/persistence/log/postgres/command_gateway.rs:114-162 | nothing without a log row; otherwise one new row under an unused index, and on a gapless table the aggregate's append |
| `LogGateway.IssueCheckpoint` | crates/agate-audit/src/application/usecases/issue_checkpoint/handler.rs:37-64 | not found without a log, then key not found without a key, both changing nothing; otherwise the head of the stored log, anchored unless its size is anchored already or is the caller's, in which last case nothing changes; where it anchors, every stored row stays, and saving back what was loaded leaves the rows as they were if and only if they have no gap |
| `LogGateway.CheckpointScheduler.Tick` | crates/agate-server/src/infrastructure/audit/scheduler.rs:44-79 | a tick fails exactly when the scope cannot be opened, the log is missing or the key is, and then leaves rows, anchors and what is remembered as they were; a successful one remembers the size it reports; what is remembered is always anchored |
| `Pipeline.BuildChain` | crates/agate-audit/src/application/common/messaging/mediator.rs:30-47 | the reverse loop builds the chain whose first behavior is outermost |
| `Pipeline.BehaviorsNestInOrder` | crates/agate-audit/src/application/common/messaging/mediator.rs:30-47 | for every list of behaviors a call enters them in the declared order, reaches the handler and leaves them in reverse, if and only if no transaction in the list is refused |
| `Pipeline.RefusedCallTurnsBack` | crates/agate-audit/src/application/common/behaviors/transaction.rs:30-43 | otherwise it enters and leaves exactly the behaviors up to the first refused transaction, and nothing inside that one |
| `Pipeline.RequestScope.Send` | crates/agate-audit/src/application/common/messaging/mediator.rs:30-47 | the dispatch as code: slot, log, counters and the links passed are those of the specified call, in order unless a transaction is refused |
| `Pipeline.CountedExactlyOnce` | crates/agate-audit/src/application/common/behaviors/metrics.rs:28-39 | through the registered chain each append is counted exactly once, as appended exactly when the caller gets an index, and no transaction stays open |
| `Pipeline.CountMatchesLogUnlessCommitUnacknowledged` | crates/agate-audit/src/setup/ioc/registry.rs:20-43 | the count says what happened to the log if and only if it is not the case that the commit took effect and its acknowledgement was lost |
| `Outbox.EveryRecordIsAccountedFor` | crates/agate-server/src/infrastructure/audit/sink.rs:55-93 | in every interleaving of calls, cancellations and drain steps, finished calls = appended + dropped + queued + in flight, calls that arrived = finished + waiting + cancelled, and the queue stays within capacity |
| `Outbox.NothingUncountedUnlessCancelled` | crates/agate-server/src/infrastructure/audit/sink.rs:55-93 | over whole runs every record handed to the sink is counted or on its way to be if and only if no call was cancelled while it waited |
| `Outbox.SentIsEnqueued` | crates/agate-server/src/infrastructure/audit/sink.rs:55-93 | under Block and while the channel is open the n-th call to complete put its record in the n-th place of the channel |
| `Outbox.LogFollowsQueueOrder` | crates/agate-server/src/infrastructure/audit/outbox.rs:40-60 | the log is the enqueued order without the records not stored, what is left is queued in order, and a record is stored though counted as dropped exactly where its commit lost its acknowledgement |
| `Outbox.LogIsWhatWasCounted` | crates/agate-server/src/infrastructure/audit/outbox.rs:40-60 | over whole runs the log is exactly the records counted as appended, in queue order, if and only if no commit of the run lost its acknowledgement |
| `SharedLog.QueueOrderSurvivesOtherWriters` | crates/agate-server/src/infrastructure/audit/outbox.rs:40-60 | with any other writers interleaved statement by statement, what the drain loop stored is a subsequence of what was added to the log, in queue order, and what is not settled is still in hand or queued in order |
| `ProvableVerdicts.VerdictsAreProvable` | crates/agate-server/src/infrastructure/audit/outbox.rs:40-60 | for every run of the proxy that records its verdicts one after another under Block, every interleaving of the drain loop with other writers, and every later state of the log: once the loop has drained, every verdict whose commit took effect has its own place in the log, in audit order, and a generated inclusion proof that verifies under every attested head that reaches it; and everything relayed after judgement rests on one of those verdicts |
| `ProvableVerdicts.RecordedInOrder` | crates/agate-server/src/infrastructure/audit/sink.rs:55-93 | what a run records one after another stands in the channel in that order, whatever other runs record between |
| `Outbox.BlockDropsNothingWhileOpen` | crates/agate-server/src/infrastructure/audit/sink.rs:55-93 | under Block the sink refuses nothing while the channel is open, so every drop is a failed append |
| `Outbox.EndedMeansDrained` | crates/agate-server/src/infrastructure/audit/outbox.rs:40-46 | when the drain loop has ended nothing is queued, in flight or waiting, and every call that arrived is counted or was cancelled |
| `OutboxLoop.AuditPath.Record` | crates/agate-server/src/infrastructure/audit/sink.rs:55-93 | one poll of a call is the protocol's send step, or no step while Block waits |
| `OutboxLoop.AuditPath.Append` | crates/agate-server/src/infrastructure/audit/outbox.rs:48-60 | one received record goes through the behavior chain and is settled as the protocol says; only an unopened scope is counted here |
| `OutboxLoop.AuditPath.Drain` | crates/agate-server/src/infrastructure/audit/outbox.rs:40-46 | the loop, with whatever the sinks do before each receive, is a run of the protocol; it has ended exactly when the sinks are gone, and otherwise waits on an empty queue |
| `Glob.GlobToRegex` | crates/agate-policy/src/domain/decision/values/tool_matcher.rs:135-162 | the literal-run flushing loop writes, between anchors, the translation of each glob character |
| `Glob.CompiledParses` | crates/agate-policy/src/domain/decision/values/tool_matcher.rs:135-162 | the text written reads back as a valid expression with one token per glob character |
| `Glob.CompilationPreservesMeaning` | crates/agate-policy/src/domain/decision/values/tool_matcher.rs:59-95 | for every glob and name, the unanchored search for the compiled text matches if and only if the name can be cut into pieces the glob characters stand for |
| `Masking.MaskLiteral` | crates/agate-policy/src/domain/decision/values/pattern.rs:117-136 | the cursor loop computes the masked text and whether the needle occurs |
| `Masking.MaskingReplacesLeftmost` | crates/agate-policy/src/domain/decision/values/pattern.rs:117-136 | there is a list of leftmost non-overlapping case-folded occurrences, and exactly those are replaced and all else is kept |
| `Masking.LeftmostIsUnique` | crates/agate-policy/src/domain/decision/values/pattern.rs:117-136 | there is only one list of leftmost non-overlapping occurrences |
| `Masking.Redact` | crates/agate-policy/src/domain/decision/services/text_redactor.rs:18-41 | redacts if and only if some marker occurs in the original text, and then returns the text after every marker |
| `Masking.RedactedMarkerIsGone` | crates/agate-policy/src/domain/decision/services/text_redactor.rs:24-41 | a marker that nowhere overlaps the mask without contradiction does not occur in the final text, whatever markers come before or after it |
| `MaskingExact.AlwaysGoneIffNeverTouching` | crates/agate-policy/src/domain/decision/values/pattern.rs:64-77 | for every marker: it is gone from every text under every list of markers that holds it, if and only if no overlap of it with the mask is without contradiction |
| `MaskingExact.AlwaysGoneIffNotInWord` | crates/agate-policy/src/domain/decision/values/pattern.rs:117-136 | for a marker without brackets this is the case if and only if it is no case-folded part of the mask's word |

## Left out

- HTTP routing, middlewares, TLS, the upstream client, DNS, metrics export, tracing, configuration and error texts.
- The request leg of inspection, and the CEL and Rego engines: verdicts are an oracle. Of the ruleset engine the tool,
  argument and result rules are oracles, and the markers are literal.
- URL screening and session ledgers with expiry: one oracle each; expiry and pruning are covered by any recall function.
- Hash, signature and encryption algorithms, key handling and the signing of tree heads, which never fails here once
  there is a key.
- JSON parsing and printing, and lossy UTF-8 decoding, which is the identity here.
- Regular-expression patterns and matchers written by operators, and the trimming of blank names and needles.
- Several logs in one database, timestamps of the log row, connection handling, retries and deadlock: the interleavings
  are those of one log, and a blocked statement simply has not happened yet.
- Digest algorithm tags are compared nowhere by the hashing code, so conclusions are about bytes; the two debug
  assertions on tags and the one on n >= 2 are not modelled.
- MerkleTree.SplitPointLoop: asks for n <= 2^63, because above that the loop of the code does not end.
- LogGateway.PostgresGateway.AppendRecord: its contract is for statements with no other transaction between; what
  concurrent transactions add is in FastAppendRefinesAggregate.
- DurableLogHistory.StaleSaveOnlyExtends: does not say that an aggregate's own new leaves survive a concurrent append
  at their index; the code skips them by design.
- Outbox.EveryRecordIsAccountedFor: the counters are those of the drain loop's own appends; appends over HTTP pass
  the same metrics, and only their effect on the order of the log is modelled, in SharedLog.
- StreamQuarantine.DeniedToolStaysDenied: for consecutive runs and a ledger that does not forget; two runs of one
  session at the same time, and entries that expire by the wall clock, are not covered.
- Glob.CompilationPreservesMeaning: reads only the expression syntax the translation writes.

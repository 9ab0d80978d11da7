/**
 The streaming loop: decoded events run through inspection, tool-call frames held per call until the
 call is judged, unclosed calls swept before the run ends, and the guards that end a run early.

 `Stream` is the loop's state with provenance made explicit: every emission names the audit record
 that cleared it, every frame its position in the upstream, every lost frame the cause.
 */
module Streaming {
  import opened Prelude
  import opened Inspection
  import opened RunMachine
  import opened Judging
  import Sse

  /** What a payload resolves to before inspection. */
  datatype Decoded = Inspect(fragment: Fragment) | PassThrough | MalformedDrop | MalformedTerminate

  /** Zero disables a limit. */
  datatype Settings = Settings(budgets: Budgets, maxEvents: nat, maxBytes: nat, maxFrameBytes: nat)

  /** The run's surroundings: oracles, the payload mapping both ways, the RUN_ERROR frame, limits, iteration order. */
  datatype Env = Env(
    oracles: Oracles,
    decode: Bytes -> Decoded,
    render: AgentEvent -> Option<Bytes>,
    failure: Reason -> Bytes,
    settings: Settings,
    order: (nat, set<Id>) -> seq<Id>,
    session: Ledger)

  /** The only thing known of the iteration order: it visits every open call once. */
  ghost predicate ValidEnv(env: Env) {
    forall n: nat, ids: set<Id> :: Enumerates(env.order(n, ids), ids)
  }

  /** The n-th decoded event of the upstream. */
  datatype Frame = Frame(index: nat, event: Sse.SseEvent)

  datatype Emission =
    | Passed(frame: Frame)
    | Cleared(record: nat, frames: seq<Frame>)
    | Rewritten(record: nat, frame: Frame, bytes: Bytes)
    | Failed(message: Reason)

  datatype Cause = Denied(record: nat) | Malformed | RunEnded

  datatype Stream = Stream(
    run: RunState,
    holds: map<Id, seq<Frame>>,
    trail: Trail,
    log: seq<Sse.SseEvent>,
    lost: map<nat, Cause>,
    out: seq<Emission>,
    ended: bool)

  /** A run begins with what the session remembers. */
  function Start(env: Env): Stream {
    Stream(NEW_RUN, map[], Trail([], env.session), [], map[], [], false)
  }

  function Total(log: seq<Sse.SseEvent>): nat {
    if log == [] then 0 else Total(log[..|log| - 1]) + |log[|log| - 1].raw|
  }

  /** The reason the response budget is crossed, if it is. */
  function Exceeded(s: Settings, events: nat, bytes: nat): Option<Reason> {
    if s.maxEvents != 0 && events > s.maxEvents then Some("response event budget exceeded")
    else if s.maxBytes != 0 && bytes > s.maxBytes then Some("response byte budget exceeded")
    else None
  }

  function Indices(frames: seq<Frame>): set<nat> {
    set k | 0 <= k < |frames| :: frames[k].index
  }

  function HeldUnder(holds: map<Id, seq<Frame>>, id: Id): seq<Frame> {
    if id in holds then holds[id] else []
  }

  function HeldIndices(holds: map<Id, seq<Frame>>): set<nat> {
    set id, k | id in holds && 0 <= k < |holds[id]| :: holds[id][k].index
  }

  function Lose(s: Stream, indices: set<nat>, cause: Cause): Stream {
    s.(lost := s.lost + map i | i in indices :: cause)
  }

  /** The run ends with a proxy-made RUN_ERROR; whatever is held, and the frames in hand, go. */
  function End(s: Stream, message: Reason, inHand: seq<Frame>): Stream {
    Lose(s, HeldIndices(s.holds) + Indices(inHand), RunEnded).(holds := map[], out := s.out + [Failed(message)],
                                                               ended := true)
  }

  function Record(env: Env, s: Stream, event: AgentEvent): Stream {
    s.(trail := Recorded(env.oracles, s.trail, event))
  }

  /** The n-th verdict falls on a call: its held frames and the one in hand leave together, or are lost together. */
  function SettleCall(s: Stream, n: nat, verdict: Verdict, id: Id, inHand: seq<Frame>): Stream {
    var frames := HeldUnder(s.holds, id) + inHand;
    match verdict
    case Terminate(reason) => End(s, reason, inHand)
    case Deny(_) => Lose(s, Indices(frames), Denied(n)).(holds := s.holds - {id})
    case _ => s.(holds := s.holds - {id}, out := s.out + [Cleared(n, frames)])
  }

  function Resolve(env: Env, s: Stream, id: Id, event: AgentEvent, inHand: seq<Frame>): Stream {
    SettleCall(Record(env, s, event), |s.trail.audit|, Judged(env.oracles, s.trail, event), id, inHand)
  }

  /** The n-th verdict falls on a standalone event: it governs the event's one frame. */
  function SettleEvent(env: Env, s: Stream, n: nat, verdict: Verdict, frame: Frame): Stream {
    match verdict
    case Terminate(reason) => End(s, reason, [frame])
    case Deny(_) => Lose(s, {frame.index}, Denied(n))
    case Transform(replacement) =>
      var bytes := env.render(replacement);
      s.(out := s.out + [if bytes.Some? then Rewritten(n, frame, bytes.value) else Cleared(n, [frame])])
    case _ => s.(out := s.out + [Cleared(n, [frame])])
  }

  function Standalone(env: Env, s: Stream, event: AgentEvent, frame: Frame): Stream {
    SettleEvent(env, Record(env, s, event), |s.trail.audit|, Judged(env.oracles, s.trail, event), frame)
  }

  /** What the structural outcome of a frame leads to. */
  function OnOutcome(env: Env, s: Stream, outcome: StructuralOutcome, frame: Frame): Stream {
    match outcome
    case Buffering(id) => s.(holds := s.holds[id := HeldUnder(s.holds, id) + [frame]])
    case Reject(reason) => End(s, reason, [frame])
    case Ready(event) => Standalone(env, s, event, frame)
    case ResolvedCall(id, event) => Resolve(env, s, id, event, [frame])
  }

  function OnFragment(env: Env, s: Stream, f: Fragment, frame: Frame): Stream {
    var step := InspectFragment(env.settings.budgets, s.run, f);
    OnOutcome(env, s.(run := step.state), step.outcome, frame)
  }

  /** Judge the calls of `open` in the given order, stopping if one ends the run. */
  function SweepCalls(env: Env, s: Stream, open: map<Id, ToolCallBuffer>, order: seq<Id>): Stream
    requires forall id :: id in order ==> id in open
    decreases |order|
  {
    if order == [] || s.ended then s
    else SweepCalls(env, Resolve(env, s, order[0], Assembled(order[0], open[order[0]]), []), open, order[1..])
  }

  /** Judge every call the agent left open. */
  ghost function Sweep(env: Env, s: Stream): Stream
    requires ValidEnv(env)
  {
    SweepCalls(env, s.(run := s.run.(open := map[])), s.run.open, env.order(|s.log|, s.run.open.Keys))
  }

  ghost function OnInspected(env: Env, s: Stream, f: Fragment, frame: Frame): Stream
    requires ValidEnv(env)
  {
    OnSwept(env, if IsRunEnd(f) then Sweep(env, s) else s, f, frame)
  }

  /** A sweep may end the run before the fragment's turn comes. */
  function OnSwept(env: Env, s: Stream, f: Fragment, frame: Frame): Stream {
    if s.ended then Lose(s, {frame.index}, RunEnded) else OnFragment(env, s, f, frame)
  }

  ghost function OnDecoded(env: Env, s: Stream, decoded: Decoded, frame: Frame): Stream
    requires ValidEnv(env)
  {
    match decoded
    case PassThrough => s.(out := s.out + [Passed(frame)])
    case MalformedDrop => Lose(s, {frame.index}, Malformed)
    case MalformedTerminate => End(s, "malformed protocol event", [frame])
    case Inspect(f) => OnInspected(env, s, f, frame)
  }

  ghost function OnEvent(env: Env, s: Stream, event: Sse.SseEvent): Stream
    requires ValidEnv(env)
  {
    var frame := Frame(|s.log|, event);
    var s1 := s.(log := s.log + [event]);
    var over := Exceeded(env.settings, |s1.log|, Total(s1.log));
    if over.Some? then End(s1, over.value, [frame]) else OnDecoded(env, s1, env.decode(event.data), frame)
  }

  ghost function OnEvents(env: Env, s: Stream, events: seq<Sse.SseEvent>): Stream
    requires ValidEnv(env)
    decreases |events|
  {
    if events == [] || s.ended then s else OnEvents(env, OnEvent(env, s, events[0]), events[1..])
  }

  /** One upstream chunk, or the error that ends the upstream. */
  ghost function OnChunk(env: Env, fed: Sse.Fed, s: Stream): Stream
    requires ValidEnv(env)
  {
    if env.settings.maxFrameBytes != 0 && |Sse.Pending(fed.state)| > env.settings.maxFrameBytes then
      End(s, "response frame exceeded the size limit", [])
    else OnEvents(env, s, Sse.Events(fed.blocks))
  }

  ghost function Proxy(env: Env, decoder: Sse.State, s: Stream, upstream: seq<Result<Bytes, Reason>>): Stream
    requires ValidEnv(env) && Sse.LF !in decoder.buffer
    decreases |upstream|
  {
    if s.ended then s
    else if upstream == [] then Sweep(env, s)
    else if upstream[0].Err? then End(s, upstream[0].error, [])
    else
      var fed := Sse.Feed(decoder, upstream[0].value);
      Proxy(env, fed.state, OnChunk(env, fed, s), upstream[1..])
  }

  /** Everything the proxy does with one upstream response. */
  ghost function InspectUpstream(env: Env, upstream: seq<Result<Bytes, Reason>>): Stream
    requires ValidEnv(env)
  {
    Proxy(env, Sse.FRESH, Start(env), upstream)
  }
}

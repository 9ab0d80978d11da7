/** From a redact decision to the bytes on the wire. */
module Redaction {
  import opened Prelude
  import opened Inspection
  import opened Judging
  import opened Streaming
  import opened StreamSafety
  import opened StreamConservation
  import opened StreamCompleteness
  import opened StreamDenials
  import opened AgUi
  import opened Masking
  import Sse

  /** A decision on an event as the proxy's verdict; redaction of an event without rewritable text denies. */
  function LiftDecision(event: AgentEvent, decision: PolicyDecision): Verdict {
    match decision
    case Permit => Allow
    case Forbid(reason) => Deny(reason)
    case RedactText(text) =>
      match event
      case MessageChunk(message, _) => Transform(MessageChunk(message, text))
      case ToolResult(id, name, _) => Transform(ToolResult(id, name, text))
      case _ => Deny("redaction not applicable to this event kind")
  }

  /** The fragment a client reads where the redacted text stands. */
  function RedactedFragment(event: AgentEvent, text: Bytes): Option<Fragment> {
    match event
    case MessageChunk(message, _) => Some(MessageFragment(message, text))
    case ToolResult(id, _, _) => Some(ToolResultFragment(id, text))
    case _ => None
  }

  /** The text of an event that a redaction can rewrite. */
  function RewritableText(event: AgentEvent): Option<Bytes> {
    match event
    case MessageChunk(_, text) => Some(text)
    case ToolResult(_, _, content) => Some(content)
    case _ => None
  }

  /** An environment whose payload mapping is AG-UI over a given codec. */
  ghost predicate SpeaksAgUi(env: Env, c: Codec, mode: MalformedMode) {
    && (forall data :: env.decode(data) == Decode(c, mode, data))
    && (forall event :: env.render(event) == Render(c, event))
  }

  /** A fresh decoder finds exactly one event in these bytes, and it is this fragment. */
  predicate ReadsBackAs(c: Codec, mode: MalformedMode, bytes: Bytes, f: Fragment) {
    var events := Sse.Events(Sse.Feed(Sse.FRESH, bytes).blocks);
    |events| == 1 && Decode(c, mode, events[0].data) == Inspect(f)
  }

  lemma MessageReadsBack(c: Codec, message: Id, text: Bytes)
    requires !c.isBlank(message)
    ensures ToFragment(c, ToEvent(MessageChunk(message, text)).value) == Ok(Some(MessageFragment(message, text)))
  {
  }

  lemma ResultReadsBack(c: Codec, id: Id, name: Option<Bytes>, text: Bytes)
    requires !c.isBlank(id)
    ensures ToFragment(c, ToEvent(ToolResult(id, name, text)).value) == Ok(Some(ToolResultFragment(id, text)))
  {
    assert TOOL_CALL_RESULT[10] != TOOL_CALL_START[10];
    assert |TOOL_CALL_RESULT| != |TOOL_CALL_ARGS| && |TOOL_CALL_RESULT| != |TOOL_CALL_END|;
    assert |TOOL_CALL_RESULT| != |TEXT_MESSAGE_CONTENT| && |TOOL_CALL_RESULT| != |TEXT_MESSAGE_CHUNK|;
  }

  /** The fragments the mapper lets through carry text, under identifiers that are not blank. */
  lemma DecodedIsText(c: Codec, mode: MalformedMode, data: Bytes, f: Fragment)
    requires GoodCodec(c) && Decode(c, mode, data) == Inspect(f)
    ensures f.MessageFragment? ==> !c.isBlank(f.message) && c.isText(f.message) && c.isText(f.text)
    ensures f.ToolResultFragment? ==> !c.isBlank(f.id) && c.isText(f.id) && c.isText(f.content)
  {
    var v := c.parse(data).value;
    if f.MessageFragment? {
      assert GetText(v, "messageId") == Ok(f.message) && GetText(v, "delta") == Ok(f.text);
    } else if f.ToolResultFragment? {
      assert GetText(v, "toolCallId") == Ok(f.id) && GetText(v, "content") == Ok(f.content);
    }
  }

  /** An event that came off the wire: its identifier is not blank, and it and the rewritable text are text. */
  predicate OffTheWire(c: Codec, event: AgentEvent) {
    && (event.MessageChunk? ==> !c.isBlank(event.message) && c.isText(event.message) && c.isText(event.text))
    && (event.ToolResult? ==> !c.isBlank(event.id) && c.isText(event.id) && c.isText(event.content))
  }

  lemma WireFormIsText(env: Env, c: Codec, mode: MalformedMode, frame: Frame, event: AgentEvent)
    requires SpeaksAgUi(env, c, mode) && GoodCodec(c) && IsWireFormOf(env, frame, event)
    ensures OffTheWire(c, event)
  {
    var d := env.decode(frame.event.data);
    assert d == Decode(c, mode, frame.event.data);
    DecodedIsText(c, mode, frame.event.data, d.fragment);
  }

  /** What is rendered for a replacement, a fresh decoder and the mapper read back as the replacement. */
  lemma RenderedReadsBack(c: Codec, mode: MalformedMode, event: AgentEvent, text: Bytes)
    requires GoodCodec(c) && RedactedFragment(event, text).Some? && OffTheWire(c, event) && c.isText(text)
    ensures var bytes := Render(c, LiftDecision(event, RedactText(text)).replacement);
            bytes.Some? && ReadsBackAs(c, mode, bytes.value, RedactedFragment(event, text).value)
  {
    var replacement := LiftDecision(event, RedactText(text)).replacement;
    assert Speakable(c, replacement);
    var v := ToEvent(replacement).value;
    assert ReadsBack(c, v);
    Sse.EncodeRoundTrip(c.show(v));
    if event.MessageChunk? {
      MessageReadsBack(c, event.message, text);
    } else {
      ResultReadsBack(c, event.id, event.toolName, text);
    }
  }

  // ---- One frame, one emission ----

  lemma {:induction false} FramesAreSent(out: seq<Emission>, i: nat)
    requires i < |out|
    ensures Indices(FramesOf(out[i])) <= Indices(Sent(out))
  {
    var last := |out| - 1;
    SentSnoc(out[..last], out[last]);
    assert out == out[..last] + [out[last]];
    if i == last {
    } else {
      FramesAreSent(out[..last], i);
    }
  }

  lemma NoRepeatApart(a: seq<Frame>, b: seq<Frame>)
    requires NoRepeat(a + b)
    ensures NoRepeat(a) && Indices(a) !! Indices(b)
  {
    assert forall j :: 0 <= j < |a| ==> (a + b)[j] == a[j];
    forall j, k | 0 <= j < |a| && 0 <= k < |b| ensures a[j].index != b[k].index {
      assert (a + b)[j] == a[j] && (a + b)[|a| + k] == b[k];
    }
  }

  lemma {:induction false} LeavesOnce(out: seq<Emission>, i: nat, j: nat, index: nat)
    requires NoRepeat(Sent(out)) && i < |out| && j < |out|
    requires index in Indices(FramesOf(out[i])) && index in Indices(FramesOf(out[j]))
    ensures i == j
  {
    var last := |out| - 1;
    var front := out[..last];
    NoRepeatApart(Sent(front), FramesOf(out[last]));
    if i < last && j < last {
      LeavesOnce(front, i, j, index);
    } else if i < last {
      FramesAreSent(front, i);
      assert false;
    } else if j < last {
      FramesAreSent(front, j);
      assert false;
    }
  }

  // ---- The whole path ----

  /** Redacting text yields text. */
  predicate YieldsText(c: Codec, event: AgentEvent, text: Bytes) {
    RewritableText(event).Some? && c.isText(RewritableText(event).value) ==> c.isText(text)
  }

  /** The policy answers with decisions, lifted; redacting text yields text. */
  ghost predicate Decides(o: Oracles, c: Codec, decide: (nat, AgentEvent) -> PolicyDecision) {
    && (forall n, event :: o.policy(n, event) == LiftDecision(event, decide(n, event)))
    && (forall n, event :: decide(n, event).RedactText? ==> YieldsText(c, event, decide(n, event).text))
  }

  /**
   Exactly one emission rests on the record: in place of the frame that carried the event it puts bytes that a fresh
   decoder and the mapper read as the same message or tool result with the redacted text, and that frame is in no
   other emission.
   */
  predicate ReplacedOnWire(env: Env, c: Codec, mode: MalformedMode, r: Stream, n: nat, text: Bytes, i: nat)
    requires n < |r.trail.audit|
  {
    var event := r.trail.audit[n].event;
    && OnlyOn(r.out, i, n)
    && r.out[i].Rewritten? && IsWireFormOf(env, r.out[i].frame, event)
    && RedactedFragment(event, text).Some? && ReadsBackAs(c, mode, r.out[i].bytes, RedactedFragment(event, text).value)
    && (forall j: nat :: j < |r.out| && r.out[i].frame.index in Indices(FramesOf(r.out[j])) ==> j == i)
  }

  /** No emission rests on the record, and the frames that carried the event are in none. */
  predicate KeptOffWire(env: Env, r: Stream, n: nat, frames: seq<Frame>)
    requires n < |r.trail.audit|
  {
    && (forall i: nat :: i < |r.out| ==> !RestsOn(r.out, i, n))
    && WithheldAs(env, r.log, r.lost, r.trail.audit[n], n, frames)
    && (forall i, k :: 0 <= i < |r.out| && 0 <= k < |frames| ==> frames[k].index !in Indices(FramesOf(r.out[i])))
  }

  ghost predicate RedactionHonoured(env: Env, c: Codec, mode: MalformedMode, r: Stream, n: nat, text: Bytes)
    requires n < |r.trail.audit|
  {
    var event := r.trail.audit[n].event;
    if RedactedFragment(event, text).Some? && !Screened(env.oracles, n, event)
    then exists i: nat :: ReplacedOnWire(env, c, mode, r, n, text, i)
    else exists frames :: KeptOffWire(env, r, n, frames)
  }

  /** A verdict that replaces is carried out by exactly one emission. */
  lemma ReplacementLeaves(env: Env, c: Codec, mode: MalformedMode, r: Stream, n: nat, text: Bytes)
    requires SpeaksAgUi(env, c, mode) && GoodCodec(c) && n < |r.trail.audit|
    requires YieldsText(c, r.trail.audit[n].event, text)
    requires AllJustified(env, r.trail.audit, r.out) && EmittedRecords(r.out) == PassingRecords(r.trail.audit)
    requires NoRepeat(Sent(r.out)) && RedactedFragment(r.trail.audit[n].event, text).Some?
    requires r.trail.audit[n].verdict == LiftDecision(r.trail.audit[n].event, RedactText(text))
    ensures exists i: nat :: ReplacedOnWire(env, c, mode, r, n, text, i)
  {
    var audit, out := r.trail.audit, r.out;
    var i := PassingEmitsOnce(audit, out, n);
    ReplacementIsRewritten(env, c, mode, audit, out[i], text);
    forall j: nat | j < |out| && out[i].frame.index in Indices(FramesOf(out[j])) ensures j == i {
      assert [out[i].frame][0].index in Indices(FramesOf(out[i]));
      LeavesOnce(out, i, j, out[i].frame.index);
    }
    assert ReplacedOnWire(env, c, mode, r, n, text, i);
  }

  lemma ReplacementIsRewritten(env: Env, c: Codec, mode: MalformedMode, audit: seq<AuditRecord>, e: Emission,
                               text: Bytes)
    requires SpeaksAgUi(env, c, mode) && GoodCodec(c) && Justified(env, audit, e)
    requires (e.Cleared? || e.Rewritten?) && e.record < |audit| && YieldsText(c, audit[e.record].event, text)
    requires RedactedFragment(audit[e.record].event, text).Some?
    requires audit[e.record].verdict == LiftDecision(audit[e.record].event, RedactText(text))
    ensures e.Rewritten? && IsWireFormOf(env, e.frame, audit[e.record].event)
    ensures ReadsBackAs(c, mode, e.bytes, RedactedFragment(audit[e.record].event, text).value)
  {
    var event := audit[e.record].event;
    var replacement := audit[e.record].verdict.replacement;
    assert env.render(replacement) == Render(c, replacement);
    WireFormIsText(env, c, mode, if e.Rewritten? then e.frame else e.frames[0], event);
    RenderedReadsBack(c, mode, event, text);
  }

  /** A denial is carried out by no emission at all. */
  lemma DenialStaysOff(env: Env, r: Stream, n: nat)
    requires n < |r.trail.audit| && r.trail.audit[n].verdict.Deny?
    requires CarriedOut(env, r.log, r.lost, r.trail.audit, n) && r.lost.Keys !! Indices(Sent(r.out))
    requires EmittedRecords(r.out) == PassingRecords(r.trail.audit)
    ensures exists frames :: KeptOffWire(env, r, n, frames)
  {
    forall i: nat | i < |r.out| ensures !RestsOn(r.out, i, n) {
      NotPassingEmitsNothing(r.trail.audit, r.out, n, i);
    }
    var frames: seq<Frame> :| WithheldAs(env, r.log, r.lost, r.trail.audit[n], n, frames);
    forall i, k | 0 <= i < |r.out| && 0 <= k < |frames| ensures frames[k].index !in Indices(FramesOf(r.out[i])) {
      FramesAreSent(r.out, i);
    }
    assert KeptOffWire(env, r, n, frames);
  }

  /**
   Redaction reaches the wire, for any policy that decides and any run: a redact decision on a message or a tool result
   that the URL screen lets through is carried out by exactly one emission, which puts the redacted text in place of
   the original frame, and that frame leaves nowhere else. On any other event nothing leaves: the frames that were the
   event are lost on account of that very decision.
   */
  lemma RedactionReachesTheWire(env: Env, c: Codec, mode: MalformedMode, decide: (nat, AgentEvent) -> PolicyDecision,
                                upstream: seq<Result<Bytes, Reason>>)
    requires ValidEnv(env) && SpeaksAgUi(env, c, mode) && GoodCodec(c) && Decides(env.oracles, c, decide)
    ensures var r := InspectUpstream(env, upstream);
      forall n: nat :: n < |r.trail.audit| && decide(n, r.trail.audit[n].event).RedactText? ==>
        RedactionHonoured(env, c, mode, r, n, decide(n, r.trail.audit[n].event).text)
  {
    var r := InspectUpstream(env, upstream);
    RelayedWasJudged(env, upstream);
    OutputMirrorsAudit(env, upstream);
    DenialsAreCarriedOut(env, upstream);
    OutputIsBounded(env, upstream);
    forall n: nat | n < |r.trail.audit| && decide(n, r.trail.audit[n].event).RedactText?
      ensures RedactionHonoured(env, c, mode, r, n, decide(n, r.trail.audit[n].event).text)
    {
      var event := r.trail.audit[n].event;
      assert CarriedOut(env, r.log, r.lost, r.trail.audit, n);
      assert env.oracles.policy(n, event) == LiftDecision(event, decide(n, event));
      if RedactedFragment(event, decide(n, event).text).Some? && !Screened(env.oracles, n, event) {
        ReplacementLeaves(env, c, mode, r, n, decide(n, event).text);
      } else {
        DenialStaysOff(env, r, n);
      }
    }
  }
}

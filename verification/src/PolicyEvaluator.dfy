/**
 The rules of the policy context applied to one event, with literal secret markers, and what that means for everything
 a run relays.
 */
module PolicyEvaluator {
  import opened Prelude
  import opened Inspection
  import opened RunMachine
  import opened Judging
  import opened Streaming
  import opened StreamSafety
  import opened StreamDenials
  import opened AgUi
  import opened Masking
  import opened Redaction

  /** Tool authorisation with its argument rules, the rules on results, and the secret markers. */
  datatype Ruleset = Ruleset(
    toolRule: (Bytes, Bytes) -> Option<Reason>,
    resultRule: (Option<Bytes>, Bytes) -> Option<Reason>,
    secrets: seq<Bytes>)

  const STATE_SECRET: Reason := "state mutation contains a secret pattern that cannot be masked in place"

  function Checked(rule: Option<Reason>, otherwise: PolicyDecision): PolicyDecision {
    if rule.Some? then Forbid(rule.value) else otherwise
  }

  function Evaluate(rules: Ruleset, event: AgentEvent): PolicyDecision
    requires Markers(rules.secrets)
  {
    match event
    case ToolCall(_, name, arguments) => Checked(rules.toolRule(name, arguments), Permit)
    case ToolResult(_, name, content) => Checked(rules.resultRule(name, content), Redacting(rules.secrets, content))
    case MessageChunk(_, text) => Redacting(rules.secrets, text)
    case StateMutated(mutation) => if Detects(rules.secrets, mutation.payload) then Forbid(STATE_SECRET) else Permit
    case _ => Permit
  }

  /** The policy evaluates a ruleset, possibly another one at each judgement. */
  ghost predicate Evaluates(o: Oracles, rules: nat -> Ruleset) {
    && (forall n :: Markers(rules(n).secrets))
    && (forall n, event :: o.policy(n, event) == LiftDecision(event, Evaluate(rules(n), event)))
  }

  // ---- Masking text by text ----

  predicate SameBytes(a: Bytes, b: Bytes) {
    |a| == |b| && forall i :: 0 <= i < |a| ==> Same(a[i], b[i])
  }

  predicate Joins(c: Codec, a: Bytes, b: Bytes) {
    c.isText(a) && c.isText(b) ==> c.isText(a + b)
  }

  predicate Splits(c: Codec, a: Bytes, n: Bytes, b: Bytes, needle: Bytes) {
    c.isText(a + n + b) && c.isText(needle) && needle != [] && SameBytes(n, needle) ==> c.isText(a) && c.isText(b)
  }

  /** What UTF-8 guarantees: text joins to text, and where text occurs in text, what stands around it is text. */
  ghost predicate SelfSynchronising(c: Codec) {
    && c.isText(MASK)
    && (forall a, b :: Joins(c, a, b))
    && (forall a, n, b, needle :: Splits(c, a, n, b, needle))
  }

  predicate AllText(c: Codec, texts: seq<Bytes>) {
    forall i :: 0 <= i < |texts| ==> c.isText(texts[i])
  }

  /** What stands before and after an occurrence is text. */
  lemma AroundIsText(c: Codec, text: Bytes, needle: Bytes, from: nat, start: nat)
    requires SelfSynchronising(c) && c.isText(needle) && needle != []
    requires from <= start && OccursAt(text, needle, start) && c.isText(text[from..])
    ensures c.isText(text[from..start]) && c.isText(text[start + |needle|..])
  {
    var end := start + |needle|;
    assert text[from..] == text[from..start] + text[start..end] + text[end..];
    forall i | 0 <= i < |needle| ensures Same(text[start..end][i], needle[i]) {
      assert text[start..end][i] == text[start + i];
    }
    assert Splits(c, text[from..start], text[start..end], text[end..], needle);
  }

  lemma {:induction false} MaskedIsText(c: Codec, text: Bytes, needle: Bytes, from: nat)
    requires SelfSynchronising(c) && c.isText(needle) && needle != [] && from <= |text| && c.isText(text[from..])
    ensures c.isText(MaskedFrom(text, needle, from))
    decreases |text| - from
  {
    var i := NextOccurrence(text, needle, from);
    if i.None? {
    } else {
      var gap, rest := text[from..i.value], MaskedFrom(text, needle, i.value + |needle|);
      NextIsFirst(text, needle, from);
      AroundIsText(c, text, needle, from, i.value);
      MaskedIsText(c, text, needle, i.value + |needle|);
      assert Joins(c, gap, MASK) && Joins(c, gap + MASK, rest);
    }
  }

  lemma {:induction false} RedactedIsText(c: Codec, secrets: seq<Bytes>, text: Bytes)
    requires SelfSynchronising(c) && Markers(secrets) && AllText(c, secrets) && c.isText(text)
    ensures c.isText(AfterAll(secrets, text))
  {
    if secrets == [] {
    } else {
      var front := secrets[..|secrets| - 1];
      RedactedIsText(c, front, text);
      assert AfterAll(front, text)[0..] == AfterAll(front, text);
      MaskedIsText(c, AfterAll(front, text), secrets[|secrets| - 1], 0);
    }
  }

  // ---- What leaves ----

  /** The text of a fragment that the rules look for secrets in. */
  function SearchedText(f: Fragment): Option<Bytes> {
    match f
    case MessageFragment(_, text) => Some(text)
    case ToolResultFragment(_, content) => Some(content)
    case StateFragment(mutation) => Some(mutation.payload)
    case _ => None
  }

  /** No marker at all is in what the frame carries. */
  predicate FreeOf(c: Codec, mode: MalformedMode, secrets: seq<Bytes>, frame: Frame) {
    var d := Decode(c, mode, frame.event.data);
    d.Inspect? && SearchedText(d.fragment).Some? ==> !Detects(secrets, SearchedText(d.fragment).value)
  }

  /** No marker that masking always removes is in the text. */
  predicate Masked(secrets: seq<Bytes>, text: Bytes) {
    forall k :: 0 <= k < |secrets| && MaskProof(secrets[k]) ==> !Occurs(text, secrets[k])
  }

  predicate ReadsMasked(c: Codec, mode: MalformedMode, secrets: seq<Bytes>, bytes: Bytes, f: Fragment) {
    ReadsBackAs(c, mode, bytes, f) && SearchedText(f).Some? && Masked(secrets, SearchedText(f).value)
  }

  /** What a client can read of one emission holds no secret of the rules it was judged by. */
  ghost predicate KeepsSecrets(c: Codec, mode: MalformedMode, rules: nat -> Ruleset, e: Emission) {
    match e
    case Passed(frame) => !Decode(c, mode, frame.event.data).Inspect?
    case Cleared(n, frames) => forall k :: 0 <= k < |frames| ==> FreeOf(c, mode, rules(n).secrets, frames[k])
    case Rewritten(n, _, bytes) => exists f :: ReadsMasked(c, mode, rules(n).secrets, bytes, f)
    case Failed(_) => true
  }

  lemma RedactedIsMasked(secrets: seq<Bytes>, text: Bytes)
    requires Markers(secrets)
    ensures Masked(secrets, AfterAll(secrets, text))
  {
    forall k | 0 <= k < |secrets| && MaskProof(secrets[k]) ensures !Occurs(AfterAll(secrets, text), secrets[k]) {
      RedactedMarkerIsGone(secrets, text, k);
    }
  }

  /** A verdict that lets something out is the policy's. */
  lemma PassingIsPolicys(env: Env, audit: seq<AuditRecord>, n: nat, rules: nat -> Ruleset)
    requires n < |audit| && Ruled(env, audit, n) && Passes(audit[n].verdict) && Evaluates(env.oracles, rules)
    ensures Markers(rules(n).secrets)
    ensures audit[n].verdict == LiftDecision(audit[n].event, Evaluate(rules(n), audit[n].event))
  {
    assert env.oracles.policy(n, audit[n].event) == LiftDecision(audit[n].event, Evaluate(rules(n), audit[n].event));
  }

  /** The frame is part of a tool call. */
  predicate IsCallFrame(env: Env, frame: Frame) {
    var d := env.decode(frame.event.data);
    d.Inspect? && (d.fragment.ToolCallStarted? || d.fragment.ToolCallArgs? || d.fragment.ToolCallEnded?)
  }

  lemma AssembledFromCallFrames(env: Env, frames: seq<Frame>, id: Id, call: ToolCallBuffer, k: nat)
    requires Assembles(env, frames, id, call) && k < |frames|
    ensures IsCallFrame(env, frames[k])
  {
    assert k > 0 ==> IsArgs(env, frames[k], id);
  }

  lemma JudgedFromCallFrames(env: Env, frames: seq<Frame>, event: AgentEvent, k: nat)
    requires event.ToolCall? && IsJudged(env, frames, event) && k < |frames|
    ensures IsCallFrame(env, frames[k])
  {
    var call := ToolCallBuffer(event.name, event.arguments);
    if Assembles(env, frames, event.id, call) {
      AssembledFromCallFrames(env, frames, event.id, call, k);
    } else if k < |frames| - 1 {
      AssembledFromCallFrames(env, frames[..|frames| - 1], event.id, call, k);
    }
  }

  /** The frames of a tool call carry none of the texts secrets are looked for in. */
  lemma CallFrameIsFree(env: Env, c: Codec, mode: MalformedMode, secrets: seq<Bytes>, frame: Frame)
    requires SpeaksAgUi(env, c, mode) && IsCallFrame(env, frame)
    ensures FreeOf(c, mode, secrets, frame)
  {
    assert env.decode(frame.event.data) == Decode(c, mode, frame.event.data);
  }

  lemma ClearedKeepsSecrets(env: Env, c: Codec, mode: MalformedMode, rules: nat -> Ruleset, audit: seq<AuditRecord>,
                            e: Emission, k: nat)
    requires SpeaksAgUi(env, c, mode) && GoodCodec(c) && SelfSynchronising(c) && Evaluates(env.oracles, rules)
    requires e.Cleared? && Justified(env, audit, e) && Ruled(env, audit, e.record) && k < |e.frames|
    requires AllText(c, rules(e.record).secrets)
    ensures FreeOf(c, mode, rules(e.record).secrets, e.frames[k])
  {
    var event, secrets := audit[e.record].event, rules(e.record).secrets;
    PassingIsPolicys(env, audit, e.record, rules);
    if event.ToolCall? {
      JudgedFromCallFrames(env, e.frames, event, k);
      CallFrameIsFree(env, c, mode, secrets, e.frames[k]);
    } else {
      assert env.decode(e.frames[0].event.data) == Decode(c, mode, e.frames[0].event.data);
      if Evaluate(rules(e.record), event).RedactText? {
        RedactionIsRewritten(env, c, mode, rules, audit, e);
        assert false;
      }
    }
  }

  /** A redaction leaves as the masked text, which is text. */
  lemma RedactionIsRewritten(env: Env, c: Codec, mode: MalformedMode, rules: nat -> Ruleset, audit: seq<AuditRecord>,
                             e: Emission)
    requires SpeaksAgUi(env, c, mode) && GoodCodec(c) && SelfSynchronising(c) && (e.Cleared? || e.Rewritten?)
    requires Justified(env, audit, e) && Markers(rules(e.record).secrets) && AllText(c, rules(e.record).secrets)
    requires Evaluate(rules(e.record), audit[e.record].event).RedactText?
    requires audit[e.record].verdict
          == LiftDecision(audit[e.record].event, Evaluate(rules(e.record), audit[e.record].event))
    ensures var event := audit[e.record].event;
      && e.Rewritten? && RewritableText(event).Some?
      && ReadsBackAs(c, mode, e.bytes,
                     RedactedFragment(event, AfterAll(rules(e.record).secrets, RewritableText(event).value)).value)
  {
    var event, secrets := audit[e.record].event, rules(e.record).secrets;
    var text := RewritableText(event).value;
    if c.isText(text) { RedactedIsText(c, secrets, text); }
    ReplacementIsRewritten(env, c, mode, audit, e, AfterAll(secrets, text));
  }

  lemma MaskedFragment(c: Codec, mode: MalformedMode, secrets: seq<Bytes>, bytes: Bytes, event: AgentEvent)
    requires Markers(secrets) && RewritableText(event).Some?
    requires ReadsBackAs(c, mode, bytes, RedactedFragment(event, AfterAll(secrets, RewritableText(event).value)).value)
    ensures exists f :: ReadsMasked(c, mode, secrets, bytes, f)
  {
    var masked := AfterAll(secrets, RewritableText(event).value);
    RedactedIsMasked(secrets, RewritableText(event).value);
    assert ReadsMasked(c, mode, secrets, bytes, RedactedFragment(event, masked).value);
  }

  lemma RewrittenKeepsSecrets(env: Env, c: Codec, mode: MalformedMode, rules: nat -> Ruleset, audit: seq<AuditRecord>,
                              e: Emission)
    requires SpeaksAgUi(env, c, mode) && GoodCodec(c) && SelfSynchronising(c) && Evaluates(env.oracles, rules)
    requires e.Rewritten? && Justified(env, audit, e) && Ruled(env, audit, e.record)
    requires AllText(c, rules(e.record).secrets)
    ensures KeepsSecrets(c, mode, rules, e)
  {
    var event, secrets := audit[e.record].event, rules(e.record).secrets;
    PassingIsPolicys(env, audit, e.record, rules);
    RedactionIsRewritten(env, c, mode, rules, audit, e);
    MaskedFragment(c, mode, secrets, e.bytes, event);
  }

  /**
   From the rules to the wire, for every upstream and every run: in no message, tool result or state mutation that
   leaves does a client read a marker that the mask can neither contain nor complete, and where the original frames
   leave there is no marker at all. What leaves without a judgement carries no such text.
   */
  lemma NoSecretLeaves(env: Env, c: Codec, mode: MalformedMode, rules: nat -> Ruleset,
                       upstream: seq<Result<Bytes, Reason>>)
    requires ValidEnv(env) && SpeaksAgUi(env, c, mode) && GoodCodec(c) && SelfSynchronising(c)
    requires Evaluates(env.oracles, rules) && forall n :: AllText(c, rules(n).secrets)
    ensures forall i :: 0 <= i < |InspectUpstream(env, upstream).out| ==>
              KeepsSecrets(c, mode, rules, InspectUpstream(env, upstream).out[i])
  {
    var r := InspectUpstream(env, upstream);
    RelayedWasJudged(env, upstream);
    DenialsAreCarriedOut(env, upstream);
    forall i | 0 <= i < |r.out| ensures KeepsSecrets(c, mode, rules, r.out[i]) {
      EmissionKeepsSecrets(env, c, mode, rules, r, r.out[i]);
    }
  }

  lemma EmissionKeepsSecrets(env: Env, c: Codec, mode: MalformedMode, rules: nat -> Ruleset, r: Stream, e: Emission)
    requires SpeaksAgUi(env, c, mode) && GoodCodec(c) && SelfSynchronising(c) && Evaluates(env.oracles, rules)
    requires Justified(env, r.trail.audit, e) && forall n :: AllText(c, rules(n).secrets)
    requires forall n: nat :: n < |r.trail.audit| ==> CarriedOut(env, r.log, r.lost, r.trail.audit, n)
    ensures KeepsSecrets(c, mode, rules, e)
  {
    match e {
      case Passed(frame) =>
        assert env.decode(frame.event.data) == Decode(c, mode, frame.event.data);
      case Cleared(n, frames) =>
        assert CarriedOut(env, r.log, r.lost, r.trail.audit, n);
        forall k | 0 <= k < |frames| ensures FreeOf(c, mode, rules(n).secrets, frames[k]) {
          ClearedKeepsSecrets(env, c, mode, rules, r.trail.audit, e, k);
        }
      case Rewritten(n, _, _) =>
        assert CarriedOut(env, r.log, r.lost, r.trail.audit, n);
        RewrittenKeepsSecrets(env, c, mode, rules, r.trail.audit, e);
      case Failed(_) =>
    }
  }
}

/** The AG-UI wire mapping: JSON events to fragments, replacement events back to JSON. */
module AgUi {
  import opened Prelude
  import opened Inspection
  import opened Streaming
  import Sse

  datatype Json =
    | Null
    | Boolean(value: bool)
    | Number(digits: Bytes)
    | Text(text: Bytes)
    | Array(items: seq<Json>)
    | Object(fields: map<string, Json>)

  /** JSON reading and compact printing, what counts as a blank identifier, and which bytes are text (UTF-8). */
  datatype Codec = Codec(parse: Bytes -> Option<Json>, show: Json -> Bytes, isBlank: Bytes -> bool,
                         isText: Bytes -> bool)

  /** The event has a single-frame form and its strings are text. */
  predicate Speakable(c: Codec, event: AgentEvent) {
    match event
    case MessageChunk(message, text) => c.isText(message) && c.isText(text)
    case ToolResult(id, _, content) => c.isText(id) && c.isText(content)
    case _ => false
  }

  /** Printed events can be read back and fit one SSE line, and the strings that reading yields are text. */
  ghost predicate GoodCodec(c: Codec) {
    && (forall event :: Speakable(c, event) ==> ReadsBack(c, ToEvent(event).value))
    && (forall data, field :: c.parse(data).Some? && GetText(c.parse(data).value, field).Ok? ==>
          c.isText(GetText(c.parse(data).value, field).value))
  }

  predicate ReadsBack(c: Codec, v: Json) {
    c.parse(c.show(v)) == Some(v) && Sse.OneLine(c.show(v))
  }

  const RUN_STARTED := Ascii("RUN_STARTED")
  const RUN_FINISHED := Ascii("RUN_FINISHED")
  const RUN_ERROR := Ascii("RUN_ERROR")
  const STEP_STARTED := Ascii("STEP_STARTED")
  const STEP_FINISHED := Ascii("STEP_FINISHED")
  const TEXT_MESSAGE_CONTENT := Ascii("TEXT_MESSAGE_CONTENT")
  const TEXT_MESSAGE_CHUNK := Ascii("TEXT_MESSAGE_CHUNK")
  const TOOL_CALL_START := Ascii("TOOL_CALL_START")
  const TOOL_CALL_ARGS := Ascii("TOOL_CALL_ARGS")
  const TOOL_CALL_END := Ascii("TOOL_CALL_END")
  const TOOL_CALL_RESULT := Ascii("TOOL_CALL_RESULT")
  const STATE_SNAPSHOT := Ascii("STATE_SNAPSHOT")
  const STATE_DELTA := Ascii("STATE_DELTA")
  const RAW := Ascii("RAW")
  const CUSTOM := Ascii("CUSTOM")
  const REASONING_ENCRYPTED_VALUE := Ascii("REASONING_ENCRYPTED_VALUE")

  datatype AgUiError = NotAnObject | MissingType | MissingField(field: string) | BlankField(field: string)

  /** The event type is known but the event cannot be inspected. */
  predicate IsMalformedKnown(e: AgUiError) {
    e.MissingField? || e.BlankField?
  }

  function Get(v: Json, field: string): Option<Json> {
    if v.Object? && field in v.fields then Some(v.fields[field]) else None
  }

  function GetText(v: Json, field: string): Result<Bytes, AgUiError> {
    var f := Get(v, field);
    if f.Some? && f.value.Text? then Ok(f.value.text) else Err(MissingField(field))
  }

  /** A correlating identifier: present and not blank. */
  function GetId(c: Codec, v: Json, field: string): Result<Id, AgUiError> {
    var text := GetText(v, field);
    if text.Err? then text else if c.isBlank(text.value) then Err(BlankField(field)) else text
  }

  // ---- State deltas ----

  datatype Measure = Measure(depth: nat, valueBytes: nat)

  const SLASH: byte := 47

  /** The reference tokens of a JSON Pointer: its slashes. */
  function PointerDepth(path: Bytes): nat {
    if path == [] then 0 else PointerDepth(path[..|path| - 1]) + if path[|path| - 1] == SLASH then 1 else 0
  }

  function Max(a: nat, b: nat): nat {
    if a < b then b else a
  }

  /** What one patch operation contributes, or why it is not one. */
  function MeasureOp(c: Codec, op: Json): Result<Measure, AgUiError> {
    if !op.Object? then Err(MissingField("delta"))
    else
      var kind := GetText(op, "op");
      if kind.Err? then Err(kind.error)
      else if kind.value !in {Ascii("add"), Ascii("remove"), Ascii("replace"), Ascii("move"), Ascii("copy"),
                               Ascii("test")}
      then Err(MissingField("op"))
      else
        var path := GetText(op, "path");
        if path.Err? then Err(path.error)
        else if kind.value in {Ascii("add"), Ascii("replace"), Ascii("test")} then
          var value := Get(op, "value");
          if value.None? then Err(MissingField("value"))
          else Ok(Measure(PointerDepth(path.value), |c.show(value.value)|))
        else if kind.value in {Ascii("move"), Ascii("copy")} then
          var from := GetText(op, "from");
          if from.Err? then Err(from.error)
          else Ok(Measure(Max(PointerDepth(path.value), PointerDepth(from.value)), 0))
        else Ok(Measure(PointerDepth(path.value), 0))
  }

  /** The first operation that is not well-formed. */
  function FirstError(c: Codec, ops: seq<Json>): Option<AgUiError> {
    if ops == [] then None
    else if MeasureOp(c, ops[0]).Err? then Some(MeasureOp(c, ops[0]).error)
    else FirstError(c, ops[1..])
  }

  function WorstOf(c: Codec, ops: seq<Json>): Measure {
    if ops == [] then Measure(0, 0)
    else
      var before := WorstOf(c, ops[..|ops| - 1]);
      var last := MeasureOp(c, ops[|ops| - 1]);
      if last.Err? then before
      else Measure(Max(before.depth, last.value.depth), Max(before.valueBytes, last.value.valueBytes))
  }

  function MeasureDelta(c: Codec, delta: Json): Result<Measure, AgUiError> {
    if !delta.Array? then Err(MissingField("delta"))
    else
      var error := FirstError(c, delta.items);
      if error.Some? then Err(error.value) else Ok(WorstOf(c, delta.items))
  }

  lemma {:induction false} FirstErrorSnoc(c: Codec, ops: seq<Json>, op: Json)
    ensures FirstError(c, ops + [op]) ==
              if FirstError(c, ops).Some? then FirstError(c, ops)
              else if MeasureOp(c, op).Err? then Some(MeasureOp(c, op).error) else None
    decreases |ops|
  {
    if ops == [] {
      assert ops + [op] == [op];
    } else {
      assert (ops + [op])[1..] == ops[1..] + [op];
      FirstErrorSnoc(c, ops[1..], op);
    }
  }

  /** `measure_delta`: one pass with two running maxima, left at the first malformed operation. */
  method MeasureDeltaLoop(c: Codec, delta: Json) returns (r: Result<Measure, AgUiError>)
    ensures r == MeasureDelta(c, delta)
  {
    if !delta.Array? {
      return Err(MissingField("delta"));
    }
    var ops := delta.items;
    var maxPathDepth, maxValueBytes := 0, 0;
    for i := 0 to |ops|
      invariant FirstError(c, ops[..i]) == None
      invariant WorstOf(c, ops[..i]) == Measure(maxPathDepth, maxValueBytes)
    {
      var measured := MeasureOp(c, ops[i]);
      assert ops[..i + 1] == ops[..i] + [ops[i]] && ops[..i + 1][..i] == ops[..i];
      FirstErrorSnoc(c, ops[..i], ops[i]);
      if measured.Err? {
        FirstErrorPrefix(c, ops, i + 1);
        return Err(measured.error);
      }
      maxPathDepth := Max(maxPathDepth, measured.value.depth);
      maxValueBytes := Max(maxValueBytes, measured.value.valueBytes);
    }
    assert ops[..|ops|] == ops;
    r := Ok(Measure(maxPathDepth, maxValueBytes));
  }

  lemma {:induction false} FirstErrorPrefix(c: Codec, ops: seq<Json>, n: nat)
    requires n <= |ops| && FirstError(c, ops[..n]).Some?
    ensures FirstError(c, ops) == FirstError(c, ops[..n])
    decreases n
  {
    assert n > 0;
    assert ops[..n][1..] == ops[1..][..n - 1];
    if MeasureOp(c, ops[0]).Ok? { FirstErrorPrefix(c, ops[1..], n - 1); }
  }

  /** The measured bounds cover every operation. */
  lemma {:induction false} MeasureCovers(c: Codec, ops: seq<Json>, i: nat)
    requires FirstError(c, ops) == None && i < |ops|
    ensures MeasureOp(c, ops[i]).Ok?
    ensures MeasureOp(c, ops[i]).value.depth <= WorstOf(c, ops).depth
    ensures MeasureOp(c, ops[i]).value.valueBytes <= WorstOf(c, ops).valueBytes
    decreases |ops|
  {
    var n := |ops| - 1;
    assert ops == ops[..n] + [ops[n]];
    FirstErrorSnoc(c, ops[..n], ops[n]);
    if i == n {
    } else {
      MeasureCovers(c, ops[..n], i);
    }
  }

  /** Some operation is as deep, and some has as large a value. */
  lemma {:induction false} MeasureAttained(c: Codec, ops: seq<Json>) returns (deepest: nat, largest: nat)
    requires FirstError(c, ops) == None && ops != []
    ensures deepest < |ops| && MeasureOp(c, ops[deepest]).Ok? && largest < |ops| && MeasureOp(c, ops[largest]).Ok?
    ensures MeasureOp(c, ops[deepest]).value.depth == WorstOf(c, ops).depth
    ensures MeasureOp(c, ops[largest]).value.valueBytes == WorstOf(c, ops).valueBytes
    decreases |ops|
  {
    var n := |ops| - 1;
    assert ops == ops[..n] + [ops[n]];
    FirstErrorSnoc(c, ops[..n], ops[n]);
    deepest, largest := n, n;
    if n == 0 {
    } else {
      var before, last := WorstOf(c, ops[..n]), MeasureOp(c, ops[n]).value;
      var d, l := MeasureAttained(c, ops[..n]);
      if before.depth > last.depth { deepest := d; }
      if before.valueBytes > last.valueBytes { largest := l; }
    }
  }

  /** The measured bounds cover every operation, and some operation meets each of them. */
  lemma {:induction false} MeasureIsTight(c: Codec, ops: seq<Json>)
    requires FirstError(c, ops) == None
    ensures forall i :: 0 <= i < |ops| ==> MeasureOp(c, ops[i]).Ok?
    ensures forall i :: 0 <= i < |ops| ==>
              && MeasureOp(c, ops[i]).value.depth <= WorstOf(c, ops).depth
              && MeasureOp(c, ops[i]).value.valueBytes <= WorstOf(c, ops).valueBytes
    ensures ops != [] ==> exists i :: 0 <= i < |ops| && MeasureOp(c, ops[i]).value.depth == WorstOf(c, ops).depth
    ensures ops != [] ==>
              exists i :: 0 <= i < |ops| && MeasureOp(c, ops[i]).value.valueBytes == WorstOf(c, ops).valueBytes
  {
    forall i | 0 <= i < |ops|
      ensures MeasureOp(c, ops[i]).Ok? && MeasureOp(c, ops[i]).value.depth <= WorstOf(c, ops).depth
           && MeasureOp(c, ops[i]).value.valueBytes <= WorstOf(c, ops).valueBytes
    {
      MeasureCovers(c, ops, i);
    }
    if ops != [] {
      var deepest, largest := MeasureAttained(c, ops);
    }
  }

  // ---- Events ----

  function Tool(c: Codec, v: Json, f: Id -> Fragment): Result<Option<Fragment>, AgUiError> {
    var id := GetId(c, v, "toolCallId");
    if id.Err? then Err(id.error) else Ok(Some(f(id.value)))
  }

  function ToolText(c: Codec, v: Json, field: string, f: (Id, Bytes) -> Fragment): Result<Option<Fragment>, AgUiError> {
    var id := GetId(c, v, "toolCallId");
    if id.Err? then Err(id.error)
    else
      var text := GetText(v, field);
      if text.Err? then Err(text.error) else Ok(Some(f(id.value, text.value)))
  }

  function OfRun(p: LifecyclePhase): Result<Option<Fragment>, AgUiError> {
    Ok(Some(LifecycleFragment(p)))
  }

  /** One parsed event as a fragment; nothing for event types the proxy does not inspect. */
  function ToFragment(c: Codec, v: Json): Result<Option<Fragment>, AgUiError> {
    if !v.Object? then Err(NotAnObject)
    else
      var kind := GetText(v, "type");
      if kind.Err? then Err(MissingType)
      else KnownFragment(c, v, kind.value)
  }

  function KnownFragment(c: Codec, v: Json, kind: Bytes): Result<Option<Fragment>, AgUiError> {
    if kind == TEXT_MESSAGE_CONTENT || kind == TEXT_MESSAGE_CHUNK then
      var message := GetId(c, v, "messageId");
      if message.Err? then Err(message.error)
      else
        var text := GetText(v, "delta");
        if text.Err? then Err(text.error) else Ok(Some(MessageFragment(message.value, text.value)))
    else if kind == TOOL_CALL_START then ToolText(c, v, "toolCallName", (id, name) => ToolCallStarted(id, name))
    else if kind == TOOL_CALL_ARGS then ToolText(c, v, "delta", (id, delta) => ToolCallArgs(id, delta))
    else if kind == TOOL_CALL_END then Tool(c, v, id => ToolCallEnded(id))
    else if kind == TOOL_CALL_RESULT then ToolText(c, v, "content", (id, content) => ToolResultFragment(id, content))
    else OtherFragment(c, v, kind)
  }

  function OtherFragment(c: Codec, v: Json, kind: Bytes): Result<Option<Fragment>, AgUiError> {
    if kind == RUN_STARTED then OfRun(RunStarted)
    else if kind == RUN_FINISHED then OfRun(RunFinished)
    else if kind == RUN_ERROR then OfRun(RunError)
    else if kind == STEP_STARTED || kind == STEP_FINISHED then
      var name := GetText(v, "stepName");
      if name.Err? then Err(name.error)
      else OfRun(if kind == STEP_STARTED then StepStarted(name.value) else StepFinished(name.value))
    else if kind == STATE_SNAPSHOT then
      var snapshot := Get(v, "snapshot");
      if snapshot.None? then Err(MissingField("snapshot"))
      else
        var payload := c.show(snapshot.value);
        Ok(Some(StateFragment(Snapshot(|payload|, payload))))
    else if kind == STATE_DELTA then
      var delta := Get(v, "delta");
      if delta.None? then Err(MissingField("delta"))
      else
        var measured := MeasureDelta(c, delta.value);
        if measured.Err? then Err(measured.error)
        else
          var payload := c.show(delta.value);
          Ok(Some(StateFragment(Delta(|delta.value.items|, |payload|, measured.value.depth, measured.value.valueBytes,
                                      payload))))
    else if kind == RAW then Ok(Some(OpaqueFragment(RawEvent)))
    else if kind == CUSTOM then Ok(Some(OpaqueFragment(CustomEvent)))
    else if kind == REASONING_ENCRYPTED_VALUE then Ok(Some(OpaqueFragment(EncryptedValue)))
    else Ok(None)
  }

  /** A replacement event back as JSON: only messages and tool results have a single-frame form. */
  function ToEvent(event: AgentEvent): Option<Json> {
    match event
    case MessageChunk(message, text) =>
      Some(Object(map["type" := Text(TEXT_MESSAGE_CONTENT), "messageId" := Text(message), "delta" := Text(text)]))
    case ToolResult(id, _, content) =>
      Some(Object(map["type" := Text(TOOL_CALL_RESULT), "toolCallId" := Text(id), "content" := Text(content)]))
    case _ => None
  }

  datatype MalformedMode = ForwardMalformed | DropMalformed | TerminateMalformed

  /** Classify a payload, applying the mode to known but malformed events. */
  function Decode(c: Codec, mode: MalformedMode, data: Bytes): Decoded {
    var parsed := c.parse(data);
    if parsed.None? then PassThrough
    else
      match ToFragment(c, parsed.value)
      case Ok(Some(fragment)) => Inspect(fragment)
      case Ok(None) => PassThrough
      case Err(error) =>
        if !IsMalformedKnown(error) then PassThrough
        else
          match mode
          case ForwardMalformed => PassThrough
          case DropMalformed => MalformedDrop
          case TerminateMalformed => MalformedTerminate
  }

  /** The frame a replacement is forwarded as. */
  function Render(c: Codec, event: AgentEvent): Option<Bytes> {
    var v := ToEvent(event);
    if v.None? then None else Some(Sse.Encode(c.show(v.value)))
  }
}

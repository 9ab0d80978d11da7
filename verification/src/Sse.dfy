/**
 The Server-Sent Events transport: an incremental decoder fed arbitrary chunks, and the encoder.
 Lines end at LF, with one CR before it dropped; text is taken as bytes, so the lossy UTF-8
 conversion of the source is the identity here.
 */
module Sse {
  import opened Prelude

  const LF: byte := 10
  const CR: byte := 13
  const SPACE: byte := 32
  const COLON: byte := 58
  const DATA: Bytes := [100, 97, 116, 97]
  const EVENT: Bytes := [101, 118, 101, 110, 116]
  const ID: Bytes := [105, 100]

  datatype SseEvent = SseEvent(data: Bytes, event: Option<Bytes>, id: Option<Bytes>, raw: Bytes)

  // ---- One line ----

  /** Bytes up to and including their only LF. */
  type Line = l: Bytes | l != [] && l[|l| - 1] == LF && LF !in l[..|l| - 1] witness [LF]

  /** A line without its LF, and without one CR before that. */
  function Content(line: Line): Bytes {
    var text := line[..|line| - 1];
    if text != [] && text[|text| - 1] == CR then text[..|text| - 1] else text
  }

  predicate IsBlank(line: Line) {
    Content(line) == []
  }

  /** The first position of a byte, or the length. */
  function IndexOf(b: byte, s: Bytes): (i: nat)
    ensures i <= |s|
    ensures forall j :: 0 <= j < i ==> s[j] != b
    ensures i < |s| ==> s[i] == b
  {
    if s == [] || s[0] == b then 0 else 1 + IndexOf(b, s[1..])
  }

  datatype Field = Field(name: Bytes, value: Bytes)

  /** The name before the first colon; the value after it, less one leading space. */
  function ParseField(content: Bytes): Field {
    var colon := IndexOf(COLON, content);
    if colon == |content| then Field(content, [])
    else
      var value := content[colon + 1..];
      Field(content[..colon], if value != [] && value[0] == SPACE then value[1..] else value)
  }

  /** What the line contributes: nothing when blank or a comment. */
  function LineField(line: Line): Option<Field> {
    var content := Content(line);
    if content == [] || content[0] == COLON then None else Some(ParseField(content))
  }

  // ---- What a block of lines means ----

  /** The values of the data fields, in order. */
  function DataValues(lines: seq<Line>): seq<Bytes> {
    if lines == [] then []
    else
      var last := LineField(lines[|lines| - 1]);
      DataValues(lines[..|lines| - 1]) + (if last.Some? && last.value.name == DATA then [last.value.value] else [])
  }

  /** The value of the last field with this name. */
  function LastValue(name: Bytes, lines: seq<Line>): Option<Bytes> {
    if lines == [] then None
    else
      var last := LineField(lines[|lines| - 1]);
      if last.Some? && last.value.name == name then Some(last.value.value)
      else LastValue(name, lines[..|lines| - 1])
  }

  /** Values separated by LF. */
  function Joined(values: seq<Bytes>): Bytes {
    if values == [] then []
    else if |values| == 1 then values[0]
    else Joined(values[..|values| - 1]) + [LF] + values[|values| - 1]
  }

  function Flatten(lines: seq<Bytes>): Bytes {
    if lines == [] then [] else Flatten(lines[..|lines| - 1]) + lines[|lines| - 1]
  }

  /** A block with a data field is an event; one without is not. */
  function Interpret(lines: seq<Line>): Option<SseEvent> {
    if DataValues(lines) == [] then None
    else Some(SseEvent(Joined(DataValues(lines)), LastValue(EVENT, lines), LastValue(ID, lines), Flatten(lines)))
  }

  // ---- The stream as blocks, one byte at a time ----

  /** An unfinished line, and the completed lines of the block it belongs to. */
  datatype State = State(buffer: Bytes, lines: seq<Line>)

  const FRESH := State([], [])

  datatype Fed = Fed(state: State, blocks: seq<seq<Line>>)

  /** No LF is waiting, and no completed line of the open block is blank. */
  predicate Reachable(s: State) {
    LF !in s.buffer && forall i :: 0 <= i < |s.lines| ==> !IsBlank(s.lines[i])
  }

  /** A whole line arrives; a blank one ends the block. */
  function EndLine(s: State, line: Line): Fed {
    if IsBlank(line) then Fed(FRESH, [s.lines + [line]]) else Fed(State([], s.lines + [line]), [])
  }

  function OnByte(s: State, b: byte): Fed
    requires LF !in s.buffer
  {
    if b == LF then
      assert (s.buffer + [b])[..|s.buffer|] == s.buffer;
      EndLine(s, s.buffer + [b])
    else Fed(s.(buffer := s.buffer + [b]), [])
  }

  function Then(r: Fed, b: byte): (r': Fed)
    requires LF !in r.state.buffer
    ensures LF !in r'.state.buffer
  {
    var step := OnByte(r.state, b);
    Fed(step.state, r.blocks + step.blocks)
  }

  /** The reference decoder: it sees no chunks at all. */
  function Feed(s: State, input: Bytes): (r: Fed)
    requires LF !in s.buffer
    ensures LF !in r.state.buffer
    decreases |input|
  {
    if input == [] then Fed(s, []) else Then(Feed(s, input[..|input| - 1]), input[|input| - 1])
  }

  function After(blocks: seq<seq<Line>>, r: Fed): Fed {
    Fed(r.state, blocks + r.blocks)
  }

  function Events(blocks: seq<seq<Line>>): seq<SseEvent> {
    if blocks == [] then []
    else
      var last := Interpret(blocks[|blocks| - 1]);
      Events(blocks[..|blocks| - 1]) + (if last.Some? then [last.value] else [])
  }

  lemma ThenAfter(blocks: seq<seq<Line>>, r: Fed, b: byte)
    requires LF !in r.state.buffer
    ensures Then(After(blocks, r), b) == After(blocks, Then(r, b))
  {
    var step := OnByte(r.state, b);
    assert (blocks + r.blocks) + step.blocks == blocks + (r.blocks + step.blocks);
  }

  lemma AfterAfter(a: seq<seq<Line>>, b: seq<seq<Line>>, r: Fed)
    ensures After(a, After(b, r)) == After(a + b, r)
  {
    assert a + (b + r.blocks) == (a + b) + r.blocks;
  }

  /** Pushing a then b is pushing a + b: events and final state do not depend on chunk boundaries. */
  lemma {:induction false} FeedConcat(s: State, a: Bytes, b: Bytes)
    requires LF !in s.buffer
    ensures var r := Feed(s, a); Feed(s, a + b) == After(r.blocks, Feed(r.state, b))
    decreases |b|
  {
    var r := Feed(s, a);
    if b == [] {
      assert a + b == a && r.blocks + [] == r.blocks;
    } else {
      var front, last := b[..|b| - 1], b[|b| - 1];
      assert (a + b)[..|a + b| - 1] == a + front;
      FeedConcat(s, a, front);
      ThenAfter(r.blocks, Feed(r.state, front), last);
    }
  }

  lemma {:induction false} EventsConcat(a: seq<seq<Line>>, b: seq<seq<Line>>)
    ensures Events(a + b) == Events(a) + Events(b)
    decreases |b|
  {
    if b == [] {
      assert a + b == a;
    } else {
      assert (a + b)[..|a + b| - 1] == a + b[..|b| - 1];
      EventsConcat(a, b[..|b| - 1]);
    }
  }

  lemma {:induction false} FeedWithoutNewline(s: State, text: Bytes)
    requires LF !in s.buffer && LF !in text
    ensures Feed(s, text) == Fed(s.(buffer := s.buffer + text), [])
    decreases |text|
  {
    if text == [] {
      assert s.buffer + text == s.buffer;
    } else {
      var front := text[..|text| - 1];
      FeedWithoutNewline(s, front);
      assert s.buffer + text == (s.buffer + front) + [text[|text| - 1]];
    }
  }

  lemma FeedLine(s: State, text: Bytes, line: Line)
    requires s.buffer == [] && line == text + [LF] && LF !in text
    ensures Feed(s, line) == EndLine(s, line)
  {
    assert line[..|line| - 1] == text && line[|line| - 1] == LF;
    FeedWithoutNewline(s, text);
    assert [] + text == text;
    var step := OnByte(s.(buffer := text), LF);
    assert step == EndLine(s, line);
    assert [] + step.blocks == step.blocks;
  }

  /** Unfinished bytes may as well come with the next chunk. */
  lemma FeedFrom(lines: seq<Line>, buffer: Bytes, chunk: Bytes)
    requires LF !in buffer
    ensures Feed(State([], lines), buffer + chunk) == Feed(State(buffer, lines), chunk)
  {
    FeedWithoutNewline(State([], lines), buffer);
    assert Feed(State([], lines), buffer) == Fed(State(buffer, lines), []) by { assert [] + buffer == buffer; }
    FeedConcat(State([], lines), buffer, chunk);
    AfterNothing(Feed(State(buffer, lines), chunk));
  }

  lemma AfterNothing(r: Fed)
    ensures After([], r) == r
  {
    assert [] + r.blocks == r.blocks;
  }

  lemma FeedRest(lines: seq<Line>, buffer: Bytes, blocks: seq<seq<Line>>)
    requires LF !in buffer
    ensures After(blocks, Feed(State([], lines), buffer)) == Fed(State(buffer, lines), blocks)
  {
    FeedWithoutNewline(State([], lines), buffer);
    assert [] + buffer == buffer && blocks + [] == blocks;
  }

  // ---- Nothing is lost, and blocks are what they should be ----

  function FlattenBlocks(blocks: seq<seq<Line>>): Bytes {
    if blocks == [] then [] else FlattenBlocks(blocks[..|blocks| - 1]) + Flatten(blocks[|blocks| - 1])
  }

  /** The bytes of an unfinished event. */
  function Pending(s: State): Bytes {
    Flatten(s.lines) + s.buffer
  }

  /** The completed blocks, then the unfinished tail, are exactly the bytes received. */
  lemma {:induction false} BytesConserved(s: State, input: Bytes)
    requires LF !in s.buffer
    ensures var r := Feed(s, input);
            FlattenBlocks(r.blocks) + Pending(r.state) == Pending(s) + input
    decreases |input|
  {
    if input == [] {
      assert Pending(s) + input == Pending(s);
    } else {
      var front, last := input[..|input| - 1], input[|input| - 1];
      var r := Feed(s, front);
      var step := OnByte(r.state, last);
      BytesConserved(s, front);
      ByteConserved(r.state, last);
      FlattenStep(r.blocks, step.blocks);
      Regroup(FlattenBlocks(r.blocks), Pending(r.state), Pending(s), front,
              FlattenBlocks(step.blocks), Pending(step.state), last);
      assert input == front + [last];
    }
  }

  lemma Regroup(done: Bytes, pending: Bytes, start: Bytes, front: Bytes, more: Bytes, rest: Bytes, last: byte)
    requires done + pending == start + front
    requires more + rest == pending + [last]
    ensures (done + more) + rest == start + (front + [last])
  {
    calc {
      (done + more) + rest;
      done + (more + rest);
      done + (pending + [last]);
      (done + pending) + [last];
      start + (front + [last]);
    }
  }

  lemma ByteConserved(s: State, b: byte)
    requires LF !in s.buffer
    ensures var r := OnByte(s, b); FlattenBlocks(r.blocks) + Pending(r.state) == Pending(s) + [b]
  {
    if b == LF {
      var line: Line := s.buffer + [b];
      var lines: seq<Line> := s.lines + [line];
      assert lines[..|lines| - 1] == s.lines;
      assert Flatten(lines) == Flatten(s.lines) + s.buffer + [b];
      var one: seq<seq<Line>> := [lines];
      assert one[..0] == [];
    }
  }

  lemma FlattenStep(blocks: seq<seq<Line>>, more: seq<seq<Line>>)
    requires |more| <= 1
    ensures FlattenBlocks(blocks + more) == FlattenBlocks(blocks) + FlattenBlocks(more)
  {
    if |more| == 0 {
      assert blocks + more == blocks;
    } else {
      assert (blocks + more)[..|blocks|] == blocks && more[..0] == [];
    }
  }

  /** A finished block ends at its one blank line. */
  predicate IsBlock(lines: seq<Line>) {
    lines != [] && forall i :: 0 <= i < |lines| ==> (IsBlank(lines[i]) <==> i == |lines| - 1)
  }

  lemma {:induction false} BlocksEndAtBlankLines(s: State, input: Bytes)
    requires Reachable(s)
    ensures var r := Feed(s, input);
            Reachable(r.state) && forall i :: 0 <= i < |r.blocks| ==> IsBlock(r.blocks[i])
    decreases |input|
  {
    if input == [] {
    } else {
      BlocksEndAtBlankLines(s, input[..|input| - 1]);
    }
  }

  // ---- The decoder object ----

  /** Each value followed by LF: how the decoder accumulates data before it knows which is last. */
  function EachEnded(values: seq<Bytes>): Bytes {
    if values == [] then [] else EachEnded(values[..|values| - 1]) + values[|values| - 1] + [LF]
  }

  lemma {:induction false} EachEndedIsJoined(values: seq<Bytes>)
    requires values != []
    ensures EachEnded(values) == Joined(values) + [LF]
  {
    var front := values[..|values| - 1];
    if |values| > 1 {
      EachEndedIsJoined(front);
    } else {
      assert EachEnded(front) == [];
    }
  }

  /** What one more line adds to everything gathered from a block. */
  lemma LinesSnoc(lines: seq<Line>, line: Line)
    ensures var all := lines + [line];
            var field := LineField(line);
            && Flatten(all) == Flatten(lines) + line
            && DataValues(all) ==
              DataValues(lines) + (if field.Some? && field.value.name == DATA then [field.value.value] else [])
            && EachEnded(DataValues(all)) == EachEnded(DataValues(lines))
                 + (if field.Some? && field.value.name == DATA then field.value.value + [LF] else [])
            && forall name :: LastValue(name, all)
                 == if field.Some? && field.value.name == name then Some(field.value.value) else LastValue(name, lines)
  {
    var all := lines + [line];
    assert all[..|all| - 1] == lines;
    var field := LineField(line);
    if field.Some? && field.value.name == DATA {
      var values := DataValues(lines) + [field.value.value];
      assert values[..|values| - 1] == DataValues(lines);
    } else {
      assert DataValues(lines) + [] == DataValues(lines);
    }
  }

  class SseDecoder {
    var buffer: Bytes
    var raw: Bytes
    var data: Bytes
    var event: Option<Bytes>
    var id: Option<Bytes>
    var hasData: bool
    ghost var lines: seq<Line>

    ghost function Model(): State
      reads this
    {
      State(buffer, lines)
    }

    /** The gathered fields are what the completed lines of the open block say. */
    ghost predicate Tied()
      reads this
    {
      && raw == Flatten(lines)
      && data == EachEnded(DataValues(lines))
      && event == LastValue(EVENT, lines)
      && id == LastValue(ID, lines)
      && hasData == (DataValues(lines) != [])
    }

    ghost predicate Valid()
      reads this
    {
      LF !in buffer && Tied()
    }

    constructor ()
      ensures Valid() && Model() == FRESH
    {
      buffer, raw, data, event, id, hasData, lines := [], [], [], None, None, false, [];
    }

    /** How much is held for an event that has not completed. */
    function PendingLen(): (n: nat)
      requires Valid()
      reads this
      ensures n == |Pending(Model())|
    {
      |buffer| + |raw|
    }

    /** Feed a chunk; return the events that became complete. */
    method Push(chunk: Bytes) returns (events: seq<SseEvent>)
      requires Valid()
      modifies this
      ensures Valid()
      ensures Model() == Feed(old(Model()), chunk).state
      ensures events == Events(Feed(old(Model()), chunk).blocks)
    {
      ghost var start, all := State([], lines), buffer + chunk;
      FeedFrom(lines, buffer, chunk);
      AfterNothing(Feed(start, all));
      buffer := buffer + chunk;
      events := [];
      ghost var blocks: seq<seq<Line>> := [];
      while LF in buffer
        invariant Tied()
        invariant Feed(start, all) == After(blocks, Feed(State([], lines), buffer))
        invariant events == Events(blocks)
        decreases |buffer|
      {
        var found, taken := NextLine();
        AfterAfter(blocks, taken, Feed(State([], lines), buffer));
        EventsConcat(blocks, taken);
        events := events + found;
        blocks := blocks + taken;
      }
      FeedRest(lines, buffer, blocks);
    }

    /** Take the first line out of the buffer. */
    method NextLine() returns (found: seq<SseEvent>, ghost taken: seq<seq<Line>>)
      requires Tied() && LF in buffer
      modifies this
      ensures Tied() && |buffer| < |old(buffer)| && found == Events(taken)
      ensures Feed(State([], old(lines)), old(buffer)) == After(taken, Feed(State([], lines), buffer))
    {
      var newline := IndexOf(LF, buffer);
      ghost var step := ConsumeLine(lines, buffer, newline);
      taken := step.blocks;
      var line: Line := buffer[..newline + 1];
      buffer := buffer[newline + 1..];
      found := TakeLine(line);
    }

    static ghost function ConsumeLine(lines: seq<Line>, buffer: Bytes, newline: nat): (step: Fed)
      requires newline < |buffer| && buffer[newline] == LF && forall j :: 0 <= j < newline ==> buffer[j] != LF
      ensures var line := buffer[..newline + 1]; line[|line| - 1] == LF && LF !in line[..|line| - 1]
      ensures step == EndLine(State([], lines), buffer[..newline + 1])
      ensures step.state.buffer == []
      ensures Feed(State([], lines), buffer) == After(step.blocks, Feed(step.state, buffer[newline + 1..]))
    {
      var line := buffer[..newline + 1];
      assert line[..newline] == buffer[..newline];
      assert buffer == line + buffer[newline + 1..];
      FeedLine(State([], lines), buffer[..newline], line);
      FeedConcat(State([], lines), line, buffer[newline + 1..]);
      EndLine(State([], lines), line)
    }

    /** One complete line: a blank one closes the block, a comment only adds to its bytes. */
    method TakeLine(line: Line) returns (found: seq<SseEvent>)
      requires Tied()
      modifies this`raw, this`data, this`event, this`id, this`hasData, this`lines
      ensures Tied()
      ensures var step := EndLine(State([], old(lines)), line);
              lines == step.state.lines && found == Events(step.blocks)
    {
      found := [];
      raw := raw + line;
      var content := Content(line);
      ghost var all: seq<Line> := lines + [line];
      LinesSnoc(lines, line);
      if content == [] {
        lines := all;
        var dispatched := Dispatch();
        ghost var one: seq<seq<Line>> := [all];
        assert one[..0] == [];
        if dispatched.Some? {
          found := [dispatched.value];
        }
      } else {
        if content[0] != COLON {
          ReadField(content);
        }
        lines := all;
      }
    }

    method ReadField(content: Bytes)
      modifies this`data, this`event, this`id, this`hasData
      ensures var field := ParseField(content);
              && data == old(data) + (if field.name == DATA then field.value + [LF] else [])
              && hasData == (old(hasData) || field.name == DATA)
              && event == (if field.name == EVENT then Some(field.value) else old(event))
              && id == (if field.name == ID then Some(field.value) else old(id))
    {
      var field := ParseField(content);
      if field.name == DATA {
        data := data + field.value;
        data := data + [LF];
        hasData := true;
      } else if field.name == EVENT {
        event := Some(field.value);
      } else if field.name == ID {
        id := Some(field.value);
      }
    }

    /** Takes every per-block field, leaving them fresh; the block was an event if it had data. */
    method Dispatch() returns (found: Option<SseEvent>)
      requires Tied()
      modifies this`raw, this`data, this`event, this`id, this`hasData, this`lines
      ensures Tied() && lines == []
      ensures found == Interpret(old(lines))
    {
      var takenRaw, takenData, takenEvent, takenId, hadData := raw, data, event, id, hasData;
      ghost var values := DataValues(lines);
      raw, data, event, id, hasData, lines := [], [], None, None, false, [];
      if !hadData {
        return None;
      }
      EachEndedIsJoined(values);
      if takenData != [] && takenData[|takenData| - 1] == LF {
        takenData := takenData[..|takenData| - 1];
      }
      return Some(SseEvent(takenData, takenEvent, takenId, takenRaw));
    }
  }

  // ---- The encoder ----

  function Encode(payload: Bytes): Bytes {
    DATA + [COLON, SPACE] + payload + [LF, LF]
  }

  /** The payloads one SSE line can carry. */
  predicate OneLine(payload: Bytes) {
    LF !in payload && (payload == [] || payload[|payload| - 1] != CR)
  }

  function EncodedLine(payload: Bytes): Bytes {
    DATA + [COLON, SPACE] + payload + [LF]
  }

  /** A data field with a space after its colon. */
  lemma DataFieldParses(content: Bytes, value: Bytes)
    requires content == DATA + [COLON, SPACE] + value
    ensures content != [] && content[0] != COLON && ParseField(content) == Field(DATA, value)
  {
    assert content[4] == COLON && content[0] == 100 && content[1] == 97 && content[2] == 116 && content[3] == 97;
    assert IndexOf(COLON, content) == 4;
    assert content[..4] == DATA;
    assert content[5..][1..] == content[6..] == value;
  }

  lemma EncodedLineIsLine(payload: Bytes)
    requires LF !in payload
    ensures var line := EncodedLine(payload);
            && line[|line| - 1] == LF && LF !in line[..|line| - 1]
            && LineField(line) == Some(Field(DATA, if OneLine(payload) then payload else payload[..|payload| - 1]))
  {
    var line := EncodedLine(payload);
    var value := if OneLine(payload) then payload else payload[..|payload| - 1];
    assert line[..|line| - 1] == DATA + [COLON, SPACE] + payload;
    assert Content(line) == DATA + [COLON, SPACE] + value;
    DataFieldParses(Content(line), value);
  }

  lemma EncodeIsOneBlock(payload: Bytes)
    requires LF !in payload
    ensures LF !in EncodedLine(payload)[..|payload| + 6]
    ensures Feed(FRESH, Encode(payload)) == Fed(FRESH, [[EncodedLine(payload), [LF]]])
  {
    EncodedLineIsLine(payload);
    var line: Line := EncodedLine(payload);
    var end: Line := [LF];
    assert Encode(payload) == line + end;
    FeedLine(FRESH, DATA + [COLON, SPACE] + payload, line);
    FeedConcat(FRESH, line, end);
    assert [] + [line] == [line];
    FeedLine(State([], [line]), [], end);
    assert [line] + [end] == [line, end];
    FeedFrom([], [], []);
  }

  lemma GatheredFromOne(line: Line, value: Bytes)
    requires LineField(line) == Some(Field(DATA, value))
    ensures Flatten([line]) == line && DataValues([line]) == [value]
    ensures LastValue(EVENT, [line]) == None && LastValue(ID, [line]) == None
  {
    LinesSnoc([], line);
    assert [] + [line] == [line] && [] + line == line && [] + [value] == [value];
  }

  lemma InterpretOneLine(line: Line, end: Line, value: Bytes)
    requires LineField(line) == Some(Field(DATA, value)) && LineField(end) == None
    ensures Interpret([line, end]) == Some(SseEvent(value, None, None, line + end))
  {
    GatheredFromOne(line, value);
    LinesSnoc([line], end);
    assert [line] + [end] == [line, end] && [value] + [] == [value];
    assert Joined([value]) == value;
  }

  lemma InterpretEncoded(payload: Bytes)
    requires LF !in payload
    ensures LF !in EncodedLine(payload)[..|payload| + 6]
    ensures Events([[EncodedLine(payload), [LF]]])
         == [SseEvent(if OneLine(payload) then payload else payload[..|payload| - 1], None, None, Encode(payload))]
  {
    EncodedLineIsLine(payload);
    var line: Line := EncodedLine(payload);
    var end: Line := [LF];
    InterpretOneLine(line, end, if OneLine(payload) then payload else payload[..|payload| - 1]);
    assert Encode(payload) == line + end;
    var one: seq<seq<Line>> := [[line, end]];
    assert one[..0] == [];
  }

  /** A data line is at least four bytes longer than the value and LF it contributes. */
  lemma {:induction false} ValuesAreShort(lines: seq<Line>)
    ensures |EachEnded(DataValues(lines))| + 4 * |DataValues(lines)| <= |Flatten(lines)|
  {
    if lines == [] {
    } else {
      var front, last := lines[..|lines| - 1], lines[|lines| - 1];
      ValuesAreShort(front);
      assert lines == front + [last];
      LinesSnoc(front, last);
      var field := LineField(last);
      if field.Some? && field.value.name == DATA {
        ValueInLine(last);
      } else {
        assert |DataValues(lines)| == |DataValues(front)|;
      }
    }
  }

  lemma {:induction false} ValuesHaveNoNewline(lines: seq<Line>)
    ensures forall v :: v in DataValues(lines) ==> LF !in v
  {
    if lines == [] {
    } else {
      var last := lines[|lines| - 1];
      ValuesHaveNoNewline(lines[..|lines| - 1]);
      if LineField(last).Some? && LineField(last).value.name == DATA { ValueInLine(last); }
    }
  }

  lemma ValueInLine(line: Line)
    requires LineField(line).Some? && LineField(line).value.name == DATA
    ensures |LineField(line).value.value| + 5 <= |line|
    ensures LF !in LineField(line).value.value
  {
    var content := Content(line);
    assert forall b :: b in content ==> b in line[..|line| - 1];
    var colon := IndexOf(COLON, content);
    if colon < |content| {
      assert |content[..colon]| == 4;
      assert forall b :: b in content[colon + 1..] ==> b in content;
    }
  }

  lemma {:induction false} EventHasBlock(blocks: seq<seq<Line>>, e: SseEvent) returns (lines: seq<Line>)
    requires e in Events(blocks)
    ensures Interpret(lines) == Some(e)
  {
    lines := blocks[|blocks| - 1];
    if Interpret(lines) != Some(e) {
      lines := EventHasBlock(blocks[..|blocks| - 1], e);
    }
  }

  /** A fresh decoder gives an encoded payload back exactly when the payload fits one line. */
  lemma EncodeRoundTrip(payload: Bytes)
    ensures Events(Feed(FRESH, Encode(payload)).blocks) == [SseEvent(payload, None, None, Encode(payload))]
       <==> OneLine(payload)
    ensures OneLine(payload) ==> Feed(FRESH, Encode(payload)).state == FRESH
  {
    if LF !in payload {
      EncodeIsOneBlock(payload);
      InterpretEncoded(payload);
    } else {
      var e := SseEvent(payload, None, None, Encode(payload));
      var events := Events(Feed(FRESH, Encode(payload)).blocks);
      if events == [e] {
        assert e in events;
        var lines := EventHasBlock(Feed(FRESH, Encode(payload)).blocks, e);
        ValuesAreShort(lines);
        ValuesHaveNoNewline(lines);
        EachEndedIsJoined(DataValues(lines));
        assert false;
      }
    }
  }
}

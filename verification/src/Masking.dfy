/** Masking literal secret markers, compared without regard to ASCII case. */
module Masking {
  import opened Prelude
  import opened Inspection

  // [REDACTED]
  const MASK: Bytes := [91, 82, 69, 68, 65, 67, 84, 69, 68, 93]

  function FoldByte(c: byte): byte {
    if 65 <= c <= 90 then c + 32 else c
  }

  /** Two bytes the comparison does not tell apart. */
  predicate Same(a: byte, b: byte) {
    FoldByte(a) == FoldByte(b)
  }

  /** The needle stands at this position, up to ASCII case. */
  predicate OccursAt(text: Bytes, needle: Bytes, i: nat) {
    i + |needle| <= |text| && forall j :: 0 <= j < |needle| ==> Same(text[i + j], needle[j])
  }

  predicate Occurs(text: Bytes, needle: Bytes) {
    exists i :: 0 <= i <= |text| && OccursAt(text, needle, i)
  }

  // ---- Masking one marker ----

  /** The start positions are the leftmost occurrences that do not overlap, from a position on. */
  ghost predicate Leftmost(text: Bytes, needle: Bytes, from: nat, starts: seq<nat>)
    decreases |starts|
  {
    if starts == [] then forall i: nat :: from <= i ==> !OccursAt(text, needle, i)
    else
      && from <= starts[0] && OccursAt(text, needle, starts[0])
      && (forall i: nat :: from <= i < starts[0] ==> !OccursAt(text, needle, i))
      && Leftmost(text, needle, starts[0] + |needle|, starts[1..])
  }

  /** The stretches of a given length at these positions fit in the text one after another. */
  predicate Fit(text: Bytes, length: nat, from: nat, starts: seq<nat>)
    decreases |starts|
  {
    if starts == [] then from <= |text|
    else from <= starts[0] && Fit(text, length, starts[0] + length, starts[1..])
  }

  lemma {:induction false} FitWithin(text: Bytes, length: nat, from: nat, starts: seq<nat>)
    requires Fit(text, length, from, starts)
    ensures from <= |text| && (starts != [] ==> starts[0] + length <= |text|)
    decreases |starts|
  {
    if starts == [] {
    } else {
      FitWithin(text, length, starts[0] + length, starts[1..]);
    }
  }

  /** The text between two positions, the mask, and what follows. */
  function Spliced(mask: Bytes, text: Bytes, from: nat, start: nat, rest: Bytes): Bytes
    requires from <= start <= |text|
  {
    text[from..start] + mask + rest
  }

  /** The text from a position on, with each of these stretches replaced by the mask and all else kept. */
  function Replaced(mask: Bytes, text: Bytes, length: nat, from: nat, starts: seq<nat>): Bytes
    requires Fit(text, length, from, starts)
    decreases |starts|
  {
    FitWithin(text, length, from, starts);
    if starts == [] then text[from..]
    else Spliced(mask, text, from, starts[0], Replaced(mask, text, length, starts[0] + length, starts[1..]))
  }

  /** The first occurrence at or after a position. */
  function NextOccurrence(text: Bytes, needle: Bytes, from: nat): (r: Option<nat>)
    ensures r.Some? ==> from <= r.value && r.value + |needle| <= |text|
    decreases |text| - from
  {
    if from + |needle| > |text| then None
    else if OccursAt(text, needle, from) then Some(from)
    else NextOccurrence(text, needle, from + 1)
  }

  lemma {:induction false} NextIsFirst(text: Bytes, needle: Bytes, from: nat)
    ensures var r := NextOccurrence(text, needle, from);
      if r.None? then forall i: nat :: from <= i ==> !OccursAt(text, needle, i)
      else OccursAt(text, needle, r.value) && forall i: nat :: from <= i < r.value ==> !OccursAt(text, needle, i)
    decreases |text| - from
  {
    if from + |needle| > |text| || OccursAt(text, needle, from) {
    } else {
      NextIsFirst(text, needle, from + 1);
    }
  }

  /** The text from a position on, with a mask wherever the search finds the needle. */
  function Substituted(mask: Bytes, text: Bytes, needle: Bytes, from: nat): Bytes
    requires needle != [] && from <= |text|
    decreases |text| - from
  {
    var i := NextOccurrence(text, needle, from);
    if i.None? then text[from..]
    else Spliced(mask, text, from, i.value, Substituted(mask, text, needle, i.value + |needle|))
  }

  function MaskedFrom(text: Bytes, needle: Bytes, from: nat): Bytes
    requires needle != [] && from <= |text|
  {
    Substituted(MASK, text, needle, from)
  }

  /** There is a list of leftmost occurrences. */
  lemma {:induction false} LeftmostExists(text: Bytes, needle: Bytes, from: nat) returns (starts: seq<nat>)
    requires needle != []
    ensures Leftmost(text, needle, from, starts)
    decreases |text| - from
  {
    var i := NextOccurrence(text, needle, from);
    NextIsFirst(text, needle, from);
    if i.None? {
      starts := [];
    } else {
      var rest := LeftmostExists(text, needle, i.value + |needle|);
      starts := [i.value] + rest;
      assert starts[1..] == rest;
    }
  }

  /** The search finds these positions, one after another. */
  predicate Found(text: Bytes, needle: Bytes, from: nat, starts: seq<nat>)
    decreases |starts|
  {
    if starts == [] then NextOccurrence(text, needle, from) == None
    else NextOccurrence(text, needle, from) == Some(starts[0]) && Found(text, needle, starts[0] + |needle|, starts[1..])
  }

  lemma {:induction false} LeftmostIsFound(text: Bytes, needle: Bytes, from: nat, starts: seq<nat>)
    requires Leftmost(text, needle, from, starts)
    ensures Found(text, needle, from, starts)
    decreases |starts|
  {
    NextIsFirst(text, needle, from);
    if starts == [] {
    } else {
      LeftmostIsFound(text, needle, starts[0] + |needle|, starts[1..]);
    }
  }

  lemma {:induction false} FoundIsUnique(text: Bytes, needle: Bytes, from: nat, starts: seq<nat>, other: seq<nat>)
    requires Found(text, needle, from, starts) && Found(text, needle, from, other)
    ensures starts == other
    decreases |starts|
  {
    if starts == [] || other == [] {
    } else {
      FoundIsUnique(text, needle, starts[0] + |needle|, starts[1..], other[1..]);
    }
  }

  /** There is only one such list of positions. */
  lemma LeftmostIsUnique(text: Bytes, needle: Bytes, from: nat, starts: seq<nat>, other: seq<nat>)
    requires Leftmost(text, needle, from, starts) && Leftmost(text, needle, from, other)
    ensures starts == other
  {
    LeftmostIsFound(text, needle, from, starts);
    LeftmostIsFound(text, needle, from, other);
    FoundIsUnique(text, needle, from, starts, other);
  }

  lemma {:induction false} FoundIsReplaced(mask: Bytes, text: Bytes, needle: Bytes, from: nat, starts: seq<nat>)
    requires needle != [] && from <= |text| && Found(text, needle, from, starts)
    ensures Fit(text, |needle|, from, starts)
    ensures Substituted(mask, text, needle, from) == Replaced(mask, text, |needle|, from, starts)
    decreases |starts|
  {
    if starts == [] {
    } else {
      FoundIsReplaced(mask, text, needle, starts[0] + |needle|, starts[1..]);
    }
  }

  predicate ReplacedAt(text: Bytes, needle: Bytes, starts: seq<nat>)
    requires needle != []
  {
    Fit(text, |needle|, 0, starts) && MaskedFrom(text, needle, 0) == Replaced(MASK, text, |needle|, 0, starts)
  }

  /** Exactly the leftmost non-overlapping occurrences are replaced, and everything else is kept. */
  lemma MaskingReplacesLeftmost(text: Bytes, needle: Bytes)
    requires needle != []
    ensures exists starts :: Leftmost(text, needle, 0, starts)
    ensures forall starts :: Leftmost(text, needle, 0, starts) ==> ReplacedAt(text, needle, starts)
  {
    var starts := LeftmostExists(text, needle, 0);
    forall starts | Leftmost(text, needle, 0, starts) ensures ReplacedAt(text, needle, starts) {
      LeftmostIsFound(text, needle, 0, starts);
      FoundIsReplaced(MASK, text, needle, 0, starts);
    }
  }

  /** What is written, followed by what is still to be masked, is the whole. */
  predicate Pending(mask: Bytes, result: Bytes, text: Bytes, needle: Bytes, from: nat, whole: Bytes)
    requires needle != [] && from <= |text|
  {
    result + Substituted(mask, text, needle, from) == whole
  }

  lemma PendingStart(mask: Bytes, text: Bytes, needle: Bytes)
    requires needle != []
    ensures Pending(mask, [], text, needle, 0, Substituted(mask, text, needle, 0))
  {
  }

  lemma PendingEnd(mask: Bytes, result: Bytes, text: Bytes, needle: Bytes, from: nat, whole: Bytes)
    requires needle != [] && from <= |text| && NextOccurrence(text, needle, from) == None
    requires Pending(mask, result, text, needle, from, whole)
    ensures result + text[from..] == whole
  {
  }

  lemma PendingStep(mask: Bytes, result: Bytes, text: Bytes, needle: Bytes, from: nat, start: nat, whole: Bytes)
    requires needle != [] && from <= |text| && NextOccurrence(text, needle, from) == Some(start)
    requires Pending(mask, result, text, needle, from, whole)
    ensures Pending(mask, result + text[from..start] + mask, text, needle, start + |needle|, whole)
  {
    Regrouped(result, text[from..start], mask, Substituted(mask, text, needle, start + |needle|));
  }

  lemma Regrouped(a: Bytes, b: Bytes, c: Bytes, d: Bytes)
    ensures a + b + c + d == a + (b + c + d)
  {
  }

  lemma FoundIfOccurs(text: Bytes, needle: Bytes)
    ensures NextOccurrence(text, needle, 0).Some? <==> Occurs(text, needle)
  {
    NextIsFirst(text, needle, 0);
  }

  /** The masking loop, and whether anything matched. */
  method MaskLiteral(haystack: Bytes, needle: Bytes) returns (result: Bytes, matched: bool)
    requires needle != []
    ensures result == MaskedFrom(haystack, needle, 0)
    ensures matched <==> Occurs(haystack, needle)
  {
    result, matched := [], false;
    var cursor := 0;
    ghost var whole := MaskedFrom(haystack, needle, 0);
    PendingStart(MASK, haystack, needle);
    FoundIfOccurs(haystack, needle);
    var found := NextOccurrence(haystack, needle, cursor);
    while found.Some?
      invariant cursor <= |haystack| && found == NextOccurrence(haystack, needle, cursor)
      invariant Pending(MASK, result, haystack, needle, cursor, whole)
      invariant if matched then Occurs(haystack, needle) else cursor == 0
      decreases |haystack| - cursor
    {
      var start := found.value;
      PendingStep(MASK, result, haystack, needle, cursor, start, whole);
      result := result + haystack[cursor..start] + MASK;
      cursor, matched := start + |needle|, true;
      found := NextOccurrence(haystack, needle, cursor);
    }
    PendingEnd(MASK, result, haystack, needle, cursor, whole);
    result := result + haystack[cursor..];
  }

  // ---- A list of markers ----

  predicate Markers(patterns: seq<Bytes>) {
    forall i :: 0 <= i < |patterns| ==> patterns[i] != []
  }

  predicate Detects(patterns: seq<Bytes>, text: Bytes) {
    exists i :: 0 <= i < |patterns| && Occurs(text, patterns[i])
  }

  /** The text after every marker has masked its occurrences, one after another. */
  function AfterAll(patterns: seq<Bytes>, text: Bytes): Bytes
    requires Markers(patterns)
  {
    if patterns == [] then text
    else MaskedFrom(AfterAll(patterns[..|patterns| - 1], text), patterns[|patterns| - 1], 0)
  }

  /** What the policy context answers for one action. */
  datatype PolicyDecision = Permit | Forbid(reason: Reason) | RedactText(text: Bytes)

  /** The text with all markers masked, if there are any. */
  function Redacting(patterns: seq<Bytes>, text: Bytes): PolicyDecision
    requires Markers(patterns)
  {
    if Detects(patterns, text) then RedactText(AfterAll(patterns, text)) else Permit
  }

  lemma NothingToMask(text: Bytes, needle: Bytes)
    requires needle != [] && !Occurs(text, needle)
    ensures MaskedFrom(text, needle, 0) == text
  {
    FoundIfOccurs(text, needle);
  }

  /** Redacts exactly when a marker is detected in the original text, and then yields the text with all masked. */
  method Redact(patterns: seq<Bytes>, text: Bytes) returns (decision: PolicyDecision)
    requires Markers(patterns)
    ensures decision == Redacting(patterns, text)
    ensures decision == Permit ==> AfterAll(patterns, text) == text
  {
    var current, redacted, i := text, false, 0;
    while i < |patterns|
      invariant 0 <= i <= |patterns| && current == AfterAll(patterns[..i], text)
      invariant redacted <==> Detects(patterns[..i], text)
      invariant !redacted ==> current == text
    {
      var next, hit := MaskLiteral(current, patterns[i]);
      assert patterns[..i + 1][..i] == patterns[..i];
      DetectsSnoc(patterns, text, i);
      if hit {
        current, redacted := next, true;
      } else {
        NothingToMask(current, patterns[i]);
      }
      i := i + 1;
    }
    assert patterns[..i] == patterns;
    decision := if redacted then RedactText(current) else Permit;
  }

  lemma DetectsSnoc(patterns: seq<Bytes>, text: Bytes, i: nat)
    requires i < |patterns|
    ensures Detects(patterns[..i + 1], text) <==> Detects(patterns[..i], text) || Occurs(text, patterns[i])
  {
    if Occurs(text, patterns[i]) {
      assert patterns[..i + 1][i] == patterns[i];
    }
    if Detects(patterns[..i], text) {
      var k :| 0 <= k < i && Occurs(text, patterns[..i][k]);
      assert patterns[..i + 1][k] == patterns[..i][k];
    }
    if Detects(patterns[..i + 1], text) {
      var k :| 0 <= k < i + 1 && Occurs(text, patterns[..i + 1][k]);
      assert k < i ==> patterns[..i][k] == patterns[..i + 1][k];
    }
  }

  // ---- What is masked stays out ----

  /** Laid over the mask at an offset, the needle agrees with it wherever both have a byte. */
  predicate Agrees(needle: Bytes, d: int) {
    forall j :: 0 <= j < |needle| && 0 <= d + j < |MASK| ==> Same(MASK[d + j], needle[j])
  }

  /** Some overlap of the needle with the mask is without contradiction. */
  predicate Touches(needle: Bytes) {
    exists d :: -|needle| < d < |MASK| && Agrees(needle, d)
  }

  /** A marker that a mask can neither contain nor help to complete. */
  predicate MaskProof(needle: Bytes) {
    needle != [] && !Touches(needle)
  }

  /** An occurrence that shares a position with the mask would be an overlap without contradiction. */
  lemma OverlapTouches(a: Bytes, b: Bytes, needle: Bytes, i: nat)
    requires OccursAt(a + MASK + b, needle, i) && |a| < i + |needle| && i < |a| + |MASK|
    ensures Touches(needle)
  {
    var d := i - |a|;
    forall j | 0 <= j < |needle| && 0 <= d + j < |MASK| ensures Same(MASK[d + j], needle[j]) {
      assert (a + MASK + b)[i + j] == MASK[d + j];
    }
    assert Agrees(needle, d);
  }

  /** A mask between two texts without the marker does not bring it back. */
  lemma MaskBringsNothingBack(a: Bytes, b: Bytes, needle: Bytes)
    requires MaskProof(needle) && !Occurs(a, needle) && !Occurs(b, needle)
    ensures !Occurs(a + MASK + b, needle)
  {
    var text := a + MASK + b;
    if Occurs(text, needle) {
      var i: nat :| i <= |text| && OccursAt(text, needle, i);
      OccursInPart(text, needle, i, 0, a);
      OccursInPart(text, needle, i, |a| + |MASK|, b);
      OverlapTouches(a, b, needle, i);
    }
  }

  /** An occurrence inside a part of the text is an occurrence of the part. */
  lemma OccursInPart(text: Bytes, needle: Bytes, i: nat, start: nat, part: Bytes)
    requires OccursAt(text, needle, i) && start + |part| <= |text| && text[start..start + |part|] == part
    ensures start <= i && i + |needle| <= start + |part| ==> Occurs(part, needle)
  {
    if start <= i && i + |needle| <= start + |part| {
      forall j | 0 <= j < |needle| ensures Same(part[(i - start) + j], needle[j]) {
        assert part[(i - start) + j] == text[i + j];
      }
      assert OccursAt(part, needle, i - start);
    }
  }

  /** An occurrence in a part of the text is an occurrence in the text. */
  lemma OccursInWhole(text: Bytes, needle: Bytes, lo: nat, hi: nat, i: nat)
    requires lo <= hi <= |text| && OccursAt(text[lo..hi], needle, i)
    ensures lo + i + |needle| <= hi && OccursAt(text, needle, lo + i)
  {
    forall j | 0 <= j < |needle| ensures Same(text[(lo + i) + j], needle[j]) {
      assert text[(lo + i) + j] == text[lo..hi][i + j];
    }
  }

  lemma AbsentFromPart(text: Bytes, needle: Bytes, lo: nat, hi: nat)
    requires lo <= hi <= |text| && forall i: nat :: lo <= i < hi ==> i + |needle| <= hi ==> !OccursAt(text, needle, i)
    requires needle != []
    ensures !Occurs(text[lo..hi], needle)
  {
    if Occurs(text[lo..hi], needle) {
      var i: nat :| i <= |text[lo..hi]| && OccursAt(text[lo..hi], needle, i);
      OccursInWhole(text, needle, lo, hi, i);
      assert false;
    }
  }

  /** What masking leaves in place does not hold the marker. */
  lemma GapIsFree(text: Bytes, needle: Bytes, from: nat, start: nat)
    requires needle != [] && NextOccurrence(text, needle, from) == Some(start)
    ensures !Occurs(text[from..start], needle)
  {
    NextIsFirst(text, needle, from);
    AbsentFromPart(text, needle, from, start);
  }

  lemma TailIsFree(text: Bytes, needle: Bytes, from: nat)
    requires needle != [] && from <= |text| && NextOccurrence(text, needle, from).None?
    ensures !Occurs(text[from..], needle)
  {
    NextIsFirst(text, needle, from);
    AbsentFromPart(text, needle, from, |text|);
    assert text[from..|text|] == text[from..];
  }

  /** Masking one occurrence of a marker keeps another out, if it is out on both sides. */
  lemma StaysFree(text: Bytes, other: Bytes, from: nat, start: nat, needle: Bytes)
    requires MaskProof(needle) && other != [] && from <= |text| && NextOccurrence(text, other, from) == Some(start)
    requires !Occurs(text[from..start], needle) && !Occurs(MaskedFrom(text, other, start + |other|), needle)
    ensures !Occurs(MaskedFrom(text, other, from), needle)
  {
    MaskBringsNothingBack(text[from..start], MaskedFrom(text, other, start + |other|), needle);
  }

  /** Masking a marker removes it. */
  lemma {:induction false} MaskingRemoves(text: Bytes, needle: Bytes, from: nat)
    requires MaskProof(needle) && from <= |text|
    ensures !Occurs(MaskedFrom(text, needle, from), needle)
    decreases |text| - from
  {
    var i := NextOccurrence(text, needle, from);
    if i.None? {
      TailIsFree(text, needle, from);
    } else {
      MaskingRemoves(text, needle, i.value + |needle|);
      GapIsFree(text, needle, from, i.value);
      StaysFree(text, needle, from, i.value, needle);
    }
  }

  /** A part of a text without the marker is without it. */
  lemma PartIsFree(text: Bytes, needle: Bytes, lo: nat, hi: nat)
    requires needle != [] && lo <= hi <= |text| && !Occurs(text, needle)
    ensures !Occurs(text[lo..hi], needle)
  {
    assert forall k: nat :: OccursAt(text, needle, k) ==> k <= |text|;
    AbsentFromPart(text, needle, lo, hi);
  }

  /** Masking another marker does not bring it back. */
  lemma {:induction false} MaskingKeepsOut(text: Bytes, other: Bytes, from: nat, needle: Bytes)
    requires MaskProof(needle) && other != [] && from <= |text| && !Occurs(text, needle)
    ensures !Occurs(MaskedFrom(text, other, from), needle)
    decreases |text| - from
  {
    var i := NextOccurrence(text, other, from);
    if i.None? {
      PartIsFree(text, needle, from, |text|);
      assert text[from..|text|] == text[from..];
    } else {
      MaskingKeepsOut(text, other, i.value + |other|, needle);
      PartIsFree(text, needle, from, i.value);
      StaysFree(text, other, from, i.value, needle);
    }
  }

  /** Whatever the other markers do, before or after it, a mask-proof marker is gone from the final text. */
  lemma {:induction false} RedactedMarkerIsGone(patterns: seq<Bytes>, text: Bytes, k: nat)
    requires Markers(patterns) && k < |patterns| && MaskProof(patterns[k])
    ensures !Occurs(AfterAll(patterns, text), patterns[k])
    decreases |patterns|
  {
    var front, last := patterns[..|patterns| - 1], patterns[|patterns| - 1];
    if k == |patterns| - 1 {
      MaskingRemoves(AfterAll(front, text), last, 0);
    } else {
      RedactedMarkerIsGone(front, text, k);
      MaskingKeepsOut(AfterAll(front, text), last, 0, patterns[k]);
    }
  }
}

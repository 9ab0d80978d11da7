/** Exactly which markers are always gone from a redacted text. */
module MaskingExact {
  import opened Prelude
  import opened Collections
  import opened Masking

  predicate GoneAfter(patterns: seq<Bytes>, text: Bytes, needle: Bytes) {
    Markers(patterns) && needle in patterns ==> !Occurs(AfterAll(patterns, text), needle)
  }

  // ---- A marker that touches the mask comes back ----

  /** What of the needle stands before and after a mask it is laid over. */
  function Before(needle: Bytes, d: int): Bytes
    requires -|needle| < d < |MASK|
  {
    if d < 0 then needle[..-d] else []
  }

  function After(needle: Bytes, d: int): Bytes
    requires -|needle| < d < |MASK|
  {
    if d + |needle| > |MASK| then needle[|MASK| - d..] else []
  }

  function Repeated(x: byte, n: nat): (s: Bytes)
    ensures |s| == n && forall i :: 0 <= i < n ==> s[i] == x
  {
    if n == 0 then [] else Repeated(x, n - 1) + [x]
  }

  /** A digit that is none of four given bytes. */
  function FreshDigit(a: byte, b: byte, c: byte, d: byte): (x: byte)
    ensures !Same(x, a) && !Same(x, b) && !Same(x, c) && !Same(x, d)
  {
    var taken := {FoldByte(a), FoldByte(b), FoldByte(c), FoldByte(d)};
    if 48 !in taken then 48 else if 49 !in taken then 49 else if 50 !in taken then 50
    else if 51 !in taken then 51 else FifthIsFree(taken); 52
  }

  lemma FifthIsFree(taken: set<byte>)
    requires |taken| <= 4 && 48 in taken && 49 in taken && 50 in taken && 51 in taken
    ensures 52 !in taken
  {
    if 52 in taken {
      SubsetSize({48, 49, 50, 51, 52}, taken);
    }
  }

  /** A byte unlike the ends of the needle and unlike what stands next to the mask. */
  function FreshFor(needle: Bytes, d: int): (x: byte)
    requires needle != [] && -|needle| < d < |MASK|
    ensures !Same(x, needle[0]) && !Same(x, needle[|needle| - 1])
    ensures var a := Before(needle, d); a != [] ==> !Same(x, a[|a| - 1])
    ensures var b := After(needle, d); b != [] ==> !Same(x, b[0])
  {
    var a, b := Before(needle, d), After(needle, d);
    FreshDigit(needle[0], needle[|needle| - 1],
               if a != [] then a[|a| - 1] else needle[0], if b != [] then b[0] else needle[0])
  }

  /** The text that the needle comes back in: what stands around the mask, and a stretch for another marker. */
  function Bait(needle: Bytes, d: int, x: byte): Bytes
    requires -|needle| < d < |MASK|
  {
    Before(needle, d) + Repeated(x, |needle|) + After(needle, d)
  }

  /** The needle is not there yet: its first and last bytes differ from those of the stretch. */
  lemma NotThereYet(a: Bytes, x: byte, b: Bytes, needle: Bytes)
    requires |a| < |needle| && |b| < |needle| && !Same(x, needle[0]) && !Same(x, needle[|needle| - 1])
    ensures !Occurs(a + Repeated(x, |needle|) + b, needle)
  {
    var text := a + Repeated(x, |needle|) + b;
    if Occurs(text, needle) {
      var i: nat :| i <= |text| && OccursAt(text, needle, i);
      var last := |needle| - 1;
      assert Same(text[i + 0], needle[0]) && Same(text[i + last], needle[last]);
      assert forall k :: |a| <= k < |a| + |needle| ==> text[k] == x;
    }
  }

  /** An occurrence of the stretch that starts too early covers the byte before it. */
  lemma TooEarly(a: Bytes, x: byte, b: Bytes, n: nat, i: nat)
    requires i < |a| < n && OccursAt(a + Repeated(x, n) + b, Repeated(x, n), i)
    ensures Same(x, a[|a| - 1])
  {
    var text, j := a + Repeated(x, n) + b, |a| - 1 - i;
    assert Same(text[i + j], Repeated(x, n)[j]);
  }

  lemma TooLate(a: Bytes, x: byte, b: Bytes, n: nat, i: nat)
    requires |a| < i && |b| < n && OccursAt(a + Repeated(x, n) + b, Repeated(x, n), i)
    ensures b != [] && Same(x, b[0])
  {
    var text, j := a + Repeated(x, n) + b, |a| + n - i;
    assert Same(text[i + j], Repeated(x, n)[j]);
  }

  /** The other marker is only at its own place. */
  lemma OnlyThere(a: Bytes, x: byte, b: Bytes, n: nat, i: nat)
    requires |a| < n && |b| < n && (a != [] ==> !Same(x, a[|a| - 1])) && (b != [] ==> !Same(x, b[0]))
    requires OccursAt(a + Repeated(x, n) + b, Repeated(x, n), i)
    ensures i == |a|
  {
    if i < |a| {
      TooEarly(a, x, b, n, i);
      assert false;
    } else if i > |a| {
      TooLate(a, x, b, n, i);
      assert false;
    }
  }

  lemma StretchIsThere(a: Bytes, x: byte, b: Bytes, n: nat)
    ensures OccursAt(a + Repeated(x, n) + b, Repeated(x, n), |a|)
  {
    var text := a + Repeated(x, n) + b;
    forall j | 0 <= j < n ensures Same(text[|a| + j], Repeated(x, n)[j]) {
      assert text[|a| + j] == Repeated(x, n)[j];
    }
  }

  /** The search finds the stretch, and then nothing. */
  lemma StretchIsFound(a: Bytes, x: byte, b: Bytes, n: nat)
    requires |a| < n && |b| < n && (a != [] ==> !Same(x, a[|a| - 1])) && (b != [] ==> !Same(x, b[0]))
    ensures var text := a + Repeated(x, n) + b;
      NextOccurrence(text, Repeated(x, n), 0) == Some(|a|) && NextOccurrence(text, Repeated(x, n), |a| + n) == None
  {
    var text := a + Repeated(x, n) + b;
    StretchIsThere(a, x, b, n);
    NextIsFirst(text, Repeated(x, n), 0);
    NextIsFirst(text, Repeated(x, n), |a| + n);
    forall i: nat | OccursAt(text, Repeated(x, n), i) ensures i == |a| {
      OnlyThere(a, x, b, n, i);
    }
  }

  lemma StretchBecomesMask(a: Bytes, x: byte, b: Bytes, n: nat)
    requires |a| < n && |b| < n && (a != [] ==> !Same(x, a[|a| - 1])) && (b != [] ==> !Same(x, b[0]))
    ensures MaskedFrom(a + Repeated(x, n) + b, Repeated(x, n), 0) == a + MASK + b
  {
    var text := a + Repeated(x, n) + b;
    StretchIsFound(a, x, b, n);
    assert MaskedFrom(text, Repeated(x, n), |a| + n) == text[|a| + n..];
    assert text[0..|a|] == a && text[|a| + n..] == b;
  }

  lemma CompletedByMask(needle: Bytes, d: int)
    requires -|needle| < d < |MASK| && Agrees(needle, d)
    ensures Occurs(Before(needle, d) + MASK + After(needle, d), needle)
  {
    var a, b := Before(needle, d), After(needle, d);
    var text, i := a + MASK + b, if d < 0 then 0 else d;
    forall j | 0 <= j < |needle| ensures Same(text[i + j], needle[j]) {
      if d + j < 0 {
        assert text[i + j] == a[j];
      } else if d + j < |MASK| {
        assert text[i + j] == MASK[d + j];
      } else {
        assert text[i + j] == b[d + j - |MASK|];
      }
    }
    assert OccursAt(text, needle, i);
  }

  /** A second marker that masks the stretch completes the first one again. */
  lemma BaitCompletes(needle: Bytes, d: int, x: byte)
    requires needle != [] && -|needle| < d < |MASK| && Agrees(needle, d)
    requires !Same(x, needle[0]) && !Same(x, needle[|needle| - 1])
    requires var a := Before(needle, d); a != [] ==> !Same(x, a[|a| - 1])
    requires var b := After(needle, d); b != [] ==> !Same(x, b[0])
    ensures var patterns := [needle, Repeated(x, |needle|)];
            Markers(patterns) && Occurs(AfterAll(patterns, Bait(needle, d, x)), needle)
  {
    var a, b, n := Before(needle, d), After(needle, d), |needle|;
    TwoMarkers(needle, Repeated(x, n), Bait(needle, d, x));
    NotThereYet(a, x, b, needle);
    NothingToMask(Bait(needle, d, x), needle);
    StretchBecomesMask(a, x, b, n);
    CompletedByMask(needle, d);
  }

  lemma TouchingComesBack(needle: Bytes) returns (patterns: seq<Bytes>, text: Bytes)
    requires needle != [] && Touches(needle)
    ensures !GoneAfter(patterns, text, needle)
  {
    var d :| -|needle| < d < |MASK| && Agrees(needle, d);
    var x := FreshFor(needle, d);
    BaitCompletes(needle, d, x);
    patterns, text := [needle, Repeated(x, |needle|)], Bait(needle, d, x);
    assert patterns[0] == needle;
  }

  lemma TwoMarkers(first: Bytes, second: Bytes, text: Bytes)
    requires first != [] && second != []
    ensures Markers([first, second])
    ensures AfterAll([first, second], text) == MaskedFrom(MaskedFrom(text, first, 0), second, 0)
  {
    var patterns := [first, second];
    assert patterns[..1] == [first] && [first][..0] == [];
    assert AfterAll([], text) == text;
    assert AfterAll([first], text) == MaskedFrom(text, first, 0);
  }

  /** Every marker: it is always gone if and only if no overlap with the mask is without contradiction. */
  lemma AlwaysGoneIffNeverTouching(needle: Bytes)
    requires needle != []
    ensures (forall patterns, text :: GoneAfter(patterns, text, needle)) <==> !Touches(needle)
  {
    if Touches(needle) {
      var patterns, text := TouchingComesBack(needle);
    } else {
      forall patterns, text ensures GoneAfter(patterns, text, needle) {
        if Markers(patterns) && needle in patterns {
          var k :| 0 <= k < |patterns| && patterns[k] == needle;
          RedactedMarkerIsGone(patterns, text, k);
        }
      }
    }
  }

  // ---- Markers without brackets ----

  const LEFT_BRACKET: byte := 91
  const RIGHT_BRACKET: byte := 93

  predicate BracketFree(needle: Bytes) {
    LEFT_BRACKET !in needle && RIGHT_BRACKET !in needle
  }

  /** The word inside the mask. */
  const WORD := MASK[1..9]

  lemma BracketsAreTheirOwn(c: byte)
    ensures Same(LEFT_BRACKET, c) ==> c == LEFT_BRACKET
    ensures Same(RIGHT_BRACKET, c) ==> c == RIGHT_BRACKET
  {
  }

  /** Without brackets, touching the mask is occurring in its word. */
  lemma TouchesWithoutBrackets(needle: Bytes)
    requires needle != [] && BracketFree(needle)
    ensures Touches(needle) <==> Occurs(WORD, needle)
  {
    assert MASK[1..9] == WORD;
    if Touches(needle) {
      var d :| -|needle| < d < |MASK| && Agrees(needle, d);
      if d <= 0 {
        assert Same(MASK[d + (-d)], needle[-d]);
        BracketsAreTheirOwn(needle[-d]);
      } else if d + |needle| > 9 {
        assert Same(MASK[d + (9 - d)], needle[9 - d]);
        BracketsAreTheirOwn(needle[9 - d]);
      } else {
        forall j | 0 <= j < |needle| ensures Same(WORD[(d - 1) + j], needle[j]) {
          assert WORD[(d - 1) + j] == MASK[d + j];
        }
        assert OccursAt(WORD, needle, d - 1);
      }
    }
    if Occurs(WORD, needle) {
      var i: nat :| i <= |WORD| && OccursAt(WORD, needle, i);
      forall j | 0 <= j < |needle| && 0 <= (i + 1) + j < |MASK| ensures Same(MASK[(i + 1) + j], needle[j]) {
        assert MASK[(i + 1) + j] == WORD[i + j];
      }
      assert Agrees(needle, i + 1);
    }
  }

  lemma AlwaysGoneIffNotInWord(needle: Bytes)
    requires needle != [] && BracketFree(needle)
    ensures (forall patterns, text :: GoneAfter(patterns, text, needle)) <==> !Occurs(WORD, needle)
  {
    TouchesWithoutBrackets(needle);
    AlwaysGoneIffNeverTouching(needle);
  }
}

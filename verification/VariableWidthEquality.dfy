/** Equality of binary and list arrays: whole runs of valid slots at once, or slot by slot. */
module VariableWidthEquality {
  import opened Basics
  import opened Layout
  import opened BitRuns

  /**
   An array of variable-width slots: slot i covers the payload from offsets[offset + i] to offsets[offset + i + 1].
   */
  datatype Slots<T> = Slots(offsets: seq<int>, payload: seq<T>, offset: nat)

  ghost predicate Fits<T>(s: Slots<T>, length: nat) {
    length > 0 ==> OffsetsFit(s.offsets, s.offset, length, |s.payload|)
  }

  ghost predicate SlotEqual<T>(l: Slots<T>, r: Slots<T>, i: int) {
    Cut(l.payload, Pick(l.offsets, l.offset + i, 0), Pick(l.offsets, l.offset + i + 1, 0)) ==
    Cut(r.payload, Pick(r.offsets, r.offset + i, 0), Pick(r.offsets, r.offset + i + 1, 0))
  }

  /** The slots from a to b that are valid agree. */
  ghost predicate SlotsEqual<T>(l: Slots<T>, r: Slots<T>, valid: Option<seq<bool>>, a: int, b: int) {
    forall i :: a <= i < b && IsValid(valid, i) ==> SlotEqual(l, r, i)
  }

  // ---------------------------------------------------------------------------------------------
  // One run
  // ---------------------------------------------------------------------------------------------

  ghost predicate SameLength<T>(l: Slots<T>, r: Slots<T>, i: int) {
    Pick(l.offsets, l.offset + i + 1, 0) - Pick(l.offsets, l.offset + i, 0) ==
    Pick(r.offsets, r.offset + i + 1, 0) - Pick(r.offsets, r.offset + i, 0)
  }

  /** The payload of the slots from a to b. */
  ghost function Span<T>(s: Slots<T>, a: int, b: int): seq<T> {
    Cut(s.payload, Pick(s.offsets, s.offset + a, 0), Pick(s.offsets, s.offset + b, 0))
  }

  lemma {:induction false} SpanBounds<T>(s: Slots<T>, length: nat, a: int, b: int)
    requires Fits(s, length) && 0 <= a <= b <= length && length > 0
    ensures 0 <= Pick(s.offsets, s.offset + a, 0) <= Pick(s.offsets, s.offset + b, 0) <= |s.payload|
  {
    OffsetsFitWithin(s.offsets, s.offset, length, |s.payload|, a, b);
  }

  lemma {:induction false} SpanGrows<T>(s: Slots<T>, length: nat, a: int, b: int)
    requires Fits(s, length) && 0 <= a <= b < length
    ensures Span(s, a, b + 1) == Span(s, a, b) + Span(s, b, b + 1)
    ensures |Span(s, a, b)| == Pick(s.offsets, s.offset + b, 0) - Pick(s.offsets, s.offset + a, 0)
  {
    SpanBounds(s, length, a, b);
    SpanBounds(s, length, b, b + 1);
  }

  lemma {:induction false} SlotMakesLength<T>(l: Slots<T>, r: Slots<T>, length: nat, i: int)
    requires Fits(l, length) && Fits(r, length) && 0 <= i < length && SlotEqual(l, r, i)
    ensures SameLength(l, r, i) && Span(l, i, i + 1) == Span(r, i, i + 1)
  {
    SpanBounds(l, length, i, i + 1);
    SpanBounds(r, length, i, i + 1);
    assert l.offset + i + 1 == l.offset + (i + 1) && r.offset + i + 1 == r.offset + (i + 1);
  }

  /** Equal slots make equal spans. */
  lemma {:induction false} SlotsMakeSpan<T>(l: Slots<T>, r: Slots<T>, length: nat, a: int, b: int)
    requires Fits(l, length) && Fits(r, length) && 0 <= a <= b <= length && length > 0
    requires forall i :: a <= i < b ==> SlotEqual(l, r, i)
    ensures Span(l, a, b) == Span(r, a, b) && forall i :: a <= i < b ==> SameLength(l, r, i)
    decreases b
  {
    if a == b {
      SpanBounds(l, length, a, a);
      SpanBounds(r, length, a, a);
    } else {
      SlotsMakeSpan(l, r, length, a, b - 1);
      SlotMakesLength(l, r, length, b - 1);
      SpanGrows(l, length, a, b - 1);
      SpanGrows(r, length, a, b - 1);
    }
  }

  /** Equal spans whose slots have equal lengths have equal slots. */
  lemma {:induction false} SpanMakesSlots<T>(l: Slots<T>, r: Slots<T>, length: nat, a: int, b: int)
    requires Fits(l, length) && Fits(r, length) && 0 <= a <= b <= length && length > 0
    requires Span(l, a, b) == Span(r, a, b) && forall i :: a <= i < b ==> SameLength(l, r, i)
    ensures forall i :: a <= i < b ==> SlotEqual(l, r, i)
    decreases b
  {
    if a < b {
      SpanGrows(l, length, a, b - 1);
      SpanGrows(r, length, a, b - 1);
      SpanBounds(l, length, b - 1, b);
      SpanBounds(r, length, b - 1, b);
      assert SameLength(l, r, b - 1);
      var x, y := Span(l, a, b - 1), Span(l, b - 1, b);
      var u, v := Span(r, a, b - 1), Span(r, b - 1, b);
      Split(x, y, u, v);
      SpanMakesSlots(l, r, length, a, b - 1);
    }
  }

  lemma {:induction false} Split<T>(x: seq<T>, y: seq<T>, u: seq<T>, v: seq<T>)
    requires x + y == u + v && |y| == |v|
    ensures x == u && y == v
  {
    assert x == (x + y)[..|x|] && u == (u + v)[..|u|];
    assert y == (x + y)[|x|..] && v == (u + v)[|u|..];
  }

  /** Compares n slots from slot a on: the payload as a whole, then the lengths of the slots. */
  method EqualRun<T(==)>(l: Slots<T>, r: Slots<T>, ghost length: nat, a: nat, n: nat) returns (equal: bool)
    requires Fits(l, length) && Fits(r, length) && a + n <= length && n > 0
    ensures equal <==> forall i :: a <= i < a + n ==> SlotEqual(l, r, i)
  {
    SpanBounds(l, length, a, a + n);
    SpanBounds(r, length, a, a + n);
    var leftStart, leftEnd := l.offsets[l.offset + a], l.offsets[l.offset + a + n];
    var rightStart, rightEnd := r.offsets[r.offset + a], r.offsets[r.offset + a + n];
    assert l.offset + a + n == l.offset + (a + n) && r.offset + a + n == r.offset + (a + n);
    if forall i :: a <= i < a + n ==> SlotEqual(l, r, i) { SlotsMakeSpan(l, r, length, a, a + n); }
    if leftEnd - leftStart != rightEnd - rightStart
        || l.payload[leftStart..leftEnd] != r.payload[rightStart..rightEnd] {
      return false;
    }
    if n == 1 {
      assert SlotEqual(l, r, a);
      return true;
    }
    var same := EqualLengths(l, r, length, a, n);
    if same { SpanMakesSlots(l, r, length, a, a + n); }
    return same;
  }

  method EqualLengths<T>(l: Slots<T>, r: Slots<T>, ghost length: nat, a: nat, n: nat) returns (same: bool)
    requires Fits(l, length) && Fits(r, length) && a + n <= length && n > 0
    ensures same <==> forall i :: a <= i < a + n ==> SameLength(l, r, i)
  {
    for i := 0 to n
      invariant forall k :: a <= k < a + i ==> SameLength(l, r, k)
    {
      var p, q := l.offset + a + i, r.offset + a + i;
      if l.offsets[p + 1] - l.offsets[p] != r.offsets[q + 1] - r.offsets[q] {
        assert !SameLength(l, r, a + i);
        return false;
      }
      assert SameLength(l, r, a + i);
    }
    return true;
  }

  /** Compares n lists from slot a on: first their lengths, then the values of the run. */
  method EqualListRun<T(==)>(l: Slots<T>, r: Slots<T>, ghost length: nat, a: nat, n: nat) returns (equal: bool)
    requires Fits(l, length) && Fits(r, length) && a + n <= length && n > 0
    ensures equal <==> forall i :: a <= i < a + n ==> SlotEqual(l, r, i)
  {
    if forall i :: a <= i < a + n ==> SlotEqual(l, r, i) { SlotsMakeSpan(l, r, length, a, a + n); }
    var same := EqualLengths(l, r, length, a, n);
    if !same {
      return false;
    }
    SpanBounds(l, length, a, a + n);
    SpanBounds(r, length, a, a + n);
    assert l.offset + a + n == l.offset + (a + n) && r.offset + a + n == r.offset + (a + n);
    var leftStart, rightStart := l.offsets[l.offset + a], r.offsets[r.offset + a];
    var leftEnd, rightEnd := l.offsets[l.offset + a + n], r.offsets[r.offset + a + n];
    equal := l.payload[leftStart..leftEnd] == r.payload[rightStart..rightEnd];
    if equal { SpanMakesSlots(l, r, length, a, a + n); }
  }

  // ---------------------------------------------------------------------------------------------
  // All runs
  // ---------------------------------------------------------------------------------------------

  method AllSet(valid: seq<bool>) returns (all: bool)
    ensures all <==> forall i :: 0 <= i < |valid| ==> valid[i]
  {
    for i := 0 to |valid|
      invariant forall k :: 0 <= k < i ==> valid[k]
    {
      if !valid[i] { return false; }
    }
    return true;
  }

  /** Compares run by run; a declared null count of zero is believed only if the bitmap agrees. */
  method EqualByRuns<T(==)>(l: Slots<T>, r: Slots<T>, length: nat, nulls: int, valid: Option<seq<bool>>)
    returns (equal: bool)
    requires Fits(l, length) && Fits(r, length) && (valid.Some? ==> |valid.value| == length)
    ensures equal <==> SlotsEqual(l, r, valid, 0, length)
  {
    if length == 0 {
      return true;
    }
    var whole := valid.None?;
    if valid.Some? && nulls == 0 {
      whole := AllSet(valid.value);
    }
    if whole {
      equal := EqualRun(l, r, length, 0, length);
      return;
    }
    var at := 0;
    while true
      invariant 0 <= at <= length && SlotsEqual(l, r, valid, 0, at)
      decreases length - at
    {
      var pos, n := NextRun(valid.value, at);
      if n == 0 {
        return true;
      }
      var same := EqualRun(l, r, length, pos, n);
      if !same {
        assert exists i :: pos <= i < pos + n && IsValid(valid, i) && !SlotEqual(l, r, i);
        return false;
      }
      at := pos + n;
    }
  }

  /** Compares valid slots one by one. */
  method EqualBySlots<T(==)>(l: Slots<T>, r: Slots<T>, length: nat, valid: Option<seq<bool>>) returns (equal: bool)
    requires Fits(l, length) && Fits(r, length) && (valid.Some? ==> |valid.value| == length)
    ensures equal <==> SlotsEqual(l, r, valid, 0, length)
  {
    for i := 0 to length
      invariant SlotsEqual(l, r, valid, 0, i)
    {
      SpanBounds(l, length, i, i + 1);
      SpanBounds(r, length, i, i + 1);
      var left, right := l.payload[l.offsets[l.offset + i]..l.offsets[l.offset + i + 1]],
          r.payload[r.offsets[r.offset + i]..r.offsets[r.offset + i + 1]];
      if IsValid(valid, i) && left != right {
        assert !SlotEqual(l, r, i);
        return false;
      }
    }
    return true;
  }

  /** Whether sampled runs are so short that slots are compared one by one. */
  method UseScalar(length: nat, nulls: int, valid: Option<seq<bool>>) returns (scalar: bool)
    requires valid.Some? ==> |valid.value| == length
    ensures nulls == 0 ==> !scalar
  {
    if nulls == 0 {
      return false;
    }
    if length <= 64 || valid.None? {
      return true;
    }
    var validValues, at := 0, 0;
    for k := 0 to 8
      invariant 0 <= at <= length
    {
      var pos, n := NextRun(valid.value, at);
      if n == 0 {
        return false;
      }
      validValues, at := validValues + n, pos + n;
    }
    return validValues < 8 * 4;
  }

  /** Whatever the sample says, arrays are equal exactly when their valid slots are. */
  method ArrayEqualBinary<T(==)>(l: Slots<T>, r: Slots<T>, length: nat, nulls: int, valid: Option<seq<bool>>)
    returns (equal: bool)
    requires Fits(l, length) && Fits(r, length) && (valid.Some? ==> |valid.value| == length)
    ensures equal <==> SlotsEqual(l, r, valid, 0, length)
  {
    var scalar := UseScalar(length, nulls, valid);
    if scalar {
      equal := EqualBySlots(l, r, length, valid);
    } else {
      equal := EqualByRuns(l, r, length, nulls, valid);
    }
  }

  /** Lists are equal exactly when their valid slots are; without a bitmap there is one run. */
  method ArrayEqualListOffsets<T(==)>(l: Slots<T>, r: Slots<T>, length: nat, valid: Option<seq<bool>>)
    returns (equal: bool)
    requires Fits(l, length) && Fits(r, length) && (valid.Some? ==> |valid.value| == length)
    ensures equal <==> SlotsEqual(l, r, valid, 0, length)
  {
    if valid.None? {
      if length == 0 {
        return true;
      }
      equal := EqualListRun(l, r, length, 0, length);
      return;
    }
    var at := 0;
    while true
      invariant 0 <= at <= length && SlotsEqual(l, r, valid, 0, at)
      decreases length - at
    {
      var pos, n := NextRun(valid.value, at);
      if n == 0 {
        return true;
      }
      var same := EqualListRun(l, r, length, pos, n);
      if !same {
        assert exists i :: pos <= i < pos + n && IsValid(valid, i) && !SlotEqual(l, r, i);
        return false;
      }
      at := pos + n;
    }
  }

  /** For binary arrays with the same validity, equal slots are equal columns. */
  lemma {:induction false} EqualSlotsAreEqualColumns(a: Data, b: Data)
    requires a.body.BinaryBody? && a.body.offsets.Some? && b.body.BinaryBody? && b.body.offsets.Some?
    requires a.length == b.length && Validity(a) == Validity(b)
    ensures Decode(a) == Decode(b) <==>
            SlotsEqual(Slots(a.body.offsets.value, a.body.bytes, a.offset),
                Slots(b.body.offsets.value, b.body.bytes, b.offset), Some(Validity(a)), 0, a.length)
  {
    var l, r := Slots(a.body.offsets.value, a.body.bytes, a.offset),
        Slots(b.body.offsets.value, b.body.bytes, b.offset);
    forall i | 0 <= i < a.length && Validity(a)[i] ensures SlotEqual(l, r, i) <==> SameSlot(a, b, i) {}
    if SlotsEqual(l, r, Some(Validity(a)), 0, a.length) {
      forall i | 0 <= i < a.length && Validity(a)[i]
        ensures SameSlot(a, b, i)
      {
        assert IsValid(Some(Validity(a)), i) && SlotEqual(l, r, i);
      }
      SameColumn(a, b);
    } else {
      var i :| 0 <= i < a.length && IsValid(Some(Validity(a)), i) && !SlotEqual(l, r, i);
      assert Decode(a)[i] == SlotValue(a, i) && Decode(b)[i] == SlotValue(b, i) && !SameSlot(a, b, i);
    }
  }
}

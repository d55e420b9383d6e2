/** The validity bitmap builder: bytes, a length and a null count that stand for the sequence of appended booleans. */
module BitmapBuilder {
  import opened Basics
  import opened Sequences
  import opened Layout
  import opened Bitmaps

  const MIN_BUILDER_CAPACITY := 32

  /** The first n bits. */
  ghost function BitsUpTo(bitmap: seq<bv8>, n: nat): (bits: seq<bool>)
    requires n <= 8 * |bitmap|
    ensures |bits| == n && forall k {:trigger bits[k]} :: 0 <= k < n ==> bits[k] == BitIsSet(bitmap, k)
  {
    if n == 0 then [] else BitsUpTo(bitmap, n - 1) + [BitIsSet(bitmap, n - 1)]
  }

  /** All bits from n on are clear. */
  ghost predicate ClearFrom(bitmap: seq<bv8>, n: nat) {
    forall k :: n <= k < 8 * |bitmap| ==> !BitIsSet(bitmap, k)
  }

  lemma {:induction false} NullsOfRepeat(v: bool, n: nat)
    ensures CountNulls(Repeat(v, n)) == if v then 0 else n
  {
    CountNullsZero(Repeat(v, n));
  }

  /** Writing values behind the first n bits of a bitmap that is clear from n on. */
  lemma {:induction false} WrittenBehind(bitmap: seq<bv8>, out: seq<bv8>, n: nat, values: seq<bool>)
    requires Written(bitmap, out, n, values, |values|) && n + |values| <= 8 * |bitmap| && ClearFrom(bitmap, n)
    ensures BitsUpTo(out, n + |values|) == BitsUpTo(bitmap, n) + values && ClearFrom(out, n + |values|)
    ensures CountNulls(BitsUpTo(out, n + |values|)) == CountNulls(BitsUpTo(bitmap, n)) + CountNulls(values)
  {
    forall k | 0 <= k < 8 * |bitmap|
      ensures BitIsSet(out, k) == if k < n then BitIsSet(bitmap, k) else k < n + |values| && values[k - n]
    {
      assert BitWritten(bitmap, out, n, values, |values|, k);
    }
    assert BitsUpTo(out, n + |values|) == BitsUpTo(bitmap, n) + values;
    CountNullsConcat(BitsUpTo(bitmap, n), values);
  }

  // ---------------------------------------------------------------------------------------------
  // Ranges of bits
  // ---------------------------------------------------------------------------------------------

  /** Bits a to b have the value v, the others are unchanged. */
  ghost predicate RangeSet(bitmap: seq<bv8>, out: seq<bv8>, a: int, b: int, v: bool) {
    |out| == |bitmap| && forall k :: 0 <= k < 8 * |bitmap| ==> RangeBit(bitmap, out, a, b, v, k)
  }

  ghost predicate RangeBit(bitmap: seq<bv8>, out: seq<bv8>, a: int, b: int, v: bool, k: int)
    requires |out| == |bitmap| && 0 <= k < 8 * |bitmap|
  {
    BitIsSet(out, k) == if a <= k < b then v else BitIsSet(bitmap, k)
  }

  lemma {:induction false} RangeIsWritten(bitmap: seq<bv8>, out: seq<bv8>, a: nat, n: nat, v: bool)
    requires RangeSet(bitmap, out, a, a + n, v)
    ensures Written(bitmap, out, a, Repeat(v, n), n)
  {
    var values := Repeat(v, n);
    forall k | 0 <= k < 8 * |bitmap|
      ensures BitWritten(bitmap, out, a, values, n, k)
    {
      assert RangeBit(bitmap, out, a, a + n, v, k);
    }
  }

  /** Setting a range behind the first k bits appends n equal values. */
  lemma {:induction false} RepeatedBehind(bitmap: seq<bv8>, out: seq<bv8>, k: nat, n: nat, v: bool)
    requires RangeSet(bitmap, out, k, k + n, v) && k + n <= 8 * |bitmap| && ClearFrom(bitmap, k)
    ensures BitsUpTo(out, k + n) == BitsUpTo(bitmap, k) + Repeat(v, n) && ClearFrom(out, k + n)
    ensures CountNulls(BitsUpTo(out, k + n)) == CountNulls(BitsUpTo(bitmap, k)) + if v then 0 else n
  {
    RangeIsWritten(bitmap, out, k, n, v);
    WrittenBehind(bitmap, out, k, Repeat(v, n));
    NullsOfRepeat(v, n);
  }

  lemma {:induction false} RangesJoin(bitmap: seq<bv8>, mid: seq<bv8>, out: seq<bv8>, a: int, b: int, c: int, v: bool)
    requires RangeSet(bitmap, mid, a, b, v) && RangeSet(mid, out, b, c, v) && a <= b <= c
    ensures RangeSet(bitmap, out, a, c, v)
  {
    forall k | 0 <= k < 8 * |bitmap| ensures RangeBit(bitmap, out, a, c, v, k) {
      assert RangeBit(bitmap, mid, a, b, v, k) && RangeBit(mid, out, b, c, v, k);
    }
  }

  /** Sets bits one by one. */
  method SetBits(bitmap: seq<bv8>, a: nat, b: nat, v: bool) returns (out: seq<bv8>)
    requires a <= b <= 8 * |bitmap|
    ensures RangeSet(bitmap, out, a, b, v)
  {
    out := bitmap;
    assert forall k :: 0 <= k < 8 * |bitmap| ==> RangeBit(bitmap, out, a, a, v, k);
    for i := a to b
      invariant RangeSet(bitmap, out, a, i, v)
    {
      ghost var before := out;
      out := SetBitTo(out, i, v);
      var next := i + 1;
      forall k | 0 <= k < 8 * |bitmap| ensures RangeBit(bitmap, out, a, next, v, k) {
        assert RangeBit(bitmap, before, a, i, v, k);
        SetBitToAt(before, i, v, k);
      }
    }
  }

  /** Fills whole bytes with ones. */
  method FillBytes(bitmap: seq<bv8>, start: nat, count: nat) returns (out: seq<bv8>)
    requires start + count <= |bitmap|
    ensures RangeSet(bitmap, out, 8 * start, 8 * (start + count), true)
  {
    out := bitmap;
    for i := 0 to count
      invariant |out| == |bitmap|
      invariant forall p :: 0 <= p < |bitmap| ==> out[p] == if start <= p < start + i then 0xFF else bitmap[p]
    {
      out := out[start + i := 0xFF];
    }
    ghost var a, b := 8 * start, 8 * (start + count);
    forall k | 0 <= k < 8 * |bitmap| ensures RangeBit(bitmap, out, a, b, true, k) {
      assert out[k / 8] == if start <= k / 8 < start + count then 0xFF else bitmap[k / 8];
      AllOnes(k % 8);
    }
  }

  lemma {:induction false} AllOnes(i: int)
    requires 0 <= i < 8
    ensures Bit(0xFF, i)
  {}

  /** Sets the bits from `at` on: the rest of a started byte, then whole bytes, then the last few bits. */
  method SetValidBits(bitmap: seq<bv8>, at: nat, length: nat) returns (out: seq<bv8>)
    requires at + length <= 8 * |bitmap|
    ensures RangeSet(bitmap, out, at, at + length, true)
  {
    var padToByte := Smaller(8 - at % 8, length);
    if padToByte == 8 {
      padToByte := 0;
    }
    var padded := SetBits(bitmap, at, at + padToByte, true);
    var start, fastLength := (at + padToByte) / 8, (length - padToByte) / 8;
    var filled := padded;
    if fastLength > 0 {
      filled := FillBytes(padded, start, fastLength);
    } else {
      ghost var here := at + padToByte;
      assert forall k :: 0 <= k < 8 * |bitmap| ==> RangeBit(padded, filled, here, here, true, k);
    }
    var tail := at + padToByte + fastLength * 8;
    RangesJoin(bitmap, padded, filled, at, at + padToByte, tail, true);
    out := SetBits(filled, tail, at + length, true);
    RangesJoin(bitmap, filled, out, at, tail, at + length, true);
  }

  method CountSetBits(bitmap: seq<bv8>, n: nat) returns (count: nat)
    requires n <= 8 * |bitmap|
    ensures count == n - CountNulls(BitsUpTo(bitmap, n))
  {
    count := 0;
    ghost var bits := BitsUpTo(bitmap, n);
    for i := 0 to n
      invariant count == i - NullsAmong(bits, i)
    {
      if BitIsSet(bitmap, i) { count := count + 1; }
    }
  }

  /** The smallest power of two above x. */
  function NextPowerOf2(x: nat): (p: nat)
    ensures p > x
  {
    PowerAbove(x, 1)
  }

  function PowerAbove(x: nat, p: nat): (q: nat)
    requires p > 0
    ensures q > x && q >= p
    decreases x - p
  {
    if p > x then p else PowerAbove(x, 2 * p)
  }

  /** It is a power of two, and half of it is not above x. */
  lemma {:induction false} NextPowerIs(x: nat, p: nat, e: nat) returns (f: nat)
    requires 0 < p == TwoTo(e) && (e == 0 || TwoTo(e - 1) <= x)
    ensures PowerAbove(x, p) == TwoTo(f) && (f == 0 || TwoTo(f - 1) <= x)
    decreases x - p
  {
    if p > x { f := e; } else { f := NextPowerIs(x, 2 * p, e + 1); }
  }

  // ---------------------------------------------------------------------------------------------
  // The builder
  // ---------------------------------------------------------------------------------------------

  class Builder {
    var nullBitmap: Option<seq<bv8>>
    var nulls: int
    var length: nat
    var capacity: nat

    /** Bits below the length are the contents, later bits are clear, and the null count is right. */
    ghost predicate Valid()
      reads this
    {
      match nullBitmap
      case None => length == 0 && nulls == 0 && capacity == 0
      case Some(bitmap) =>
        && length <= capacity && |bitmap| == (capacity + 7) / 8 && ClearFrom(bitmap, length)
        && nulls == CountNulls(BitsUpTo(bitmap, length))
    }

    /** The validity appended so far. */
    ghost function Contents(): seq<bool>
      requires Valid()
      reads this
    {
      if nullBitmap.None? then [] else BitsUpTo(nullBitmap.value, length)
    }

    constructor ()
      ensures Valid() && Contents() == []
    {
      nullBitmap, nulls, length, capacity := None, 0, 0, 0;
    }

    /** Allocates a clear bitmap. */
    method Init(cap: nat)
      requires Valid() && nullBitmap.None?
      modifies this
      ensures Valid() && capacity == cap && nullBitmap.Some? && length == 0 && Contents() == []
    {
      capacity := cap;
      var bytes := ZeroBytes((cap + 7) / 8);
      nullBitmap := Some(bytes);
    }

    /** Grows the bitmap with clear bytes. */
    method Grow(newBits: nat)
      requires Valid() && newBits >= length && (nullBitmap.Some? ==> newBits >= capacity)
      modifies this
      ensures Valid() && capacity >= newBits && nullBitmap.Some? && Contents() == old(Contents())
      ensures length == old(length) && nulls == old(nulls)
      ensures old(nullBitmap).Some? ==> capacity == if newBits > 32 then newBits else 32
    {
      if nullBitmap.None? {
        Init(newBits);
        return;
      }
      var allocBits := if newBits > MIN_BUILDER_CAPACITY then newBits else MIN_BUILDER_CAPACITY;
      var newBytes := (allocBits + 7) / 8;
      var bitmap := nullBitmap.value;
      if |bitmap| < newBytes {
        var more := ZeroBytes(newBytes - |bitmap|);
        GrownBits(bitmap, more, length);
        nullBitmap := Some(bitmap + more);
      }
      capacity := allocBits;
    }

    /** Makes room for more elements. */
    method Reserve(elements: nat)
      requires Valid()
      modifies this
      ensures Valid() && nullBitmap.Some? && length + elements <= capacity && length == old(length)
      ensures Contents() == old(Contents())
    {
      if length + elements > capacity {
        Grow(NextPowerOf2(length + elements));
      }
      if nullBitmap.None? { nullBitmap := Some([]); }
    }

    /** Appends one value; a null is not written, for the bit is clear already. */
    method UnsafeAppendBoolToBitmap(isValid: bool)
      requires Valid() && length < capacity
      modifies this
      ensures Valid() && Contents() == old(Contents()) + [isValid] && capacity == old(capacity)
    {
      var bitmap := nullBitmap.value;
      AppendedBit(bitmap, length, isValid);
      if isValid {
        nullBitmap := Some(SetBitTo(bitmap, length, true));
      } else {
        nulls := nulls + 1;
      }
      length := length + 1;
    }

    /** Appends n valid slots. */
    method UnsafeSetValid(n: nat)
      requires Valid() && nullBitmap.Some? && length + n <= capacity
      modifies this
      ensures Valid() && Contents() == old(Contents()) + Repeat(true, n) && capacity == old(capacity)
    {
      var bitmap := nullBitmap.value;
      var out := SetValidBits(bitmap, length, n);
      RepeatedBehind(bitmap, out, length, n, true);
      nullBitmap := Some(out);
      length := length + n;
    }

    /** Appends n nulls, clearing their bits; none for a count that is not positive. */
    method UnsafeAppendNulls(n: int)
      requires Valid() && nullBitmap.Some? && length + n <= capacity
      modifies this
      ensures Valid() && capacity == old(capacity)
      ensures Contents() == if n <= 0 then old(Contents()) else old(Contents()) + Repeat(false, n)
    {
      if n <= 0 {
        return;
      }
      var bitmap := nullBitmap.value;
      var out := SetBits(bitmap, length, length + n, false);
      RepeatedBehind(bitmap, out, length, n, false);
      nullBitmap := Some(out);
      length := length + n;
      nulls := nulls + n;
    }

    /** Appends the given validity; an empty one stands for n valid slots. */
    method UnsafeAppendBoolsToBitmap(valid: seq<bool>, n: nat)
      requires Valid() && nullBitmap.Some? && length + (if valid == [] then n else |valid|) <= capacity
      modifies this
      ensures Valid() && Contents() == old(Contents()) + (if valid == [] then Repeat(true, n) else valid)
      ensures capacity == old(capacity)
    {
      if |valid| == 0 {
        UnsafeSetValid(n);
        return;
      }
      var bitmap := nullBitmap.value;
      var out, cleared := PackBools(bitmap, length, valid);
      WrittenBehind(bitmap, out, length, valid);
      nullBitmap := Some(out);
      nulls := nulls + cleared;
      length := length + |valid|;
    }

    /** Drops slots from the end and recounts the nulls; it refuses lengths outside the contents. */
    method Truncate(n: int) returns (ok: bool)
      requires Valid()
      modifies this
      ensures Valid() && (ok <==> 0 <= n <= old(length))
      ensures capacity == old(capacity)
      ensures Contents() == if ok then old(Contents())[..n] else old(Contents())
    {
      if n < 0 || n > length {
        return false;
      }
      if n == length {
        assert Contents()[..n] == Contents();
        return true;
      }
      var bitmap := nullBitmap.value;
      var out := SetBits(bitmap, n, length, false);
      TruncatedBits(bitmap, out, n, length);
      nullBitmap := Some(out);
      var count := CountSetBits(out, n);
      nulls := n - count;
      length := n;
      return true;
    }

    /** The bits as an array's validity; without a bitmap there is none. */
    method Bits() returns (bits: Option<seq<bool>>)
      requires Valid()
      ensures if nullBitmap.None? then bits == None else bits == Some(Contents())
    {
      if nullBitmap.None? {
        return None;
      }
      var s := [];
      for i := 0 to length
        invariant s == BitsUpTo(nullBitmap.value, i)
      {
        s := s + [BitIsSet(nullBitmap.value, i)];
      }
      return Some(s);
    }

    /** Starts over. */
    method Reset()
      modifies this
      ensures Valid() && Contents() == []
    {
      nullBitmap, nulls, length, capacity := None, 0, 0, 0;
    }

    /** Turns a slot null, counting it once. */
    method SetNull(i: int) returns (ok: bool)
      requires Valid()
      modifies this
      ensures Valid() && (ok <==> 0 <= i < old(length))
      ensures Contents() == if ok then old(Contents())[i := false] else old(Contents())
    {
      if i < 0 || i >= length {
        return false;
      }
      var bitmap := nullBitmap.value;
      ClearedBit(bitmap, length, i);
      if BitIsSet(bitmap, i) { nulls := nulls + 1; }
      nullBitmap := Some(SetBitTo(bitmap, i, false));
      return true;
    }
  }

  method ZeroBytes(n: nat) returns (bytes: seq<bv8>)
    ensures |bytes| == n && forall i :: 0 <= i < n ==> bytes[i] == 0
  {
    bytes := [];
    for i := 0 to n
      invariant |bytes| == i && forall k :: 0 <= k < i ==> bytes[k] == 0
    {
      bytes := bytes + [0];
    }
  }

  lemma {:induction false} GrownBits(bitmap: seq<bv8>, more: seq<bv8>, n: nat)
    requires n <= 8 * |bitmap| && ClearFrom(bitmap, n) && forall i :: 0 <= i < |more| ==> more[i] == 0
    ensures ClearFrom(bitmap + more, n) && BitsUpTo(bitmap + more, n) == BitsUpTo(bitmap, n)
  {
    var grown := bitmap + more;
    forall k | 0 <= k < 8 * |grown| ensures BitIsSet(grown, k) == (k < 8 * |bitmap| && BitIsSet(bitmap, k)) {
      if k / 8 >= |bitmap| { assert grown[k / 8] == 0; }
    }
  }

  lemma {:induction false} AppendedBit(bitmap: seq<bv8>, n: nat, v: bool)
    requires n < 8 * |bitmap| && ClearFrom(bitmap, n)
    ensures var out := if v then SetBitTo(bitmap, n, true) else bitmap;
            && BitsUpTo(out, n + 1) == BitsUpTo(bitmap, n) + [v] && ClearFrom(out, n + 1)
            && CountNulls(BitsUpTo(out, n + 1)) == CountNulls(BitsUpTo(bitmap, n)) + if v then 0 else 1
  {
    var out := if v then SetBitTo(bitmap, n, true) else bitmap;
    forall k | 0 <= k < 8 * |bitmap| ensures BitIsSet(out, k) == if k == n then v else BitIsSet(bitmap, k) {
      SetBitToAt(bitmap, n, true, k);
    }
    assert BitsUpTo(out, n + 1) == BitsUpTo(bitmap, n) + [v];
    CountNullsConcat(BitsUpTo(bitmap, n), [v]);
    assert CountNulls([v]) == NullsAmong([v], 0) + if v then 0 else 1;
  }

  lemma {:induction false} TruncatedBits(bitmap: seq<bv8>, out: seq<bv8>, n: nat, length: nat)
    requires RangeSet(bitmap, out, n, length, false) && n <= length <= 8 * |bitmap| && ClearFrom(bitmap, length)
    ensures ClearFrom(out, n) && BitsUpTo(out, n) == BitsUpTo(bitmap, length)[..n]
  {
    forall k | 0 <= k < 8 * |bitmap| ensures BitIsSet(out, k) == (k < n && BitIsSet(bitmap, k)) {
      assert RangeBit(bitmap, out, n, length, false, k);
    }
  }

  lemma {:induction false} ClearedBit(bitmap: seq<bv8>, n: nat, i: nat)
    requires i < n <= 8 * |bitmap| && ClearFrom(bitmap, n)
    ensures var out := SetBitTo(bitmap, i, false);
            && ClearFrom(out, n) && BitsUpTo(out, n) == BitsUpTo(bitmap, n)[i := false]
            && CountNulls(BitsUpTo(out, n)) == CountNulls(BitsUpTo(bitmap, n)) + if BitIsSet(bitmap, i) then 1 else 0
  {
    var out := SetBitTo(bitmap, i, false);
    forall k | 0 <= k < 8 * |bitmap|
      ensures BitIsSet(out, k) == (k != i && BitIsSet(bitmap, k))
    {
      SetBitToAt(bitmap, i, false, k);
    }
    NullsChange(BitsUpTo(bitmap, n), BitsUpTo(out, n), i, n);
  }

  lemma {:induction false} NullsChange(a: seq<bool>, b: seq<bool>, i: nat, n: nat)
    requires i < |a| == |b| && n <= |a| && b == a[i := false]
    ensures NullsAmong(b, n) == NullsAmong(a, n) + if i < n && a[i] then 1 else 0
  {
    if n > 0 { NullsChange(a, b, i, n - 1); }
  }
}

/** Bits packed into bytes: setting one, and packing many from any position on. */
module Bitmaps {
  import opened Basics
  import opened Layout

  // ---------------------------------------------------------------------------------------------
  // Bits of a byte
  // ---------------------------------------------------------------------------------------------

  function BitMask(i: int): bv8
    requires 0 <= i < 8
  {
    if i == 0 then 1 else if i == 1 then 2 else if i == 2 then 4 else if i == 3 then 8
    else if i == 4 then 16 else if i == 5 then 32 else if i == 6 then 64 else 128
  }

  function FlippedBitMask(i: int): bv8
    requires 0 <= i < 8
  {
    if i == 0 then 254 else if i == 1 then 253 else if i == 2 then 251 else if i == 3 then 247
    else if i == 4 then 239 else if i == 5 then 223 else if i == 6 then 191 else 127
  }

  predicate Bit(b: bv8, i: int)
    requires 0 <= i < 8
  {
    b & BitMask(i) != 0
  }

  function PutBit(b: bv8, i: int, v: bool): bv8
    requires 0 <= i < 8
  {
    if v then b | BitMask(i) else b & FlippedBitMask(i)
  }

  /** Bit i is the one that shifting by i brings to the front: bits count from the least significant. */
  lemma {:induction false} BitIsShifted(b: bv8, i: int)
    requires 0 <= i < 8
    ensures Bit(b, i) <==> (b >> i) & 1 == 1
  {
    if i == 0 { assert b >> 0 == b; }
    else if i == 1 { assert (b & 2 != 0) == ((b >> 1) & 1 == 1); }
    else if i == 2 { assert (b & 4 != 0) == ((b >> 2) & 1 == 1); }
    else if i == 3 { assert (b & 8 != 0) == ((b >> 3) & 1 == 1); }
    else if i == 4 { assert (b & 16 != 0) == ((b >> 4) & 1 == 1); }
    else if i == 5 { assert (b & 32 != 0) == ((b >> 5) & 1 == 1); }
    else if i == 6 { assert (b & 64 != 0) == ((b >> 6) & 1 == 1); }
    else { assert (b & 128 != 0) == ((b >> 7) & 1 == 1); }
  }

  /** The byte that eight booleans make: the sum of 2^i over the true positions i. */
  function ByteOf(v: seq<bool>): bv8
    requires |v| == 8
  {
    (if v[0] then 1 else 0) + (if v[1] then 2 else 0) + (if v[2] then 4 else 0) + (if v[3] then 8 else 0) +
    (if v[4] then 16 else 0) + (if v[5] then 32 else 0) + (if v[6] then 64 else 0) + (if v[7] then 128 else 0)
  }

  /** A byte is the sum of its bits. */
  lemma {:induction false} ByteIsSum(b: bv8, v: seq<bool>)
    requires |v| == 8 && forall i :: 0 <= i < 8 ==> v[i] == Bit(b, i)
    ensures b == ByteOf(v)
  {
    assert v[0] == (b & 1 != 0) && v[1] == (b & 2 != 0) && v[2] == (b & 4 != 0) && v[3] == (b & 8 != 0);
    assert v[4] == (b & 16 != 0) && v[5] == (b & 32 != 0) && v[6] == (b & 64 != 0) && v[7] == (b & 128 != 0);
  }

  /** Setting or clearing one bit through its mask leaves the others. */
  lemma {:induction false} PutBitAt(b: bv8, i: int, v: bool, j: int)
    requires 0 <= i < 8 && 0 <= j < 8
    ensures Bit(PutBit(b, i, v), j) == if j == i then v else Bit(b, j)
  {
    if v { SetBitAt(b, i, j); } else { ClearBitAt(b, i, j); }
  }

  lemma {:induction false} SetBitAt(b: bv8, i: int, j: int)
    requires 0 <= i < 8 && 0 <= j < 8
    ensures Bit(b | BitMask(i), j) == (j == i || Bit(b, j))
  {
    if i == j { SelfMask(b, i); } else { MasksApart(i, j); OrMasked(b, BitMask(i), BitMask(j)); }
  }

  lemma {:induction false} SelfMask(b: bv8, i: int)
    requires 0 <= i < 8
    ensures (b | BitMask(i)) & BitMask(i) != 0 && (b & FlippedBitMask(i)) & BitMask(i) == 0
  {}

  lemma {:induction false} MasksApart(i: int, j: int)
    requires 0 <= i < 8 && 0 <= j < 8 && i != j
    ensures BitMask(i) & BitMask(j) == 0 && FlippedBitMask(i) & BitMask(j) == BitMask(j)
  {}

  lemma {:induction false} OrMasked(b: bv8, m: bv8, n: bv8)
    requires m & n == 0
    ensures (b | m) & n == b & n
  {}

  lemma {:induction false} AndMasked(b: bv8, m: bv8, n: bv8)
    requires m & n == n
    ensures (b & m) & n == b & n
  {}

  lemma {:induction false} ClearBitAt(b: bv8, i: int, j: int)
    requires 0 <= i < 8 && 0 <= j < 8
    ensures Bit(b & FlippedBitMask(i), j) == (j != i && Bit(b, j))
  {
    if i == j { SelfMask(b, i); } else { MasksApart(i, j); AndMasked(b, FlippedBitMask(i), BitMask(j)); }
  }

  /** The number of set bits. */
  function OnesCount8(b: bv8): int {
    OnesAmong(b, 8)
  }

  function OnesAmong(b: bv8, n: nat): int
    requires n <= 8
  {
    if n == 0 then 0 else OnesAmong(b, n - 1) + if Bit(b, n - 1) then 1 else 0
  }

  // ---------------------------------------------------------------------------------------------
  // Bits of a bitmap
  // ---------------------------------------------------------------------------------------------

  predicate BitIsSet(bitmap: seq<bv8>, k: int)
    requires 0 <= k < 8 * |bitmap|
  {
    Bit(bitmap[k / 8], k % 8)
  }

  /** Bit k of a bitmap is bit k mod 8, counted from the least significant, of byte k / 8. */
  lemma {:induction false} BitIsSetShifted(bitmap: seq<bv8>, k: int)
    requires 0 <= k < 8 * |bitmap|
    ensures BitIsSet(bitmap, k) <==> (bitmap[k / 8] >> (k % 8)) & 1 == 1
  {
    BitIsShifted(bitmap[k / 8], k % 8);
  }

  function SetBitTo(bitmap: seq<bv8>, k: int, v: bool): (out: seq<bv8>)
    requires 0 <= k < 8 * |bitmap|
    ensures |out| == |bitmap|
  {
    bitmap[k / 8 := PutBit(bitmap[k / 8], k % 8, v)]
  }

  lemma {:induction false} SetBitToAt(bitmap: seq<bv8>, k: int, v: bool, j: int)
    requires 0 <= k < 8 * |bitmap| && 0 <= j < 8 * |bitmap|
    ensures BitIsSet(SetBitTo(bitmap, k, v), j) == if j == k then v else BitIsSet(bitmap, j)
  {
    if j / 8 == k / 8 { PutBitAt(bitmap[k / 8], k % 8, v, j % 8); }
  }

  /** Bit k of `out` is value k - at for the first n values written from bit `at` on, and unchanged elsewhere. */
  ghost predicate BitWritten(bitmap: seq<bv8>, out: seq<bv8>, at: nat, values: seq<bool>, n: nat, k: int)
    requires |out| == |bitmap| && 0 <= k < 8 * |bitmap| && n <= |values|
  {
    BitIsSet(out, k) == if at <= k < at + n then values[k - at] else BitIsSet(bitmap, k)
  }

  ghost predicate Written(bitmap: seq<bv8>, out: seq<bv8>, at: nat, values: seq<bool>, n: nat)
    requires n <= |values|
  {
    |out| == |bitmap| && forall k :: 0 <= k < 8 * |bitmap| ==> BitWritten(bitmap, out, at, values, n, k)
  }

  /** The bits of a byte from `at` on were replaced. */
  ghost predicate ByteWritten(b: bv8, out: bv8, at: int, values: seq<bool>) {
    0 <= at && at + |values| <= 8 && PartWritten(b, out, at, values, |values|)
  }

  ghost predicate PartWritten(b: bv8, out: bv8, at: int, values: seq<bool>, n: int)
    requires 0 <= n <= |values|
  {
    forall i :: 0 <= i < 8 ==> PartBit(b, out, at, values, n, i)
  }

  ghost predicate PartBit(b: bv8, out: bv8, at: int, values: seq<bool>, n: int, i: int)
    requires 0 <= n <= |values| && 0 <= i < 8
  {
    Bit(out, i) == if at <= i < at + n then values[i - at] else Bit(b, i)
  }

  lemma {:induction false} PartStep(b: bv8, out: bv8, at: int, values: seq<bool>, n: int, next: int)
    requires 0 <= at && 0 <= n < |values| && next == n + 1 && at + n < 8 && PartWritten(b, out, at, values, n)
    ensures PartWritten(b, PutBit(out, at + n, values[n]), at, values, next)
  {
    var put := PutBit(out, at + n, values[n]);
    forall i | 0 <= i < 8 ensures PartBit(b, put, at, values, next, i) {
      assert PartBit(b, out, at, values, n, i);
      PutBitAt(out, at + n, values[n], i);
    }
  }

  /** Sets or clears the bits of one byte from bit `at` on, counting the cleared ones. */
  method PackPart(b: bv8, at: nat, values: seq<bool>) returns (bitSet: bv8, cleared: nat)
    requires at + |values| <= 8
    ensures ByteWritten(b, bitSet, at, values) && cleared == CountNulls(values)
  {
    bitSet, cleared := b, 0;
    var i := 0;
    assert forall k :: 0 <= k < 8 ==> PartBit(b, bitSet, at, values, i, k);
    while i < |values|
      invariant 0 <= i <= |values| && PartWritten(b, bitSet, at, values, i)
      invariant cleared == NullsAmong(values, i)
    {
      PartStep(b, bitSet, at, values, i, i + 1);
      if values[i] {
        bitSet := bitSet | BitMask(at + i);
      } else {
        bitSet := bitSet & FlippedBitMask(at + i);
        cleared := cleared + 1;
      }
      i := i + 1;
    }
  }

  /** Packs eight booleans into a byte. */
  method PackBoolsByte(values: seq<bool>) returns (packed: bv8)
    requires |values| == 8
    ensures forall b :: ByteWritten(b, packed, 0, values)
    ensures packed == ByteOf(values)
    ensures 8 - OnesCount8(packed) == CountNulls(values)
  {
    packed := 0;
    var i := 0;
    while i < 8
      invariant 0 <= i <= 8 && forall k :: 0 <= k < 8 ==> Bit(packed, k) == (k < i && values[k])
    {
      ghost var before := packed;
      if values[i] { packed := packed | BitMask(i); }
      forall k | 0 <= k < 8
        ensures Bit(packed, k) == if k == i && values[i] then true else Bit(before, k)
      {
        SetBitAt(before, i, k);
      }
      i := i + 1;
    }
    OnesAre(packed, values, 8);
    ByteIsSum(packed, values);
    forall b ensures ByteWritten(b, packed, 0, values) {
      assert forall k :: 0 <= k < 8 ==> PartBit(b, packed, 0, values, 8, k);
    }
  }

  lemma {:induction false} OnesAre(b: bv8, values: seq<bool>, n: nat)
    requires n <= |values| == 8 && forall i :: 0 <= i < 8 ==> Bit(b, i) == values[i]
    ensures n - OnesAmong(b, n) == NullsAmong(values, n)
  {
    if n > 0 { OnesAre(b, values, n - 1); }
  }

  /** Replacing one byte writes the bits it covers. */
  lemma {:induction false} WriteByte(bitmap: seq<bv8>, out: seq<bv8>, at: nat, values: seq<bool>, n: nat, p: nat,
      r: nat, b: bv8, m: nat)
    requires n + m <= |values| && Written(bitmap, out, at, values, n) && p < |bitmap|
    requires at + n == 8 * p + r && r + m <= 8
    requires ByteWritten(out[p], b, r, values[n..n + m])
    ensures Written(bitmap, out[p := b], at, values, n + m)
  {
    var next, total := out[p := b], n + m;
    forall k | 0 <= k < 8 * |bitmap| ensures BitWritten(bitmap, next, at, values, total, k) {
      assert BitWritten(bitmap, out, at, values, n, k);
      if k / 8 == p { assert PartBit(out[p], b, r, values[n..n + m], m, k % 8); }
    }
  }

  /** The first `done` values are written and their nulls counted. */
  ghost predicate Packed(bitmap: seq<bv8>, out: seq<bv8>, at: nat, valid: seq<bool>, done: nat, nulls: int)
    requires done <= |valid|
  {
    Written(bitmap, out, at, valid, done) && nulls == NullsAmong(valid, done)
  }

  /** The values that fall into one byte, bit by bit. */
  method PackWithin(bitmap: seq<bv8>, current: seq<bv8>, at: nat, valid: seq<bool>, done: nat, nulls: nat, n: nat,
      byteOffset: nat, bitOffset: nat)
    returns (out: seq<bv8>, nulls': nat)
    requires done + n <= |valid| && byteOffset < |bitmap| && Packed(bitmap, current, at, valid, done, nulls)
    requires at + done == 8 * byteOffset + bitOffset && bitOffset + n <= 8
    ensures Packed(bitmap, out, at, valid, done + n, nulls')
  {
    var bitSet, cleared := PackPart(current[byteOffset], bitOffset, valid[done..done + n]);
    WriteByte(bitmap, current, at, valid, done, byteOffset, bitOffset, bitSet, n);
    NullsSpan(valid, done, done + n);
    out, nulls' := current[byteOffset := bitSet], nulls + cleared;
  }

  /** Eight values that make a whole byte. */
  method PackWhole(bitmap: seq<bv8>, current: seq<bv8>, at: nat, valid: seq<bool>, done: nat, nulls: nat,
      byteOffset: nat)
    returns (out: seq<bv8>, nulls': nat)
    requires done + 8 <= |valid| && byteOffset < |bitmap| && Packed(bitmap, current, at, valid, done, nulls)
    requires at + done == 8 * byteOffset
    ensures Packed(bitmap, out, at, valid, done + 8, nulls')
  {
    var bitSet := PackBoolsByte(valid[done..done + 8]);
    assert ByteWritten(current[byteOffset], bitSet, 0, valid[done..done + 8]);
    WriteByte(bitmap, current, at, valid, done, byteOffset, 0, bitSet, 8);
    NullsSpan(valid, done, done + 8);
    out, nulls' := current[byteOffset := bitSet], nulls + (8 - OnesCount8(bitSet));
  }

  /**
   Writes booleans from bit `at` on: the rest of a started byte bit by bit, then whole bytes, then the last few bits.
   It counts the cleared ones.
   */
  method PackBools(bitmap: seq<bv8>, at: nat, valid: seq<bool>) returns (out: seq<bv8>, nulls: nat)
    requires at + |valid| <= 8 * |bitmap|
    ensures Written(bitmap, out, at, valid, |valid|) && nulls == CountNulls(valid)
  {
    out, nulls := bitmap, 0;
    var byteOffset, bitOffset, done := at / 8, at % 8, 0;
    assert forall k :: 0 <= k < 8 * |bitmap| ==> BitWritten(bitmap, out, at, valid, done, k);
    if bitOffset != 0 && |valid| > 0 {
      var prefixLength := Smaller(8 - bitOffset, |valid|);
      out, nulls := PackWithin(bitmap, out, at, valid, 0, 0, prefixLength, byteOffset, bitOffset);
      done, byteOffset := prefixLength, byteOffset + 1;
    }
    out, nulls, done, byteOffset := PackBytes(bitmap, out, at, valid, done, nulls, byteOffset);
    if done < |valid| {
      out, nulls := PackWithin(bitmap, out, at, valid, done, nulls, |valid| - done, byteOffset, 0);
    }
  }

  method PackBytes(bitmap: seq<bv8>, current: seq<bv8>, at: nat, valid: seq<bool>, start: nat, nulls: nat,
      startByte: nat)
    returns (out: seq<bv8>, nulls': nat, done: nat, byteOffset: nat)
    requires start <= |valid| && at + |valid| <= 8 * |bitmap| && Packed(bitmap, current, at, valid, start, nulls)
    requires start < |valid| ==> at + start == 8 * startByte
    ensures done <= |valid| < done + 8 && Packed(bitmap, out, at, valid, done, nulls')
    ensures done < |valid| ==> at + done == 8 * byteOffset
  {
    out, nulls', done, byteOffset := current, nulls, start, startByte;
    while |valid| - done >= 8
      invariant done <= |valid| && (done < |valid| ==> at + done == 8 * byteOffset)
      invariant Packed(bitmap, out, at, valid, done, nulls')
    {
      out, nulls' := PackWhole(bitmap, out, at, valid, done, nulls', byteOffset);
      done, byteOffset := done + 8, byteOffset + 1;
    }
  }

  lemma {:induction false} NullsSpan(valid: seq<bool>, a: nat, b: nat)
    requires a <= b <= |valid|
    ensures NullsAmong(valid, b) == NullsAmong(valid, a) + CountNulls(valid[a..b])
  {
    assert valid[..a] + valid[a..b] + valid[b..] == valid;
    NullsAmongConcat(valid[..a] + valid[a..b], valid[b..], b);
    NullsAmongConcat(valid[..a] + valid[a..b], valid[b..], a);
    NullsAmongConcat(valid[..a], valid[a..b], b);
    NullsAmongConcat(valid[..a], valid[a..b], a);
  }
}

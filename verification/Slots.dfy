/** The slots of several arrays end to end: where each begins, their validity, and when an output keeps their values. */
module Slots {
  import opened Layout

  /** The columns of the first n inputs end to end. */
  ghost function ColumnUpTo(data: seq<Data>, n: nat): seq<Value>
    requires n <= |data|
  {
    if n == 0 then [] else ColumnUpTo(data, n - 1) + Decode(data[n - 1])
  }

  /** The validity windows of the first n inputs end to end. */
  ghost function ValidUpTo(data: seq<Data>, n: nat): seq<bool>
    requires n <= |data|
  {
    if n == 0 then [] else ValidUpTo(data, n - 1) + Validity(data[n - 1])
  }

  /** The first slot of input i in the output. */
  ghost function SlotStart(data: seq<Data>, i: int): nat
    requires 0 <= i <= |data|
  {
    if i == 0 then 0 else SlotStart(data, i - 1) + data[i - 1].length
  }

  lemma {:induction false} UpToLengths(data: seq<Data>, n: nat)
    requires n <= |data|
    ensures |ColumnUpTo(data, n)| == SlotStart(data, n) == |ValidUpTo(data, n)|
  {
    if n > 0 { UpToLengths(data, n - 1); }
  }

  lemma {:induction false} ColumnStable(data: seq<Data>, m: nat, n: nat, i: nat)
    requires m <= n <= |data| && i < |ColumnUpTo(data, m)|
    ensures i < |ColumnUpTo(data, n)| && ColumnUpTo(data, n)[i] == ColumnUpTo(data, m)[i]
  {
    if m < n { ColumnStable(data, m, n - 1, i); }
  }

  lemma {:induction false} ValidStable(data: seq<Data>, m: nat, n: nat, i: nat)
    requires m <= n <= |data| && i < |ValidUpTo(data, m)|
    ensures i < |ValidUpTo(data, n)| && ValidUpTo(data, n)[i] == ValidUpTo(data, m)[i]
  {
    if m < n { ValidStable(data, m, n - 1, i); }
  }

  /** Slot j of input m stands behind the slots of the inputs before it. */
  lemma {:induction false} SlotAt(data: seq<Data>, m: nat, j: nat)
    requires m < |data| && j < data[m].length
    ensures SlotStart(data, m) + j < |ColumnUpTo(data, |data|)|
    ensures ColumnUpTo(data, |data|)[SlotStart(data, m) + j] == Decode(data[m])[j]
  {
    UpToLengths(data, m);
    ColumnStable(data, m + 1, |data|, SlotStart(data, m) + j);
  }

  lemma {:induction false} ValidAt(data: seq<Data>, m: nat, j: nat)
    requires m < |data| && j < data[m].length
    ensures SlotStart(data, m) + j < |ValidUpTo(data, |data|)|
    ensures ValidUpTo(data, |data|)[SlotStart(data, m) + j] == Validity(data[m])[j]
  {
    UpToLengths(data, m);
    ValidStable(data, m + 1, |data|, SlotStart(data, m) + j);
  }

  /** A part of input m's column is found at the same distance from the input's first slot. */
  lemma {:induction false} PartAt(data: seq<Data>, m: nat, a: nat, b: nat)
    requires m < |data| && a <= b <= data[m].length
    ensures SlotStart(data, m) + b <= |ColumnUpTo(data, |data|)|
    ensures ColumnUpTo(data, |data|)[SlotStart(data, m) + a..SlotStart(data, m) + b] == Decode(data[m])[a..b]
  {
    UpToLengths(data, |data|);
    SlotStartMonotone(data, m + 1, |data|);
    forall k | a <= k < b ensures ColumnUpTo(data, |data|)[SlotStart(data, m) + k] == Decode(data[m])[k] {
      SlotAt(data, m, k);
    }
  }

  /** Every slot of the output belongs to one input. */
  lemma {:induction false} LocateSlot(data: seq<Data>, n: nat, k: nat) returns (m: nat, j: nat)
    requires n <= |data| && k < SlotStart(data, n)
    ensures m < n && j < data[m].length && k == SlotStart(data, m) + j
    decreases n
  {
    if k >= SlotStart(data, n - 1) { m, j := n - 1, k - SlotStart(data, n - 1); } else {
      m, j := LocateSlot(data, n - 1, k);
    }
  }

  lemma {:induction false} SlotStartMonotone(data: seq<Data>, i: int, j: int)
    requires 0 <= i <= j <= |data|
    ensures SlotStart(data, i) <= SlotStart(data, j)
    decreases j
  {
    if i < j { SlotStartMonotone(data, i, j - 1); }
  }

  method SumArraySizes(data: seq<Data>) returns (n: nat)
    ensures n == SlotStart(data, |data|)
  {
    n := 0;
    for i := 0 to |data|
      invariant n == SlotStart(data, i)
    {
      n := n + data[i].length;
    }
  }

  // ---------------------------------------------------------------------------------------------
  // Bitmaps
  // ---------------------------------------------------------------------------------------------

  /** One input's validity window; without a bitmap the bits are set. */
  method WindowBits(d: Data) returns (bits: seq<bool>)
    requires NullsFit(d)
    ensures bits == Validity(d)
  {
    bits := [];
    for j := 0 to d.length
      invariant bits == ValidBits(d, j)
    {
      bits := bits + [d.validity.None? || d.validity.value[d.offset + j]];
    }
  }

  /** The inputs' validity windows end to end. */
  method ConcatBitmaps(data: seq<Data>) returns (bits: seq<bool>)
    requires forall i :: 0 <= i < |data| ==> NullsFit(data[i])
    ensures bits == ValidUpTo(data, |data|)
  {
    bits := [];
    for i := 0 to |data|
      invariant bits == ValidUpTo(data, i)
    {
      var window := WindowBits(data[i]);
      bits := bits + window;
    }
  }

  /** The nulls of the first n inputs. */
  ghost function NullsUpTo(data: seq<Data>, n: nat): nat
    requires n <= |data|
  {
    if n == 0 then 0 else NullsUpTo(data, n - 1) + CountNulls(Validity(data[n - 1]))
  }

  lemma {:induction false} NullsAdd(data: seq<Data>, n: nat)
    requires n <= |data|
    ensures CountNulls(ValidUpTo(data, n)) == NullsUpTo(data, n)
  {
    if n > 0 {
      NullsAdd(data, n - 1);
      CountNullsConcat(ValidUpTo(data, n - 1), Validity(data[n - 1]));
    }
  }

  // ---------------------------------------------------------------------------------------------
  // Columns
  // ---------------------------------------------------------------------------------------------

  /** The output holds slot j of input m where the concatenation has it. */
  ghost predicate Kept(data: seq<Data>, o: Data, m: nat, j: nat)
    requires m < |data|
  {
    ValueAt(o.body, SlotStart(data, m) + j) == ValueAt(data[m].body, data[m].offset + j)
  }

  /** An output with the inputs' validity that keeps every valid slot stands for the inputs' columns end to end. */
  lemma {:induction false} KeptDecodes(data: seq<Data>, o: Data)
    requires o.offset == 0 && o.length == SlotStart(data, |data|) && Validity(o) == ValidUpTo(data, |data|)
    requires forall m: nat, j: nat :: m < |data| && j < data[m].length && Validity(data[m])[j] ==> Kept(data, o, m, j)
    ensures Decode(o) == ColumnUpTo(data, |data|)
  {
    UpToLengths(data, |data|);
    forall k: nat | k < o.length ensures Decode(o)[k] == ColumnUpTo(data, |data|)[k] {
      var m, j := LocateSlot(data, |data|, k);
      SlotAt(data, m, j);
      ValidAt(data, m, j);
      assert Decode(o)[k] == SlotValue(o, k) && Decode(data[m])[j] == SlotValue(data[m], j);
      if Validity(data[m])[j] { assert Kept(data, o, m, j); }
    }
  }
}

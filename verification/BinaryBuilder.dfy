/** The binary builder: a validity bitmap, offsets and bytes that stand for the sequence of appended values. */
module BinaryBuilder {
  import opened Basics
  import opened Sequences
  import opened Layout
  import opened BitmapBuilder

  // ---------------------------------------------------------------------------------------------
  // Slots under construction
  // ---------------------------------------------------------------------------------------------

  /** Where slot i ends: at the next slot's offset, or at the end of the bytes. */
  function EndOf<T>(offsets: seq<int>, bytes: seq<T>, i: int): int
    requires 0 <= i
  {
    if i + 1 < |offsets| then offsets[i + 1] else |bytes|
  }

  ghost predicate InOrderAt<T>(offsets: seq<int>, bytes: seq<T>, i: int)
    requires 0 <= i < |offsets|
  {
    0 <= offsets[i] <= EndOf(offsets, bytes, i) <= |bytes|
  }

  /** Every slot covers a part of the bytes. */
  ghost predicate Covering<T>(offsets: seq<int>, bytes: seq<T>) {
    forall i :: 0 <= i < |offsets| ==> InOrderAt(offsets, bytes, i)
  }

  ghost function SlotAt(valid: seq<bool>, offsets: seq<int>, bytes: seq<Byte>, i: int): Value
    requires 0 <= i < |valid| && i < |offsets|
  {
    if valid[i] then Bytes(Cut(bytes, offsets[i], EndOf(offsets, bytes, i))) else Null
  }

  ghost function SlotsUpTo(valid: seq<bool>, offsets: seq<int>, bytes: seq<Byte>, n: nat): (column: seq<Value>)
    requires n <= |valid| && n <= |offsets|
    ensures |column| == n && forall i {:trigger column[i]} :: 0 <= i < n ==>
              column[i] == SlotAt(valid, offsets, bytes, i)
  {
    if n == 0 then [] else SlotsUpTo(valid, offsets, bytes, n - 1) + [SlotAt(valid, offsets, bytes, n - 1)]
  }

  /** An append writes the offset first, so the slot before it ends where the new one begins. */
  lemma {:induction false} AppendedSlot(valid: seq<bool>, offsets: seq<int>, bytes: seq<Byte>, isValid: bool,
      v: seq<Byte>)
    requires |valid| == |offsets| && Covering(offsets, bytes)
    ensures Covering(offsets + [|bytes|], bytes + v)
    ensures SlotsUpTo(valid + [isValid], offsets + [|bytes|], bytes + v, |valid| + 1) ==
            SlotsUpTo(valid, offsets, bytes, |valid|) + [if isValid then Bytes(v) else Null]
  {
    var n, more, longer := |valid|, offsets + [|bytes|], bytes + v;
    forall i | 0 <= i <= n ensures InOrderAt(more, longer, i) { if i < n { assert InOrderAt(offsets, bytes, i); } }
    forall i | 0 <= i < n ensures SlotAt(valid + [isValid], more, longer, i) == SlotAt(valid, offsets, bytes, i) {
      assert InOrderAt(offsets, bytes, i) && EndOf(more, longer, i) == EndOf(offsets, bytes, i);
    }
    assert longer[|bytes|..|longer|] == v;
    assert SlotsUpTo(valid + [isValid], more, longer, n + 1) ==
        SlotsUpTo(valid, offsets, bytes, n) + [if isValid then Bytes(v) else Null];
  }

  /** The first n values of a bulk append. */
  ghost function Items(vs: seq<seq<Byte>>, valid: seq<bool>, n: nat): (column: seq<Value>)
    requires n <= |vs| == |valid|
    ensures |column| == n && forall i {:trigger column[i]} :: 0 <= i < n ==>
              column[i] == if valid[i] then Bytes(vs[i]) else Null
  {
    if n == 0 then [] else Items(vs, valid, n - 1) + [if valid[n - 1] then Bytes(vs[n - 1]) else Null]
  }

  lemma {:induction false} OneMoreItem(before: seq<Value>, vs: seq<seq<Byte>>, valid: seq<bool>, n: nat)
    requires n < |vs| == |valid|
    ensures before + Items(vs, valid, n + 1) ==
              (before + Items(vs, valid, n)) + [if valid[n] then Bytes(vs[n]) else Null]
  {}

  /** How many bytes a bulk append adds. */
  function TotalBytes(vs: seq<seq<Byte>>, n: nat): nat
    requires n <= |vs|
  {
    if n == 0 then 0 else TotalBytes(vs, n - 1) + |vs[n - 1]|
  }

  /** A null takes no bytes, and neither does an empty value. */
  function Blank(isValid: bool): Value {
    if isValid then Bytes([]) else Null
  }

  /** Slots behind the others that all begin at the end of the bytes are blank. */
  lemma {:induction false} BlankSlots(valid: seq<bool>, offsets: seq<int>, bytes: seq<Byte>, more: seq<int>,
      isValid: bool, n: nat)
    requires |valid| == |offsets| && Covering(offsets, bytes)
    requires |more| == n && forall i :: 0 <= i < n ==> more[i] == |bytes|
    ensures Covering(offsets + more, bytes)
    ensures SlotsUpTo(valid + Repeat(isValid, n), offsets + more, bytes, |valid| + n) ==
            SlotsUpTo(valid, offsets, bytes, |valid|) + Repeat(Blank(isValid), n)
  {
    var before := SlotsUpTo(valid, offsets, bytes, |valid|);
    if n == 0 {
      assert offsets + more == offsets && valid + Repeat(isValid, 0) == valid;
      assert before + Repeat(Blank(isValid), 0) == before;
    } else {
      var fewer, bits := more[..n - 1], Repeat(isValid, n - 1);
      BlankSlots(valid, offsets, bytes, fewer, isValid, n - 1);
      AppendedSlot(valid + bits, offsets + fewer, bytes, isValid, []);
      assert bytes + [] == bytes && (offsets + fewer) + [|bytes|] == offsets + more;
      assert (valid + bits) + [isValid] == valid + Repeat(isValid, n);
      assert (before + Repeat(Blank(isValid), n - 1)) + [Blank(isValid)] == before + Repeat(Blank(isValid), n);
    }
  }

  lemma {:induction false} TotalClimbs(vs: seq<seq<Byte>>, i: nat, n: nat)
    requires i < n <= |vs|
    ensures TotalBytes(vs, i) + |vs[i]| <= TotalBytes(vs, n)
  {
    if i < n - 1 { TotalClimbs(vs, i, n - 1); }
  }

  /** Where truncating to n slots cuts the bytes: at the offset of the first slot that goes. */
  function DataLen(offsets: seq<int>, bytes: seq<Byte>, n: nat): int {
    if n < |offsets| then offsets[n] else |bytes|
  }

  /** Truncation leaves the slots in front as they were. */
  lemma {:induction false} TruncatedSlots(valid: seq<bool>, offsets: seq<int>, bytes: seq<Byte>, n: nat)
    requires |valid| == |offsets| && Covering(offsets, bytes) && n <= |valid|
    ensures 0 <= DataLen(offsets, bytes, n) <= |bytes| && Covering(offsets[..n], bytes[..DataLen(offsets, bytes, n)])
    ensures SlotsUpTo(valid[..n], offsets[..n], bytes[..DataLen(offsets, bytes, n)], n) ==
              SlotsUpTo(valid, offsets, bytes, |valid|)[..n]
  {
    if n < |offsets| { assert InOrderAt(offsets, bytes, n); }
    var len := DataLen(offsets, bytes, n);
    var fewer, shorter := offsets[..n], bytes[..len];
    forall i | 0 <= i < n
      ensures InOrderAt(fewer, shorter, i) && SlotAt(valid[..n], fewer, shorter, i) == SlotAt(valid, offsets, bytes, i)
    {
      assert InOrderAt(offsets, bytes, i) && EndOf(fewer, shorter, i) == EndOf(offsets, bytes, i);
      EndsClimb(offsets, bytes, i, n);
      assert shorter[offsets[i]..EndOf(offsets, bytes, i)] == bytes[offsets[i]..EndOf(offsets, bytes, i)];
    }
  }

  lemma {:induction false} EndsClimb(offsets: seq<int>, bytes: seq<Byte>, i: nat, n: nat)
    requires Covering(offsets, bytes) && i < n <= |offsets|
    ensures EndOf(offsets, bytes, i) <= DataLen(offsets, bytes, n)
    decreases n
  {
    assert InOrderAt(offsets, bytes, n - 1);
    if i < n - 1 { EndsClimb(offsets, bytes, i, n - 1); }
  }

  /** With one more offset behind the last slot, the buffers are those of a binary array. */
  lemma {:induction false} FinishedSlots(valid: seq<bool>, offsets: seq<int>, bytes: seq<Byte>, width: Width, d: Data)
    requires |valid| == |offsets| && Covering(offsets, bytes) && |bytes| <= width.Limit()
    requires d.offset == 0 && d.length == |valid| && Validity(d) == valid
    requires d.body == BinaryBody(Some(offsets + [|bytes|]), bytes)
    ensures BinaryFits(d, width) && Decode(d) == SlotsUpTo(valid, offsets, bytes, |valid|)
  {
    var all := offsets + [|bytes|];
    forall i | 0 <= i < |offsets| ensures EndOf(offsets, bytes, i) == all[i + 1] {}
    forall i, j | 0 <= i <= j <= |valid| ensures InOrder(all, i, j) { AllClimb(offsets, bytes, i, j); }
    forall i | 0 <= i < d.length ensures Decode(d)[i] == SlotAt(valid, offsets, bytes, i) {
      assert Validity(d)[i] == valid[i];
      assert ValueAt(d.body, 0 + i) == Bytes(Cut(bytes, all[i], all[i + 1]));
    }
    if d.length > 0 { assert InOrderAt(offsets, bytes, 0); }
  }

  lemma {:induction false} AllClimb(offsets: seq<int>, bytes: seq<Byte>, i: nat, j: nat)
    requires Covering(offsets, bytes) && i <= j <= |offsets|
    ensures (offsets + [|bytes|])[i] <= (offsets + [|bytes|])[j]
    decreases j
  {
    if i < j {
      AllClimb(offsets, bytes, i, j - 1);
      assert InOrderAt(offsets, bytes, j - 1);
    }
  }

  // ---------------------------------------------------------------------------------------------
  // The builder
  // ---------------------------------------------------------------------------------------------

  class BinaryBuilder {
    const builder: Builder
    const width: Width
    var offsets: seq<int>
    var values: seq<Byte>

    ghost predicate Valid()
      reads this, builder
    {
      && builder.Valid() && |offsets| == |builder.Contents()| && Covering(offsets, values) && |values| <= width.Limit()
    }

    /** The values appended so far. */
    ghost function Contents(): seq<Value>
      requires Valid()
      reads this, builder
    {
      SlotsUpTo(builder.Contents(), offsets, values, |offsets|)
    }

    constructor (offsetWidth: Width)
      ensures Valid() && Contents() == [] && fresh(builder) && width == offsetWidth
    {
      builder := new Builder();
      width, offsets, values := offsetWidth, [], [];
    }

    /**
     Appends one slot: its offset, its bytes, its validity. Bytes that the offset type cannot count break the builder.
     */
    method AppendSlot(v: seq<Byte>, isValid: bool)
      requires Valid()
      modifies this, builder
      ensures Valid() <==> old(|values|) + |v| <= width.Limit()
      ensures Valid() ==> Contents() == old(Contents()) + [if isValid then Bytes(v) else Null]
    {
      ghost var bits := builder.Contents();
      AppendedSlot(bits, offsets, values, isValid, v);
      builder.Reserve(1);
      offsets := offsets + [width.Wrap(|values|)];
      values := values + v;
      builder.UnsafeAppendBoolToBitmap(isValid);
    }

    method Append(v: seq<Byte>)
      requires Valid()
      modifies this, builder
      ensures Valid() <==> old(|values|) + |v| <= width.Limit()
      ensures Valid() ==> Contents() == old(Contents()) + [Bytes(v)]
    {
      AppendSlot(v, true);
    }

    method AppendNull()
      requires Valid()
      modifies this, builder
      ensures Valid() && Contents() == old(Contents()) + [Null]
    {
      AppendSlot([], false);
    }

    method AppendEmptyValue()
      requires Valid()
      modifies this, builder
      ensures Valid() && Contents() == old(Contents()) + [Bytes([])]
    {
      AppendSlot([], true);
    }

    /** The end of the bytes as the offset of n more slots, whose validity is still to be appended. */
    method AppendCurrentOffsets(n: nat, ghost bits: seq<bool>, ghost isValid: bool)
      requires |bits| == |offsets| && Covering(offsets, values) && |values| <= width.Limit()
      modifies `offsets
      ensures |offsets| == |bits| + n && Covering(offsets, values)
      ensures SlotsUpTo(bits + Repeat(isValid, n), offsets, values, |offsets|) ==
              SlotsUpTo(bits, old(offsets), values, |bits|) + Repeat(Blank(isValid), n)
    {
      ghost var more := [];
      for i := 0 to n
        invariant offsets == old(offsets) + more && |more| == i && forall k :: 0 <= k < i ==> more[k] == |values|
      {
        offsets := offsets + [width.Wrap(|values|)];
        more := more + [|values|];
      }
      BlankSlots(bits, old(offsets), values, more, isValid, n);
    }

    /** Appends n nulls; none for a count that is not positive. */
    method AppendNulls(n: int)
      requires Valid()
      modifies this, builder
      ensures Valid() && Contents() == old(Contents()) + if n <= 0 then [] else Repeat(Null, n)
    {
      if n <= 0 {
        return;
      }
      builder.Reserve(n);
      AppendCurrentOffsets(n, builder.Contents(), false);
      builder.UnsafeAppendNulls(n);
    }

    /** Appends n empty values; none for a count that is not positive. */
    method AppendEmptyValues(n: int)
      requires Valid()
      modifies this, builder
      ensures Valid() && Contents() == old(Contents()) + if n <= 0 then [] else Repeat(Bytes([]), n)
    {
      if n <= 0 {
        return;
      }
      builder.Reserve(n);
      AppendCurrentOffsets(n, builder.Contents(), true);
      builder.UnsafeAppendBoolsToBitmap([], n);
    }

    /** The offsets and bytes of many values, whose validity is still to be appended. */
    method AppendPieces(vs: seq<seq<Byte>>, ghost bits: seq<bool>, ghost flags: seq<bool>)
      requires |bits| == |offsets| && Covering(offsets, values) && |flags| == |vs|
      modifies `offsets, `values
      ensures |offsets| == |bits| + |vs| && |values| == old(|values|) + TotalBytes(vs, |vs|)
      ensures |values| <= width.Limit() ==> Covering(offsets, values)
      ensures |values| <= width.Limit() ==>
                SlotsUpTo(bits + flags, offsets, values, |offsets|) ==
                SlotsUpTo(bits, old(offsets), old(values), |bits|) + Items(vs, flags, |vs|)
    {
      ghost var before := SlotsUpTo(bits, offsets, values, |bits|);
      ghost var all, fits := bits, |values| + TotalBytes(vs, |vs|) <= width.Limit();
      assert before + Items(vs, flags, 0) == before;
      for i := 0 to |vs|
        invariant all == bits + flags[..i] && |offsets| == |all|
        invariant |values| == old(|values|) + TotalBytes(vs, i)
        invariant fits ==> Covering(offsets, values)
        invariant fits ==> SlotsUpTo(all, offsets, values, |all|) == before + Items(vs, flags, i)
      {
        TotalClimbs(vs, i, |vs|);
        if fits {
          AppendedSlot(all, offsets, values, flags[i], vs[i]);
          OneMoreItem(before, vs, flags, i);
        }
        offsets := offsets + [width.Wrap(|values|)];
        values := values + vs[i];
        all := all + [flags[i]];
      }
      assert flags[..|vs|] == flags;
    }

    /** Appends many values, the bytes of null ones too; it refuses a validity of another length. */
    method AppendValues(vs: seq<seq<Byte>>, valid: seq<bool>) returns (ok: bool)
      requires Valid()
      modifies this, builder
      ensures ok <==> |valid| == |vs| || valid == []
      ensures Valid() <==> !ok || old(|values|) + TotalBytes(vs, |vs|) <= width.Limit()
      ensures Valid() ==>
                Contents() == if ok then old(Contents())
                + Items(vs, if valid == [] then Repeat(true, |vs|) else valid, |vs|) else old(Contents())
    {
      if |vs| != |valid| && |valid| != 0 {
        return false;
      }
      if |vs| == 0 {
        assert TotalBytes(vs, 0) == 0;
        return true;
      }
      ghost var flags := if valid == [] then Repeat(true, |vs|) else valid;
      builder.Reserve(|vs|);
      AppendPieces(vs, builder.Contents(), flags);
      builder.UnsafeAppendBoolsToBitmap(valid, |vs|);
      return true;
    }

    /** The bytes of a slot, which are its value unless it is null. */
    method ValueOf(i: nat) returns (v: seq<Byte>)
      requires Valid() && i < |offsets|
      ensures Contents()[i] == if builder.Contents()[i] then Bytes(v) else Null
    {
      assert InOrderAt(offsets, values, i);
      var end := if i == |offsets| - 1 then |values| else offsets[i + 1];
      v := values[offsets[i]..end];
    }

    /** Drops slots from the end with their offsets and bytes; it refuses lengths outside the contents. */
    method Truncate(n: int) returns (ok: bool)
      requires Valid()
      modifies this, builder
      ensures Valid() && (ok <==> 0 <= n <= old(|offsets|))
      ensures Contents() == if ok then old(Contents())[..n] else old(Contents())
    {
      ghost var bits := builder.Contents();
      if 0 <= n <= |offsets| { TruncatedSlots(bits, offsets, values, n); }
      var dataLen := |values|;
      if 0 <= n < |offsets| {
        dataLen := offsets[n];
      }
      ok := builder.Truncate(n);
      if !ok {
        return;
      }
      assert builder.Contents() == bits[..n] && dataLen == DataLen(offsets, values, n);
      offsets := offsets[..n];
      values := values[..dataLen];
    }

    /** The array of what the builder holds, with one more offset at the end. */
    method MakeData() returns (d: Data)
      requires Valid()
      ensures BinaryFits(d, width) && NullsFit(d) && Decode(d) == Contents()
    {
      ghost var bits := builder.Contents();
      var finished := offsets + [width.Wrap(|values|)];
      var validity := builder.Bits();
      d := Data(0, |offsets|, builder.nulls, validity, BinaryBody(Some(finished), values));
      ValidityIs(d, bits);
      FinishedSlots(bits, offsets, values, width, d);
    }

    /** Hands out the finished array and starts over. */
    method NewData() returns (d: Data)
      requires Valid()
      modifies this, builder
      ensures BinaryFits(d, width) && NullsFit(d) && Decode(d) == old(Contents())
      ensures Valid() && Contents() == []
    {
      d := MakeData();
      builder.Reset();
      offsets, values := [], [];
    }
  }

  lemma {:induction false} ValidityIs(d: Data, bits: seq<bool>)
    requires d.offset == 0 && d.length == |bits| && (if d.validity.None? then bits == [] else d.validity.value == bits)
    ensures Validity(d) == bits
  {
    forall i | 0 <= i < |bits| ensures Validity(d)[i] == bits[i] { assert Validity(d)[i] == ValidBit(d, i); }
  }
}

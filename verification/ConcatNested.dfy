/**
 Concatenation of arrays with children, one level deep: given the children's columns, every valid slot keeps its value.
 */
module ConcatNested {
  import opened Basics
  import opened Sequences
  import opened Layout
  import opened Slots
  import opened Offsets
  import opened ConcatKinds

  /** Cuts every child to its range. */
  method GatherChildrenRanges(children: seq<Data>, ranges: seq<Range>) returns (slices: seq<Data>)
    requires |children| == |ranges|
    requires forall i :: 0 <= i < |children| ==>
               0 <= ranges[i].offset && 0 <= ranges[i].length
                   && ranges[i].offset + ranges[i].length <= children[i].length
    ensures |slices| == |children|
    ensures forall i {:trigger slices[i]} :: 0 <= i < |children| ==>
              slices[i] == Slice(children[i], ranges[i].offset, ranges[i].offset + ranges[i].length)
  {
    slices := [];
    for i := 0 to |children|
      invariant |slices| == i
      invariant forall k {:trigger slices[k]} :: 0 <= k < i ==>
                  slices[k] == Slice(children[k], ranges[k].offset, ranges[k].offset + ranges[k].length)
    {
      slices := slices + [Slice(children[i], ranges[i].offset, ranges[i].offset + ranges[i].length)];
    }
  }

  /** Part [a, b) of slice m in the concatenated column is the same part of the child it was cut from. */
  lemma {:induction false} SlicePart(child: Data, r: Range, slices: seq<Data>, m: nat, a: nat, b: nat)
    requires m < |slices| && NullsFit(child)
    requires 0 <= r.offset && 0 <= r.length && r.offset + r.length <= child.length && a <= b <= r.length
    requires slices[m] == Slice(child, r.offset, r.offset + r.length)
    ensures SlotStart(slices, m) + b <= |ColumnUpTo(slices, |slices|)|
    ensures ColumnUpTo(slices, |slices|)[SlotStart(slices, m) + a..SlotStart(slices, m) + b] ==
            Decode(child)[r.offset + a..r.offset + b]
  {
    PartAt(slices, m, a, b);
    SliceDecodes(child, r.offset, r.offset + r.length);
    PartOfPart(Decode(child), r.offset, r.offset + r.length, a, b);
  }

  // ---------------------------------------------------------------------------------------------
  // Lists
  // ---------------------------------------------------------------------------------------------

  ghost predicate AllLists(data: seq<Data>, width: Width) {
    forall i :: 0 <= i < |data| ==> IsList(data, width, i)
  }

  ghost predicate IsList(data: seq<Data>, width: Width, i: int)
    requires 0 <= i < |data|
  {
    ListFits(data[i], width) && NullsFit(data[i].body.child)
  }

  function ListChildrenUpTo(data: seq<Data>, n: nat): (children: seq<Data>)
    requires n <= |data| && forall i :: 0 <= i < |data| ==> data[i].body.ListBody?
    ensures |children| == n && forall i {:trigger children[i]} :: 0 <= i < n ==> children[i] == data[i].body.child
  {
    if n == 0 then [] else ListChildrenUpTo(data, n - 1) + [data[n - 1].body.child]
  }

  lemma {:induction false} ListClimbs(data: seq<Data>, width: Width)
    requires AllLists(data, width)
    ensures AllClimb(Windows(data), width) && forall i :: 0 <= i < |data| ==> Covered(Windows(data)[i])
  {
    forall i | 0 <= i < |data| ensures Climbs(Windows(data)[i], width.Limit()) && Covered(Windows(data)[i]) {
      assert IsList(data, width, i);
    }
  }

  lemma {:induction false} ListRange(d: Data, width: Width)
    requires ListFits(d, width)
    ensures var r := UsedRange(WindowOf(d));
            0 <= r.offset && 0 <= r.length && r.offset + r.length <= d.body.child.length
  {
    if d.length > 0 { ClimbsBounds(WindowOf(d), Smaller(d.body.child.length, width.Limit()), 0); }
  }

  /** `slices` are the inputs' children cut to what the inputs use. */
  ghost predicate ListSlices(data: seq<Data>, slices: seq<Data>) {
    |slices| == |data| && forall i :: 0 <= i < |data| ==> ListSlice(data, slices, i)
  }

  ghost predicate ListSlice(data: seq<Data>, slices: seq<Data>, i: int)
    requires 0 <= i < |data| == |slices|
  {
    && data[i].body.ListBody? && var r := UsedRange(WindowOf(data[i]));
    && 0 <= r.offset && 0 <= r.length && r.offset + r.length <= data[i].body.child.length
    && slices[i] == Slice(data[i].body.child, r.offset, r.offset + r.length)
  }

  /**
   Offsets rebased and children cut to what is used; refused exactly when the values used outnumber the offset type.
   */
  method ConcatListOffsets(data: seq<Data>, width: Width) returns (r: Result<(seq<int>, seq<Data>)>)
    requires AllLists(data, width)
    ensures r.Err? <==> UsedBefore(Windows(data), |data|) > width.Limit()
    ensures r.Ok? ==> r.value.0 == RebasedUpTo(Windows(data), |data|) + [UsedBefore(Windows(data), |data|)]
    ensures r.Ok? ==> ListSlices(data, r.value.1)
  {
    var ws := Windows(data);
    ListClimbs(data, width);
    RefusedIffTooLong(ws, width);
    var offsets := ConcatOffsets(ws, width);
    if offsets.Err? {
      return Err(offsets.error);
    }
    forall i | 0 <= i < |data| ensures data[i].body.ListBody? { assert IsList(data, width, i); }
    forall i | 0 <= i < |data|
      ensures var r := UsedRange(ws[i]);
              0 <= r.offset && 0 <= r.length && r.offset + r.length <= data[i].body.child.length
    {
      assert IsList(data, width, i);
      ListRange(data[i], width);
    }
    var slices := GatherChildrenRanges(ListChildrenUpTo(data, |data|), offsets.value.1);
    return Ok((offsets.value.0, slices));
  }

  lemma {:induction false} ListSliceStarts(data: seq<Data>, slices: seq<Data>, n: nat)
    requires n <= |data| && ListSlices(data, slices)
    ensures SlotStart(slices, n) == UsedBefore(Windows(data), n)
  {
    forall i {:trigger slices[i]} | 0 <= i < |data| ensures slices[i].length == UsedRange(Windows(data)[i]).length {
      assert ListSlice(data, slices, i);
    }
    SliceStarts(Windows(data), slices, n);
  }

  lemma {:induction false} ListSlotKept(data: seq<Data>, width: Width, o: Data, slices: seq<Data>, m: nat, j: nat)
    requires AllLists(data, width) && ListSlices(data, slices) && m < |data| && j < data[m].length
    requires o.body.ListBody?
    requires o.body.offsets == Some(RebasedUpTo(Windows(data), |data|) + [UsedBefore(Windows(data), |data|)])
    requires Decode(o.body.child) == ColumnUpTo(slices, |slices|)
    ensures Kept(data, o, m, j)
  {
    ListClimbs(data, width);
    var a, b := SlotRange(data, width, o.body.offsets.value, m, j);
    ListSliceStarts(data, slices, m);
    assert IsList(data, width, m);
    ListPart(data, width, slices, m, a, b);
  }

  lemma {:induction false} ListPart(data: seq<Data>, width: Width, slices: seq<Data>, m: nat, a: nat, b: nat)
    requires AllLists(data, width) && ListSlices(data, slices) && m < |data| && data[m].body.ListBody?
    requires a <= b <= UsedRange(WindowOf(data[m])).length
    ensures var start, child := UsedRange(WindowOf(data[m])).offset, data[m].body.child;
            && 0 <= start && start + b <= child.length
            && SlotStart(slices, m) + b <= |ColumnUpTo(slices, |slices|)|
            && ColumnUpTo(slices, |slices|)[SlotStart(slices, m) + a..SlotStart(slices, m) + b] ==
                Decode(child)[start + a..start + b]
  {
    var r, child := UsedRange(WindowOf(data[m])), data[m].body.child;
    assert IsList(data, width, m) && ListSlice(data, slices, m);
    SlicePart(child, r, slices, m, a, b);
  }

  lemma {:induction false} ListKeeps(data: seq<Data>, width: Width, o: Data, slices: seq<Data>)
    requires AllLists(data, width) && ListSlices(data, slices) && Covers(data, o)
    requires o.body.ListBody?
    requires o.body.offsets == Some(RebasedUpTo(Windows(data), |data|) + [UsedBefore(Windows(data), |data|)])
    requires Decode(o.body.child) == ColumnUpTo(slices, |slices|)
    ensures Decode(o) == ColumnUpTo(data, |data|)
  {
    forall m: nat, j: nat | m < |data| && j < data[m].length && Validity(data[m])[j] ensures Kept(data, o, m, j) {
      ListSlotKept(data, width, o, slices, m, j);
    }
    KeptDecodes(data, o);
  }

  lemma {:induction false} ListOutputFits(data: seq<Data>, width: Width, o: Data, slices: seq<Data>)
    requires AllLists(data, width) && ListSlices(data, slices) && Covers(data, o)
    requires UsedBefore(Windows(data), |data|) <= width.Limit()
    requires o.body.ListBody?
    requires o.body.offsets == Some(RebasedUpTo(Windows(data), |data|) + [UsedBefore(Windows(data), |data|)])
    requires o.body.child.length == SlotStart(slices, |slices|)
    ensures ListFits(o, width)
  {
    ListClimbs(data, width);
    OutputOffsetsFit(data, width, o.body.offsets.value);
    ListSliceStarts(data, slices, |data|);
  }

  // ---------------------------------------------------------------------------------------------
  // Fixed-size lists
  // ---------------------------------------------------------------------------------------------

  ghost predicate AllFixedSizeLists(data: seq<Data>, size: nat) {
    forall i :: 0 <= i < |data| ==> IsFixedSizeList(data, size, i)
  }

  ghost predicate IsFixedSizeList(data: seq<Data>, size: nat, i: int)
    requires 0 <= i < |data|
  {
    FixedSizeListFits(data[i], size) && NullsFit(data[i].body.child)
  }

  ghost predicate FixedSlices(data: seq<Data>, size: nat, slices: seq<Data>) {
    |slices| == |data| && forall i :: 0 <= i < |data| ==> FixedSlice(data, size, slices, i)
  }

  ghost predicate FixedSlice(data: seq<Data>, size: nat, slices: seq<Data>, i: int)
    requires 0 <= i < |data| && i < |slices|
  {
    && data[i].body.FixedSizeListBody?
        && 0 <= data[i].offset * size <= (data[i].offset + data[i].length) * size <= data[i].body.child.length
    && slices[i] == Slice(data[i].body.child, data[i].offset * size, (data[i].offset + data[i].length) * size)
  }

  lemma {:induction false} Scaled(a: nat, b: nat, size: nat)
    ensures 0 <= a * size <= (a + b) * size == a * size + b * size
  {}

  /** Cuts every child to `size` values per slot. */
  method GatherChildrenMultiplier(data: seq<Data>, size: nat) returns (slices: seq<Data>)
    requires AllFixedSizeLists(data, size)
    ensures FixedSlices(data, size, slices)
  {
    slices := [];
    for i := 0 to |data|
      invariant |slices| == i
      invariant forall k :: 0 <= k < i ==> FixedSlice(data, size, slices, k)
    {
      assert IsFixedSizeList(data, size, i);
      var d := data[i];
      Scaled(d.offset, d.length, size);
      ghost var before := slices;
      slices := slices + [Slice(d.body.child, d.offset * size, (d.offset + d.length) * size)];
      assert forall k :: 0 <= k < i ==> FixedSlice(data, size, before, k) && FixedSlice(data, size, slices, k);
    }
  }

  lemma {:induction false} FixedSliceStarts(data: seq<Data>, size: nat, slices: seq<Data>, n: nat)
    requires n <= |data| && FixedSlices(data, size, slices)
    ensures SlotStart(slices, n) == SlotStart(data, n) * size
  {
    if n > 0 {
      FixedSliceStarts(data, size, slices, n - 1);
      assert FixedSlice(data, size, slices, n - 1);
      Scaled(data[n - 1].offset, data[n - 1].length, size);
      Scaled(SlotStart(data, n - 1), data[n - 1].length, size);
    }
  }

  /** Slot j of n slots behind `offset` others, in values. */
  lemma {:induction false} ScaledSlot(offset: nat, j: nat, n: nat, size: nat)
    requires j < n
    ensures (offset + j) * size == offset * size + j * size
    ensures (offset + j + 1) * size == offset * size + (j * size + size)
    ensures (offset + n) * size == offset * size + n * size && 0 <= j * size && j * size + size <= n * size
  {
    Scaled(j + 1, n - j - 1, size);
  }

  lemma {:induction false} FixedSizeSlotKept(data: seq<Data>, size: nat, slices: seq<Data>, o: Data, m: nat, j: nat)
    requires AllFixedSizeLists(data, size) && FixedSlices(data, size, slices) && m < |data| && j < data[m].length
    requires o.body.FixedSizeListBody? && o.body.size == size && Decode(o.body.child) == ColumnUpTo(slices, |slices|)
    ensures Kept(data, o, m, j)
  {
    var d, start := data[m], SlotStart(data, m);
    assert IsFixedSizeList(data, size, m) && FixedSlice(data, size, slices, m);
    FixedSliceStarts(data, size, slices, m);
    ScaledSlot(d.offset, j, d.length, size);
    ScaledSlot(start, j, d.length, size);
    SlicePart(d.body.child, Range(d.offset * size, d.length * size), slices, m, j * size, j * size + size);
    SameFixedSize(o.body, start + j, start * size + j * size, d.body, d.offset + j, d.offset * size + j * size, size);
  }

  lemma {:induction false} SameFixedSize(b: Body, p: nat, x: nat, c: Body, q: nat, y: nat, size: nat)
    requires b.FixedSizeListBody? && c.FixedSizeListBody? && b.size == size == c.size
    requires p * size == x && (p + 1) * size == x + size && q * size == y && (q + 1) * size == y + size
    requires x + size <= b.child.length && y + size <= c.child.length
    requires Decode(b.child)[x..x + size] == Decode(c.child)[y..y + size]
    ensures ValueAt(b, p) == ValueAt(c, q)
  {}

  lemma {:induction false} FixedSizeKeeps(data: seq<Data>, size: nat, slices: seq<Data>, o: Data)
    requires AllFixedSizeLists(data, size) && FixedSlices(data, size, slices) && Covers(data, o)
    requires o.body.FixedSizeListBody? && o.body.size == size && Decode(o.body.child) == ColumnUpTo(slices, |slices|)
    ensures Decode(o) == ColumnUpTo(data, |data|)
    ensures FixedSizeListFits(o, size)
  {
    forall m: nat, j: nat | m < |data| && j < data[m].length && Validity(data[m])[j] ensures Kept(data, o, m, j) {
      FixedSizeSlotKept(data, size, slices, o, m, j);
    }
    KeptDecodes(data, o);
    FixedSliceStarts(data, size, slices, |data|);
    UpToLengths(slices, |slices|);
  }

  // ---------------------------------------------------------------------------------------------
  // Structs
  // ---------------------------------------------------------------------------------------------

  ghost predicate AllStructs(data: seq<Data>, fields: nat) {
    forall i :: 0 <= i < |data| ==> IsStruct(data, fields, i)
  }

  ghost predicate IsStruct(data: seq<Data>, fields: nat, i: int)
    requires 0 <= i < |data|
  {
    StructFits(data[i], fields) && forall f :: 0 <= f < fields ==> NullsFit(data[i].body.children[f])
  }

  /** `slices` are the inputs' children number f, cut to the inputs' windows. */
  ghost predicate FieldSlices(data: seq<Data>, f: nat, slices: seq<Data>) {
    |slices| == |data| && forall i :: 0 <= i < |data| ==> FieldSlice(data, f, slices, i)
  }

  ghost predicate FieldSlice(data: seq<Data>, f: nat, slices: seq<Data>, i: int)
    requires 0 <= i < |data| && i < |slices|
  {
    && data[i].body.StructBody? && f < |data[i].body.children|
        && data[i].offset + data[i].length <= data[i].body.children[f].length
    && slices[i] == Slice(data[i].body.children[f], data[i].offset, data[i].offset + data[i].length)
  }

  method GatherChildren(data: seq<Data>, f: nat, fields: nat) returns (slices: seq<Data>)
    requires AllStructs(data, fields) && f < fields
    ensures FieldSlices(data, f, slices)
  {
    slices := [];
    for i := 0 to |data|
      invariant |slices| == i
      invariant forall k :: 0 <= k < i ==> FieldSlice(data, f, slices, k)
    {
      assert IsStruct(data, fields, i);
      var d := data[i];
      ghost var before := slices;
      slices := slices + [Slice(d.body.children[f], d.offset, d.offset + d.length)];
      assert forall k :: 0 <= k < i ==> FieldSlice(data, f, before, k) && FieldSlice(data, f, slices, k);
    }
  }

  lemma {:induction false} FieldSliceStarts(data: seq<Data>, f: nat, slices: seq<Data>, n: nat)
    requires n <= |data| && FieldSlices(data, f, slices)
    ensures SlotStart(slices, n) == SlotStart(data, n)
  {
    if n > 0 {
      FieldSliceStarts(data, f, slices, n - 1);
      assert FieldSlice(data, f, slices, n - 1);
    }
  }

  /** A child holds the inputs' children f end to end. */
  ghost predicate FieldJoined(data: seq<Data>, f: nat, child: Data) {
    exists slices :: FieldSlices(data, f, slices) && Decode(child) == ColumnUpTo(slices, |slices|)
  }

  /** Slot j of child f is kept. */
  lemma {:induction false} FieldKept(data: seq<Data>, fields: nat, f: nat, slices: seq<Data>, m: nat, j: nat)
    requires AllStructs(data, fields) && f < fields && FieldSlices(data, f, slices) && m < |data| && j < data[m].length
    ensures data[m].body.StructBody? && f < |data[m].body.children|
    ensures data[m].offset + j < data[m].body.children[f].length
    ensures SlotStart(data, m) + j < |ColumnUpTo(slices, |slices|)|
    ensures ColumnUpTo(slices, |slices|)[SlotStart(data, m) + j] == Decode(data[m].body.children[f])[data[m].offset + j]
  {
    assert IsStruct(data, fields, m) && FieldSlice(data, f, slices, m);
    FieldSliceStarts(data, f, slices, m);
    SlotAt(slices, m, j);
    var c, from, upto := data[m].body.children[f], data[m].offset, data[m].offset + data[m].length;
    SliceDecodes(c, from, upto);
    assert Decode(slices[m])[j] == Decode(c)[from..upto][j];
  }

  lemma {:induction false} FieldJoinedAt(data: seq<Data>, fields: nat, f: nat, child: Data, m: nat, j: nat)
    requires AllStructs(data, fields) && f < fields && FieldJoined(data, f, child) && m < |data| && j < data[m].length
    ensures data[m].body.StructBody? && f < |data[m].body.children|
    ensures Pick(Decode(child), SlotStart(data, m) + j, Null) ==
              Pick(Decode(data[m].body.children[f]), data[m].offset + j, Null)
  {
    var slices :| FieldSlices(data, f, slices) && Decode(child) == ColumnUpTo(slices, |slices|);
    FieldKept(data, fields, f, slices, m, j);
  }

  ghost predicate FieldSame(a: seq<Data>, p: int, b: seq<Data>, q: int, f: int)
    requires 0 <= f < |a| && f < |b|
  {
    Pick(Decode(a[f]), p, Null) == Pick(Decode(b[f]), q, Null)
  }

  lemma {:induction false} SameFields(a: seq<Data>, p: int, b: seq<Data>, q: int, n: nat)
    requires n <= |a| && n <= |b| && forall f :: 0 <= f < n ==> FieldSame(a, p, b, q, f)
    ensures FieldsAt(a, p, n) == FieldsAt(b, q, n)
  {
    if n > 0 {
      SameFields(a, p, b, q, n - 1);
      assert FieldSame(a, p, b, q, n - 1);
    }
  }

  /** Slots whose fields agree have the same record. */
  lemma {:induction false} SameRecord(b: Body, p: int, c: Body, q: int)
    requires b.StructBody? && c.StructBody? && |b.children| == |c.children|
    requires forall f :: 0 <= f < |b.children| ==> FieldSame(b.children, p, c.children, q, f)
    ensures ValueAt(b, p) == ValueAt(c, q)
  {
    SameFields(b.children, p, c.children, q, |b.children|);
  }

  lemma {:induction false} StructSlotKept(data: seq<Data>, fields: nat, o: Data, m: nat, j: nat)
    requires AllStructs(data, fields) && o.body.StructBody? && |o.body.children| == fields
    requires forall f: nat :: f < fields ==> FieldJoined(data, f, o.body.children[f])
    requires m < |data| && j < data[m].length
    ensures Kept(data, o, m, j)
  {
    assert IsStruct(data, fields, m);
    var p, q := SlotStart(data, m) + j, data[m].offset + j;
    forall f | 0 <= f < fields ensures FieldSame(o.body.children, p, data[m].body.children, q, f) {
      FieldJoinedAt(data, fields, f, o.body.children[f], m, j);
    }
    SameRecord(o.body, p, data[m].body, q);
  }

  lemma {:induction false} StructKeeps(data: seq<Data>, fields: nat, o: Data)
    requires AllStructs(data, fields) && Covers(data, o) && o.body.StructBody? && |o.body.children| == fields
    requires forall f: nat :: f < fields ==> FieldJoined(data, f, o.body.children[f])
    ensures Decode(o) == ColumnUpTo(data, |data|)
    ensures StructFits(o, fields)
  {
    forall m: nat, j: nat | m < |data| && j < data[m].length && Validity(data[m])[j] ensures Kept(data, o, m, j) {
      StructSlotKept(data, fields, o, m, j);
    }
    KeptDecodes(data, o);
    forall f: nat | f < fields ensures o.length <= o.body.children[f].length {
      assert FieldJoined(data, f, o.body.children[f]);
      var slices :| FieldSlices(data, f, slices) && Decode(o.body.children[f]) == ColumnUpTo(slices, |slices|);
      FieldSliceStarts(data, f, slices, |data|);
      UpToLengths(slices, |slices|);
    }
  }
}

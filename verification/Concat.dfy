/** Concatenation of arrays of any type: the columns end to end, by induction over nested types. */
module Concat {
  import opened Basics
  import opened Sequences
  import opened Layout
  import opened Slots
  import opened Offsets
  import opened ListViewRange
  import opened RunEnds
  import opened Dictionaries
  import opened ConcatKinds
  import opened ConcatNested
  import opened ConcatListViews
  import opened ConcatViews
  import opened ConcatDictionaries
  import opened ConcatRuns

  /** `o` is a well-formed array that stands for the inputs' columns end to end. */
  ghost predicate Joined(t: DType, data: seq<Data>, o: Data) {
    WellFormed(t, o) && Decode(o) == ColumnUpTo(data, |data|)
  }

  // ---------------------------------------------------------------------------------------------
  // What is refused, and what is not checked
  // ---------------------------------------------------------------------------------------------

  /**
   Some level of the inputs does not fit its type: more values under 16-, 32- or 64-bit offsets or run ends than
   the type counts, more slots than 32-bit views count, a list-view scan that ends before it begins, or dictionaries
   that cannot be unified.
   */
  ghost predicate Rejected(t: DType, data: seq<Data>)
    decreases t
  {
    match t
    case Fixed => false
    case Binary(width) => UsedBefore(Windows(data), |data|) > width.Limit()
    case BinaryView => false
    case List(width, elem) =>
      UsedBefore(Windows(data), |data|) > width.Limit()
          || exists slices :: ListSlices(data, slices) && Rejected(elem, slices)
    case ListView(width, elem) =>
      (width == W32 && SlotStart(data, |data|) > W32.Limit()) || SomeBackwards(data, width) ||
      exists ranges, slices :: AllRanges(data, width, ranges) && ViewSlices(data, ranges, slices)
          && Rejected(elem, slices)
    case FixedSizeList(size, elem) => exists slices :: FixedSlices(data, size, slices) && Rejected(elem, slices)
    case Struct(fields) => exists f :: 0 <= f < |fields| && FieldRejected(fields, data, f)
    case Dictionary(indexLimit) => NotUnifiable(data, indexLimit)
    case RunEndEncoded(width, elem) =>
      RunEndsRefused(width, data) ||
      exists offs, ws, slices :: RunSlices(data, width, offs, ws, slices) && Rejected(elem, slices)
  }

  ghost predicate FieldRejected(fields: seq<DType>, data: seq<Data>, f: int)
    requires 0 <= f < |fields|
    decreases fields
  {
    exists slices :: FieldSlices(data, f, slices) && Rejected(fields[f], slices)
  }

  /**
   The run ends do not fit their type. In step that is a matter of the total length; otherwise of the ends that come of
   pairing the buffers with the inputs by position.
   */
  ghost predicate RunEndsRefused(width: Width, data: seq<Data>) {
    if RunEndsInStep(data) then SlotStart(data, |data|) > width.Limit()
    else exists offs, ws, slices :: RunSlices(data, width, offs, ws, slices) && SomeRefused(Paired(ws), width)
  }

  /**
   What the source relies on without checking: the data buffers of views can be counted in 32 bits, and so can the
   entries of a unified dictionary; and the scans of list-views find the values that are used.
   */
  ghost predicate Countable(t: DType, data: seq<Data>)
    decreases t
  {
    match t
    case Fixed => true
    case Binary(_) => true
    case BinaryView => |BuffersUpTo(data, |data|)| <= W32.Limit()
    case List(_, elem) => forall slices :: ListSlices(data, slices) ==> Countable(elem, slices)
    case ListView(width, elem) =>
      AllExact(data, width) &&
      forall ranges, slices :: AllRanges(data, width, ranges) && ViewSlices(data, ranges, slices) ==>
          Countable(elem, slices)
    case FixedSizeList(size, elem) => forall slices :: FixedSlices(data, size, slices) ==> Countable(elem, slices)
    case Struct(fields) => forall f :: 0 <= f < |fields| ==> FieldCountable(fields, data, f)
    case Dictionary(_) => |TableAfter(DictionariesUpTo(data, |data|), |data|)| <= W32.Limit() + 1
    case RunEndEncoded(width, elem) =>
      forall offs, ws, slices :: RunSlices(data, width, offs, ws, slices) ==> Countable(elem, slices)
  }

  ghost predicate FieldCountable(fields: seq<DType>, data: seq<Data>, f: int)
    requires 0 <= f < |fields|
    decreases fields
  {
    forall slices :: FieldSlices(data, f, slices) ==> Countable(fields[f], slices)
  }

  /**
   What decides, unchecked by the source, whether the output is an array at all: at every level the moved starts of
   list-views fit the offset type, and no run-end encoded input without a run-ends buffer stands before a non-empty one.
   */
  ghost predicate Positioned(t: DType, data: seq<Data>)
    decreases t
  {
    match t
    case List(_, elem) => forall slices :: ListSlices(data, slices) ==> Positioned(elem, slices)
    case ListView(width, elem) =>
      forall ranges, slices :: AllRanges(data, width, ranges) && ViewSlices(data, ranges, slices) ==>
        StartsFit(data, ranges, width, |data|) && Positioned(elem, slices)
    case FixedSizeList(size, elem) => forall slices :: FixedSlices(data, size, slices) ==> Positioned(elem, slices)
    case Struct(fields) => forall f :: 0 <= f < |fields| ==> FieldPositioned(fields, data, f)
    case RunEndEncoded(width, elem) =>
      RunEndsInStep(data) &&
      forall offs, ws, slices :: RunSlices(data, width, offs, ws, slices) ==> Positioned(elem, slices)
    case _ => true
  }

  ghost predicate FieldPositioned(fields: seq<DType>, data: seq<Data>, f: int)
    requires 0 <= f < |fields|
    decreases fields
  {
    forall slices :: FieldSlices(data, f, slices) ==> Positioned(fields[f], slices)
  }

  /**
   For countable inputs, the output is well-formed only if they are positioned, and then stands for their columns end to
   end.
   */
  ghost predicate Outcome(t: DType, data: seq<Data>, o: Data) {
    Countable(t, data) ==> (WellFormed(t, o) ==> Positioned(t, data)) && (Positioned(t, data) ==> Joined(t, data, o))
  }

  // ---------------------------------------------------------------------------------------------
  // Types without children
  // ---------------------------------------------------------------------------------------------

  lemma {:induction false} AllFit(t: DType, data: seq<Data>)
    requires AllWellFormed(t, data)
    ensures AllNullsFit(data)
    ensures t.Fixed? ==> AllFixed(data)
    ensures t.Binary? ==> AllBinary(data, t.width)
    ensures t.BinaryView? ==> AllViews(data)
    ensures t.Dictionary? ==> AllDictionaries(data)
  {
    forall i | 0 <= i < |data| ensures NullsFit(data[i]) { assert IsWellFormed(t, data, i); }
    if t.Fixed? {
      forall i | 0 <= i < |data|
        ensures data[i].body.FixedBody? && data[i].offset + data[i].length <= |data[i].body.values|
      {
        assert IsWellFormed(t, data, i);
      }
    } else if t.Binary? {
      forall i | 0 <= i < |data| ensures IsBinary(data, t.width, i) { assert IsWellFormed(t, data, i); }
    } else if t.BinaryView? {
      forall i | 0 <= i < |data| ensures IsViews(data, i) { assert IsWellFormed(t, data, i); }
    } else if t.Dictionary? {
      forall i | 0 <= i < |data| ensures IsDictionary(data, i) { assert IsWellFormed(t, data, i); }
    }
  }

  method ConcatFixedType(data: seq<Data>) returns (o: Data)
    requires AllWellFormed(Fixed, data)
    ensures Joined(Fixed, data, o)
  {
    AllFit(Fixed, data);
    var values := ConcatFixed(data);
    o := Assemble(data, FixedBody(values));
    FixedKeeps(data, o);
  }

  method ConcatBinaryType(width: Width, data: seq<Data>) returns (r: Result<Data>)
    requires AllWellFormed(Binary(width), data)
    ensures r.Err? <==> Rejected(Binary(width), data)
    ensures r.Ok? ==> Joined(Binary(width), data, r.value)
  {
    AllFit(Binary(width), data);
    var body, pieces := ConcatBinary(data, width);
    if body.Err? {
      return Err(body.error);
    }
    var o := Assemble(data, body.value);
    BinaryKeeps(data, width, o, pieces);
    BinaryOutputFits(data, width, o, pieces);
    return Ok(o);
  }

  method ConcatViewType(data: seq<Data>) returns (o: Data)
    requires AllWellFormed(BinaryView, data) && data != []
    ensures Outcome(BinaryView, data, o)
  {
    AllFit(BinaryView, data);
    var headers, buffers := ConcatHeaders(data);
    o := Assemble(data, ViewBody(headers, buffers));
    if Countable(BinaryView, data) { ViewsKeep(data, o); }
  }

  method ConcatDictionaryType(indexLimit: nat, data: seq<Data>) returns (r: Result<Data>)
    requires AllWellFormed(Dictionary(indexLimit), data) && data != []
    ensures r.Err? <==> Rejected(Dictionary(indexLimit), data)
    ensures r.Ok? ==> Outcome(Dictionary(indexLimit), data, r.value)
  {
    AllFit(Dictionary(indexLimit), data);
    r := ConcatDictionary(data, indexLimit);
  }

  // ---------------------------------------------------------------------------------------------
  // Types with children
  // ---------------------------------------------------------------------------------------------

  // Lists

  lemma {:induction false} ListsFit(width: Width, elem: DType, data: seq<Data>)
    requires AllWellFormed(List(width, elem), data)
    ensures AllLists(data, width) && AllNullsFit(data)
  {
    forall i | 0 <= i < |data| ensures IsList(data, width, i) && NullsFit(data[i]) { ListFitsAt(width, elem, data, i); }
  }

  lemma {:induction false} ListFitsAt(width: Width, elem: DType, data: seq<Data>, i: int)
    requires AllWellFormed(List(width, elem), data) && 0 <= i < |data|
    ensures IsList(data, width, i) && NullsFit(data[i]) && WellFormed(elem, data[i].body.child)
  {
    assert IsWellFormed(List(width, elem), data, i);
    assert WellFormed(elem, data[i].body.child);
  }

  lemma {:induction false} ListSlicesFit(width: Width, elem: DType, data: seq<Data>, slices: seq<Data>)
    requires AllWellFormed(List(width, elem), data) && ListSlices(data, slices)
    ensures AllWellFormed(elem, slices)
  {
    forall i | 0 <= i < |slices| ensures IsWellFormed(elem, slices, i) {
      assert ListSlice(data, slices, i);
      ListFitsAt(width, elem, data, i);
      var r := UsedRange(WindowOf(data[i]));
      SliceWellFormed(elem, data[i].body.child, r.offset, r.offset + r.length);
    }
  }

  lemma {:induction false} ListSlicesUnique(data: seq<Data>, a: seq<Data>, b: seq<Data>)
    requires ListSlices(data, a) && ListSlices(data, b)
    ensures a == b
  {
    forall i | 0 <= i < |a| ensures a[i] == b[i] { assert ListSlice(data, a, i) && ListSlice(data, b, i); }
  }

  lemma {:induction false} ListLevel(width: Width, elem: DType, data: seq<Data>, slices: seq<Data>)
    requires ListSlices(data, slices)
    ensures UsedBefore(Windows(data), |data|) <= width.Limit() ==>
              (Rejected(List(width, elem), data) <==> Rejected(elem, slices))
    ensures Countable(List(width, elem), data) <==> Countable(elem, slices)
    ensures Positioned(List(width, elem), data) <==> Positioned(elem, slices)
  {
    forall other | ListSlices(data, other) ensures other == slices { ListSlicesUnique(data, other, slices); }
  }

  lemma {:induction false} ListJoined(width: Width, elem: DType, data: seq<Data>, slices: seq<Data>, o: Data)
    requires AllWellFormed(List(width, elem), data) && ListSlices(data, slices) && Covers(data, o)
    requires UsedBefore(Windows(data), |data|) <= width.Limit() && o.body.ListBody?
    requires o.body.offsets == Some(RebasedUpTo(Windows(data), |data|) + [UsedBefore(Windows(data), |data|)])
    requires Joined(elem, slices, o.body.child)
    ensures Joined(List(width, elem), data, o)
  {
    ListsFit(width, elem, data);
    ListKeeps(data, width, o, slices);
    UpToLengths(slices, |slices|);
    ListOutputFits(data, width, o, slices);
  }

  method ConcatListType(width: Width, elem: DType, data: seq<Data>) returns (r: Result<Data>)
    requires AllWellFormed(List(width, elem), data) && data != []
    ensures r.Err? <==> Rejected(List(width, elem), data)
    ensures r.Ok? ==> Outcome(List(width, elem), data, r.value)
    decreases elem, 1
  {
    ListsFit(width, elem, data);
    var offsets := ConcatListOffsets(data, width);
    if offsets.Err? {
      return Err(offsets.error);
    }
    var slices := offsets.value.1;
    ListSlicesFit(width, elem, data, slices);
    ListLevel(width, elem, data, slices);
    var child := Concat(elem, slices);
    if child.Err? {
      return child;
    }
    var o := Assemble(data, ListBody(Some(offsets.value.0), child.value));
    if Joined(elem, slices, o.body.child) { ListJoined(width, elem, data, slices, o); }
    return Ok(o);
  }

  // List-views

  lemma {:induction false} ListViewFitsAt(width: Width, elem: DType, data: seq<Data>, i: int)
    requires AllWellFormed(ListView(width, elem), data) && 0 <= i < |data|
    ensures IsListView(data, width, i) && NullsFit(data[i]) && WellFormed(elem, data[i].body.child)
  {
    assert IsWellFormed(ListView(width, elem), data, i);
    assert WellFormed(elem, data[i].body.child);
  }

  lemma {:induction false} ListViewsFit(width: Width, elem: DType, data: seq<Data>)
    requires AllWellFormed(ListView(width, elem), data)
    ensures AllListViews(data, width) && AllNullsFit(data)
  {
    forall i | 0 <= i < |data|
      ensures IsListView(data, width, i) && NullsFit(data[i])
    {
      ListViewFitsAt(width, elem, data, i);
    }
  }

  /** Finds the range each input uses and cuts its child to it; a range that ends before it begins is refused. */
  method GatherRanges(data: seq<Data>, width: Width) returns (r: Result<(seq<Range>, seq<Data>)>)
    requires AllListViews(data, width)
    ensures r.Err? <==> SomeBackwards(data, width)
    ensures r.Ok? ==> AllRanges(data, width, r.value.0) && ViewSlices(data, r.value.0, r.value.1)
  {
    var ranges, slices := [], [];
    for i := 0 to |data|
      invariant |ranges| == |slices| == i
      invariant forall k :: 0 <= k < i ==> !Backwards(data[k], width)
      invariant forall k :: 0 <= k < i ==> data[k].body.ListViewBody? && ranges[k] == ScannedRange(data[k], width)
      invariant forall k :: 0 <= k < i ==> CutTo(data[k], ranges[k], slices[k])
    {
      assert IsListView(data, width, i);
      var range := RangeOfValuesUsed(data[i], width);
      ScannedRangeBounds(data[i], width);
      if range.length < 0 {
        assert Backwards(data[i], width);
        return Err(SliceOutOfRange);
      }
      ranges, slices := ranges + [range],
          slices + [Slice(data[i].body.child, range.offset, range.offset + range.length)];
    }
    forall i | 0 <= i < |data| ensures FindsRange(data, width, ranges, i) && ViewSlice(data, ranges, slices, i) {
      assert ranges[i] == ScannedRange(data[i], width) && CutTo(data[i], ranges[i], slices[i]);
    }
    return Ok((ranges, slices));
  }

  ghost predicate CutTo(d: Data, r: Range, slice: Data) {
    && d.body.ListViewBody? && 0 <= r.offset && 0 <= r.length && r.offset + r.length <= d.body.child.length
    && slice == Slice(d.body.child, r.offset, r.offset + r.length)
  }

  lemma {:induction false} ViewSlicesFit(width: Width, elem: DType, data: seq<Data>, ranges: seq<Range>,
      slices: seq<Data>)
    requires AllWellFormed(ListView(width, elem), data) && ViewSlices(data, ranges, slices)
    ensures AllWellFormed(elem, slices)
  {
    forall i | 0 <= i < |slices| ensures IsWellFormed(elem, slices, i) {
      assert ViewSlice(data, ranges, slices, i);
      ListViewFitsAt(width, elem, data, i);
      SliceWellFormed(elem, data[i].body.child, ranges[i].offset, ranges[i].offset + ranges[i].length);
    }
  }

  lemma {:induction false} ViewSlicesUnique(data: seq<Data>, width: Width, r: seq<Range>, a: seq<Data>, s: seq<Range>,
      b: seq<Data>)
    requires AllRanges(data, width, r) && ViewSlices(data, r, a) && AllRanges(data, width, s) && ViewSlices(data, s, b)
    ensures r == s && a == b
  {
    forall i | 0 <= i < |r| ensures r[i] == s[i] && a[i] == b[i] {
      assert FindsRange(data, width, r, i) && FindsRange(data, width, s, i) && ViewSlice(data, r, a, i)
          && ViewSlice(data, s, b, i);
    }
  }

  lemma {:induction false} ListViewLevel(width: Width, elem: DType, data: seq<Data>, ranges: seq<Range>,
      slices: seq<Data>)
    requires AllRanges(data, width, ranges) && ViewSlices(data, ranges, slices)
    ensures Rejected(ListView(width, elem), data) <==>
            (width == W32 && SlotStart(data, |data|) > W32.Limit()) || SomeBackwards(data, width)
                || Rejected(elem, slices)
    ensures Countable(ListView(width, elem), data) <==> AllExact(data, width) && Countable(elem, slices)
    ensures Positioned(ListView(width, elem), data) <==>
              StartsFit(data, ranges, width, |data|) && Positioned(elem, slices)
  {
    forall r, other | AllRanges(data, width, r) && ViewSlices(data, r, other) ensures r == ranges && other == slices {
      ViewSlicesUnique(data, width, r, other, ranges, slices);
    }
  }

  method ConcatListViewType(width: Width, elem: DType, data: seq<Data>) returns (r: Result<Data>)
    requires AllWellFormed(ListView(width, elem), data) && data != []
    ensures r.Err? <==> Rejected(ListView(width, elem), data)
    ensures r.Ok? ==> Outcome(ListView(width, elem), data, r.value)
    ensures r.Ok? ==> NullViewsEmpty(r.value)
    decreases elem, 1
  {
    ListViewsFit(width, elem, data);
    var gathered := GatherRanges(data, width);
    if gathered.Err? {
      return Err(gathered.error);
    }
    var ranges, slices := gathered.value.0, gathered.value.1;
    ListViewLevel(width, elem, data, ranges, slices);
    ViewSlicesFit(width, elem, data, ranges, slices);
    var child := Concat(elem, slices);
    if child.Err? {
      return child;
    }
    var starts := ConcatListViewOffsets(data, width, ranges);
    if starts.Err? {
      return Err(starts.error);
    }
    var sizes, pieces := ConcatSizes(data, width);
    SizesCover(data, pieces);
    var o := FinishListView(data, width, starts.value, sizes, child.value);
    ListViewOutcome(width, elem, data, ranges, pieces, slices, o);
    return Ok(o);
  }

  /** Puts the output together, then sets the size of every null slot to 0. */
  method FinishListView(data: seq<Data>, width: Width, starts: seq<int>, sizes: seq<int>, child: Data) returns (o: Data)
    requires AllNullsFit(data) && |sizes| == SlotStart(data, |data|)
    ensures Covers(data, o) && o.body.ListViewBody? && o.body.starts == starts && o.body.child == child
    ensures |o.body.sizes| == o.length
    ensures forall i :: 0 <= i < o.length ==> o.body.sizes[i] == if Validity(o)[i] then sizes[i] else 0
  {
    o := Assemble(data, ListViewBody(starts, sizes, child));
    var zeroed := ZeroNullListViewSizes(sizes, o.validity);
    ghost var before := o;
    o := o.(body := ListViewBody(starts, zeroed, child));
    SameValidity(before, o);
    assert forall i :: 0 <= i < o.length ==> Validity(o)[i] == ValidBit(o, i);
  }

  lemma {:induction false} SameValidity(a: Data, b: Data)
    requires a.offset == b.offset && a.length == b.length && a.validity == b.validity && a.nulls == b.nulls
    ensures Validity(a) == Validity(b) && (NullsFit(a) ==> NullsFit(b))
  {
    forall i | 0 <= i < a.length ensures Validity(a)[i] == Validity(b)[i] { assert ValidBit(a, i) == ValidBit(b, i); }
  }

  /** Null slots refer to nothing. */
  ghost predicate NullViewsEmpty(o: Data) {
    o.body.ListViewBody? && |o.body.sizes| == o.length && forall i :: 0 <= i < o.length && !Validity(o)[i] ==>
        o.body.sizes[i] == 0
  }

  lemma {:induction false} SizesCover(data: seq<Data>, pieces: seq<seq<int>>)
    requires |pieces| == |data| && forall k :: 0 <= k < |data| ==> SizeWindow(data[k], pieces[k])
    ensures |Flat(pieces)| == SlotStart(data, |data|)
  {
    forall k {:trigger pieces[k]} | 0 <= k < |data|
      ensures |pieces[k]| == data[k].length
    {
      assert SizeWindow(data[k], pieces[k]);
    }
    WindowStarts(data, pieces, |data|);
  }

  lemma {:induction false} ListViewJoined(width: Width, elem: DType, data: seq<Data>, ranges: seq<Range>,
      pieces: seq<seq<int>>, slices: seq<Data>, o: Data)
    requires AllWellFormed(ListView(width, elem), data) && AllRanges(data, width, ranges)
    requires ViewSlices(data, ranges, slices)
    requires IsListViewOutput(data, width, ranges, pieces, o) && AllExact(data, width)
    requires StartsFit(data, ranges, width, |data|)
    requires Joined(elem, slices, o.body.child)
    ensures Joined(ListView(width, elem), data, o)
  {
    ListViewsFit(width, elem, data);
    ExactRangesUsed(data, width, ranges);
    ListViewKeeps(data, width, ranges, pieces, slices, o);
    UpToLengths(slices, |slices|);
    ListViewOutputFits(data, width, ranges, pieces, slices, o);
  }

  lemma {:induction false} ListViewOutcome(width: Width, elem: DType, data: seq<Data>, ranges: seq<Range>,
      pieces: seq<seq<int>>, slices: seq<Data>, o: Data)
    requires AllWellFormed(ListView(width, elem), data) && AllRanges(data, width, ranges)
    requires ViewSlices(data, ranges, slices)
    requires IsListViewOutput(data, width, ranges, pieces, o) && Outcome(elem, slices, o.body.child)
    ensures Outcome(ListView(width, elem), data, o)
  {
    ListViewLevel(width, elem, data, ranges, slices);
    if !AllExact(data, width) {
      return;
    }
    if !StartsFit(data, ranges, width, |data|) {
      ListViewsFit(width, elem, data);
      ExactRangesUsed(data, width, ranges);
      ListViewBeyond(data, width, ranges, pieces, o);
    } else if Joined(elem, slices, o.body.child) {
      ListViewJoined(width, elem, data, ranges, pieces, slices, o);
    }
  }

  // Fixed-size lists

  lemma {:induction false} FixedSizeFitsAt(size: nat, elem: DType, data: seq<Data>, i: int)
    requires AllWellFormed(FixedSizeList(size, elem), data) && 0 <= i < |data|
    ensures IsFixedSizeList(data, size, i) && NullsFit(data[i]) && WellFormed(elem, data[i].body.child)
  {
    assert IsWellFormed(FixedSizeList(size, elem), data, i);
    assert WellFormed(elem, data[i].body.child);
  }

  lemma {:induction false} FixedSizesFit(size: nat, elem: DType, data: seq<Data>)
    requires AllWellFormed(FixedSizeList(size, elem), data)
    ensures AllFixedSizeLists(data, size) && AllNullsFit(data)
  {
    forall i | 0 <= i < |data|
      ensures IsFixedSizeList(data, size, i) && NullsFit(data[i])
    {
      FixedSizeFitsAt(size, elem, data, i);
    }
  }

  lemma {:induction false} FixedSlicesFit(size: nat, elem: DType, data: seq<Data>, slices: seq<Data>)
    requires AllWellFormed(FixedSizeList(size, elem), data) && FixedSlices(data, size, slices)
    ensures AllWellFormed(elem, slices)
  {
    forall i | 0 <= i < |slices| ensures IsWellFormed(elem, slices, i) {
      assert FixedSlice(data, size, slices, i);
      FixedSizeFitsAt(size, elem, data, i);
      SliceWellFormed(elem, data[i].body.child, data[i].offset * size, (data[i].offset + data[i].length) * size);
    }
  }

  lemma {:induction false} FixedSizeLevel(size: nat, elem: DType, data: seq<Data>, slices: seq<Data>)
    requires FixedSlices(data, size, slices)
    ensures Rejected(FixedSizeList(size, elem), data) <==> Rejected(elem, slices)
    ensures Countable(FixedSizeList(size, elem), data) <==> Countable(elem, slices)
    ensures Positioned(FixedSizeList(size, elem), data) <==> Positioned(elem, slices)
  {
    forall other | FixedSlices(data, size, other) ensures other == slices {
      forall i | 0 <= i < |slices| ensures other[i] == slices[i] {
        assert FixedSlice(data, size, slices, i) && FixedSlice(data, size, other, i);
      }
    }
  }

  method ConcatFixedSizeType(size: nat, elem: DType, data: seq<Data>) returns (r: Result<Data>)
    requires AllWellFormed(FixedSizeList(size, elem), data) && data != []
    ensures r.Err? <==> Rejected(FixedSizeList(size, elem), data)
    ensures r.Ok? ==> Outcome(FixedSizeList(size, elem), data, r.value)
    decreases elem, 1
  {
    FixedSizesFit(size, elem, data);
    var slices := GatherChildrenMultiplier(data, size);
    FixedSlicesFit(size, elem, data, slices);
    FixedSizeLevel(size, elem, data, slices);
    var child := Concat(elem, slices);
    if child.Err? {
      return child;
    }
    var o := Assemble(data, FixedSizeListBody(size, child.value));
    if Joined(elem, slices, o.body.child) { FixedSizeKeeps(data, size, slices, o); }
    return Ok(o);
  }

  // Structs

  lemma {:induction false} StructFitsAt(fields: seq<DType>, data: seq<Data>, i: int)
    requires AllWellFormed(Struct(fields), data) && 0 <= i < |data|
    ensures IsStruct(data, |fields|, i) && NullsFit(data[i])
    ensures forall f :: 0 <= f < |fields| ==> WellFormed(fields[f], data[i].body.children[f])
  {
    assert IsWellFormed(Struct(fields), data, i);
    forall f | 0 <= f < |fields| ensures NullsFit(data[i].body.children[f]) {
      assert WellFormed(fields[f], data[i].body.children[f]);
    }
  }

  lemma {:induction false} StructsFit(fields: seq<DType>, data: seq<Data>)
    requires AllWellFormed(Struct(fields), data)
    ensures AllStructs(data, |fields|) && AllNullsFit(data)
  {
    forall i | 0 <= i < |data|
      ensures IsStruct(data, |fields|, i) && NullsFit(data[i])
    {
      StructFitsAt(fields, data, i);
    }
  }

  lemma {:induction false} FieldSlicesFit(fields: seq<DType>, data: seq<Data>, f: nat, slices: seq<Data>)
    requires AllWellFormed(Struct(fields), data) && f < |fields| && FieldSlices(data, f, slices)
    ensures AllWellFormed(fields[f], slices)
  {
    forall i | 0 <= i < |slices| ensures IsWellFormed(fields[f], slices, i) {
      assert FieldSlice(data, f, slices, i);
      StructFitsAt(fields, data, i);
      SliceWellFormed(fields[f], data[i].body.children[f], data[i].offset, data[i].offset + data[i].length);
    }
  }

  lemma {:induction false} FieldLevel(fields: seq<DType>, data: seq<Data>, f: nat, slices: seq<Data>)
    requires f < |fields| && FieldSlices(data, f, slices)
    ensures FieldRejected(fields, data, f) <==> Rejected(fields[f], slices)
    ensures FieldCountable(fields, data, f) <==> Countable(fields[f], slices)
    ensures FieldPositioned(fields, data, f) <==> Positioned(fields[f], slices)
  {
    forall other | FieldSlices(data, f, other) ensures other == slices {
      forall i | 0 <= i < |slices| ensures other[i] == slices[i] {
        assert FieldSlice(data, f, slices, i) && FieldSlice(data, f, other, i);
      }
    }
  }

  ghost predicate FieldOutcome(fields: seq<DType>, data: seq<Data>, f: int, child: Data)
    requires 0 <= f < |fields|
  {
    FieldCountable(fields, data, f) ==>
      && (WellFormed(fields[f], child) ==> FieldPositioned(fields, data, f))
      && (FieldPositioned(fields, data, f) ==> WellFormed(fields[f], child) && FieldJoined(data, f, child))
  }

  /** Concatenates one field of all inputs. */
  method ConcatField(fields: seq<DType>, data: seq<Data>, f: nat) returns (r: Result<Data>)
    requires AllWellFormed(Struct(fields), data) && data != [] && f < |fields|
    ensures r.Err? <==> FieldRejected(fields, data, f)
    ensures r.Ok? ==> FieldOutcome(fields, data, f, r.value)
    decreases fields, 0
  {
    StructsFit(fields, data);
    var slices := GatherChildren(data, f, |fields|);
    FieldSlicesFit(fields, data, f, slices);
    FieldLevel(fields, data, f, slices);
    r := Concat(fields[f], slices);
  }

  method ConcatStructType(fields: seq<DType>, data: seq<Data>) returns (r: Result<Data>)
    requires AllWellFormed(Struct(fields), data) && data != []
    ensures r.Err? <==> Rejected(Struct(fields), data)
    ensures r.Ok? ==> Outcome(Struct(fields), data, r.value)
    decreases fields, 1
  {
    var children := [];
    for f := 0 to |fields|
      invariant |children| == f && forall k :: 0 <= k < f ==> !FieldRejected(fields, data, k)
      invariant forall k :: 0 <= k < f ==> FieldOutcome(fields, data, k, children[k])
    {
      var child := ConcatField(fields, data, f);
      if child.Err? {
        return child;
      }
      children := children + [child.value];
    }
    StructsFit(fields, data);
    var o := Assemble(data, StructBody(children));
    StructOutcome(fields, data, o);
    return Ok(o);
  }

  lemma {:induction false} StructOutcome(fields: seq<DType>, data: seq<Data>, o: Data)
    requires AllStructs(data, |fields|) && Covers(data, o) && o.body.StructBody? && |o.body.children| == |fields|
    requires forall f :: 0 <= f < |fields| ==> FieldOutcome(fields, data, f, o.body.children[f])
    ensures Outcome(Struct(fields), data, o)
  {
    if Countable(Struct(fields), data) && WellFormed(Struct(fields), o) {
      forall f | 0 <= f < |fields| ensures FieldPositioned(fields, data, f) {
        assert FieldOutcome(fields, data, f, o.body.children[f]) && FieldCountable(fields, data, f)
            && WellFormed(fields[f], o.body.children[f]);
      }
    }
    if Countable(Struct(fields), data) && Positioned(Struct(fields), data) {
      forall f | 0 <= f < |fields|
        ensures WellFormed(fields[f], o.body.children[f]) && FieldJoined(data, f, o.body.children[f])
      {
        assert FieldOutcome(fields, data, f, o.body.children[f]) && FieldCountable(fields, data, f)
            && FieldPositioned(fields, data, f);
      }
      StructKeeps(data, |fields|, o);
    }
  }

  // Run-end encoded arrays

  lemma {:induction false} RunEndFitsAt(width: Width, elem: DType, data: seq<Data>, i: int)
    requires AllWellFormed(RunEndEncoded(width, elem), data) && 0 <= i < |data|
    ensures IsRunEnds(data, width, i) && NullsFit(data[i]) && data[i].nulls == 0 && WellFormed(elem, data[i].body.child)
  {
    assert IsWellFormed(RunEndEncoded(width, elem), data, i);
    assert WellFormed(elem, data[i].body.child);
  }

  lemma {:induction false} RunEndsAllFit(width: Width, elem: DType, data: seq<Data>)
    requires AllWellFormed(RunEndEncoded(width, elem), data)
    ensures AllRunEnds(data, width) && AllNullsFit(data) && forall i :: 0 <= i < |data| ==> data[i].nulls == 0
  {
    forall i | 0 <= i < |data| ensures IsRunEnds(data, width, i) && NullsFit(data[i]) && data[i].nulls == 0 {
      RunEndFitsAt(width, elem, data, i);
    }
  }

  lemma {:induction false} RunSlicesFit(width: Width, elem: DType, data: seq<Data>, offs: seq<nat>, ws: seq<Runs>,
      slices: seq<Data>)
    requires AllWellFormed(RunEndEncoded(width, elem), data) && RunSlices(data, width, offs, ws, slices)
    ensures AllWellFormed(elem, slices)
  {
    forall i | 0 <= i < |slices| ensures IsWellFormed(elem, slices, i) {
      assert RunSlice(data, width, offs, ws, slices, i);
      RunEndFitsAt(width, elem, data, i);
      SliceWellFormed(elem, data[i].body.child, offs[i], offs[i] + PhysicalLength(data[i]));
    }
  }

  lemma {:induction false} RunEndLevel(width: Width, elem: DType, data: seq<Data>, offs: seq<nat>, ws: seq<Runs>,
      slices: seq<Data>)
    requires RunSlices(data, width, offs, ws, slices)
    ensures Rejected(RunEndEncoded(width, elem), data) <==> RunEndsRefused(width, data) || Rejected(elem, slices)
    ensures Countable(RunEndEncoded(width, elem), data) <==> Countable(elem, slices)
    ensures Positioned(RunEndEncoded(width, elem), data) <==> RunEndsInStep(data) && Positioned(elem, slices)
    ensures !RunEndsInStep(data) ==> (RunEndsRefused(width, data) <==> SomeRefused(Paired(ws), width))
  {
    forall offs', ws', other | RunSlices(data, width, offs', ws', other) ensures other == slices && ws' == ws {
      forall i | 0 <= i < |slices| ensures other[i] == slices[i] && ws'[i] == ws[i] {
        assert RunSlice(data, width, offs, ws, slices, i) && RunSlice(data, width, offs', ws', other, i);
      }
    }
  }

  lemma {:induction false} RunEndJoined(width: Width, elem: DType, data: seq<Data>, offs: seq<nat>, ws: seq<Runs>,
      slices: seq<Data>, o: Data)
    requires AllWellFormed(RunEndEncoded(width, elem), data) && RunSlices(data, width, offs, ws, slices)
    requires Covers(data, o) && o.nulls == 0 && o.validity.None? && SlotsUpTo(ws, |ws|) <= width.Limit()
    requires o.body.RunEndBody? && o.body.runEnds == Some(Laid(ws, |ws|)) && Joined(elem, slices, o.body.child)
    ensures Joined(RunEndEncoded(width, elem), data, o) && LastEnd(o.body.runEnds.value) == o.length
  {
    RunEndsAllFit(width, elem, data);
    RunsKeep(data, width, offs, ws, slices, o);
    RunOutputFits(data, width, offs, ws, slices, o);
  }

  /** What the run ends of the output are worth: in step they are laid end to end, otherwise they fall short. */
  ghost predicate EndsOutcome(ws: seq<Runs>, width: Width, ends: seq<int>) {
    && (InStep(ws) ==> ends == Laid(ws, |ws|) && SlotsUpTo(ws, |ws|) <= width.Limit())
    && (!InStep(ws) ==> FallsShort(ends, SlotsUpTo(ws, |ws|)))
  }

  lemma {:induction false} RunEndOutcome(width: Width, elem: DType, data: seq<Data>, offs: seq<nat>, ws: seq<Runs>,
      slices: seq<Data>, o: Data)
    requires AllWellFormed(RunEndEncoded(width, elem), data) && RunSlices(data, width, offs, ws, slices)
    requires Covers(data, o) && o.nulls == 0 && o.validity.None? && o.body.RunEndBody? && o.body.runEnds.Some?
    requires EndsOutcome(ws, width, o.body.runEnds.value) && Outcome(elem, slices, o.body.child)
    ensures Outcome(RunEndEncoded(width, elem), data, o)
  {
    RunEndLevel(width, elem, data, offs, ws, slices);
    RunsInStep(data, width, offs, ws, slices);
    RunStarts(data, width, offs, ws, slices, |data|);
    if !InStep(ws) {
      FallsShortFits(o.body.runEnds.value, o.length, width);
    } else if Joined(elem, slices, o.body.child) {
      RunEndJoined(width, elem, data, offs, ws, slices, o);
    }
  }

  method ConcatRunEndType(width: Width, elem: DType, data: seq<Data>) returns (r: Result<Data>)
    requires AllWellFormed(RunEndEncoded(width, elem), data) && data != []
    ensures r.Err? <==> Rejected(RunEndEncoded(width, elem), data)
    ensures r.Ok? ==> Outcome(RunEndEncoded(width, elem), data, r.value)
    decreases elem, 1
  {
    RunEndsAllFit(width, elem, data);
    var ws, slices, offs := GatherRuns(data, width);
    AllRunsTouch(data, width, offs, ws, slices);
    RunStarts(data, width, offs, ws, slices, |data|);
    RunsInStep(data, width, offs, ws, slices);
    RunEndLevel(width, elem, data, offs, ws, slices);
    var runEnds := UpdateRunEnds(ws, width);
    if runEnds.Err? {
      return Err(runEnds.error);
    }
    RunSlicesFit(width, elem, data, offs, ws, slices);
    var child := Concat(elem, slices);
    if child.Err? {
      return child;
    }
    var o := Assemble(data, RunEndBody(Some(runEnds.value), child.value));
    RunEndOutcome(width, elem, data, offs, ws, slices, o);
    return Ok(o);
  }

  /**
   Well-formed inputs out of step: an empty array without a run-ends buffer, as a fresh builder makes it, before
   another.
   */
  lemma {:induction false} EmptyRunEndsOutOfStep()
    ensures var t := RunEndEncoded(W32, Fixed);
            var data := [Data(0, 0, 0, None, RunEndBody(None, Data(0, 0, 0, None, FixedBody([])))),
                         Data(0, 3, 0, None, RunEndBody(Some([3]), Data(0, 1, 0, None, FixedBody([7]))))];
            AllWellFormed(t, data) && !Positioned(t, data)
  {
    var t := RunEndEncoded(W32, Fixed);
    var data := [Data(0, 0, 0, None, RunEndBody(None, Data(0, 0, 0, None, FixedBody([])))),
                 Data(0, 3, 0, None, RunEndBody(Some([3]), Data(0, 1, 0, None, FixedBody([7]))))];
    forall i | 0 <= i < |data| ensures IsWellFormed(t, data, i) {
      AllValidFits(data[i]);
      AllValidFits(data[i].body.child);
      assert WellFormed(Fixed, data[i].body.child);
    }
    assert NoRunEnds(data[0]) && data[1].length == 3;
  }

  lemma {:induction false} AllValidFits(d: Data)
    requires d.validity.None? && d.nulls == 0
    ensures NullsFit(d)
  {
    AllSet(d);
    CountNullsZero(Validity(d));
  }

  // ---------------------------------------------------------------------------------------------
  // All types
  // ---------------------------------------------------------------------------------------------

  /**
   Concatenates arrays of one type. It fails exactly when some level is rejected. Otherwise, for inputs that can be
   counted, the result is a well-formed array whose column is the inputs' columns end to end exactly when every level is
   positioned.
   */
  method Concat(t: DType, data: seq<Data>) returns (r: Result<Data>)
    requires data != [] && AllWellFormed(t, data)
    ensures r.Err? <==> Rejected(t, data)
    ensures r.Ok? && Countable(t, data) ==> (Joined(t, data, r.value) <==> Positioned(t, data))
    ensures r.Ok? && Countable(t, data) ==> (WellFormed(t, r.value) <==> Positioned(t, data))
    decreases t, 0
  {
    match t
    case Fixed => var o := ConcatFixedType(data); r := Ok(o);
    case Binary(width) => r := ConcatBinaryType(width, data);
    case BinaryView => var o := ConcatViewType(data); r := Ok(o);
    case List(width, elem) => r := ConcatListType(width, elem, data);
    case ListView(width, elem) => r := ConcatListViewType(width, elem, data);
    case FixedSizeList(size, elem) => r := ConcatFixedSizeType(size, elem, data);
    case Struct(fields) => r := ConcatStructType(fields, data);
    case Dictionary(indexLimit) => r := ConcatDictionaryType(indexLimit, data);
    case RunEndEncoded(width, elem) => r := ConcatRunEndType(width, elem, data);
  }

  /** Cutting an array in two gives well-formed inputs whose columns end to end are the array's column. */
  lemma {:induction false} SlicesRejoin(t: DType, d: Data, i: nat)
    requires WellFormed(t, d) && i <= d.length
    ensures var parts := [Slice(d, 0, i), Slice(d, i, d.length)];
            AllWellFormed(t, parts) && ColumnUpTo(parts, 2) == Decode(d)
  {
    var parts := [Slice(d, 0, i), Slice(d, i, d.length)];
    SliceWellFormed(t, d, 0, i);
    SliceWellFormed(t, d, i, d.length);
    forall k | 0 <= k < |parts| ensures IsWellFormed(t, parts, k) {}
    SliceDecodes(d, 0, i);
    SliceDecodes(d, i, d.length);
    assert ColumnUpTo(parts, 0) == [] && ColumnUpTo(parts, 1) == Decode(parts[0]);
    assert Decode(d)[0..i] + Decode(d)[i..d.length] == Decode(d);
  }
}

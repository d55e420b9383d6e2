/**
 Concatenation of list-views: only the child values that are referred to survive, and the views are displaced to follow
 them.
 */
module ConcatListViews {
  import opened Basics
  import opened Sequences
  import opened Layout
  import opened Slots
  import opened Offsets
  import opened ListViewRange
  import opened ConcatKinds
  import opened ConcatNested

  ghost predicate AllListViews(data: seq<Data>, width: Width) {
    forall i :: 0 <= i < |data| ==> IsListView(data, width, i)
  }

  ghost predicate IsListView(data: seq<Data>, width: Width, i: int)
    requires 0 <= i < |data|
  {
    ListViewFits(data[i], width) && NullsFit(data[i]) && NullsFit(data[i].body.child)
  }

  /** The range found for each input. */
  ghost predicate AllRanges(data: seq<Data>, width: Width, ranges: seq<Range>) {
    |ranges| == |data| && forall i :: 0 <= i < |data| ==> FindsRange(data, width, ranges, i)
  }

  ghost predicate FindsRange(data: seq<Data>, width: Width, ranges: seq<Range>, i: int)
    requires 0 <= i < |data| == |ranges|
  {
    data[i].body.ListViewBody? && ranges[i] == ScannedRange(data[i], width)
  }

  /** An input whose scan ends before it begins cannot be cut to its range. */
  ghost predicate SomeBackwards(data: seq<Data>, width: Width) {
    exists i :: 0 <= i < |data| && Backwards(data[i], width)
  }

  ghost predicate Backwards(d: Data, width: Width) {
    d.body.ListViewBody? && ScannedRange(d, width).length < 0
  }

  /** The scans find what each input uses. */
  ghost predicate AllExact(data: seq<Data>, width: Width) {
    forall i :: 0 <= i < |data| ==> IsExact(data[i], width)
  }

  ghost predicate IsExact(d: Data, width: Width) {
    d.body.ListViewBody? && EndsFit(d, width) && !Misled(d, width)
  }

  /** The range each input uses. */
  ghost predicate AllUsed(data: seq<Data>, ranges: seq<Range>) {
    |ranges| == |data| && forall i :: 0 <= i < |data| ==> UsesRange(data, ranges, i)
  }

  ghost predicate UsesRange(data: seq<Data>, ranges: seq<Range>, i: int)
    requires 0 <= i < |data| == |ranges|
  {
    IsRangeUsed(data[i], ranges[i])
  }

  lemma {:induction false} ExactRangesUsed(data: seq<Data>, width: Width, ranges: seq<Range>)
    requires AllListViews(data, width) && AllRanges(data, width, ranges) && AllExact(data, width)
    ensures AllUsed(data, ranges)
  {
    forall i | 0 <= i < |data| ensures UsesRange(data, ranges, i) {
      assert IsListView(data, width, i) && FindsRange(data, width, ranges, i) && IsExact(data[i], width);
      RangeIsRight(data[i], width);
    }
  }

  /** The child values kept for the inputs before n. */
  ghost function KeptBefore(ranges: seq<Range>, n: nat): int
    requires n <= |ranges|
  {
    if n == 0 then 0 else KeptBefore(ranges, n - 1) + ranges[n - 1].length
  }

  /**
   Where the view of slot j starts once `kept` values stand in front of the range r, in the arithmetic of the offset
   type; unused views start at 0.
   */
  ghost function MovedStart(d: Data, r: Range, kept: int, width: Width, j: nat): int {
    if Refers(d, j) then width.Wrap(First(d, j) + width.Wrap(kept - r.offset)) else 0
  }

  ghost function MovedStarts(d: Data, r: Range, kept: int, width: Width, n: nat): (starts: seq<int>)
    ensures |starts| == n
  {
    if n == 0 then [] else MovedStarts(d, r, kept, width, n - 1) + [MovedStart(d, r, kept, width, n - 1)]
  }

  ghost function StartsUpTo(data: seq<Data>, ranges: seq<Range>, width: Width, n: nat): (starts: seq<int>)
    requires n <= |data| == |ranges|
    ensures |starts| == SlotStart(data, n)
  {
    if n == 0 then []
    else StartsUpTo(data, ranges, width, n - 1)
         + MovedStarts(data[n - 1], ranges[n - 1], KeptBefore(ranges, n - 1), width, data[n - 1].length)
  }

  lemma {:induction false} MovedAt(d: Data, r: Range, kept: int, width: Width, n: nat, j: nat)
    requires j < n
    ensures MovedStarts(d, r, kept, width, n)[j] == MovedStart(d, r, kept, width, j)
  {
    if j < n - 1 { MovedAt(d, r, kept, width, n - 1, j); }
  }

  lemma {:induction false} StartsStable(data: seq<Data>, ranges: seq<Range>, width: Width, m: nat, n: nat, i: nat)
    requires m <= n <= |data| == |ranges| && i < SlotStart(data, m)
    ensures i < SlotStart(data, n) && StartsUpTo(data, ranges, width, n)[i] == StartsUpTo(data, ranges, width, m)[i]
  {
    if m < n { StartsStable(data, ranges, width, m, n - 1, i); }
  }

  lemma {:induction false} StartsAt(data: seq<Data>, ranges: seq<Range>, width: Width, m: nat, j: nat)
    requires m < |data| == |ranges| && j < data[m].length
    ensures SlotStart(data, m) + j < SlotStart(data, |data|)
    ensures StartsUpTo(data, ranges, width, |data|)[SlotStart(data, m) + j] ==
              MovedStart(data[m], ranges[m], KeptBefore(ranges, m), width, j)
  {
    StartsStable(data, ranges, width, m + 1, |data|, SlotStart(data, m) + j);
    MovedAt(data[m], ranges[m], KeptBefore(ranges, m), width, data[m].length, j);
  }

  /** The displaced start, in the arithmetic of the offset type, is exact exactly when it fits the type. */
  lemma {:induction false} DisplacementExact(width: Width, start: int, r: Range, kept: int)
    requires 0 <= r.offset <= start <= width.Limit() && 0 <= kept
    ensures start - r.offset + kept <= width.Limit() <==>
            width.Wrap(start + width.Wrap(kept - r.offset)) == start - r.offset + kept
  {
    if start - r.offset + kept <= width.Limit() {
      if kept - r.offset > width.Limit() { assert false; }
    }
  }

  /** Past the limit it turns negative: a view at value 1 behind 2^31 - 1 kept values. */
  lemma {:induction false} DisplacementWraps()
    ensures W32.Wrap(1 + W32.Wrap(W32.Limit() - 0)) == -W32.Limit() - 1
  {
    assert W32.Wrap(W32.Limit()) == W32.Limit();
  }

  /** The views of one input, displaced; null and empty ones are set to 0. */
  method PutListViewOffsets(d: Data, displacement: int, width: Width, ghost r: Range, ghost kept: int)
    returns (out: seq<int>)
    requires ListViewFits(d, width) && NullsFit(d) && displacement == width.Wrap(kept - r.offset)
    ensures out == MovedStarts(d, r, kept, width, d.length)
  {
    out := [];
    for i := 0 to d.length
      invariant out == MovedStarts(d, r, kept, width, i)
    {
      if !IsNull(d, i) && d.body.sizes[d.offset + i] > 0 {
        assert Refers(d, i);
        out := out + [width.Wrap(d.body.starts[d.offset + i] + displacement)];
      } else {
        out := out + [0];
      }
    }
  }

  /** All views' starts; the slots are counted against the 32-bit type, the child values are not. */
  method ConcatListViewOffsets(data: seq<Data>, width: Width, ranges: seq<Range>) returns (r: Result<seq<int>>)
    requires AllListViews(data, width) && |ranges| == |data|
    ensures r.Err? <==> width == W32 && SlotStart(data, |data|) > W32.Limit()
    ensures r.Ok? ==> r.value == StartsUpTo(data, ranges, width, |data|)
  {
    var outSize := SumArraySizes(data);
    if width == W32 && outSize > W32.Limit() {
      return Err(OffsetOverflow);
    }
    var out, numChildValues := [], 0;
    for i := 0 to |data|
      invariant numChildValues == KeptBefore(ranges, i) && out == StartsUpTo(data, ranges, width, i)
    {
      assert IsListView(data, width, i);
      var displacement := numChildValues - ranges[i].offset;
      var starts := PutListViewOffsets(data[i], width.Wrap(displacement), width, ranges[i], numChildValues);
      out := out + starts;
      numChildValues := numChildValues + ranges[i].length;
    }
    return Ok(out);
  }

  /** The view of slot j of input m, moved, starts at a position that fits the offset type. */
  ghost predicate StartFits(data: seq<Data>, ranges: seq<Range>, width: Width, m: nat, j: int)
    requires m < |data| == |ranges| && Refers(data[m], j)
  {
    First(data[m], j) - ranges[m].offset + KeptBefore(ranges, m) <= width.Limit()
  }

  /** The starts of all moved views of the first n inputs fit the offset type. */
  ghost predicate StartsFit(data: seq<Data>, ranges: seq<Range>, width: Width, n: nat)
    requires n <= |data| == |ranges|
  {
    forall m: nat, j :: m < n && Refers(data[m], j) ==> StartFits(data, ranges, width, m, j)
  }

  /** Where it fits, a view starts where its values are. */
  lemma {:induction false} MovedExact(d: Data, r: Range, kept: int, width: Width, j: nat)
    requires ListViewFits(d, width) && IsRangeUsed(d, r) && Refers(d, j) && 0 <= kept
    requires First(d, j) - r.offset + kept <= width.Limit()
    ensures MovedStart(d, r, kept, width, j) == First(d, j) - r.offset + kept
  {
    RefersFits(d, j, width);
    RangeCovers(d, r, j);
    RangeUsedInChild(d, r, width);
    DisplacementExact(width, First(d, j), r, kept);
  }

  /** Where it does not, but is less than a whole turn beyond, the view starts at a negative position. */
  lemma {:induction false} MovedTooFar(d: Data, r: Range, kept: int, width: Width, j: nat)
    requires ListViewFits(d, width) && IsRangeUsed(d, r) && Refers(d, j) && 0 <= kept <= 2 * width.Limit()
    requires width.Limit() < First(d, j) - r.offset + kept <= 2 * width.Limit()
    ensures MovedStart(d, r, kept, width, j) < 0
  {
    RefersFits(d, j, width);
    RangeCovers(d, r, j);
    RangeUsedInChild(d, r, width);
    var turn, start := 2 * (width.Limit() + 1), First(d, j) - r.offset + kept;
    if kept - r.offset > width.Limit() {
      assert width.Wrap(kept - r.offset) == kept - r.offset - turn;
    } else {
      assert width.Wrap(start) == start - turn;
    }
  }

  lemma {:induction false} KeptGrows(data: seq<Data>, width: Width, ranges: seq<Range>, m: nat, n: nat)
    requires m <= n <= |data| && AllListViews(data, width) && AllUsed(data, ranges)
    ensures 0 <= KeptBefore(ranges, m) <= KeptBefore(ranges, n)
    decreases n, m
  {
    if n > 0 {
      assert IsListView(data, width, n - 1) && UsesRange(data, ranges, n - 1);
      RangeUsedInChild(data[n - 1], ranges[n - 1], width);
      KeptGrows(data, width, ranges, if m < n then m else n - 1, n - 1);
    }
  }

  // ---------------------------------------------------------------------------------------------
  // Sizes
  // ---------------------------------------------------------------------------------------------

  ghost predicate SizeKept(data: seq<Data>, sizes: seq<int>, m: nat, j: nat)
    requires m < |data| && j < data[m].length && data[m].body.ListViewBody?
    requires data[m].offset + data[m].length <= |data[m].body.sizes|
  {
    && SlotStart(data, m) + j < |sizes|
    && sizes[SlotStart(data, m) + j] == if Validity(data[m])[j] then data[m].body.sizes[data[m].offset + j] else 0
  }

  ghost predicate SizeWindow(d: Data, piece: seq<int>) {
    && d.body.ListViewBody? && d.offset + d.length <= |d.body.sizes|
    && piece == d.body.sizes[d.offset..d.offset + d.length]
  }

  /** The sizes end to end. */
  method ConcatSizes(data: seq<Data>, width: Width) returns (sizes: seq<int>, ghost pieces: seq<seq<int>>)
    requires AllListViews(data, width)
    ensures |pieces| == |data| && sizes == Flat(pieces) && forall k :: 0 <= k < |data| ==>
              SizeWindow(data[k], pieces[k])
  {
    var windows: seq<seq<int>> := [];
    for i := 0 to |data|
      invariant |windows| == i && forall k :: 0 <= k < i ==> SizeWindow(data[k], windows[k])
    {
      assert IsListView(data, width, i);
      var d := data[i];
      windows := windows + [d.body.sizes[d.offset..d.offset + d.length]];
    }
    sizes := ConcatBuffers(windows);
    pieces := windows;
  }

  /** Sets the size of every null slot to 0. */
  method ZeroNullListViewSizes(sizes: seq<int>, validity: Option<seq<bool>>) returns (zeroed: seq<int>)
    requires validity.Some? ==> |sizes| <= |validity.value|
    ensures |zeroed| == |sizes|
    ensures forall i :: 0 <= i < |sizes| ==> zeroed[i] == if validity.None? || validity.value[i] then sizes[i] else 0
  {
    zeroed := sizes;
    if |sizes| == 0 || validity.None? {
      return;
    }
    for i := 0 to |sizes|
      invariant |zeroed| == |sizes|
      invariant forall k :: 0 <= k < i ==> zeroed[k] == if validity.value[k] then sizes[k] else 0
      invariant forall k :: i <= k < |sizes| ==> zeroed[k] == sizes[k]
    {
      if !validity.value[i] { zeroed := zeroed[i := 0]; }
    }
  }

  /** A list-view output over the displaced starts, the zeroed sizes and the values kept. */
  ghost predicate IsListViewOutput(data: seq<Data>, width: Width, ranges: seq<Range>, pieces: seq<seq<int>>, o: Data) {
    && o.body.ListViewBody? && Covers(data, o) && |ranges| == |data|
    && o.body.starts == StartsUpTo(data, ranges, width, |data|)
    && |pieces| == |data| && (forall k :: 0 <= k < |data| ==> SizeWindow(data[k], pieces[k]))
    && |o.body.sizes| == |Flat(pieces)| == o.length
    && forall i :: 0 <= i < o.length ==> o.body.sizes[i] == if Validity(o)[i] then Flat(pieces)[i] else 0
  }

  lemma {:induction false} SizeAt(data: seq<Data>, width: Width, ranges: seq<Range>, pieces: seq<seq<int>>, o: Data,
      m: nat, j: nat)
    requires IsListViewOutput(data, width, ranges, pieces, o) && m < |data| && j < data[m].length
    ensures data[m].body.ListViewBody? && data[m].offset + data[m].length <= |data[m].body.sizes|
    ensures SizeKept(data, o.body.sizes, m, j)
    ensures SlotStart(data, m) + j < o.length && Validity(o)[SlotStart(data, m) + j] == Validity(data[m])[j]
  {
    forall k {:trigger pieces[k]} | 0 <= k < |data|
      ensures |pieces[k]| == data[k].length
    {
      assert SizeWindow(data[k], pieces[k]);
    }
    WindowStarts(data, pieces, m);
    assert SizeWindow(data[m], pieces[m]);
    FlatAt(pieces, m, j);
    ValidAt(data, m, j);
  }

  ghost predicate ViewSlices(data: seq<Data>, ranges: seq<Range>, slices: seq<Data>) {
    |slices| == |data| == |ranges| && forall i :: 0 <= i < |data| ==> ViewSlice(data, ranges, slices, i)
  }

  ghost predicate ViewSlice(data: seq<Data>, ranges: seq<Range>, slices: seq<Data>, i: int)
    requires 0 <= i < |data| == |ranges| == |slices|
  {
    && data[i].body.ListViewBody?
    && 0 <= ranges[i].offset && 0 <= ranges[i].length
        && ranges[i].offset + ranges[i].length <= data[i].body.child.length
    && slices[i] == Slice(data[i].body.child, ranges[i].offset, ranges[i].offset + ranges[i].length)
  }

  lemma {:induction false} ViewSliceStarts(data: seq<Data>, ranges: seq<Range>, slices: seq<Data>, n: nat)
    requires n <= |data| && ViewSlices(data, ranges, slices)
    ensures SlotStart(slices, n) == KeptBefore(ranges, n)
  {
    if n > 0 {
      ViewSliceStarts(data, ranges, slices, n - 1);
      assert ViewSlice(data, ranges, slices, n - 1);
    }
  }

  /** Views of the same size that cover equal values have the same value. */
  lemma {:induction false} SameView(b: Body, p: nat, c: Body, q: nat, size: int)
    requires b.ListViewBody? && p < |b.starts| && p < |b.sizes| && b.sizes[p] == size
    requires c.ListViewBody? && q < |c.starts| && q < |c.sizes| && c.sizes[q] == size
    requires size > 0 ==>
               && 0 <= b.starts[p] && b.starts[p] + size <= b.child.length && 0 <= c.starts[q]
                   && c.starts[q] + size <= c.child.length
               && Decode(b.child)[b.starts[p]..b.starts[p] + size] == Decode(c.child)[c.starts[q]..c.starts[q] + size]
    ensures ValueAt(b, p) == ValueAt(c, q)
  {}

  /** A view that refers to values refers to equal values in the output. */
  lemma {:induction false} ReferKept(data: seq<Data>, width: Width, ranges: seq<Range>, slices: seq<Data>, m: nat,
      j: nat)
    requires AllListViews(data, width) && AllUsed(data, ranges) && ViewSlices(data, ranges, slices)
    requires m < |data| && Refers(data[m], j) && StartFits(data, ranges, width, m, j)
    ensures var d, start := data[m], MovedStart(data[m], ranges[m], KeptBefore(ranges, m), width, j);
            var size := End(d, j) - First(d, j);
            && 0 <= start && start + size <= |ColumnUpTo(slices, |slices|)|
                && 0 <= First(d, j) < End(d, j) <= d.body.child.length
            && ColumnUpTo(slices, |slices|)[start..start + size] == Decode(d.body.child)[First(d, j)..End(d, j)]
  {
    var d, r := data[m], ranges[m];
    assert IsListView(data, width, m) && UsesRange(data, ranges, m) && ViewSlice(data, ranges, slices, m);
    RefersFits(d, j, width);
    RangeCovers(d, r, j);
    KeptGrows(data, width, ranges, m, m);
    MovedExact(d, r, KeptBefore(ranges, m), width, j);
    ViewSliceStarts(data, ranges, slices, m);
    SlicePart(d.body.child, r, slices, m, First(d, j) - r.offset, End(d, j) - r.offset);
  }

  lemma {:induction false} ListViewSlotKept(data: seq<Data>, width: Width, ranges: seq<Range>, pieces: seq<seq<int>>,
      slices: seq<Data>, o: Data, m: nat, j: nat)
    requires AllListViews(data, width) && AllUsed(data, ranges) && ViewSlices(data, ranges, slices)
    requires IsListViewOutput(data, width, ranges, pieces, o) && Decode(o.body.child) == ColumnUpTo(slices, |slices|)
    requires StartsFit(data, ranges, width, |data|)
    requires m < |data| && j < data[m].length && Validity(data[m])[j]
    ensures Kept(data, o, m, j)
  {
    var d, p := data[m], SlotStart(data, m) + j;
    assert IsListView(data, width, m);
    SizeAt(data, width, ranges, pieces, o, m, j);
    StartsAt(data, ranges, width, m, j);
    assert SlotFits(d, j, width);
    var size := d.body.sizes[d.offset + j];
    if Refers(d, j) {
      assert StartFits(data, ranges, width, m, j);
      ReferKept(data, width, ranges, slices, m, j);
    }
    SameView(o.body, p, d.body, d.offset + j, size);
  }

  lemma {:induction false} ListViewKeeps(data: seq<Data>, width: Width, ranges: seq<Range>, pieces: seq<seq<int>>,
      slices: seq<Data>, o: Data)
    requires AllListViews(data, width) && AllUsed(data, ranges) && ViewSlices(data, ranges, slices)
    requires IsListViewOutput(data, width, ranges, pieces, o) && Decode(o.body.child) == ColumnUpTo(slices, |slices|)
    requires StartsFit(data, ranges, width, |data|)
    ensures Decode(o) == ColumnUpTo(data, |data|)
  {
    forall m: nat, j: nat | m < |data| && j < data[m].length && Validity(data[m])[j] ensures Kept(data, o, m, j) {
      ListViewSlotKept(data, width, ranges, pieces, slices, o, m, j);
    }
    KeptDecodes(data, o);
  }

  /** All views of the output lie inside the new child, and null slots have size 0. */
  lemma {:induction false} ListViewOutputFits(data: seq<Data>, width: Width, ranges: seq<Range>, pieces: seq<seq<int>>,
      slices: seq<Data>, o: Data)
    requires AllListViews(data, width) && AllUsed(data, ranges) && ViewSlices(data, ranges, slices)
    requires IsListViewOutput(data, width, ranges, pieces, o) && StartsFit(data, ranges, width, |data|)
    requires o.body.child.length == SlotStart(slices, |slices|)
    ensures ListViewFits(o, width)
    ensures forall i :: 0 <= i < o.length && !Validity(o)[i] ==> o.body.sizes[i] == 0
  {
    ViewSliceStarts(data, ranges, slices, |data|);
    forall i: nat | i < o.length && Validity(o)[i] ensures SlotFits(o, i, width) {
      var m, j := LocateSlot(data, |data|, i);
      ListViewSlotFits(data, width, ranges, pieces, o, m, j);
    }
  }

  lemma {:induction false} ListViewSlotFits(data: seq<Data>, width: Width, ranges: seq<Range>, pieces: seq<seq<int>>,
      o: Data, m: nat, j: nat)
    requires AllListViews(data, width) && AllUsed(data, ranges) && m < |data| && j < data[m].length
    requires IsListViewOutput(data, width, ranges, pieces, o) && KeptBefore(ranges, |data|) <= o.body.child.length
    requires StartsFit(data, ranges, width, |data|)
    ensures SlotStart(data, m) + j < o.length && |o.body.starts| == |o.body.sizes| == o.length
    ensures Validity(o)[SlotStart(data, m) + j] ==> SlotFits(o, SlotStart(data, m) + j, width)
  {
    SizeAt(data, width, ranges, pieces, o, m, j);
    StartsAt(data, ranges, width, m, j);
    var d, p := data[m], SlotStart(data, m) + j;
    if Validity(d)[j] {
      assert IsListView(data, width, m);
      assert SlotFits(d, j, width);
      if Refers(d, j) {
        assert StartFits(data, ranges, width, m, j);
        ReferInKept(data, width, ranges, m, j);
      }
      ViewFits(o, p, d.body.sizes[d.offset + j], width);
    }
  }

  lemma {:induction false} ViewFits(o: Data, p: nat, size: int, width: Width)
    requires o.body.ListViewBody? && o.offset == 0 && p < o.length == |o.body.starts| == |o.body.sizes|
    requires o.body.sizes[p] == size && 0 <= size <= width.Limit()
    requires size > 0 ==> 0 <= o.body.starts[p] <= width.Limit() && o.body.starts[p] + size <= o.body.child.length
    ensures SlotFits(o, p, width)
  {}

  lemma {:induction false} ReferInKept(data: seq<Data>, width: Width, ranges: seq<Range>, m: nat, j: nat)
    requires AllListViews(data, width) && AllUsed(data, ranges) && m < |data| && Refers(data[m], j)
    requires StartFits(data, ranges, width, m, j)
    ensures var d, start := data[m], MovedStart(data[m], ranges[m], KeptBefore(ranges, m), width, j);
            0 <= start <= width.Limit() && start + (End(d, j) - First(d, j)) <= KeptBefore(ranges, |data|)
  {
    assert IsListView(data, width, m) && UsesRange(data, ranges, m);
    RangeCovers(data[m], ranges[m], j);
    KeptGrows(data, width, ranges, m, m);
    KeptGrows(data, width, ranges, m + 1, |data|);
    MovedExact(data[m], ranges[m], KeptBefore(ranges, m), width, j);
  }

  // ---------------------------------------------------------------------------------------------
  // Starts that do not fit
  // ---------------------------------------------------------------------------------------------

  lemma {:induction false} FirstView(d: Data, r: Range, last: bool) returns (j: nat)
    requires IsRangeUsed(d, r) && r.length > 0
    ensures Refers(d, j) && if last then End(d, j) == r.offset + r.length else First(d, j) == r.offset
  {
    if last {
      var k :| Refers(d, k) && End(d, k) == r.offset + r.length;
      j := k;
    } else {
      var k :| Refers(d, k) && First(d, k) == r.offset;
      j := k;
    }
  }

  /** As long as all starts fit, less than twice what the offset type counts is kept. */
  lemma {:induction false} KeptBelow(data: seq<Data>, width: Width, ranges: seq<Range>, n: nat)
    requires n <= |data| && AllListViews(data, width) && AllUsed(data, ranges) && StartsFit(data, ranges, width, n)
    ensures KeptBefore(ranges, n) <= 2 * width.Limit()
  {
    if n > 0 {
      KeptBelow(data, width, ranges, n - 1);
      assert IsListView(data, width, n - 1) && UsesRange(data, ranges, n - 1);
      if ranges[n - 1].length > 0 {
        var j := FirstView(data[n - 1], ranges[n - 1], true);
        assert StartFits(data, ranges, width, n - 1, j);
        RefersFits(data[n - 1], j, width);
      }
    }
  }

  /** The first input with a view whose start does not fit. */
  lemma {:induction false} FirstMisfit(data: seq<Data>, ranges: seq<Range>, width: Width, n: nat)
    returns (m: nat, j: int)
    requires n <= |data| == |ranges| && !StartsFit(data, ranges, width, n)
    ensures m < n && StartsFit(data, ranges, width, m) && Refers(data[m], j) && !StartFits(data, ranges, width, m, j)
  {
    if !StartsFit(data, ranges, width, n - 1) {
      m, j := FirstMisfit(data, ranges, width, n - 1);
    } else {
      m := n - 1;
      var p: nat, k :| p < n && Refers(data[p], k) && !StartFits(data, ranges, width, p, k);
      assert p == m;
      j := k;
    }
  }

  lemma {:induction false} NegativeStart(data: seq<Data>, width: Width, ranges: seq<Range>, pieces: seq<seq<int>>,
      o: Data, m: nat, j: nat)
    requires AllListViews(data, width) && IsListViewOutput(data, width, ranges, pieces, o) && m < |data|
    requires Refers(data[m], j)
    requires MovedStart(data[m], ranges[m], KeptBefore(ranges, m), width, j) < 0
    ensures !ListViewFits(o, width)
  {
    SizeAt(data, width, ranges, pieces, o, m, j);
    StartsAt(data, ranges, width, m, j);
    assert !SlotFits(o, SlotStart(data, m) + j, width);
  }

  /**
   When the start of a moved view does not fit, the output is no list-view array: some view starts at a negative
   position.
   */
  lemma {:induction false} ListViewBeyond(data: seq<Data>, width: Width, ranges: seq<Range>, pieces: seq<seq<int>>,
      o: Data)
    requires AllListViews(data, width) && AllUsed(data, ranges) && IsListViewOutput(data, width, ranges, pieces, o)
    requires !StartsFit(data, ranges, width, |data|)
    ensures !ListViewFits(o, width)
  {
    var m, k := FirstMisfit(data, ranges, width, |data|);
    var j := MisfitView(data, width, ranges, m, k);
    NegativeStart(data, width, ranges, pieces, o, m, j);
  }

  lemma {:induction false} MisfitView(data: seq<Data>, width: Width, ranges: seq<Range>, m: nat, k: int)
    returns (j: nat)
    requires AllListViews(data, width) && AllUsed(data, ranges) && m < |data| && StartsFit(data, ranges, width, m)
    requires Refers(data[m], k) && !StartFits(data, ranges, width, m, k)
    ensures Refers(data[m], j) && MovedStart(data[m], ranges[m], KeptBefore(ranges, m), width, j) < 0
  {
    var d, r, kept := data[m], ranges[m], KeptBefore(ranges, m);
    assert IsListView(data, width, m) && UsesRange(data, ranges, m);
    KeptBelow(data, width, ranges, m);
    KeptGrows(data, width, ranges, m, m);
    RefersFits(d, k, width);
    RangeCovers(d, r, k);
    RangeUsedInChild(d, r, width);
    if kept > width.Limit() { j := FirstView(d, r, false); } else { j := k; }
    MovedTooFar(d, r, kept, width, j);
  }
}

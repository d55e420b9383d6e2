/** Concatenation of each physical layout, one level deep: every valid slot keeps its value. */
module ConcatKinds {
  import opened Basics
  import opened Sequences
  import opened Layout
  import opened Slots
  import opened Offsets

  // ---------------------------------------------------------------------------------------------
  // The common part of an output
  // ---------------------------------------------------------------------------------------------

  /** The output covers all slots of the inputs from offset 0, with their validity. */
  ghost predicate Covers(data: seq<Data>, o: Data) {
    o.offset == 0 && o.length == SlotStart(data, |data|) && Validity(o) == ValidUpTo(data, |data|) && NullsFit(o)
  }

  ghost predicate AllNullsFit(data: seq<Data>) {
    forall i :: 0 <= i < |data| ==> NullsFit(data[i])
  }

  /**
   Sums lengths and null counts, where one unknown count makes the sum unknown, and joins bitmaps unless there are no
   nulls.
   */
  method Assemble(data: seq<Data>, body: Body) returns (o: Data)
    requires AllNullsFit(data)
    ensures o.body == body && Covers(data, o)
    ensures (forall i :: 0 <= i < |data| ==> data[i].nulls == 0) ==> o.nulls == 0 && o.validity.None?
  {
    var length, nulls := 0, 0;
    for i := 0 to |data|
      invariant length == SlotStart(data, i)
      invariant nulls == UNKNOWN_NULL_COUNT || nulls == NullsUpTo(data, i)
      invariant (forall k :: 0 <= k < i ==> data[k].nulls == 0) ==> nulls == 0
    {
      length := length + data[i].length;
      if nulls == UNKNOWN_NULL_COUNT || data[i].nulls == UNKNOWN_NULL_COUNT {
        nulls := UNKNOWN_NULL_COUNT;
      } else {
        nulls := nulls + data[i].nulls;
      }
    }
    NullsAdd(data, |data|);
    UpToLengths(data, |data|);
    if nulls != 0 {
      var bits := ConcatBitmaps(data);
      o := Data(0, length, nulls, Some(bits), body);
      assert forall k :: 0 <= k < length ==> ValidBit(o, k) == bits[k];
    } else {
      o := Data(0, length, nulls, None, body);
      CountNullsZero(ValidUpTo(data, |data|));
      assert forall k :: 0 <= k < length ==> Validity(o)[k] == ValidUpTo(data, |data|)[k];
    }
    assert Validity(o) == ValidUpTo(data, |data|);
  }

  // ---------------------------------------------------------------------------------------------
  // Fixed width
  // ---------------------------------------------------------------------------------------------

  ghost predicate AllFixed(data: seq<Data>) {
    forall i :: 0 <= i < |data| ==> data[i].body.FixedBody? && data[i].offset + data[i].length <= |data[i].body.values|
  }

  /** Pieces that are the inputs' windows of some buffer begin where the inputs' slots do. */
  lemma {:induction false} WindowStarts<T>(data: seq<Data>, pieces: seq<seq<T>>, n: nat)
    requires n <= |data| == |pieces| && forall i {:trigger pieces[i]} :: 0 <= i < |data| ==>
               |pieces[i]| == data[i].length
    ensures Start(pieces, n) == SlotStart(data, n)
  {
    if n > 0 { WindowStarts(data, pieces, n - 1); }
  }

  method ConcatFixed(data: seq<Data>) returns (values: seq<int>)
    requires AllFixed(data)
    ensures |values| == SlotStart(data, |data|)
    ensures forall m: nat, j: nat :: m < |data| && j < data[m].length ==> FixedKept(data, values, m, j)
  {
    var pieces: seq<seq<int>> := [];
    for i := 0 to |data|
      invariant |pieces| == i
      invariant forall k {:trigger pieces[k]} :: 0 <= k < i ==>
                  pieces[k] == data[k].body.values[data[k].offset..data[k].offset + data[k].length]
    {
      var d := data[i];
      pieces := pieces + [d.body.values[d.offset..d.offset + d.length]];
    }
    values := ConcatBuffers(pieces);
    WindowStarts(data, pieces, |data|);
    forall m: nat, j: nat | m < |data| && j < data[m].length ensures FixedKept(data, values, m, j) {
      WindowStarts(data, pieces, m);
      FlatAt(pieces, m, j);
    }
  }

  ghost predicate FixedKept(data: seq<Data>, values: seq<int>, m: nat, j: nat)
    requires m < |data| && j < data[m].length && AllFixed(data)
  {
    SlotStart(data, m) + j < |values| && values[SlotStart(data, m) + j] == data[m].body.values[data[m].offset + j]
  }

  lemma {:induction false} FixedKeeps(data: seq<Data>, o: Data)
    requires AllFixed(data) && Covers(data, o) && o.body.FixedBody?
    requires forall m: nat, j: nat :: m < |data| && j < data[m].length ==> FixedKept(data, o.body.values, m, j)
    ensures Decode(o) == ColumnUpTo(data, |data|)
  {
    forall m: nat, j: nat | m < |data| && j < data[m].length && Validity(data[m])[j] ensures Kept(data, o, m, j) {
      assert FixedKept(data, o.body.values, m, j);
    }
    KeptDecodes(data, o);
  }

  // ---------------------------------------------------------------------------------------------
  // Offsets and what they cover
  // ---------------------------------------------------------------------------------------------

  function WindowOf(d: Data): Window {
    Window(d.offset, d.length,
           match d.body case BinaryBody(offsets, _) => offsets case ListBody(offsets, _) => offsets case _ => None)
  }

  function WindowsUpTo(data: seq<Data>, n: nat): (ws: seq<Window>)
    requires n <= |data|
    ensures |ws| == n && forall i {:trigger ws[i]} :: 0 <= i < n ==> ws[i] == WindowOf(data[i])
  {
    if n == 0 then [] else WindowsUpTo(data, n - 1) + [WindowOf(data[n - 1])]
  }

  function Windows(data: seq<Data>): (ws: seq<Window>)
    ensures |ws| == |data| && forall i {:trigger ws[i]} :: 0 <= i < |data| ==> ws[i] == WindowOf(data[i])
  {
    WindowsUpTo(data, |data|)
  }

  lemma {:induction false} WindowSlots(data: seq<Data>, n: nat)
    requires n <= |data|
    ensures SlotsBefore(Windows(data), n) == SlotStart(data, n)
  {
    if n > 0 { WindowSlots(data, n - 1); }
  }

  /** Buffers or children cut to the ranges the inputs use begin where the values used before end. */
  lemma {:induction false} RangeStarts<T>(ws: seq<Window>, pieces: seq<seq<T>>, n: nat)
    requires n <= |ws| == |pieces| && forall i {:trigger pieces[i]} :: 0 <= i < |ws| ==>
               |pieces[i]| == UsedRange(ws[i]).length
    ensures Start(pieces, n) == UsedBefore(ws, n)
  {
    if n > 0 { RangeStarts(ws, pieces, n - 1); }
  }

  lemma {:induction false} SliceStarts(ws: seq<Window>, slices: seq<Data>, n: nat)
    requires n <= |ws| == |slices| && forall i {:trigger slices[i]} :: 0 <= i < |ws| ==>
               slices[i].length == UsedRange(ws[i]).length
    ensures SlotStart(slices, n) == UsedBefore(ws, n)
  {
    if n > 0 { SliceStarts(ws, slices, n - 1); }
  }

  /**
   In the output's offsets, slot j of input m spans the part [a, b) of what the input uses, as in the input itself.
   */
  lemma {:induction false} SlotRange(data: seq<Data>, width: Width, out: seq<int>, m: nat, j: nat)
    returns (a: nat, b: nat)
    requires m < |data| && j < data[m].length && AllClimb(Windows(data), width)
    requires out == RebasedUpTo(Windows(data), |data|) + [UsedBefore(Windows(data), |data|)]
    ensures var w, r, p := WindowOf(data[m]), UsedRange(WindowOf(data[m])), SlotStart(data, m) + j;
            && w.offsets.Some? && w.offset + w.length < |w.offsets.value| && a <= b <= r.length
            && w.offsets.value[w.offset + j] == r.offset + a && w.offsets.value[w.offset + j + 1] == r.offset + b
            && p + 1 < |out| && out[p] == UsedBefore(Windows(data), m) + a
                && out[p + 1] == UsedBefore(Windows(data), m) + b
  {
    var ws := Windows(data);
    WindowSlots(data, m);
    ClimbsBounds(ws[m], width.Limit(), j);
    ClimbsBounds(ws[m], width.Limit(), j + 1);
    OutputRebased(ws, width, out, m, j);
    OutputRebased(ws, width, out, m, j + 1);
    ClimbsStep(ws[m], width.Limit(), j);
    a := ws[m].offsets.value[ws[m].offset + j] - UsedRange(ws[m]).offset;
    b := ws[m].offsets.value[ws[m].offset + j + 1] - UsedRange(ws[m]).offset;
  }

  /** The output's offsets climb from 0 to the number of values used. */
  lemma {:induction false} OutputClimbs(data: seq<Data>, width: Width, out: seq<int>, i: nat, j: nat)
    requires AllClimb(Windows(data), width) && i <= j <= SlotStart(data, |data|)
    requires out == RebasedUpTo(Windows(data), |data|) + [UsedBefore(Windows(data), |data|)]
    ensures |out| == SlotStart(data, |data|) + 1 && out[i] <= out[j]
    decreases j
  {
    WindowSlots(data, |data|);
    if i < j {
      OutputClimbs(data, width, out, i, j - 1);
      var m, k := LocateSlot(data, |data|, j - 1);
      var a, b := SlotRange(data, width, out, m, k);
    }
  }

  lemma {:induction false} OutputOffsetsFit(data: seq<Data>, width: Width, out: seq<int>)
    requires AllClimb(Windows(data), width) && UsedBefore(Windows(data), |data|) <= width.Limit()
    requires out == RebasedUpTo(Windows(data), |data|) + [UsedBefore(Windows(data), |data|)]
    ensures OffsetsFit(out, 0, SlotStart(data, |data|), Smaller(UsedBefore(Windows(data), |data|), width.Limit()))
  {
    var n := SlotStart(data, |data|);
    WindowSlots(data, |data|);
    WindowSlots(data, 0);
    OutputBegins(Windows(data), width, 0);
    forall i, j | 0 <= i <= j <= n ensures InOrder(out, i, j) { OutputClimbs(data, width, out, i, j); }
  }

  lemma {:induction false} ClimbsStep(w: Window, limit: int, j: nat)
    requires Climbs(w, limit) && j < w.length
    ensures w.offsets.Some? && w.offset + w.length < |w.offsets.value|
    ensures w.offsets.value[w.offset + j] <= w.offsets.value[w.offset + j + 1]
  {
    assert InOrder(w.offsets.value, w.offset + j, w.offset + j + 1);
  }

  // ---------------------------------------------------------------------------------------------
  // Binary
  // ---------------------------------------------------------------------------------------------

  ghost predicate AllBinary(data: seq<Data>, width: Width) {
    forall i :: 0 <= i < |data| ==> IsBinary(data, width, i)
  }

  ghost predicate IsBinary(data: seq<Data>, width: Width, i: int)
    requires 0 <= i < |data|
  {
    BinaryFits(data[i], width)
  }

  lemma {:induction false} BinaryClimbs(data: seq<Data>, width: Width)
    requires AllBinary(data, width)
    ensures AllClimb(Windows(data), width) && forall i :: 0 <= i < |data| ==> Covered(Windows(data)[i])
  {
    forall i | 0 <= i < |data| ensures Climbs(Windows(data)[i], width.Limit()) && Covered(Windows(data)[i]) {
      assert IsBinary(data, width, i);
    }
  }

  /** The pieces are the bytes that the inputs use. */
  ghost predicate AllBytesUsed(data: seq<Data>, pieces: seq<seq<Byte>>) {
    |pieces| == |data| && forall m :: 0 <= m < |data| ==> PieceUsed(data, pieces, m)
  }

  ghost predicate PieceUsed(data: seq<Data>, pieces: seq<seq<Byte>>, m: int)
    requires 0 <= m < |data| == |pieces|
  {
    BytesUsed(data[m], pieces[m])
  }

  ghost predicate BytesUsed(d: Data, piece: seq<Byte>) {
    && d.body.BinaryBody? && var r := UsedRange(WindowOf(d));
    && 0 <= r.offset && 0 <= r.length && r.offset + r.length <= |d.body.bytes|
    && piece == d.body.bytes[r.offset..r.offset + r.length]
  }

  /** Offsets rebased and the bytes they cover copied; refused exactly when the bytes outnumber the offset type. */
  method ConcatBinary(data: seq<Data>, width: Width) returns (r: Result<Body>, ghost pieces: seq<seq<Byte>>)
    requires AllBinary(data, width)
    ensures r.Err? <==> UsedBefore(Windows(data), |data|) > width.Limit()
    ensures r.Ok? ==> AllBytesUsed(data, pieces)
    ensures r.Ok? ==>
              r.value == BinaryBody(Some(RebasedUpTo(Windows(data), |data|) + [UsedBefore(Windows(data), |data|)]),
              Flat(pieces))
  {
    var ws := Windows(data);
    BinaryClimbs(data, width);
    RefusedIffTooLong(ws, width);
    var offsets := ConcatOffsets(ws, width);
    if offsets.Err? {
      pieces := [];
      return Err(offsets.error), pieces;
    }
    var ranges := offsets.value.1;
    var gathered: seq<seq<Byte>> := [];
    for i := 0 to |data|
      invariant |gathered| == i
      invariant forall m :: 0 <= m < i ==> BytesUsed(data[m], gathered[m])
    {
      assert IsBinary(data, width, i);
      BytesRange(data[i], width);
      gathered := gathered + [data[i].body.bytes[ranges[i].offset..ranges[i].offset + ranges[i].length]];
    }
    var bytes := ConcatBuffers(gathered);
    pieces := gathered;
    return Ok(BinaryBody(Some(offsets.value.0), bytes)), pieces;
  }

  lemma {:induction false} BytesRange(d: Data, width: Width)
    requires BinaryFits(d, width)
    ensures var r := UsedRange(WindowOf(d)); 0 <= r.offset && 0 <= r.length && r.offset + r.length <= |d.body.bytes|
  {
    if d.length > 0 { ClimbsBounds(WindowOf(d), Smaller(|d.body.bytes|, width.Limit()), 0); }
  }

  lemma {:induction false} BinaryKeeps(data: seq<Data>, width: Width, o: Data, pieces: seq<seq<Byte>>)
    requires AllBinary(data, width) && Covers(data, o)
    requires AllBytesUsed(data, pieces)
    requires o.body == BinaryBody(Some(RebasedUpTo(Windows(data), |data|) + [UsedBefore(Windows(data), |data|)]),
               Flat(pieces))
    ensures Decode(o) == ColumnUpTo(data, |data|)
  {
    forall m: nat, j: nat | m < |data| && j < data[m].length && Validity(data[m])[j] ensures Kept(data, o, m, j) {
      BinarySlotKept(data, width, o, pieces, m, j);
    }
    KeptDecodes(data, o);
  }

  lemma {:induction false} BinarySlotKept(data: seq<Data>, width: Width, o: Data, pieces: seq<seq<Byte>>, m: nat,
      j: nat)
    requires AllBinary(data, width) && m < |data| && j < data[m].length
    requires AllBytesUsed(data, pieces)
    requires o.body == BinaryBody(Some(RebasedUpTo(Windows(data), |data|) + [UsedBefore(Windows(data), |data|)]),
               Flat(pieces))
    ensures Kept(data, o, m, j)
  {
    BinaryClimbs(data, width);
    var a, b := SlotRange(data, width, o.body.offsets.value, m, j);
    BytesStart(data, pieces, m);
    assert PieceUsed(data, pieces, m);
    BytesPart(data[m], pieces[m], a, b);
    FlatPart(pieces, m, a, b);
    assert IsBinary(data, width, m);
  }

  lemma {:induction false} BytesPart(d: Data, piece: seq<Byte>, a: nat, b: nat)
    requires BytesUsed(d, piece) && a <= b <= UsedRange(WindowOf(d)).length
    ensures b <= |piece|
    ensures var start := UsedRange(WindowOf(d)).offset;
            0 <= start && start + b <= |d.body.bytes| && piece[a..b] == d.body.bytes[start + a..start + b]
  {
    var r := UsedRange(WindowOf(d));
    PartOfPart(d.body.bytes, r.offset, r.offset + r.length, a, b);
  }

  lemma {:induction false} BytesStart(data: seq<Data>, pieces: seq<seq<Byte>>, m: nat)
    requires m <= |data| && AllBytesUsed(data, pieces)
    ensures Start(pieces, m) == UsedBefore(Windows(data), m)
  {
    forall i {:trigger pieces[i]} | 0 <= i < |data| ensures |pieces[i]| == UsedRange(Windows(data)[i]).length {
      assert PieceUsed(data, pieces, i);
    }
    RangeStarts(Windows(data), pieces, m);
  }

  lemma {:induction false} BinaryOutputFits(data: seq<Data>, width: Width, o: Data, pieces: seq<seq<Byte>>)
    requires AllBinary(data, width) && Covers(data, o) && UsedBefore(Windows(data), |data|) <= width.Limit()
    requires AllBytesUsed(data, pieces)
    requires o.body == BinaryBody(Some(RebasedUpTo(Windows(data), |data|) + [UsedBefore(Windows(data), |data|)]),
               Flat(pieces))
    ensures BinaryFits(o, width)
  {
    BinaryClimbs(data, width);
    OutputOffsetsFit(data, width, o.body.offsets.value);
    BytesStart(data, pieces, |data|);
  }
}

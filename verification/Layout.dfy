/**
 Physical arrays of the Arrow columnar format, the logical columns they stand for, and slicing.
 Buffers are sequences of the elements they hold.
 */
module Layout {
  import opened Basics

  type Byte = b: int | 0 <= b < 256

  /** The width of a signed integer that holds offsets or run ends. */
  datatype Width = W16 | W32 | W64 {
    function Limit(): int {
      match this
      case W16 => 0x7FFF
      case W32 => 0x7FFF_FFFF
      case W64 => 0x7FFF_FFFF_FFFF_FFFF
    }

    /** Conversion to this width drops whole multiples of its 2^n values until the number fits. */
    function Wrap(x: int): (r: int)
      ensures -Limit() - 1 <= r <= Limit()
      ensures -Limit() - 1 <= x <= Limit() ==> r == x
      decreases if x > Limit() then x else if x < -Limit() - 1 then -x else 0
    {
      if x > Limit() then Wrap(x - 2 * (Limit() + 1))
      else if x < -Limit() - 1 then Wrap(x + 2 * (Limit() + 1))
      else x
    }
  }

  function TwoTo(n: nat): int {
    if n == 0 then 1 else 2 * TwoTo(n - 1)
  }

  ghost predicate HasBits(width: Width, bits: nat) {
    (width == W16 && bits == 16) || (width == W32 && bits == 32) || (width == W64 && bits == 64)
  }

  lemma {:induction false} TwoToSum(a: nat, b: nat)
    ensures TwoTo(a + b) == TwoTo(a) * TwoTo(b)
  {
    if a > 0 { TwoToSum(a - 1, b); }
  }

  lemma {:induction false} Powers()
    ensures TwoTo(15) == 0x8000 && TwoTo(31) == 0x8000_0000 && TwoTo(63) == 0x8000_0000_0000_0000
  {
    assert TwoTo(5) == 32;
    TwoToSum(5, 5);
    TwoToSum(10, 5);
    TwoToSum(15, 16);
    TwoToSum(31, 32);
    assert TwoTo(16) == 2 * TwoTo(15) && TwoTo(32) == 2 * TwoTo(31);
  }

  /** The limit is the greatest number that bits in two's complement hold. */
  lemma {:induction false} LimitIsGreatest(width: Width, bits: nat)
    requires bits > 0 && HasBits(width, bits)
    ensures width.Limit() == TwoTo(bits - 1) - 1 && TwoTo(bits) == 2 * TwoTo(bits - 1)
  {
    Powers();
  }

  /** Conversion gives the number in the range of the bits that differs by whole turns; numbers in the range stay. */
  lemma {:induction false} WrapIsSigned(width: Width, bits: nat, x: int) returns (turns: int)
    requires bits > 0 && HasBits(width, bits)
    ensures -TwoTo(bits - 1) <= width.Wrap(x) < TwoTo(bits - 1) && width.Wrap(x) == x + turns * TwoTo(bits)
    ensures -TwoTo(bits - 1) <= x < TwoTo(bits - 1) ==> width.Wrap(x) == x
    decreases if x > width.Limit() then x else if x < -width.Limit() - 1 then -x else 0
  {
    LimitIsGreatest(width, bits);
    var turn := TwoTo(bits);
    if x > width.Limit() {
      var k := WrapIsSigned(width, bits, x - turn);
      turns := k - 1;
      assert (k - 1) * turn == k * turn - turn;
    } else if x < -width.Limit() - 1 {
      var k := WrapIsSigned(width, bits, x + turn);
      turns := k + 1;
      assert (k + 1) * turn == k * turn + turn;
    } else {
      turns := 0;
    }
  }

  datatype DType =
    | Fixed
    | Binary(width: Width)
    | BinaryView
    | List(width: Width, elem: DType)
    | ListView(width: Width, elem: DType)
    | FixedSizeList(size: nat, elem: DType)
    | Struct(fields: seq<DType>)
    | Dictionary(indexLimit: nat)
    | RunEndEncoded(width: Width, elem: DType)

  /** A view header: short values sit in the header, long ones in a data buffer. */
  datatype Header = Inline(bytes: seq<Byte>) | Ref(size: int, buffer: int, start: int)

  datatype Body =
    | FixedBody(values: seq<int>)
    | BinaryBody(offsets: Option<seq<int>>, bytes: seq<Byte>)
    | ViewBody(headers: seq<Header>, buffers: seq<seq<Byte>>)
    | ListBody(offsets: Option<seq<int>>, child: Data)
    | ListViewBody(starts: seq<int>, sizes: seq<int>, child: Data)
    | FixedSizeListBody(size: nat, child: Data)
    | StructBody(children: seq<Data>)
    | DictionaryBody(indices: Option<seq<int>>, dictionary: seq<Value>)
    | RunEndBody(runEnds: Option<seq<int>>, child: Data)

  /** Array data: a window of `length` slots from `offset` on, a null count (-1 when unknown) and buffers. */
  datatype Data = Data(offset: nat, length: nat, nulls: int, validity: Option<seq<bool>>, body: Body)

  const UNKNOWN_NULL_COUNT := -1

  datatype Value = Null | Number(n: int) | Bytes(b: seq<Byte>) | ListOf(items: seq<Value>) | Record(items: seq<Value>)

  // ---------------------------------------------------------------------------------------------
  // Meaning
  // ---------------------------------------------------------------------------------------------

  /** Without a bitmap every slot is valid. */
  ghost predicate ValidBit(d: Data, i: int) {
    d.validity.None? || (0 <= d.offset + i < |d.validity.value| && d.validity.value[d.offset + i])
  }

  /** The validity of the first n slots of a window. */
  ghost function ValidBits(d: Data, n: nat): (v: seq<bool>)
    ensures |v| == n && forall i {:trigger v[i]} :: 0 <= i < n ==> v[i] == ValidBit(d, i)
  {
    if n == 0 then [] else ValidBits(d, n - 1) + [ValidBit(d, n - 1)]
  }

  /** The window's validity, slot by slot. */
  ghost function Validity(d: Data): (v: seq<bool>)
    ensures |v| == d.length
  {
    ValidBits(d, d.length)
  }

  ghost function CountNulls(valid: seq<bool>): nat {
    NullsAmong(valid, |valid|)
  }

  /** The nulls among the first n slots. */
  ghost function NullsAmong(valid: seq<bool>, n: nat): nat
    requires n <= |valid|
  {
    if n == 0 then 0 else NullsAmong(valid, n - 1) + if valid[n - 1] then 0 else 1
  }

  /** What a buffer holds; a missing one holds nothing. */
  function Held<T>(buffer: Option<seq<T>>): seq<T> {
    if buffer.Some? then buffer.value else []
  }

  ghost function Pick<T>(s: seq<T>, i: int, default: T): T {
    if 0 <= i < |s| then s[i] else default
  }

  ghost function Cut<T>(s: seq<T>, a: int, b: int): seq<T> {
    if 0 <= a <= b <= |s| then s[a..b] else []
  }

  /** The first run that ends beyond a logical position. */
  ghost function PhysicalIndex(runEnds: seq<int>, x: int): nat {
    RunAmong(runEnds, x, |runEnds|)
  }

  /** The first of n runs that ends beyond x, or n. */
  ghost function RunAmong(runEnds: seq<int>, x: int, n: nat): nat
    requires n <= |runEnds|
  {
    if n == 0 then 0
    else
      var i := RunAmong(runEnds, x, n - 1);
      if i < n - 1 || runEnds[n - 1] > x then i else n
  }

  lemma {:induction false} RunAmongFinds(runEnds: seq<int>, x: int, n: nat)
    requires n <= |runEnds|
    ensures RunAmong(runEnds, x, n) <= n
    ensures RunAmong(runEnds, x, n) < n ==> runEnds[RunAmong(runEnds, x, n)] > x
    ensures forall j :: 0 <= j < RunAmong(runEnds, x, n) ==> runEnds[j] <= x
  {
    if n > 0 { RunAmongFinds(runEnds, x, n - 1); }
  }

  /** The value of a valid slot, at an absolute position of the buffers. */
  ghost function ValueAt(b: Body, p: int): Value
    decreases b
  {
    match b
    case FixedBody(values) => Number(Pick(values, p, 0))
    case BinaryBody(offsets, bytes) =>
      if offsets.None? then Null else Bytes(Cut(bytes, Pick(offsets.value, p, 0), Pick(offsets.value, p + 1, 0)))
    case ViewBody(headers, buffers) => Bytes(Resolve(Pick(headers, p, Inline([])), buffers))
    case ListBody(offsets, child) =>
      if offsets.None? then Null
      else ListOf(Cut(Decode(child), Pick(offsets.value, p, 0), Pick(offsets.value, p + 1, 0)))
    case ListViewBody(starts, sizes, child) =>
      var size := Pick(sizes, p, 0);
      if size <= 0 then ListOf([]) else ListOf(Cut(Decode(child), Pick(starts, p, 0), Pick(starts, p, 0) + size))
    case FixedSizeListBody(size, child) => ListOf(Cut(Decode(child), p * size, (p + 1) * size))
    case StructBody(children) => Record(FieldsAt(children, p, |children|))
    case DictionaryBody(indices, dictionary) => Pick(dictionary, Pick(Held(indices), p, 0), Null)
    case RunEndBody(runEnds, child) => Pick(Decode(child), PhysicalIndex(Held(runEnds), p), Null)
  }

  ghost function Resolve(h: Header, buffers: seq<seq<Byte>>): seq<Byte> {
    match h
    case Inline(bytes) => bytes
    case Ref(size, buffer, start) => Cut(Pick(buffers, buffer, []), start, start + size)
  }

  /** The first n fields of a struct slot, one value from each child. */
  ghost function FieldsAt(children: seq<Data>, p: int, n: nat): (fields: seq<Value>)
    requires n <= |children|
    ensures |fields| == n
    decreases children, n
  {
    if n == 0 then [] else FieldsAt(children, p, n - 1) + [Pick(Decode(children[n - 1]), p, Null)]
  }

  lemma {:induction false} FieldAt(children: seq<Data>, p: int, n: nat, f: nat)
    requires f < n <= |children|
    ensures FieldsAt(children, p, n)[f] == Pick(Decode(children[f]), p, Null)
  {
    if f < n - 1 { FieldAt(children, p, n - 1, f); }
  }

  /** Slot i of an array: null, or the value at its position. */
  ghost function SlotValue(d: Data, i: int): Value
    requires 0 <= i < d.length
    decreases d, 0
  {
    if Validity(d)[i] then ValueAt(d.body, d.offset + i) else Null
  }

  /** The logical column an array stands for. */
  ghost function Decode(d: Data): (column: seq<Value>)
    ensures |column| == d.length && forall i :: 0 <= i < d.length ==> column[i] == SlotValue(d, i)
    decreases d, 2
  {
    DecodeUpTo(d, d.length)
  }

  ghost function DecodeUpTo(d: Data, n: nat): (column: seq<Value>)
    requires n <= d.length
    ensures |column| == n && forall i :: 0 <= i < n ==> column[i] == SlotValue(d, i)
    decreases d, 1, n
  {
    if n == 0 then [] else DecodeUpTo(d, n - 1) + [SlotValue(d, n - 1)]
  }

  // ---------------------------------------------------------------------------------------------
  // Well-formed arrays
  // ---------------------------------------------------------------------------------------------

  /** The window of an offsets buffer climbs from slot to slot inside [0, limit]. */
  ghost predicate OffsetsFit(offsets: seq<int>, offset: nat, length: nat, limit: int) {
    && offset + length < |offsets|
    && 0 <= offsets[offset] && offsets[offset + length] <= limit
    && (forall i, j :: offset <= i <= j <= offset + length ==> InOrder(offsets, i, j))
  }

  ghost predicate InOrder(offsets: seq<int>, i: int, j: int)
    requires 0 <= i < |offsets| && 0 <= j < |offsets|
  {
    offsets[i] <= offsets[j]
  }

  ghost predicate HeaderFits(h: Header, buffers: seq<seq<Byte>>) {
    h.Ref? ==> 0 <= h.size && 0 <= h.buffer < |buffers| && 0 <= h.start && h.start + h.size <= |buffers[h.buffer]|
  }

  ghost predicate StrictlyIncreasing(s: seq<int>) {
    forall i, j :: 0 <= i < j < |s| ==> Below(s, i, j)
  }

  ghost predicate Below(s: seq<int>, i: int, j: int)
    requires 0 <= i < |s| && 0 <= j < |s|
  {
    s[i] < s[j]
  }

  /** Run ends climb from at least 1 and cover the window. */
  ghost predicate RunEndsFit(runEnds: seq<int>, offset: nat, length: nat, width: Width) {
    && StrictlyIncreasing(runEnds)
    && (forall i :: 0 <= i < |runEnds| ==> 1 <= runEnds[i] <= width.Limit())
    && (length > 0 ==> runEnds != [] && offset + length <= runEnds[|runEnds| - 1])
  }

  ghost predicate NullsFit(d: Data) {
    && (d.validity.Some? ==> d.offset + d.length <= |d.validity.value|)
    && (d.nulls == UNKNOWN_NULL_COUNT || d.nulls == CountNulls(Validity(d)))
  }

  ghost predicate BinaryFits(d: Data, width: Width) {
    && d.body.BinaryBody?
    && (d.length > 0 ==>
          d.body.offsets.Some? && OffsetsFit(d.body.offsets.value, d.offset, d.length,
              Smaller(|d.body.bytes|, width.Limit())))
  }

  ghost predicate BinaryViewFits(d: Data) {
    && d.body.ViewBody? && d.offset + d.length <= |d.body.headers|
    && forall i :: 0 <= i < d.length && Validity(d)[i] ==> HeaderFits(d.body.headers[d.offset + i], d.body.buffers)
  }

  ghost predicate ListFits(d: Data, width: Width) {
    && d.body.ListBody?
    && (d.length > 0 ==>
          d.body.offsets.Some? && OffsetsFit(d.body.offsets.value, d.offset, d.length,
              Smaller(d.body.child.length, width.Limit())))
  }

  ghost predicate ListViewFits(d: Data, width: Width) {
    && d.body.ListViewBody?
    && d.offset + d.length <= |d.body.starts| && d.offset + d.length <= |d.body.sizes|
    && forall i :: 0 <= i < d.length && Validity(d)[i] ==> SlotFits(d, i, width)
  }

  /** The view of slot i has a start and a size of its type, and is empty or lies inside the child. */
  ghost predicate SlotFits(d: Data, i: int, width: Width)
    requires 0 <= i < d.length && d.body.ListViewBody?
    requires d.offset + d.length <= |d.body.starts| && d.offset + d.length <= |d.body.sizes|
  {
    var start, size := d.body.starts[d.offset + i], d.body.sizes[d.offset + i];
    0 <= size <= width.Limit() && (size > 0 ==> 0 <= start <= width.Limit() && start + size <= d.body.child.length)
  }

  ghost predicate FixedSizeListFits(d: Data, size: nat) {
    d.body.FixedSizeListBody? && d.body.size == size && (d.offset + d.length) * size <= d.body.child.length
  }

  ghost predicate StructFits(d: Data, n: nat) {
    && d.body.StructBody? && |d.body.children| == n
    && forall f :: 0 <= f < n ==> d.offset + d.length <= d.body.children[f].length
  }

  /** An index buffer covers the window; only an empty array may have none. */
  predicate IndicesCover(d: Data)
    requires d.body.DictionaryBody?
  {
    if d.body.indices.None? then d.length == 0 else d.offset + d.length <= |d.body.indices.value|
  }

  ghost predicate DictionaryFits(d: Data) {
    && d.body.DictionaryBody? && IndicesCover(d)
    && forall i :: 0 <= i < d.length && Validity(d)[i] ==> 0 <= d.body.indices.value[d.offset + i] < |d.body.dictionary|
  }

  ghost predicate RunEndFits(d: Data, width: Width) {
    && d.body.RunEndBody? && d.nulls == 0 && d.validity.None?
    && RunEndsFit(Held(d.body.runEnds), d.offset, d.length, width) && |Held(d.body.runEnds)| <= d.body.child.length
  }

  /** The data has the buffers of its type, and they cover the window. */
  ghost predicate WellFormed(t: DType, d: Data)
    decreases t
  {
    NullsFit(d) &&
    match t
    case Fixed => d.body.FixedBody? && d.offset + d.length <= |d.body.values|
    case Binary(width) => BinaryFits(d, width)
    case BinaryView => BinaryViewFits(d)
    case List(width, elem) => ListFits(d, width) && WellFormed(elem, d.body.child)
    case ListView(width, elem) => ListViewFits(d, width) && WellFormed(elem, d.body.child)
    case FixedSizeList(size, elem) => FixedSizeListFits(d, size) && WellFormed(elem, d.body.child)
    case Struct(fields) =>
      StructFits(d, |fields|) && forall f :: 0 <= f < |fields| ==> WellFormed(fields[f], d.body.children[f])
    case Dictionary(_) => DictionaryFits(d)
    case RunEndEncoded(width, elem) => RunEndFits(d, width) && WellFormed(elem, d.body.child)
  }

  ghost predicate AllWellFormed(t: DType, data: seq<Data>) {
    forall i :: 0 <= i < |data| ==> IsWellFormed(t, data, i)
  }

  ghost predicate IsWellFormed(t: DType, data: seq<Data>, i: int)
    requires 0 <= i < |data|
  {
    WellFormed(t, data[i])
  }

  // ---------------------------------------------------------------------------------------------
  // What the slots of well-formed arrays hold
  // ---------------------------------------------------------------------------------------------

  /** The slot has no cleared bit. */
  ghost predicate IsSet(d: Data, i: nat)
    requires NullsFit(d) && i < d.length
  {
    d.validity.None? || d.validity.value[d.offset + i]
  }

  /** A slot with a cleared bit is null, whatever its buffers hold. */
  lemma {:induction false} NullSlot(d: Data, i: nat)
    requires NullsFit(d) && i < d.length
    ensures Validity(d)[i] == IsSet(d, i)
    ensures Decode(d)[i] == if IsSet(d, i) then ValueAt(d.body, d.offset + i) else Null
  {
    assert Validity(d)[i] == ValidBit(d, i);
    assert Decode(d)[i] == SlotValue(d, i);
  }

  lemma {:induction false} FixedSlot(t: DType, d: Data, i: nat)
    requires WellFormed(t, d) && i < d.length && Validity(d)[i] && (t.Fixed? || t.Dictionary?)
    ensures t.Fixed? ==> Decode(d)[i] == Number(d.body.values[d.offset + i])
    ensures t.Dictionary? ==> Decode(d)[i] == d.body.dictionary[d.body.indices.value[d.offset + i]]
  {
    NullSlot(d, i);
  }

  lemma {:induction false} BinarySlot(width: Width, d: Data, i: nat)
    requires WellFormed(Binary(width), d) && i < d.length && Validity(d)[i]
    ensures var from, upto := d.body.offsets.value[d.offset + i], d.body.offsets.value[d.offset + i + 1];
            0 <= from <= upto <= |d.body.bytes| && Decode(d)[i] == Bytes(d.body.bytes[from..upto])
  {
    NullSlot(d, i);
    OffsetsFitWithin(d.body.offsets.value, d.offset, d.length, Smaller(|d.body.bytes|, width.Limit()), i, i + 1);
  }

  lemma {:induction false} ViewSlot(d: Data, i: nat)
    requires WellFormed(BinaryView, d) && i < d.length && Validity(d)[i]
    ensures HeaderFits(d.body.headers[d.offset + i], d.body.buffers)
    ensures match d.body.headers[d.offset + i]
            case Inline(bytes) => Decode(d)[i] == Bytes(bytes)
            case Ref(size, buffer, start) => Decode(d)[i] == Bytes(d.body.buffers[buffer][start..start + size])
  {
    NullSlot(d, i);
  }

  lemma {:induction false} ListSlot(width: Width, elem: DType, d: Data, i: nat)
    requires WellFormed(List(width, elem), d) && i < d.length && Validity(d)[i]
    ensures var from, upto := d.body.offsets.value[d.offset + i], d.body.offsets.value[d.offset + i + 1];
            0 <= from <= upto <= d.body.child.length && Decode(d)[i] == ListOf(Decode(d.body.child)[from..upto])
  {
    NullSlot(d, i);
    OffsetsFitWithin(d.body.offsets.value, d.offset, d.length, Smaller(d.body.child.length, width.Limit()), i, i + 1);
  }

  lemma {:induction false} ListViewSlot(width: Width, elem: DType, d: Data, i: nat)
    requires WellFormed(ListView(width, elem), d) && i < d.length && Validity(d)[i]
    ensures var start, size := d.body.starts[d.offset + i], d.body.sizes[d.offset + i];
            if size == 0 then Decode(d)[i] == ListOf([])
            else
              && 0 <= start <= start + size <= d.body.child.length
              && Decode(d)[i] == ListOf(Decode(d.body.child)[start..start + size])
  {
    NullSlot(d, i);
    assert SlotFits(d, i, width);
  }

  lemma {:induction false} FixedSizeListSlot(size: nat, elem: DType, d: Data, i: nat)
    requires WellFormed(FixedSizeList(size, elem), d) && i < d.length && Validity(d)[i]
    ensures var from := (d.offset + i) * size;
            0 <= from && from + size <= d.body.child.length
                && Decode(d)[i] == ListOf(Decode(d.body.child)[from..from + size])
  {
    NullSlot(d, i);
    assert (d.offset + i + 1) * size == (d.offset + i) * size + size;
    assert (d.offset + i + 1) * size <= (d.offset + d.length) * size;
  }

  /** A slot of a struct holds one slot of every child. */
  lemma {:induction false} StructSlot(fields: seq<DType>, d: Data, i: nat)
    requires WellFormed(Struct(fields), d) && i < d.length && Validity(d)[i]
    ensures Decode(d)[i].Record? && |Decode(d)[i].items| == |fields|
    ensures forall f :: 0 <= f < |fields| ==> Decode(d)[i].items[f] == Decode(d.body.children[f])[d.offset + i]
  {
    NullSlot(d, i);
    assert ValueAt(d.body, d.offset + i) == Record(FieldsAt(d.body.children, d.offset + i, |fields|));
    forall f | 0 <= f < |fields| ensures Decode(d)[i].items[f] == Decode(d.body.children[f])[d.offset + i] {
      FieldAt(d.body.children, d.offset + i, |fields|, f);
    }
  }

  /** A slot of a run-end encoded array holds the value of the run that covers it. */
  lemma {:induction false} RunSlot(width: Width, elem: DType, d: Data, i: nat, run: nat)
    requires WellFormed(RunEndEncoded(width, elem), d) && i < d.length && run < |Held(d.body.runEnds)|
    requires d.offset + i < Held(d.body.runEnds)[run] && (run > 0 ==> Held(d.body.runEnds)[run - 1] <= d.offset + i)
    ensures Decode(d)[i] == Decode(d.body.child)[run]
  {
    NullSlot(d, i);
    var ends, p := Held(d.body.runEnds), d.offset + i;
    RunAmongFinds(ends, p, |ends|);
    var found := PhysicalIndex(ends, p);
    forall j | 0 <= j < run - 1 ensures ends[j] <= p { assert Below(ends, j, run - 1); }
    assert ValueAt(d.body, p) == Pick(Decode(d.body.child), found, Null);
  }

  // ---------------------------------------------------------------------------------------------
  // Slices
  // ---------------------------------------------------------------------------------------------

  /** The window from i to j of a window, sharing its buffers; a zero null count stays known. */
  function Slice(d: Data, i: int, j: int): Data
    requires 0 <= i <= j <= d.length
  {
    d.(offset := d.offset + i, length := j - i, nulls := if d.nulls == 0 then 0 else UNKNOWN_NULL_COUNT)
  }

  lemma {:induction false} NullsAmongBounds(valid: seq<bool>, n: nat)
    requires n <= |valid|
    ensures NullsAmong(valid, n) <= n
    ensures NullsAmong(valid, n) == 0 <==> forall i :: 0 <= i < n ==> valid[i]
    ensures NullsAmong(valid, n) == n <==> forall i :: 0 <= i < n ==> !valid[i]
  {
    if n > 0 { NullsAmongBounds(valid, n - 1); }
  }

  lemma {:induction false} CountNullsZero(valid: seq<bool>)
    ensures CountNulls(valid) <= |valid|
    ensures CountNulls(valid) == 0 <==> forall i :: 0 <= i < |valid| ==> valid[i]
    ensures CountNulls(valid) == |valid| <==> forall i :: 0 <= i < |valid| ==> !valid[i]
  {
    NullsAmongBounds(valid, |valid|);
  }

  lemma {:induction false} NullsAmongConcat(a: seq<bool>, b: seq<bool>, n: nat)
    requires n <= |a + b|
    ensures NullsAmong(a + b, n) == if n <= |a| then NullsAmong(a, n) else CountNulls(a) + NullsAmong(b, n - |a|)
  {
    if n > 0 { NullsAmongConcat(a, b, n - 1); }
  }

  lemma {:induction false} CountNullsConcat(a: seq<bool>, b: seq<bool>)
    ensures CountNulls(a + b) == CountNulls(a) + CountNulls(b)
  {
    NullsAmongConcat(a, b, |a + b|);
  }

  lemma {:induction false} SliceValidity(d: Data, i: int, j: int)
    requires 0 <= i <= j <= d.length && NullsFit(d)
    ensures Validity(Slice(d, i, j)) == Validity(d)[i..j]
    ensures NullsFit(Slice(d, i, j)) && Slice(d, i, j).nulls == if d.nulls == 0 then 0 else -1
    ensures d.nulls == 0 ==> forall k :: 0 <= k < d.length ==> Validity(d)[k]
  {
    var s := Slice(d, i, j);
    assert forall k :: 0 <= k < j - i ==> ValidBit(s, k) == ValidBit(d, i + k);
    CountNullsZero(Validity(d));
    CountNullsZero(Validity(s));
  }

  /** Slicing an array slices its column. */
  lemma {:induction false} SliceDecodes(d: Data, i: int, j: int)
    requires 0 <= i <= j <= d.length && NullsFit(d)
    ensures Decode(Slice(d, i, j)) == Decode(d)[i..j]
  {
    var s := Slice(d, i, j);
    SliceValidity(d, i, j);
    forall k | 0 <= k < j - i ensures Decode(s)[k] == Decode(d)[i + k] {
      assert Validity(s)[k] == Validity(d)[i + k];
    }
  }

  lemma {:induction false} SliceViews(d: Data, i: int, j: int, width: Width)
    requires 0 <= i <= j <= d.length && NullsFit(d)
    ensures BinaryViewFits(d) ==> BinaryViewFits(Slice(d, i, j))
    ensures ListViewFits(d, width) ==> ListViewFits(Slice(d, i, j), width)
    ensures DictionaryFits(d) ==> DictionaryFits(Slice(d, i, j))
  {
    SliceValidity(d, i, j);
    var s := Slice(d, i, j);
    assert forall k :: 0 <= k < s.length ==> Validity(s)[k] == Validity(d)[i + k];
  }

  lemma {:induction false} SliceOffsets(d: Data, i: int, j: int, width: Width)
    requires 0 <= i <= j <= d.length
    ensures BinaryFits(d, width) ==> BinaryFits(Slice(d, i, j), width)
    ensures ListFits(d, width) ==> ListFits(Slice(d, i, j), width)
  {
    if BinaryFits(d, width) && i < j {
      OffsetsFitWithin(d.body.offsets.value, d.offset, d.length, Smaller(|d.body.bytes|, width.Limit()), i, j);
    }
    if ListFits(d, width) && i < j {
      OffsetsFitWithin(d.body.offsets.value, d.offset, d.length, Smaller(d.body.child.length, width.Limit()), i, j);
    }
  }

  /** Slices of well-formed arrays are well-formed. */
  lemma {:induction false} SliceWellFormed(t: DType, d: Data, i: int, j: int)
    requires WellFormed(t, d) && 0 <= i <= j <= d.length
    ensures WellFormed(t, Slice(d, i, j))
  {
    SliceValidity(d, i, j);
    var width := if t.Binary? || t.List? || t.ListView? then t.width else W64;
    SliceViews(d, i, j, width);
    SliceOffsets(d, i, j, width);
    if t.FixedSizeList? {
      var s := Slice(d, i, j);
      assert (s.offset + s.length) * t.size <= (d.offset + d.length) * t.size;
    }
  }

  lemma {:induction false} OffsetsFitWithin(offsets: seq<int>, offset: nat, length: nat, limit: int, i: int, j: int)
    requires OffsetsFit(offsets, offset, length, limit) && 0 <= i <= j <= length
    ensures OffsetsFit(offsets, offset + i, j - i, limit)
    ensures 0 <= offsets[offset + i] <= offsets[offset + j] <= limit
  {
    assert InOrder(offsets, offset, offset + i) && InOrder(offsets, offset + i, offset + j)
        && InOrder(offsets, offset + j, offset + length);
  }

  /** Slot i holds the same value in both arrays, if it is valid. */
  ghost predicate SameSlot(a: Data, b: Data, i: int) {
    ValueAt(a.body, a.offset + i) == ValueAt(b.body, b.offset + i)
  }

  /** Arrays that agree on validity and on every valid slot stand for the same column. */
  lemma {:induction false} SameColumn(a: Data, b: Data)
    requires a.length == b.length && Validity(a) == Validity(b)
    requires forall i :: 0 <= i < a.length && Validity(a)[i] ==> SameSlot(a, b, i)
    ensures Decode(a) == Decode(b)
  {
    forall i | 0 <= i < a.length ensures Decode(a)[i] == Decode(b)[i] {
      assert Decode(a)[i] == SlotValue(a, i) && Decode(b)[i] == SlotValue(b, i);
      assert Validity(a)[i] == Validity(b)[i];
    }
  }
}

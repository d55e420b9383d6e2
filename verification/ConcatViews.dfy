/** Concatenation of binary views: data buffers are shared, headers renumbered. */
module ConcatViews {
  import opened Sequences
  import opened Layout
  import opened Slots
  import opened ConcatKinds

  ghost predicate AllViews(data: seq<Data>) {
    forall i :: 0 <= i < |data| ==> IsViews(data, i)
  }

  ghost predicate IsViews(data: seq<Data>, i: int)
    requires 0 <= i < |data|
  {
    BinaryViewFits(data[i])
  }

  /** The data buffers of the first n inputs. */
  ghost function BuffersUpTo(data: seq<Data>, n: nat): seq<seq<Byte>>
    requires n <= |data|
  {
    if n == 0 then [] else BuffersUpTo(data, n - 1) + BuffersOf(data[n - 1])
  }

  function BuffersOf(d: Data): seq<seq<Byte>> {
    if d.body.ViewBody? then d.body.buffers else []
  }

  lemma {:induction false} BuffersStable(data: seq<Data>, m: nat, n: nat, i: nat)
    requires m <= n <= |data| && i < |BuffersUpTo(data, m)|
    ensures i < |BuffersUpTo(data, n)| && BuffersUpTo(data, n)[i] == BuffersUpTo(data, m)[i]
  {
    if m < n { BuffersStable(data, m, n - 1, i); }
  }

  lemma {:induction false} BufferAt(data: seq<Data>, m: nat, k: nat)
    requires m < |data| && k < |BuffersOf(data[m])|
    ensures |BuffersUpTo(data, m)| + k < |BuffersUpTo(data, |data|)|
    ensures BuffersUpTo(data, |data|)[|BuffersUpTo(data, m)| + k] == BuffersOf(data[m])[k]
  {
    BuffersStable(data, m + 1, |data|, |BuffersUpTo(data, m)| + k);
  }

  /** A header whose buffer moves behind `preceding` others; the index is a 32-bit number. */
  function Renumbered(h: Header, preceding: int): Header {
    match h
    case Inline(_) => h
    case Ref(size, buffer, start) => Ref(size, W32.Wrap(buffer + W32.Wrap(preceding)), start)
  }

  ghost predicate HeaderWindow(d: Data, piece: seq<Header>) {
    && d.body.ViewBody? && d.offset + d.length <= |d.body.headers|
    && piece == d.body.headers[d.offset..d.offset + d.length]
  }

  ghost predicate AllWindows(data: seq<Data>, pieces: seq<seq<Header>>) {
    |pieces| == |data| && forall k :: 0 <= k < |data| ==> IsWindow(data, pieces, k)
  }

  ghost predicate IsWindow(data: seq<Data>, pieces: seq<seq<Header>>, k: int)
    requires 0 <= k < |data| && k < |pieces|
  {
    HeaderWindow(data[k], pieces[k])
  }

  method GatherHeaders(data: seq<Data>) returns (headers: seq<Header>, ghost pieces: seq<seq<Header>>)
    requires AllViews(data)
    ensures AllWindows(data, pieces) && headers == Flat(pieces)
  {
    var windows: seq<seq<Header>> := [];
    for i := 0 to |data|
      invariant |windows| == i && forall k :: 0 <= k < i ==> IsWindow(data, windows, k)
    {
      assert IsViews(data, i);
      var d := data[i];
      ghost var before := windows;
      windows := windows + [d.body.headers[d.offset..d.offset + d.length]];
      assert forall k :: 0 <= k < i ==> IsWindow(data, before, k) && IsWindow(data, windows, k);
    }
    headers := ConcatBuffers(windows);
    pieces := windows;
  }

  lemma {:induction false} HeaderStarts(data: seq<Data>, pieces: seq<seq<Header>>, n: nat)
    requires n <= |data| && AllWindows(data, pieces)
    ensures Start(pieces, n) == SlotStart(data, n)
  {
    forall k {:trigger pieces[k]} | 0 <= k < |data|
      ensures |pieces[k]| == data[k].length
    {
      assert IsWindow(data, pieces, k);
    }
    WindowStarts(data, pieces, n);
  }

  /**
   The header of slot j of input m: the first input's stay, later ones move behind the buffers of the inputs before.
   */
  ghost function MovedHeader(data: seq<Data>, m: nat, j: nat): Header
    requires m < |data|
  {
    var h := if data[m].body.ViewBody? then Pick(data[m].body.headers, data[m].offset + j, Inline([])) else Inline([]);
    if m == 0 then h else Renumbered(h, |BuffersUpTo(data, m)|)
  }

  ghost predicate HeaderMoved(data: seq<Data>, headers: seq<Header>, m: nat, j: nat)
    requires m < |data|
  {
    SlotStart(data, m) + j < |headers| && headers[SlotStart(data, m) + j] == MovedHeader(data, m, j)
  }

  ghost predicate AllMoved(data: seq<Data>, headers: seq<Header>, n: nat)
    requires n <= |data|
  {
    forall m: nat, j: nat :: m < n && j < data[m].length ==> HeaderMoved(data, headers, m, j)
  }

  /** Renumbers the headers of one input in place. */
  method RenumberInput(s: seq<Header>, start: nat, n: nat, preceding: int) returns (out: seq<Header>)
    requires start + n <= |s|
    ensures |out| == |s|
    ensures forall i :: 0 <= i < |s| ==> out[i] == if start <= i < start + n then Renumbered(s[i], preceding) else s[i]
  {
    out := s;
    var i := start;
    while i < start + n
      invariant start <= i <= start + n && |out| == |s|
      invariant forall k :: 0 <= k < |s| ==> out[k] == if start <= k < i then Renumbered(s[k], preceding) else s[k]
    {
      if !out[i].Inline? {
        out := out[i := Ref(out[i].size, W32.Wrap(out[i].buffer + W32.Wrap(preceding)), out[i].start)];
      }
      i := i + 1;
    }
  }

  lemma {:induction false} GatheredAt(data: seq<Data>, pieces: seq<seq<Header>>, m: nat, j: nat)
    requires AllWindows(data, pieces) && m < |data| && j < data[m].length
    ensures SlotStart(data, m) + j < |Flat(pieces)| && data[m].body.ViewBody?
    ensures data[m].offset + j < |data[m].body.headers|
    ensures Flat(pieces)[SlotStart(data, m) + j] == data[m].body.headers[data[m].offset + j]
  {
    HeaderStarts(data, pieces, m);
    assert IsWindow(data, pieces, m);
    FlatAt(pieces, m, j);
  }

  /** All headers, each input's buffer indices moved behind the buffers of the inputs before it. */
  method ConcatHeaders(data: seq<Data>) returns (headers: seq<Header>, buffers: seq<seq<Byte>>)
    requires AllViews(data) && data != []
    ensures |headers| == SlotStart(data, |data|) && buffers == BuffersUpTo(data, |data|)
    ensures AllMoved(data, headers, |data|)
  {
    buffers := [];
    for i := 0 to |data|
      invariant buffers == BuffersUpTo(data, i)
    {
      buffers := buffers + BuffersOf(data[i]);
    }
    ghost var pieces;
    headers, pieces := GatherHeaders(data);
    HeaderStarts(data, pieces, |data|);
    var i, precedingBufsCount := data[0].length, 0;
    forall m: nat, j: nat | m < 1 && j < data[m].length
      ensures HeaderMoved(data, headers, m, j)
    {
      GatheredAt(data, pieces, m, j);
    }
    assert BuffersUpTo(data, 0) == [];
    for idx := 1 to |data|
      invariant i == SlotStart(data, idx) && precedingBufsCount == |BuffersUpTo(data, idx - 1)|
      invariant |headers| == SlotStart(data, |data|) && AllMoved(data, headers, idx)
      invariant forall k :: i <= k < |headers| ==> headers[k] == Flat(pieces)[k]
    {
      SlotStartMonotone(data, idx + 1, |data|);
      precedingBufsCount := precedingBufsCount + |BuffersOf(data[idx - 1])|;
      ghost var before := headers;
      headers := RenumberInput(headers, i, data[idx].length, precedingBufsCount);
      MovedFurther(data, pieces, before, headers, idx);
      i := i + data[idx].length;
    }
  }

  lemma {:induction false} MovedFurther(data: seq<Data>, pieces: seq<seq<Header>>, before: seq<Header>,
      after: seq<Header>, idx: nat)
    requires 0 < idx < |data| && AllWindows(data, pieces) && AllMoved(data, before, idx) && |before| == |after|
    requires SlotStart(data, idx) + data[idx].length <= |after|
    requires forall k :: SlotStart(data, idx) <= k < |before| && k < |Flat(pieces)| ==> before[k] == Flat(pieces)[k]
    requires forall k :: 0 <= k < |after| ==>
               after[k] == if SlotStart(data, idx) <= k < SlotStart(data, idx) + data[idx].length
                           then Renumbered(before[k], |BuffersUpTo(data, idx)|) else before[k]
    ensures AllMoved(data, after, idx + 1)
  {
    forall m: nat, j: nat | m < idx + 1 && j < data[m].length ensures HeaderMoved(data, after, m, j) {
      if m < idx {
        SlotStartMonotone(data, m + 1, idx);
        assert HeaderMoved(data, before, m, j);
      } else {
        GatheredAt(data, pieces, idx, j);
      }
    }
  }

  /** A valid view resolves to the same bytes, provided the buffers together can be counted in 32 bits. */
  lemma {:induction false} ViewSlotKept(data: seq<Data>, o: Data, m: nat, j: nat)
    requires AllViews(data) && m < |data| && j < data[m].length && Validity(data[m])[j]
    requires o.body.ViewBody? && o.body.buffers == BuffersUpTo(data, |data|) && AllMoved(data, o.body.headers, |data|)
    requires |BuffersUpTo(data, |data|)| <= W32.Limit()
    ensures Kept(data, o, m, j)
    ensures SlotStart(data, m) + j < |o.body.headers|
    ensures HeaderFits(o.body.headers[SlotStart(data, m) + j], o.body.buffers)
  {
    assert IsViews(data, m) && HeaderMoved(data, o.body.headers, m, j);
    var h, base := data[m].body.headers[data[m].offset + j], |BuffersUpTo(data, m)|;
    if h.Ref? {
      BufferAt(data, m, h.buffer);
      assert m == 0 ==> base == 0;
      MovedResolves(h, if m == 0 then h else Renumbered(h, base), data[m].body.buffers, o.body.buffers, base);
    }
  }

  /** A header resolves to the same bytes where its buffer stands `base` places further on. */
  lemma {:induction false} MovedResolves(h: Header, moved: Header, own: seq<seq<Byte>>, all: seq<seq<Byte>>, base: nat)
    requires h.Ref? && HeaderFits(h, own) && h.buffer + base < |all| <= W32.Limit()
    requires all[h.buffer + base] == own[h.buffer]
    requires moved == Renumbered(h, base) || (base == 0 && moved == h)
    ensures HeaderFits(moved, all) && Resolve(moved, all) == Resolve(h, own)
  {
    assert moved == Ref(h.size, h.buffer + base, h.start);
  }

  lemma {:induction false} ViewsKeep(data: seq<Data>, o: Data)
    requires AllViews(data) && Covers(data, o)
    requires o.body.ViewBody? && o.body.buffers == BuffersUpTo(data, |data|) && AllMoved(data, o.body.headers, |data|)
    requires |BuffersUpTo(data, |data|)| <= W32.Limit() && |o.body.headers| == o.length
    ensures Decode(o) == ColumnUpTo(data, |data|)
    ensures BinaryViewFits(o)
  {
    forall m: nat, j: nat | m < |data| && j < data[m].length && Validity(data[m])[j] ensures Kept(data, o, m, j) {
      ViewSlotKept(data, o, m, j);
    }
    KeptDecodes(data, o);
    forall i: nat | i < o.length && Validity(o)[i] ensures HeaderFits(o.body.headers[i], o.body.buffers) {
      var m, j := LocateSlot(data, |data|, i);
      ValidAt(data, m, j);
      ViewSlotKept(data, o, m, j);
    }
  }
}

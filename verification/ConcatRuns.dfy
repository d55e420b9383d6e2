/** Concatenation of run-end encoded arrays, one level deep. */
module ConcatRuns {
  import opened Basics
  import opened Layout
  import opened Slots
  import opened RunEnds
  import opened ConcatKinds

  ghost predicate AllRunEnds(data: seq<Data>, width: Width) {
    forall i :: 0 <= i < |data| ==> IsRunEnds(data, width, i)
  }

  ghost predicate IsRunEnds(data: seq<Data>, width: Width, i: int)
    requires 0 <= i < |data|
  {
    RunEndFits(data[i], width) && NullsFit(data[i].body.child)
  }

  /** Runs `first` to `last` are those that touch the window. */
  ghost predicate TouchedBy(ends: seq<int>, offset: nat, length: nat, first: int, last: int) {
    && 0 <= first <= last < |ends|
    && ends[first] > offset && (first > 0 ==> ends[first - 1] <= offset)
    && ends[last] >= offset + length && (last > 0 ==> ends[last - 1] < offset + length)
  }

  /** A window's runs reach from the run of its first slot to the run of its last. */
  lemma {:induction false} RunsFound(ends: seq<int>, offset: nat, length: nat, width: Width)
    requires RunEndsFit(ends, offset, length, width) && length > 0
    ensures offset + length <= width.Limit()
    ensures TouchedBy(ends, offset, length, PhysicalIndex(ends, offset), PhysicalIndex(ends, offset + length - 1))
  {
    RunAmongFinds(ends, offset, |ends|);
    RunAmongFinds(ends, offset + length - 1, |ends|);
  }

  lemma {:induction false} TailClimbs(ends: seq<int>, at: nat)
    requires StrictlyIncreasing(ends) && at <= |ends|
    ensures StrictlyIncreasing(ends[at..])
  {
    forall i, j | 0 <= i < j < |ends[at..]| ensures Below(ends[at..], i, j) { assert Below(ends, at + i, at + j); }
  }

  /** Searching the tail of climbing run ends counts from the tail's start. */
  lemma {:induction false} SearchTail(ends: seq<int>, x: int, at: nat)
    requires StrictlyIncreasing(ends) && at <= PhysicalIndex(ends, x) <= |ends|
    ensures PhysicalIndex(ends[at..], x) == PhysicalIndex(ends, x) - at
  {
    RunAmongFinds(ends, x, |ends|);
    TailClimbs(ends, at);
    PhysicalIndexIs(ends[at..], x, PhysicalIndex(ends, x) - at);
  }

  /** The number of runs that touch the window. */
  ghost function PhysicalLength(d: Data): int
    requires d.body.RunEndBody?
  {
    if d.length == 0 then 0
    else
      var ends := Held(d.body.runEnds);
      PhysicalIndex(ends, d.offset + d.length - 1) - PhysicalIndex(ends, d.offset) + 1
  }

  /** `off` runs are skipped to reach the window; the search cuts the offset to the run-end type. */
  ghost predicate Skips(d: Data, width: Width, off: int) {
    && d.body.RunEndBody? && 0 <= PhysicalLength(d)
    && off == PhysicalIndex(Held(d.body.runEnds), width.Wrap(d.offset))
        && off + PhysicalLength(d) <= |Held(d.body.runEnds)|
  }

  /** The runs of a window, found by two binary searches. */
  method FindRuns(d: Data, width: Width) returns (off: nat, plen: nat)
    requires RunEndFits(d, width)
    ensures plen == PhysicalLength(d) && Skips(d, width, off)
  {
    off := FindPhysicalIndex(Held(d.body.runEnds), d.offset, width);
    if d.length == 0 {
      plen := 0;
    } else {
      RunsFound(Held(d.body.runEnds), d.offset, d.length, width);
      SearchTail(Held(d.body.runEnds), d.offset + d.length - 1, off);
      TailClimbs(Held(d.body.runEnds), off);
      var k := FindPhysicalIndex(Held(d.body.runEnds)[off..], d.offset + d.length - 1, width);
      plen := k + 1;
    }
  }

  function RunsOf(d: Data, off: nat, plen: nat): Runs
    requires d.body.RunEndBody? && off + plen <= |Held(d.body.runEnds)|
  {
    Runs(d.offset, d.length, d.body.runEnds.Some?, Held(d.body.runEnds)[off..off + plen])
  }

  lemma {:induction false} WindowTouches(ends: seq<int>, offset: nat, length: nat, width: Width, first: int, last: int)
    requires RunEndsFit(ends, offset, length, width) && length > 0 && TouchedBy(ends, offset, length, first, last)
    ensures Touch(Runs(offset, length, true, ends[first..last + 1]), width)
  {
    var w := Runs(offset, length, true, ends[first..last + 1]);
    forall i, j | 0 <= i < j < |w.ends| ensures Below(w.ends, i, j) { assert Below(ends, first + i, first + j); }
    forall k | 0 <= k < |w.ends|
      ensures offset < w.ends[k] <= width.Limit() && (k < |w.ends| - 1 ==> w.ends[k] < offset + length)
    {
      assert w.ends[k] == ends[first + k];
      if k > 0 { assert Below(ends, first, first + k); }
      if first + k < last - 1 { assert Below(ends, first + k, last - 1); }
    }
  }

  /** The runs found are those that touch the window. */
  lemma {:induction false} RunsTouch(d: Data, width: Width, off: nat)
    requires RunEndFits(d, width) && Skips(d, width, off)
    ensures Touch(RunsOf(d, off, PhysicalLength(d)), width)
  {
    if d.length > 0 {
      RunsFound(Held(d.body.runEnds), d.offset, d.length, width);
      WindowTouches(Held(d.body.runEnds), d.offset, d.length, width, off,
          PhysicalIndex(Held(d.body.runEnds), d.offset + d.length - 1));
    }
  }

  /** The run of a slot, counted from the first run that touches the window. */
  lemma {:induction false} RunInWindow(d: Data, width: Width, off: nat, j: nat)
    requires RunEndFits(d, width) && Skips(d, width, off) && j < d.length
    ensures var k := PhysicalIndex(RunsOf(d, off, PhysicalLength(d)).ends, d.offset + j);
            k < PhysicalLength(d) && PhysicalIndex(Held(d.body.runEnds), d.offset + j) == off + k
  {
    RunsTouch(d, width, off);
    RunsFound(Held(d.body.runEnds), d.offset, d.length, width);
    var k := RunOf(RunsOf(d, off, PhysicalLength(d)), width, 0, j);
    RunShifted(Held(d.body.runEnds), off, PhysicalLength(d), d.offset + j, k);
  }

  lemma {:induction false} RunShifted(ends: seq<int>, off: nat, n: nat, x: int, k: nat)
    requires StrictlyIncreasing(ends) && off + n <= |ends| && k < n && k == PhysicalIndex(ends[off..off + n], x)
    requires off > 0 ==> ends[off - 1] <= x
    ensures PhysicalIndex(ends, x) == off + k
  {
    RunAmongFinds(ends[off..off + n], x, n);
    assert ends[off..off + n][k] == ends[off + k] && (k > 0 ==> ends[off..off + n][k - 1] == ends[off + k - 1]);
    PhysicalIndexIs(ends, x, off + k);
  }

  // ---------------------------------------------------------------------------------------------
  // Concatenation
  // ---------------------------------------------------------------------------------------------

  /** `ws` and `slices` are the runs of the inputs and the values of those runs. */
  ghost predicate RunSlices(data: seq<Data>, width: Width, offs: seq<nat>, ws: seq<Runs>, slices: seq<Data>) {
    |offs| == |ws| == |slices| == |data| && forall i :: 0 <= i < |data| ==> RunSlice(data, width, offs, ws, slices, i)
  }

  ghost predicate RunSlice(data: seq<Data>, width: Width, offs: seq<nat>, ws: seq<Runs>, slices: seq<Data>, i: int)
    requires 0 <= i < |data| && i < |offs| && i < |ws| && i < |slices|
  {
    && Skips(data[i], width, offs[i]) && offs[i] + PhysicalLength(data[i]) <= data[i].body.child.length
    && ws[i] == RunsOf(data[i], offs[i], PhysicalLength(data[i]))
    && slices[i] == Slice(data[i].body.child, offs[i], offs[i] + PhysicalLength(data[i]))
  }

  method GatherRuns(data: seq<Data>, width: Width) returns (ws: seq<Runs>, slices: seq<Data>, ghost offs: seq<nat>)
    requires AllRunEnds(data, width)
    ensures RunSlices(data, width, offs, ws, slices)
  {
    ws, slices, offs := [], [], [];
    for i := 0 to |data|
      invariant |offs| == |ws| == |slices| == i
      invariant forall k :: 0 <= k < i ==> RunSlice(data, width, offs, ws, slices, k)
    {
      assert IsRunEnds(data, width, i);
      var off, plen := FindRuns(data[i], width);
      ghost var offs0, ws0, slices0 := offs, ws, slices;
      ws := ws + [RunsOf(data[i], off, plen)];
      slices := slices + [Slice(data[i].body.child, off, off + plen)];
      offs := offs + [off];
      forall k | 0 <= k < i
        ensures RunSlice(data, width, offs, ws, slices, k)
      {
        assert RunSlice(data, width, offs0, ws0, slices0, k);
      }
    }
  }

  /** No input without a run-ends buffer stands before a non-empty one. */
  ghost predicate RunEndsInStep(data: seq<Data>) {
    forall i, k :: 0 <= i < k < |data| && NoRunEnds(data[i]) ==> data[k].length == 0
  }

  ghost predicate NoRunEnds(d: Data) {
    d.body.RunEndBody? && d.body.runEnds.None?
  }

  lemma {:induction false} RunsInStep(data: seq<Data>, width: Width, offs: seq<nat>, ws: seq<Runs>, slices: seq<Data>)
    requires RunSlices(data, width, offs, ws, slices)
    ensures InStep(ws) <==> RunEndsInStep(data)
  {
    forall i | 0 <= i < |data| ensures ws[i].held == !NoRunEnds(data[i]) && ws[i].length == data[i].length {
      assert RunSlice(data, width, offs, ws, slices, i);
    }
  }

  lemma {:induction false} AllRunsTouch(data: seq<Data>, width: Width, offs: seq<nat>, ws: seq<Runs>, slices: seq<Data>)
    requires AllRunEnds(data, width) && RunSlices(data, width, offs, ws, slices)
    ensures AllTouch(ws, width)
  {
    forall m | 0 <= m < |ws| ensures Touch(ws[m], width) {
      assert IsRunEnds(data, width, m) && RunSlice(data, width, offs, ws, slices, m);
      RunsTouch(data[m], width, offs[m]);
    }
  }

  lemma {:induction false} RunStarts(data: seq<Data>, width: Width, offs: seq<nat>, ws: seq<Runs>, slices: seq<Data>,
      n: nat)
    requires RunSlices(data, width, offs, ws, slices) && n <= |data|
    ensures SlotsUpTo(ws, n) == SlotStart(data, n) && |Laid(ws, n)| == SlotStart(slices, n)
  {
    if n > 0 {
      RunStarts(data, width, offs, ws, slices, n - 1);
      assert RunSlice(data, width, offs, ws, slices, n - 1);
    }
  }

  /** Slot j of input m falls into run k of the output, and into the run of its own array that was placed there. */
  lemma {:induction false} RunPlaced(data: seq<Data>, width: Width, offs: seq<nat>, ws: seq<Runs>, slices: seq<Data>,
      m: nat, j: nat) returns (k: nat)
    requires AllRunEnds(data, width) && RunSlices(data, width, offs, ws, slices) && m < |data| && j < data[m].length
    ensures RunSlice(data, width, offs, ws, slices, m) && NullsFit(data[m].body.child) && k < PhysicalLength(data[m])
    ensures PhysicalIndex(Held(data[m].body.runEnds), data[m].offset + j) == offs[m] + k
    ensures PhysicalIndex(Laid(ws, |ws|), SlotStart(data, m) + j) == SlotStart(slices, m) + k
  {
    assert IsRunEnds(data, width, m) && RunSlice(data, width, offs, ws, slices, m);
    AllRunsTouch(data, width, offs, ws, slices);
    RunStarts(data, width, offs, ws, slices, m);
    SameRun(ws, width, m, j);
    RunInWindow(data[m], width, offs[m], j);
    k := PhysicalIndex(ws[m].ends, data[m].offset + j);
  }

  lemma {:induction false} RunSlotKept(data: seq<Data>, width: Width, offs: seq<nat>, ws: seq<Runs>, slices: seq<Data>,
      o: Data, m: nat, j: nat)
    requires AllRunEnds(data, width) && RunSlices(data, width, offs, ws, slices) && m < |data| && j < data[m].length
    requires o.body.RunEndBody? && o.body.runEnds == Some(Laid(ws, |ws|))
    requires Decode(o.body.child) == ColumnUpTo(slices, |slices|)
    ensures Kept(data, o, m, j)
  {
    var k := RunPlaced(data, width, offs, ws, slices, m, j);
    var d := data[m];
    RunValueKept(d.body.child, offs[m], PhysicalLength(d), slices, m, k);
    SameRunValue(o.body, SlotStart(data, m) + j, d.body, d.offset + j);
  }

  lemma {:induction false} RunValueKept(child: Data, off: nat, n: nat, slices: seq<Data>, m: nat, k: nat)
    requires m < |slices| && k < n && off + n <= child.length && NullsFit(child)
    requires slices[m] == Slice(child, off, off + n)
    ensures SlotStart(slices, m) + k < |ColumnUpTo(slices, |slices|)|
    ensures ColumnUpTo(slices, |slices|)[SlotStart(slices, m) + k] == Decode(child)[off + k]
  {
    SlotAt(slices, m, k);
    SliceDecodes(child, off, off + n);
  }

  lemma {:induction false} SameRunValue(b: Body, p: int, c: Body, q: int)
    requires b.RunEndBody? && c.RunEndBody?
    requires PhysicalIndex(Held(b.runEnds), p) < b.child.length && PhysicalIndex(Held(c.runEnds), q) < c.child.length
    requires Decode(b.child)[PhysicalIndex(Held(b.runEnds), p)] == Decode(c.child)[PhysicalIndex(Held(c.runEnds), q)]
    ensures ValueAt(b, p) == ValueAt(c, q)
  {}

  lemma {:induction false} RunsKeep(data: seq<Data>, width: Width, offs: seq<nat>, ws: seq<Runs>, slices: seq<Data>,
      o: Data)
    requires AllRunEnds(data, width) && RunSlices(data, width, offs, ws, slices) && Covers(data, o)
    requires o.body.RunEndBody? && o.body.runEnds == Some(Laid(ws, |ws|))
    requires Decode(o.body.child) == ColumnUpTo(slices, |slices|)
    ensures Decode(o) == ColumnUpTo(data, |data|)
  {
    forall m: nat, j: nat | m < |data| && j < data[m].length && Validity(data[m])[j] ensures Kept(data, o, m, j) {
      RunSlotKept(data, width, offs, ws, slices, o, m, j);
    }
    KeptDecodes(data, o);
  }

  /** The output's run ends climb strictly and end at its length. */
  lemma {:induction false} RunOutputFits(data: seq<Data>, width: Width, offs: seq<nat>, ws: seq<Runs>,
      slices: seq<Data>, o: Data)
    requires AllRunEnds(data, width) && RunSlices(data, width, offs, ws, slices) && Covers(data, o) && o.nulls == 0
    requires o.validity.None?
    requires o.body.RunEndBody? && o.body.runEnds == Some(Laid(ws, |ws|))
    requires Decode(o.body.child) == ColumnUpTo(slices, |slices|)
    requires SlotsUpTo(ws, |ws|) <= width.Limit()
    ensures RunEndFits(o, width) && LastEnd(Held(o.body.runEnds)) == o.length
  {
    AllRunsTouch(data, width, offs, ws, slices);
    LaidClimbs(ws, width, |ws|);
    RunStarts(data, width, offs, ws, slices, |data|);
    UpToLengths(slices, |slices|);
  }
}

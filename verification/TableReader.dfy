/** Reading a table of chunked columns in batches. */
module TableReader {
  import opened Basics
  import opened Layout
  import opened Sequences
  import opened Chunks

  /** A position with rows left is strictly inside its chunk. */
  ghost predicate Inside<T>(chunks: seq<seq<T>>, slot: int, offset: int, row: int) {
    At(chunks, slot, offset, row) && slot < |chunks| && offset < |chunks[slot]|
  }

  /** Between batches a position is at the start of a chunk or strictly inside one. */
  ghost predicate Settled<T>(chunks: seq<seq<T>>, slot: int, offset: int, row: int) {
    At(chunks, slot, offset, row) && (offset > 0 ==> slot < |chunks| && offset < |chunks[slot]|)
  }

  ghost predicate AllSettled<T>(columns: seq<seq<seq<T>>>, slots: seq<nat>, offsets: seq<nat>, row: int) {
    |slots| == |offsets| == |columns| && forall i :: 0 <= i < |columns| ==>
        Settled(columns[i], slots[i], offsets[i], row)
  }

  ghost predicate Rows<T>(columns: seq<seq<seq<T>>>, rows: nat) {
    forall i :: 0 <= i < |columns| ==> rows <= |Flat(columns[i])|
  }

  /** Skips empty chunks in front of a row. */
  method SkipEmpty<T>(chunks: seq<seq<T>>, slot: nat, offset: nat, ghost row: nat) returns (j: nat)
    requires Settled(chunks, slot, offset, row) && row < |Flat(chunks)|
    ensures Inside(chunks, j, offset, row)
  {
    j := slot;
    InsideColumn(chunks, j, offset, row);
    while |chunks[j]| == 0 && j + 1 < |chunks|
      invariant j < |chunks| && Settled(chunks, j, offset, row)
    {
      InsideColumn(chunks, j, offset, row);
      j := j + 1;
    }
    InsideColumn(chunks, j, offset, row);
  }

  /** The rows of a position's chunk behind it. */
  ghost function Remaining<T>(chunks: seq<seq<T>>, slot: int, offset: int): int {
    if 0 <= slot < |chunks| then |chunks[slot]| - offset else 0
  }

  ghost predicate RowsAhead<T>(columns: seq<seq<seq<T>>>, slots: seq<nat>, offsets: seq<nat>, row: int, n: nat, i: int)
    requires 0 <= i < |columns| && i < |slots| && i < |offsets|
  {
    Inside(columns[i], slots[i], offsets[i], row) && n <= Remaining(columns[i], slots[i], offsets[i])
  }

  /** A chunk of column i ends in front of a row. */
  ghost predicate BoundaryAt<T>(columns: seq<seq<seq<T>>>, i: int, row: nat) {
    0 <= i < |columns| && exists m: nat :: m <= |columns[i]| && Start(columns[i], m) == row
  }

  ghost predicate SomeBoundaryAt<T>(columns: seq<seq<seq<T>>>, row: nat) {
    exists i :: BoundaryAt(columns, i, row)
  }

  /** Cuts n rows out of a column's chunk and moves the position behind them; whole chunks are shared. */
  method CutColumn<T>(chunks: seq<seq<T>>, slot: nat, offset: nat, n: nat, ghost row: nat)
    returns (slice: seq<T>, nextSlot: nat, nextOffset: nat)
    requires Inside(chunks, slot, offset, row) && 0 < n <= Remaining(chunks, slot, offset)
    ensures row + n <= |Flat(chunks)| && slice == Flat(chunks)[row..row + n]
    ensures Settled(chunks, nextSlot, nextOffset, row + n)
  {
    var chunk := chunks[slot];
    RowsInChunk(chunks, slot, offset, row, n);
    slice := chunk[offset..offset + n];
    if |chunk| - offset == n {
      nextSlot, nextOffset := slot + 1, 0;
      if offset == 0 {
        slice := chunk;
      }
    } else {
      nextSlot, nextOffset := slot, offset + n;
    }
  }

  /** The rows of one batch, column by column. */
  ghost predicate BatchIs<T>(columns: seq<seq<seq<T>>>, batch: seq<seq<T>>, a: nat, b: nat) {
    |batch| == |columns| && forall i :: 0 <= i < |columns| ==> ColumnIs(columns, batch, i, a, b)
  }

  ghost predicate ColumnIs<T>(columns: seq<seq<seq<T>>>, batch: seq<seq<T>>, i: int, a: nat, b: nat)
    requires 0 <= i < |columns| && i < |batch|
  {
    a <= b <= |Flat(columns[i])| && batch[i] == Flat(columns[i])[a..b]
  }

  /** Column i of the first n batches end to end. */
  ghost function Delivered<T>(batches: seq<seq<seq<T>>>, i: nat, n: nat): seq<T>
    requires n <= |batches| && forall k :: 0 <= k < |batches| ==> i < |batches[k]|
  {
    if n == 0 then [] else Delivered(batches, i, n - 1) + batches[n - 1][i]
  }

  lemma {:induction false} DeliveredPrefix<T>(a: seq<seq<seq<T>>>, b: seq<seq<seq<T>>>, i: nat, n: nat)
    requires n <= |a| && n <= |b| && forall k :: 0 <= k < n ==> a[k] == b[k]
    requires (forall k :: 0 <= k < |a| ==> i < |a[k]|) && (forall k :: 0 <= k < |b| ==> i < |b[k]|)
    ensures Delivered(a, i, n) == Delivered(b, i, n)
  {
    if n > 0 { DeliveredPrefix(a, b, i, n - 1); }
  }

  /** The batches delivered so far hold the first `row` rows of every column, in order. */
  ghost predicate DeliveredRows<T>(columns: seq<seq<seq<T>>>, batches: seq<seq<seq<T>>>, row: nat) {
    && (forall k :: 0 <= k < |batches| ==> |batches[k]| == |columns|)
    && forall i :: 0 <= i < |columns| ==>
        row <= |Flat(columns[i])| && Delivered(batches, i, |batches|) == Flat(columns[i])[..row]
  }

  lemma {:induction false} DeliverOne<T>(columns: seq<seq<seq<T>>>, batches: seq<seq<seq<T>>>, row: nat,
      batch: seq<seq<T>>, next: nat)
    requires DeliveredRows(columns, batches, row) && BatchIs(columns, batch, row, next) && row <= next
    ensures DeliveredRows(columns, batches + [batch], next)
  {
    forall i | 0 <= i < |columns|
      ensures next <= |Flat(columns[i])| && Delivered(batches + [batch], i, |batches| + 1) == Flat(columns[i])[..next]
    {
      assert ColumnIs(columns, batch, i, row, next);
      DeliveredPrefix(batches, batches + [batch], i, |batches|);
      Adjacent(Flat(columns[i]), 0, row, next);
    }
  }

  class TableReader<T> {
    const chunks: seq<seq<seq<T>>>
    const max: nat
    const chksz: nat
    var cur: nat
    var slots: seq<nat>
    var offsets: seq<nat>
    var rec: seq<seq<T>>
    ghost var batches: seq<seq<seq<T>>>

    /** Positions are at the current row, and the batches so far are the rows before it. */
    ghost predicate Valid()
      reads this
    {
      && Rows(chunks, max) && chksz > 0 && cur <= max
      && AllSettled(chunks, slots, offsets, cur)
      && DeliveredRows(chunks, batches, cur)
    }

    constructor (columns: seq<seq<seq<T>>>, rows: nat, chunkSize: int)
      requires Rows(columns, rows)
      ensures Valid() && chunks == columns && max == rows && cur == 0 && batches == []
      ensures chksz == if chunkSize <= 0 then W64.Limit() else chunkSize
    {
      chunks, max, cur := columns, rows, 0;
      chksz := if chunkSize <= 0 then W64.Limit() else chunkSize;
      slots, offsets := seq(|columns|, i => 0), seq(|columns|, i => 0);
      rec, batches := [], [];
    }

    /** The longest run of rows that no chunk boundary of any column cuts. */
    method Contiguous() returns (chunksz: nat)
      requires Valid() && cur < max
      modifies `slots
      ensures 0 < chunksz <= chksz && cur + chunksz <= max
      ensures |slots| == |chunks| && forall i :: 0 <= i < |chunks| ==>
                RowsAhead(chunks, slots, offsets, cur, chunksz, i)
      ensures chunksz == chksz || cur + chunksz == max || SomeBoundaryAt(chunks, cur + chunksz)
    {
      chunksz := Smaller(max - cur, chksz);
      for i := 0 to |chunks|
        invariant AllSettled(chunks, slots, offsets, cur)
        invariant 0 < chunksz <= chksz && cur + chunksz <= max
        invariant forall k :: 0 <= k < i ==> RowsAhead(chunks, slots, offsets, cur, chunksz, k)
        invariant chunksz == chksz || cur + chunksz == max || SomeBoundaryAt(chunks, cur + chunksz)
      {
        var j := SkipEmpty(chunks[i], slots[i], offsets[i], cur);
        ghost var before, wider := slots, chunksz;
        slots := slots[i := j];
        var remain := |chunks[i][j]| - offsets[i];
        if remain < chunksz {
          chunksz := remain;
          assert Start(chunks[i], j + 1) == cur + chunksz;
          assert BoundaryAt(chunks, i, cur + chunksz);
        }
        forall k | 0 <= k < i ensures RowsAhead(chunks, slots, offsets, cur, chunksz, k) {
          assert RowsAhead(chunks, before, offsets, cur, wider, k);
        }
      }
    }

    /** Cuts the batch out of every column and moves the positions behind it. */
    method Cut(chunksz: nat)
      requires |slots| == |offsets| == |chunks| && 0 < chunksz
      requires forall i :: 0 <= i < |chunks| ==> RowsAhead(chunks, slots, offsets, cur, chunksz, i)
      modifies `slots, `offsets, `rec
      ensures AllSettled(chunks, slots, offsets, cur + chunksz)
      ensures BatchIs(chunks, rec, cur, cur + chunksz)
    {
      rec := [];
      ghost var next := cur + chunksz;
      for i := 0 to |chunks|
        invariant |slots| == |offsets| == |chunks| && |rec| == i
        invariant forall k :: i <= k < |chunks| ==> slots[k] == old(slots)[k] && offsets[k] == old(offsets)[k]
        invariant forall k :: 0 <= k < i ==> Settled(chunks[k], slots[k], offsets[k], next)
        invariant forall k :: 0 <= k < i ==> ColumnIs(chunks, rec, k, cur, next)
      {
        assert RowsAhead(chunks, old(slots), old(offsets), cur, chunksz, i);
        var slice, slot, offset := CutColumn(chunks[i], slots[i], offsets[i], chunksz, cur);
        slots, offsets := slots[i := slot], offsets[i := offset];
        ghost var before := rec;
        rec := rec + [slice];
        forall k | 0 <= k < i
          ensures ColumnIs(chunks, rec, k, cur, next)
        {
          assert ColumnIs(chunks, before, k, cur, next);
        }
      }
    }

    /** The next batch of every column, and whether there is one. */
    method Next() returns (more: bool)
      requires Valid()
      modifies this
      ensures Valid()
      ensures more <==> old(cur) < max
      ensures more ==> old(cur) < cur <= old(cur) + chksz && BatchIs(chunks, rec, old(cur), cur)
      ensures more ==> batches == old(batches) + [rec]
      ensures more ==> cur == old(cur) + chksz || cur == max || SomeBoundaryAt(chunks, cur)
      ensures !more ==> cur == max && batches == old(batches) && rec == old(rec)
    {
      if cur >= max {
        return false;
      }
      var chunksz := Contiguous();
      Cut(chunksz);
      DeliverOne(chunks, batches, cur, rec, cur + chunksz);
      batches := batches + [rec];
      cur := cur + chunksz;
      return true;
    }
  }
}

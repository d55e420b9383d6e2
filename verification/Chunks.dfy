/** Chunked columns: slicing them, walking two of them in step, and comparing them. */
module Chunks {
  import opened Basics
  import opened Layout
  import opened Sequences

  // ---------------------------------------------------------------------------------------------
  // Positions in a chunked column
  // ---------------------------------------------------------------------------------------------

  /**
   Row `row` of a chunked column is `offset` into chunk `slot`; the end of a chunk may stand for the start of the next.
   */
  ghost predicate At<T>(chunks: seq<seq<T>>, slot: int, offset: int, row: int) {
    && 0 <= slot <= |chunks| && 0 <= offset
    && Start(chunks, slot) + offset == row
    && (if slot < |chunks| then offset <= |chunks[slot]| else offset == 0)
  }

  /** A position with rows behind it is inside a chunk of the column. */
  lemma {:induction false} InsideColumn<T>(chunks: seq<seq<T>>, slot: int, offset: int, row: int)
    requires At(chunks, slot, offset, row) && row < |Flat(chunks)|
    ensures slot < |chunks|
    ensures offset == |chunks[slot]| ==> At(chunks, slot + 1, 0, row) && slot + 1 < |chunks|
    ensures offset < |chunks[slot]| ==> row - offset + |chunks[slot]| <= |Flat(chunks)|
  {
    StartMonotone(chunks, slot + 1, |chunks|);
  }

  /** Rows that lie in one chunk are a part of it. */
  lemma {:induction false} RowsInChunk<T>(chunks: seq<seq<T>>, slot: int, offset: int, row: int, n: nat)
    requires At(chunks, slot, offset, row) && slot < |chunks| && offset + n <= |chunks[slot]|
    ensures row + n <= |Flat(chunks)| && Flat(chunks)[row..row + n] == chunks[slot][offset..offset + n]
    ensures At(chunks, slot, offset + n, row + n)
  {
    FlatPart(chunks, slot, offset, offset + n);
  }

  lemma {:induction false} Adjacent<T>(s: seq<T>, a: nat, b: nat, c: nat)
    requires a <= b <= c <= |s|
    ensures s[a..b] + s[b..c] == s[a..c]
  {}

  // ---------------------------------------------------------------------------------------------
  // Slices of chunked columns
  // ---------------------------------------------------------------------------------------------

  lemma {:induction false} FlatSnoc<T>(pieces: seq<seq<T>>, piece: seq<T>)
    ensures Flat(pieces + [piece]) == Flat(pieces) + piece
  {
    FlatPrefix(pieces, pieces + [piece], |pieces|);
  }

  lemma {:induction false} FlatPrefix<T>(a: seq<seq<T>>, b: seq<seq<T>>, n: nat)
    requires n <= |a| && n <= |b| && forall i :: 0 <= i < n ==> a[i] == b[i]
    ensures FlatUpTo(a, n) == FlatUpTo(b, n)
  {
    if n > 0 { FlatPrefix(a, b, n - 1); }
  }

  /** Rows i to j of a chunked column, as chunks; whole chunks are shared. It refuses ranges outside the column. */
  method NewChunkedSlice<T>(chunks: seq<seq<T>>, i: int, j: int) returns (r: Option<seq<seq<T>>>)
    ensures r.Some? <==> 0 <= i <= j <= |Flat(chunks)|
    ensures r.Some? ==> Flat(r.value) == Flat(chunks)[i..j]
  {
    if i < 0 || j < 0 || j > Length(chunks) || i > j || i > Length(chunks) {
      return None;
    }
    var cur, beg, sz := 0, i, j - i;
    while cur < |chunks| && beg >= |chunks[cur]|
      invariant 0 <= cur <= |chunks| && 0 <= beg && Start(chunks, cur) + beg == i
    {
      beg := beg - |chunks[cur]|;
      cur := cur + 1;
    }
    var out := CollectChunks(chunks, cur, beg, sz, i);
    return Some(out);
  }

  /** From offset `beg` of chunk `cur` on, takes sz rows chunk by chunk. */
  method CollectChunks<T>(chunks: seq<seq<T>>, start: nat, first: nat, size: nat, ghost i: nat)
    returns (out: seq<seq<T>>)
    requires start <= |chunks| && Start(chunks, start) + first == i && i + size <= |Flat(chunks)|
    requires start < |chunks| ==> first < |chunks[start]|
    ensures Flat(out) == Flat(chunks)[i..i + size]
  {
    var cur, beg, sz := start, first, size as int;
    out := [];
    ghost var row := i;
    while cur < |chunks| && sz > 0
      invariant start <= cur <= |chunks| && 0 <= beg
      invariant sz > 0 ==> row + sz == i + size && Start(chunks, cur) + beg == row
      invariant sz > 0 && cur < |chunks| ==> beg <= |chunks[cur]|
      invariant sz <= 0 ==> row == i + size
      invariant i <= row <= |Flat(chunks)| && Flat(out) == Flat(chunks)[i..row]
    {
      var arr := chunks[cur];
      var end := beg + sz;
      if end > |arr| { end := |arr|; }
      RowsInChunk(chunks, cur, beg, row, end - beg);
      Adjacent(Flat(chunks), i, row, row + (end - beg));
      var piece := if beg == 0 && end == |arr| then arr else arr[beg..end];
      FlatSnoc(out, piece);
      out := out + [piece];
      row := row + (end - beg);
      sz := sz - (|arr| - beg);
      beg := 0;
      cur := cur + 1;
    }
  }

  /** The rows of a chunked column. */
  function Length<T>(chunks: seq<seq<T>>): (n: nat)
    ensures n == |Flat(chunks)|
  {
    LengthUpTo(chunks, |chunks|)
  }

  function LengthUpTo<T>(chunks: seq<seq<T>>, k: nat): (n: nat)
    requires k <= |chunks|
    ensures n == Start(chunks, k)
  {
    if k == 0 then 0 else LengthUpTo(chunks, k - 1) + |chunks[k - 1]|
  }

  // ---------------------------------------------------------------------------------------------
  // Two chunked columns in step
  // ---------------------------------------------------------------------------------------------

  /** Piece k of both columns covers the rows from cuts[k] to cuts[k + 1]. */
  ghost predicate InStep<T>(left: seq<seq<T>>, right: seq<seq<T>>, cuts: seq<nat>, pieces: seq<(seq<T>, seq<T>)>,
      k: int)
    requires 0 <= k < |pieces| && |cuts| == |pieces| + 1
  {
    && cuts[k] < cuts[k + 1] <= |Flat(left)| && cuts[k + 1] <= |Flat(right)|
    && pieces[k].0 == Flat(left)[cuts[k]..cuts[k + 1]]
    && pieces[k].1 == Flat(right)[cuts[k]..cuts[k + 1]]
  }

  ghost predicate AllInStep<T>(left: seq<seq<T>>, right: seq<seq<T>>, cuts: seq<nat>, pieces: seq<(seq<T>, seq<T>)>) {
    |cuts| == |pieces| + 1 && cuts[0] == 0 && forall k :: 0 <= k < |pieces| ==> InStep(left, right, cuts, pieces, k)
  }

  /** Steps over chunk ends until both positions are inside a chunk. */
  method Align<T>(left: seq<seq<T>>, right: seq<seq<T>>, li: nat, lp: nat, ri: nat, rp: nat, ghost pos: nat)
    returns (leftIdx: nat, leftPos: nat, rightIdx: nat, rightPos: nat)
    requires At(left, li, lp, pos) && At(right, ri, rp, pos) && pos < |Flat(left)| == |Flat(right)|
    ensures At(left, leftIdx, leftPos, pos) && leftIdx < |left| && leftPos < |left[leftIdx]|
    ensures At(right, rightIdx, rightPos, pos) && rightIdx < |right| && rightPos < |right[rightIdx]|
  {
    leftIdx, leftPos, rightIdx, rightPos := li, lp, ri, rp;
    while true
      invariant At(left, leftIdx, leftPos, pos) && At(right, rightIdx, rightPos, pos)
      decreases |left| - leftIdx, |right| - rightIdx
    {
      InsideColumn(left, leftIdx, leftPos, pos);
      InsideColumn(right, rightIdx, rightPos, pos);
      if leftPos == |left[leftIdx]| {
        leftPos, leftIdx := 0, leftIdx + 1;
        continue;
      }
      if rightPos == |right[rightIdx]| {
        rightPos, rightIdx := 0, rightIdx + 1;
        continue;
      }
      break;
    }
  }

  /**
   Applies fn to corresponding slices of two columns of equal length until it fails. The slices are aligned, not empty
   and follow each other from row 0; unless fn fails on the last one they cover every row.
   */
  method ChunkedBinaryApply<T>(left: seq<seq<T>>, right: seq<seq<T>>, fn: (seq<T>, seq<T>) -> bool)
    returns (stopped: bool, cuts: seq<nat>, pieces: seq<(seq<T>, seq<T>)>)
    requires |Flat(left)| == |Flat(right)|
    ensures AllInStep(left, right, cuts, pieces)
    ensures stopped ==> |pieces| > 0 && !fn(pieces[|pieces| - 1].0, pieces[|pieces| - 1].1)
    ensures forall k :: 0 <= k < (if stopped then |pieces| - 1 else |pieces|) ==> fn(pieces[k].0, pieces[k].1)
    ensures !stopped ==> cuts[|pieces|] == |Flat(left)|
  {
    var pos, length := 0, Length(left);
    var leftIdx, rightIdx, leftPos, rightPos := 0, 0, 0, 0;
    cuts, pieces := [0], [];
    while pos < length
      invariant At(left, leftIdx, leftPos, pos) && At(right, rightIdx, rightPos, pos) && pos <= length
      invariant AllInStep(left, right, cuts, pieces) && cuts[|pieces|] == pos
      invariant forall k :: 0 <= k < |pieces| ==> fn(pieces[k].0, pieces[k].1)
    {
      leftIdx, leftPos, rightIdx, rightPos := Align(left, right, leftIdx, leftPos, rightIdx, rightPos, pos);
      var sz := Smaller(|left[leftIdx]| - leftPos, |right[rightIdx]| - rightPos);
      RowsInChunk(left, leftIdx, leftPos, pos, sz);
      RowsInChunk(right, rightIdx, rightPos, pos, sz);
      var l, r := left[leftIdx][leftPos..leftPos + sz], right[rightIdx][rightPos..rightPos + sz];
      StepOn(left, right, cuts, pieces, pos + sz, l, r);
      pos, cuts, pieces := pos + sz, cuts + [pos + sz], pieces + [(l, r)];
      if !fn(l, r) {
        return true, cuts, pieces;
      }
      leftPos, rightPos := leftPos + sz, rightPos + sz;
    }
    return false, cuts, pieces;
  }

  lemma {:induction false} StepOn<T>(left: seq<seq<T>>, right: seq<seq<T>>, cuts: seq<nat>,
      pieces: seq<(seq<T>, seq<T>)>, next: nat, l: seq<T>, r: seq<T>)
    requires AllInStep(left, right, cuts, pieces) && cuts[|pieces|] < next <= |Flat(left)| && next <= |Flat(right)|
    requires l == Flat(left)[cuts[|pieces|]..next] && r == Flat(right)[cuts[|pieces|]..next]
    ensures AllInStep(left, right, cuts + [next], pieces + [(l, r)])
  {
    forall k | 0 <= k < |pieces| + 1 ensures InStep(left, right, cuts + [next], pieces + [(l, r)], k) {
      if k < |pieces| { assert InStep(left, right, cuts, pieces, k); }
    }
  }

  /** Equal pieces in step make equal columns up to the last cut. */
  lemma {:induction false} PiecesAgree<T>(left: seq<seq<T>>, right: seq<seq<T>>, cuts: seq<nat>,
      pieces: seq<(seq<T>, seq<T>)>, n: nat)
    requires AllInStep(left, right, cuts, pieces) && n <= |pieces|
    requires forall k :: 0 <= k < n ==> pieces[k].0 == pieces[k].1
    ensures cuts[n] <= |Flat(left)| && cuts[n] <= |Flat(right)| && Flat(left)[..cuts[n]] == Flat(right)[..cuts[n]]
  {
    if n > 0 {
      PiecesAgree(left, right, cuts, pieces, n - 1);
      assert InStep(left, right, cuts, pieces, n - 1) && pieces[n - 1].0 == pieces[n - 1].1;
      Adjacent(Flat(left), 0, cuts[n - 1], cuts[n]);
      Adjacent(Flat(right), 0, cuts[n - 1], cuts[n]);
    }
  }

  /**
   Chunked columns are equal exactly when their rows are, whatever their chunks and however a type counts its nulls.
   */
  method ChunkedEqual(left: seq<seq<Value>>, right: seq<seq<Value>>, leftNulls: nat, rightNulls: nat)
    returns (isEqual: bool)
    requires Flat(left) == Flat(right) ==> leftNulls == rightNulls
    ensures isEqual <==> Flat(left) == Flat(right)
  {
    if left == right {
      return true;
    }
    if Length(left) != Length(right) {
      return false;
    }
    if leftNulls != rightNulls {
      return false;
    }
    var stopped, cuts, pieces := ChunkedBinaryApply(left, right, (l: seq<Value>, r: seq<Value>) => l == r);
    if stopped {
      assert InStep(left, right, cuts, pieces, |pieces| - 1);
    } else {
      PiecesAgree(left, right, cuts, pieces, |pieces|);
    }
    return !stopped;
  }
}

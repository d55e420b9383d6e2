/** Concatenation of offsets buffers: shifted to follow one another, and refused when they outgrow their width. */
module Offsets {
  import opened Basics
  import opened Layout

  /** The reasons to refuse an input; reading a missing buffer or behind a map is a panic in the source. */
  datatype Error =
    | MissingOffsets
    | OffsetOverflow
    | RunEndOverflow
    | DictionaryTooLarge
    | MissingIndices
    | MissingBitmap
    | IndexOutOfRange
    | SliceOutOfRange

  datatype Result<+T> = Ok(value: T) | Err(error: Error)

  datatype Range = Range(offset: int, length: int)

  /** What concatenation reads of one input: the window and the offsets buffer, if there is one. */
  datatype Window = Window(offset: nat, length: nat, offsets: Option<seq<int>>)

  /** A non-empty window has offsets that climb from slot to slot inside [0, limit]. */
  ghost predicate Climbs(w: Window, limit: int) {
    w.length > 0 ==> w.offsets.Some? && OffsetsFit(w.offsets.value, w.offset, w.length, limit)
  }

  /** An offsets buffer, where there is one, covers the window and one entry more. */
  predicate Covered(w: Window) {
    w.length > 0 && w.offsets.Some? ==> w.offset + w.length < |w.offsets.value|
  }

  /** The child values a window refers to: from its first to its last offset. */
  function UsedRange(w: Window): Range {
    if w.length == 0 || w.offsets.None? || !Covered(w) then Range(0, 0)
    else Range(w.offsets.value[w.offset], w.offsets.value[w.offset + w.length] - w.offsets.value[w.offset])
  }

  ghost function SlotsBefore(ws: seq<Window>, i: int): nat
    requires 0 <= i <= |ws|
  {
    if i == 0 then 0 else SlotsBefore(ws, i - 1) + ws[i - 1].length
  }

  /** The number of child values the windows before i refer to. */
  ghost function UsedBefore(ws: seq<Window>, i: int): int
    requires 0 <= i <= |ws|
  {
    if i == 0 then 0 else UsedBefore(ws, i - 1) + UsedRange(ws[i - 1]).length
  }

  /** Window i cannot be appended to the windows before it. */
  ghost predicate Refused(ws: seq<Window>, width: Width, i: int)
    requires 0 <= i < |ws|
  {
    ws[i].length > 0 &&
    (|| ws[i].offsets.None?
     || UsedRange(ws[i]).length < 0
     || UsedBefore(ws, i) + UsedRange(ws[i]).length > width.Limit())
  }

  /** The offset of slot j of window m, moved to follow the values used by the windows before. */
  ghost function RebasedOffset(ws: seq<Window>, m: nat, j: nat): int
    requires m < |ws|
  {
    if ws[m].offsets.Some? && ws[m].offset + j < |ws[m].offsets.value|
    then UsedBefore(ws, m) + ws[m].offsets.value[ws[m].offset + j] - UsedRange(ws[m]).offset
    else 0
  }

  /** The first n offsets of window m, moved. */
  ghost function Rebased(ws: seq<Window>, m: nat, n: nat): (offsets: seq<int>)
    requires m < |ws|
    ensures |offsets| == n
  {
    if n == 0 then [] else Rebased(ws, m, n - 1) + [RebasedOffset(ws, m, n - 1)]
  }

  /** The moved offsets of the first n windows. */
  ghost function RebasedUpTo(ws: seq<Window>, n: nat): (offsets: seq<int>)
    requires n <= |ws|
    ensures |offsets| == SlotsBefore(ws, n)
  {
    if n == 0 then [] else RebasedUpTo(ws, n - 1) + Rebased(ws, n - 1, ws[n - 1].length)
  }

  /** Moving one offset in the wrapping arithmetic of its width is exact. */
  lemma {:induction false} ShiftInRange(width: Width, used: int, start: int, x: int)
    requires 0 <= used && 0 <= start <= x <= width.Limit() && used + x - start <= width.Limit()
    ensures width.Wrap(width.Wrap(used - start) + x) == used + x - start
  {}

  lemma {:induction false} ClimbsBounds(w: Window, limit: int, j: nat)
    requires Climbs(w, limit) && j <= w.length && w.length > 0
    ensures w.offsets.Some? && w.offset + w.length < |w.offsets.value|
    ensures UsedRange(w) == Range(w.offsets.value[w.offset],
              w.offsets.value[w.offset + w.length] - w.offsets.value[w.offset])
    ensures 0 <= w.offsets.value[w.offset] <= w.offsets.value[w.offset + j] <= w.offsets.value[w.offset
              + w.length] <= limit
  {
    assert InOrder(w.offsets.value, w.offset, w.offset + j)
        && InOrder(w.offsets.value, w.offset + j, w.offset + w.length);
  }

  /** Writes the offsets of one window, shifted. */
  method RebaseOffsets(ws: seq<Window>, m: nat, adj: int, width: Width) returns (out: seq<int>)
    requires m < |ws| && ws[m].offsets.Some? && ws[m].offset + ws[m].length < |ws[m].offsets.value| && ws[m].length > 0
    requires 0 <= UsedBefore(ws, m) && UsedBefore(ws, m) + UsedRange(ws[m]).length <= width.Limit()
    requires adj == width.Wrap(UsedBefore(ws, m) - UsedRange(ws[m]).offset)
    ensures Climbs(ws[m], width.Limit()) ==> out == Rebased(ws, m, ws[m].length)
  {
    out := [];
    var src, begin := ws[m].offsets.value, ws[m].offset;
    for j := 0 to ws[m].length
      invariant Climbs(ws[m], width.Limit()) ==> out == Rebased(ws, m, j)
    {
      if Climbs(ws[m], width.Limit()) {
        ClimbsBounds(ws[m], width.Limit(), j);
        ShiftInRange(width, UsedBefore(ws, m), src[begin], src[begin + j]);
      }
      out := out + [width.Wrap(adj + src[begin + j])];
    }
  }

  /** The moved offsets of window i and the range it uses, or why it cannot follow the windows before it. */
  method AppendWindow(ws: seq<Window>, width: Width, i: nat, nextOffset: int) returns (r: Result<(seq<int>, Range)>)
    requires i < |ws| && Covered(ws[i]) && 0 <= nextOffset == UsedBefore(ws, i)
    ensures r.Err? <==> Refused(ws, width, i)
    ensures r.Ok? ==> r.value.1 == UsedRange(ws[i]) && 0 <= r.value.1.length
    ensures r.Ok? && Climbs(ws[i], width.Limit()) ==> r.value.0 == Rebased(ws, i, ws[i].length)
  {
    var w := ws[i];
    if w.length == 0 {
      return Ok(([], Range(0, 0)));
    }
    if w.offsets.None? {
      return Err(MissingOffsets);
    }
    var src := w.offsets.value;
    var begin := w.offset;
    var end := begin + w.length;
    var startOffset, endOffset := src[begin], src[end];
    var valueLength := endOffset - startOffset;
    if valueLength < 0 || nextOffset + valueLength > width.Limit() {
      return Err(OffsetOverflow);
    }
    var adj := width.Wrap(nextOffset - startOffset);
    var shifted := RebaseOffsets(ws, i, adj, width);
    return Ok((shifted, Range(startOffset, valueLength)));
  }

  ghost predicate AllClimb(ws: seq<Window>, width: Width) {
    forall m :: 0 <= m < |ws| ==> Climbs(ws[m], width.Limit())
  }

  /**
   One offsets buffer for all inputs, each input's offsets moved to follow the last.
   It fails exactly when some non-empty input has no offsets, runs backwards or outgrows the width.
   */
  method ConcatOffsets(ws: seq<Window>, width: Width) returns (r: Result<(seq<int>, seq<Range>)>)
    requires forall i :: 0 <= i < |ws| ==> Covered(ws[i])
    ensures r.Err? <==> exists i :: 0 <= i < |ws| && Refused(ws, width, i)
    ensures r.Ok? && AllClimb(ws, width) ==> r.value.0 == RebasedUpTo(ws, |ws|) + [UsedBefore(ws, |ws|)]
    ensures r.Ok? ==> |r.value.1| == |ws| && forall i :: 0 <= i < |ws| ==> r.value.1[i] == UsedRange(ws[i])
  {
    var dst, ranges := [], [];
    var nextOffset := 0;
    for i := 0 to |ws|
      invariant 0 <= nextOffset == UsedBefore(ws, i)
      invariant |ranges| == i && forall m :: 0 <= m < i ==> ranges[m] == UsedRange(ws[m])
      invariant forall m :: 0 <= m < i ==> !Refused(ws, width, m)
      invariant AllClimb(ws, width) ==> dst == RebasedUpTo(ws, i)
    {
      var appended := AppendWindow(ws, width, i, nextOffset);
      if appended.Err? {
        return Err(appended.error);
      }
      dst := dst + appended.value.0;
      ranges := ranges + [appended.value.1];
      nextOffset := nextOffset + appended.value.1.length;
    }
    return Ok((dst + [nextOffset], ranges));
  }

  lemma {:induction false} UsedRangeClimbs(w: Window, limit: int)
    requires Climbs(w, limit)
    ensures 0 <= UsedRange(w).offset && 0 <= UsedRange(w).length
    ensures w.length > 0 ==> UsedRange(w).offset + UsedRange(w).length <= limit
  {
    if w.length > 0 { ClimbsBounds(w, limit, 0); }
  }

  /** Climbing windows are refused exactly when they refer to more values than the width can count. */
  lemma {:induction false} RefusedIffTooLong(ws: seq<Window>, width: Width)
    requires AllClimb(ws, width)
    ensures (exists i :: 0 <= i < |ws| && Refused(ws, width, i)) <==> UsedBefore(ws, |ws|) > width.Limit()
  {
    var n := 0;
    while n < |ws| && !Refused(ws, width, n)
      invariant 0 <= n <= |ws| && 0 <= UsedBefore(ws, n) <= width.Limit()
      invariant forall i :: 0 <= i < n ==> !Refused(ws, width, i)
    {
      UsedRangeClimbs(ws[n], width.Limit());
      n := n + 1;
    }
    if n < |ws| {
      UsedRangeClimbs(ws[n], width.Limit());
      UsedGrows(ws, width, n + 1, |ws|);
    }
  }

  lemma {:induction false} UsedGrows(ws: seq<Window>, width: Width, i: nat, j: nat)
    requires i <= j <= |ws| && AllClimb(ws, width)
    ensures UsedBefore(ws, i) <= UsedBefore(ws, j)
  {
    if i < j {
      UsedGrows(ws, width, i, j - 1);
      UsedRangeClimbs(ws[j - 1], width.Limit());
    }
  }

  // ---------------------------------------------------------------------------------------------
  // Reading the output
  // ---------------------------------------------------------------------------------------------

  lemma {:induction false} RebasedAt(ws: seq<Window>, m: nat, n: nat, j: nat)
    requires m < |ws| && j < n
    ensures Rebased(ws, m, n)[j] == RebasedOffset(ws, m, j)
  {
    if j < n - 1 { RebasedAt(ws, m, n - 1, j); }
  }

  /** The offsets of the first m windows stand in front. */
  lemma {:induction false} RebasedStable(ws: seq<Window>, m: nat, n: nat, i: nat)
    requires m <= n <= |ws| && i < SlotsBefore(ws, m)
    ensures i < SlotsBefore(ws, n) && RebasedUpTo(ws, n)[i] == RebasedUpTo(ws, m)[i]
  {
    if m < n { RebasedStable(ws, m, n - 1, i); }
  }

  lemma {:induction false} OutputSlot(ws: seq<Window>, m: nat, j: nat)
    requires m < |ws| && j < ws[m].length
    ensures SlotsBefore(ws, m) + j < SlotsBefore(ws, |ws|)
    ensures RebasedUpTo(ws, |ws|)[SlotsBefore(ws, m) + j] == RebasedOffset(ws, m, j)
  {
    RebasedStable(ws, m + 1, |ws|, SlotsBefore(ws, m) + j);
    RebasedAt(ws, m, ws[m].length, j);
  }

  /** In the output, window m begins where the values used by the windows before it end. */
  lemma {:induction false} OutputBegins(ws: seq<Window>, width: Width, m: nat)
    requires m <= |ws| && AllClimb(ws, width)
    ensures SlotsBefore(ws, m) <= SlotsBefore(ws, |ws|)
    ensures (RebasedUpTo(ws, |ws|) + [UsedBefore(ws, |ws|)])[SlotsBefore(ws, m)] == UsedBefore(ws, m)
    decreases |ws| - m
  {
    if m < |ws| {
      if ws[m].length > 0 {
        OutputSlot(ws, m, 0);
        ClimbsBounds(ws[m], width.Limit(), 0);
      } else {
        OutputBegins(ws, width, m + 1);
      }
    }
  }

  /** Slot j of window m, and its end when j is its length, points to the same child value as before. */
  lemma {:induction false} OutputRebased(ws: seq<Window>, width: Width, out: seq<int>, m: nat, j: nat)
    requires m < |ws| && AllClimb(ws, width) && out == RebasedUpTo(ws, |ws|) + [UsedBefore(ws, |ws|)]
    requires j <= ws[m].length && ws[m].length > 0
    ensures SlotsBefore(ws, m) + j < |out| && out[SlotsBefore(ws, m) + j] == RebasedOffset(ws, m, j)
  {
    if j < ws[m].length {
      OutputSlot(ws, m, j);
    } else {
      OutputBegins(ws, width, m + 1);
      ClimbsBounds(ws[m], width.Limit(), j);
    }
  }
}

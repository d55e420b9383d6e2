/** Run ends: finding the runs of a window, and laying the runs of several windows end to end. */
module RunEnds {
  import opened Basics
  import opened Layout
  import opened Offsets

  /**
   The binary search for the first run that ends beyond a logical position, which is first cut to the run-end type.
   */
  method FindPhysicalIndex(runEnds: seq<int>, logical: int, width: Width) returns (index: nat)
    requires StrictlyIncreasing(runEnds) && 0 <= logical
    ensures index == PhysicalIndex(runEnds, width.Wrap(logical)) <= |runEnds|
  {
    var sought := width.Wrap(logical);
    var i, j := 0, |runEnds|;
    while i < j
      invariant 0 <= i <= j <= |runEnds|
      invariant i < |runEnds| && i == j ==> runEnds[i] > sought
      invariant j < |runEnds| ==> runEnds[j] > sought
      invariant i > 0 ==> runEnds[i - 1] <= sought
    {
      var h := (i + j) / 2;
      if runEnds[h] > sought { j := h; } else { i := h + 1; }
    }
    index := i;
    PhysicalIndexIs(runEnds, sought, i);
  }

  /** In climbing run ends the first one beyond a position is the one whose predecessor is not. */
  lemma {:induction false} PhysicalIndexIs(runEnds: seq<int>, x: int, i: int)
    requires StrictlyIncreasing(runEnds) && 0 <= i <= |runEnds|
    requires i < |runEnds| ==> runEnds[i] > x
    requires i > 0 ==> runEnds[i - 1] <= x
    ensures PhysicalIndex(runEnds, x) == i
  {
    forall j | 0 <= j < i ensures runEnds[j] <= x { if j < i - 1 { assert Below(runEnds, j, i - 1); } }
    RunAmongFinds(runEnds, x, |runEnds|);
  }

  /**
   What concatenation reads of one run-end encoded input: its window and the run ends that touch it, if it has a buffer.
   */
  datatype Runs = Runs(offset: nat, length: nat, held: bool, ends: seq<int>)

  /** The run ends climb, each run starts inside the window and only the last reaches its end. */
  ghost predicate Touch(w: Runs, width: Width) {
    && (w.length == 0 <==> w.ends == []) && (!w.held ==> w.ends == [])
    && StrictlyIncreasing(w.ends)
    && (forall k :: 0 <= k < |w.ends| ==> w.offset < w.ends[k] <= width.Limit())
    && (forall k :: 0 <= k < |w.ends| - 1 ==> w.ends[k] < w.offset + w.length)
    && (w.length > 0 ==> w.offset + w.length <= w.ends[|w.ends| - 1])
  }

  ghost function SlotsUpTo(ws: seq<Runs>, i: int): nat
    requires 0 <= i <= |ws|
  {
    if i == 0 then 0 else SlotsUpTo(ws, i - 1) + ws[i - 1].length
  }

  /**
   Run k of a window that begins at `base`, counted from the start of the output; the last run ends with the window.
   */
  ghost function PlacedEnd(w: Runs, base: int, k: int): int
    requires 0 <= k < |w.ends|
  {
    if k == |w.ends| - 1 then base + w.length else base + w.ends[k] - w.offset
  }

  ghost function PlacementUpTo(w: Runs, base: int, n: nat): (ends: seq<int>)
    requires n <= |w.ends|
    ensures |ends| == n
  {
    if n == 0 then [] else PlacementUpTo(w, base, n - 1) + [PlacedEnd(w, base, n - 1)]
  }

  ghost function Placement(w: Runs, base: int): (ends: seq<int>)
    ensures |ends| == |w.ends|
  {
    PlacementUpTo(w, base, |w.ends|)
  }

  lemma {:induction false} PlacementAt(w: Runs, base: int, n: nat, k: nat)
    requires k < n <= |w.ends|
    ensures PlacementUpTo(w, base, n)[k] == PlacedEnd(w, base, k)
  {
    if k < n - 1 { PlacementAt(w, base, n - 1, k); }
  }

  /** A sequence with these entries is the placement. */
  lemma {:induction false} PlacementUnique(w: Runs, base: int, r: seq<int>)
    requires |r| == |w.ends| && forall k :: 0 <= k < |r| ==> r[k] == PlacedEnd(w, base, k)
    ensures r == Placement(w, base)
  {
    forall k | 0 <= k < |r| ensures r[k] == Placement(w, base)[k] { PlacementAt(w, base, |w.ends|, k); }
  }

  /** The run ends of the first n windows laid end to end. */
  ghost function Laid(ws: seq<Runs>, n: nat): seq<int>
    requires n <= |ws|
  {
    if n == 0 then [] else Laid(ws, n - 1) + Placement(ws[n - 1], SlotsUpTo(ws, n - 1))
  }

  ghost predicate AllTouch(ws: seq<Runs>, width: Width) {
    forall m :: 0 <= m < |ws| ==> Touch(ws[m], width)
  }

  /** Subtraction after a wrapped addition is exact whenever the result fits. */
  lemma {:induction false} WrapCancels(width: Width, a: int, b: int, c: int)
    requires 0 <= a <= width.Limit() && 0 <= b <= width.Limit() && 0 <= c && 0 <= a + b - c <= width.Limit()
    ensures width.Wrap(width.Wrap(a + b) - c) == a + b - c
  {
    var n := 2 * (width.Limit() + 1);
    if a + b > width.Limit() {
      assert width.Wrap(a + b) == a + b - n;
      assert width.Wrap(a + b - n - c) == width.Wrap(a + b - n - c + n);
    }
  }

  /** The final run end of a window, normalized and clamped to the window's length. */
  function FinalEnd(w: Runs, width: Width): int
    requires w.ends != []
  {
    Smaller(width.Wrap(w.ends[|w.ends| - 1] - width.Wrap(w.offset)), width.Wrap(w.length))
  }

  lemma {:induction false} FinalEndIsLength(w: Runs, width: Width)
    requires Touch(w, width) && w.length > 0
    ensures FinalEnd(w, width) == w.length
  {}

  /** Run ends of the first non-empty window: copied, normalized, and the last one clamped. */
  method FirstRuns(w: Runs, width: Width) returns (output: seq<int>)
    requires w.ends != []
    ensures |output| == |w.ends| && LastEnd(output) == FinalEnd(w, width)
    ensures Touch(w, width) ==> output == Placement(w, 0)
  {
    output := w.ends;
    for j := 0 to |w.ends|
      invariant |output| == |w.ends|
      invariant Touch(w, width) ==> forall k :: 0 <= k < j ==> output[k] == w.ends[k] - w.offset
      invariant forall k :: j <= k < |w.ends| ==> output[k] == w.ends[k]
    {
      output := output[j := width.Wrap(output[j] - width.Wrap(w.offset))];
    }
    output := output[|w.ends| - 1 := FinalEnd(w, width)];
    if Touch(w, width) { PlacementUnique(w, 0, output); }
  }

  /** Run ends of a later window: shifted by the last end in wrapping arithmetic, and the last one clamped. */
  method LaterRuns(w: Runs, lastEnd: int, width: Width) returns (output: seq<int>)
    requires w.ends != []
    ensures |output| == |w.ends| && LastEnd(output) == width.Wrap(lastEnd + FinalEnd(w, width))
    ensures Touch(w, width) && 0 <= lastEnd && lastEnd + w.length <= width.Limit() ==> output == Placement(w, lastEnd)
  {
    output := ShiftRuns(w, lastEnd, width);
    output := output[|w.ends| - 1 := width.Wrap(lastEnd + FinalEnd(w, width))];
    if Touch(w, width) && 0 <= lastEnd && lastEnd + w.length <= width.Limit() { PlacementUnique(w, lastEnd, output); }
  }

  method ShiftRuns(w: Runs, lastEnd: int, width: Width) returns (output: seq<int>)
    ensures |output| == |w.ends|
    ensures Touch(w, width) && 0 <= lastEnd && lastEnd + w.length <= width.Limit() ==>
              forall k :: 0 <= k < |w.ends| - 1 ==> output[k] == lastEnd + w.ends[k] - w.offset
  {
    output := [];
    ghost var exact := Touch(w, width) && 0 <= lastEnd && lastEnd + w.length <= width.Limit();
    for j := 0 to |w.ends|
      invariant |output| == j
      invariant exact ==> forall k :: 0 <= k < j && k < |w.ends| - 1 ==> output[k] == lastEnd + w.ends[k] - w.offset
    {
      var end := width.Wrap(width.Wrap(lastEnd + w.ends[j]) - width.Wrap(w.offset));
      assert exact && j < |w.ends| - 1 ==> end == lastEnd + w.ends[j] - w.offset by {
        if exact && j < |w.ends| - 1 { WrapCancels(width, lastEnd, w.ends[j], w.offset); }
      }
      output := output + [end];
    }
  }

  ghost function LastEnd(output: seq<int>): int {
    if output == [] then 0 else output[|output| - 1]
  }

  /** The overflow check adds the two ends as unsigned 64-bit numbers. */
  predicate Overflows(lastEnd: int, finalEnd: int, width: Width) {
    (lastEnd + finalEnd) % 0x1_0000_0000_0000_0000 > width.Limit()
  }

  /** Against ends that are not negative, the check refuses sums beyond the type and below zero. */
  lemma {:induction false} OverflowsOutside(lastEnd: int, finalEnd: int, width: Width)
    requires 0 <= lastEnd <= width.Limit() && -width.Limit() - 1 <= finalEnd <= width.Limit()
    ensures Overflows(lastEnd, finalEnd, width) <==> lastEnd + finalEnd < 0 || lastEnd + finalEnd > width.Limit()
  {
    if lastEnd + finalEnd < 0 {
      assert (lastEnd + finalEnd) % 0x1_0000_0000_0000_0000 == lastEnd + finalEnd + 0x1_0000_0000_0000_0000;
    }
  }

  /** Appends one window's run ends, or fails when its end does not fit the run-end type. */
  method AppendRuns(output: seq<int>, w: Runs, width: Width) returns (r: Result<seq<int>>)
    ensures r.Err? <==> w.ends != [] && output != [] && Overflows(LastEnd(output), FinalEnd(w, width), width)
    ensures r.Ok? ==> Appends(output, w, width, r.value)
  {
    if |w.ends| == 0 {
      return Ok(output);
    }
    if |output| == 0 {
      var first := FirstRuns(w, width);
      assert output + first == first;
      return Ok(first);
    }
    var lastEnd := output[|output| - 1];
    if Overflows(lastEnd, FinalEnd(w, width), width) {
      return Err(RunEndOverflow);
    }
    var later := LaterRuns(w, lastEnd, width);
    return Ok(output + later);
  }

  // ---------------------------------------------------------------------------------------------
  // All windows
  // ---------------------------------------------------------------------------------------------

  ghost function RunsBefore(ws: seq<Runs>, n: nat): nat
    requires n <= |ws|
  {
    if n == 0 then 0 else RunsBefore(ws, n - 1) + |ws[n - 1].ends|
  }

  /** The last run end written for the first n windows, as computed. */
  ghost function EndAfter(ws: seq<Runs>, width: Width, n: nat): int
    requires n <= |ws|
  {
    if n == 0 then 0
    else if ws[n - 1].ends == [] then EndAfter(ws, width, n - 1)
    else width.Wrap(EndAfter(ws, width, n - 1) + FinalEnd(ws[n - 1], width))
  }

  /** Window i fails the overflow check, which the first one written does not have to pass. */
  ghost predicate RunsRefused(ws: seq<Runs>, width: Width, i: int)
    requires 0 <= i < |ws|
  {
    ws[i].ends != [] && RunsBefore(ws, i) > 0 && Overflows(EndAfter(ws, width, i), FinalEnd(ws[i], width), width)
  }

  ghost predicate SomeRefused(ws: seq<Runs>, width: Width) {
    exists i :: 0 <= i < |ws| && RunsRefused(ws, width, i)
  }

  /** The slots of the windows with run ends. */
  ghost function Counted(ws: seq<Runs>, n: nat): nat
    requires n <= |ws|
  {
    if n == 0 then 0 else Counted(ws, n - 1) + if ws[n - 1].ends == [] then 0 else ws[n - 1].length
  }

  /** No array of `total` slots can have these run ends: one is negative, or the last falls short. */
  ghost predicate FallsShort(output: seq<int>, total: int) {
    (exists k :: 0 <= k < |output| && output[k] < 0) || LastEnd(output) < total
  }

  lemma {:induction false} FallsShortFits(output: seq<int>, total: nat, width: Width)
    requires FallsShort(output, total)
    ensures !RunEndsFit(output, 0, total, width)
  {}

  /** The output ends no later than the windows with run ends allow, unless it has gone negative. */
  ghost predicate WithinCount(output: seq<int>, count: int) {
    (exists k :: 0 <= k < |output| && output[k] < 0) || 0 <= LastEnd(output) <= count
  }

  lemma {:induction false} StaysWithin(before: seq<int>, after: seq<int>, w: Runs, width: Width, count: nat)
    requires WithinCount(before, count) && w.length <= width.Limit() && Appends(before, w, width, after)
    ensures WithinCount(after, count + if w.ends == [] then 0 else w.length)
  {
    if w.ends == [] {
      assert after == before;
    } else if k :| 0 <= k < |before| && before[k] < 0 {
      assert after[k] < 0;
    } else if LastEnd(after) < 0 {
      assert after[|after| - 1] < 0;
    }
  }

  /**
   All windows' run ends in one buffer. On windows whose run ends are their own it fails exactly when the total length
   exceeds the run-end type, and lays the runs end to end.
   */
  method UpdateRuns(ws: seq<Runs>, width: Width) returns (r: Result<seq<int>>)
    requires forall i :: 0 <= i < |ws| ==> ws[i].length <= width.Limit()
    ensures r.Err? <==> SomeRefused(ws, width)
    ensures r.Ok? ==> |r.value| == RunsBefore(ws, |ws|) && LastEnd(r.value) == EndAfter(ws, width, |ws|)
    ensures r.Ok? ==> WithinCount(r.value, Counted(ws, |ws|))
    ensures AllTouch(ws, width) ==> (r.Err? <==> SlotsUpTo(ws, |ws|) > width.Limit())
    ensures r.Ok? && AllTouch(ws, width) ==> r.value == Laid(ws, |ws|)
  {
    var output := [];
    for i := 0 to |ws|
      invariant RunsWritten(ws, width, i, output)
      invariant forall k :: 0 <= k < i ==> !RunsRefused(ws, width, k)
    {
      var appended := AppendRuns(output, ws[i], width);
      if appended.Err? {
        if AllTouch(ws, width) { NextFits(ws, width, i, output); }
        assert RunsRefused(ws, width, i);
        return Err(appended.error);
      }
      NextWritten(ws, width, i, output, appended.value);
      output := appended.value;
    }
    return Ok(output);
  }

  /** What is known of the output after the first i windows. */
  ghost predicate RunsWritten(ws: seq<Runs>, width: Width, i: nat, output: seq<int>)
    requires i <= |ws|
  {
    && |output| == RunsBefore(ws, i) && LastEnd(output) == EndAfter(ws, width, i) && WithinCount(output, Counted(ws, i))
    && (AllTouch(ws, width) ==> RunsLaid(ws, width, i, output))
  }

  ghost predicate RunsLaid(ws: seq<Runs>, width: Width, i: nat, output: seq<int>)
    requires i <= |ws|
  {
    output == Laid(ws, i) && LastEnd(output) == SlotsUpTo(ws, i) <= width.Limit()
        && (output == [] ==> SlotsUpTo(ws, i) == 0)
  }

  /** `after` is what appending window w to `before` gives. */
  ghost predicate Appends(before: seq<int>, w: Runs, width: Width, after: seq<int>) {
    && !(w.ends != [] && before != [] && Overflows(LastEnd(before), FinalEnd(w, width), width))
    && before <= after && |after| == |before| + |w.ends|
    && (w.ends != [] ==> LastEnd(after) == width.Wrap(LastEnd(before) + FinalEnd(w, width)))
    && (Touch(w, width) && 0 <= LastEnd(before) && LastEnd(before) + w.length <= width.Limit() ==>
          after == before + Placement(w, LastEnd(before)))
  }

  lemma {:induction false} NextWritten(ws: seq<Runs>, width: Width, i: nat, before: seq<int>, after: seq<int>)
    requires i < |ws| && ws[i].length <= width.Limit() && RunsWritten(ws, width, i, before)
    requires Appends(before, ws[i], width, after)
    ensures RunsWritten(ws, width, i + 1, after)
  {
    StaysWithin(before, after, ws[i], width, Counted(ws, i));
    if AllTouch(ws, width) { NextLaid(ws, width, i, before, after); }
    EndAppended(before, after, ws[i], width);
  }

  lemma {:induction false} EndAppended(before: seq<int>, after: seq<int>, w: Runs, width: Width)
    requires Appends(before, w, width, after)
    ensures LastEnd(after) == if w.ends == [] then LastEnd(before) else width.Wrap(LastEnd(before) + FinalEnd(w, width))
  {
    if w.ends == [] { assert after == before; }
  }

  lemma {:induction false} NextLaid(ws: seq<Runs>, width: Width, i: nat, before: seq<int>, after: seq<int>)
    requires i < |ws| && AllTouch(ws, width) && RunsLaid(ws, width, i, before) && Appends(before, ws[i], width, after)
    ensures RunsLaid(ws, width, i + 1, after)
  {
    NextFits(ws, width, i, before);
    assert Touch(ws[i], width);
  }

  /** With its own run ends, the next window is refused exactly when the slots do not fit. */
  lemma {:induction false} NextFits(ws: seq<Runs>, width: Width, i: nat, output: seq<int>)
    requires i < |ws| && AllTouch(ws, width) && RunsLaid(ws, width, i, output)
    ensures SlotsUpTo(ws, i + 1) <= SlotsUpTo(ws, |ws|)
    ensures ws[i].ends != [] ==> FinalEnd(ws[i], width) == ws[i].length
    ensures ws[i].ends != [] && output != [] ==>
              (Overflows(LastEnd(output), FinalEnd(ws[i], width), width) <==> SlotsUpTo(ws, i + 1) > width.Limit())
    ensures output == [] || ws[i].ends == [] ==> SlotsUpTo(ws, i + 1) <= width.Limit()
  {
    SlotsUpToMonotone(ws, i + 1, |ws|);
    assert Touch(ws[i], width);
    if ws[i].ends != [] { FinalEndIsLength(ws[i], width); }
  }

  lemma {:induction false} SlotsUpToMonotone(ws: seq<Runs>, i: int, j: int)
    requires 0 <= i <= j <= |ws|
    ensures SlotsUpTo(ws, i) <= SlotsUpTo(ws, j)
    decreases j
  {
    if i < j { SlotsUpToMonotone(ws, i, j - 1); }
  }

  /** The output so far climbs from at least 1 to the slots so far. */
  ghost predicate ClimbsTo(ends: seq<int>, total: int) {
    && StrictlyIncreasing(ends)
    && (forall k :: 0 <= k < |ends| ==> 1 <= ends[k] <= total)
    && LastEnd(ends) == total
  }

  lemma {:induction false} PlacementClimbs(ends: seq<int>, total: int, w: Runs, width: Width)
    requires ClimbsTo(ends, total) && 0 <= total && Touch(w, width)
    ensures ClimbsTo(ends + Placement(w, total), total + w.length)
  {
    var p := Placement(w, total);
    forall k | 0 <= k < |p| ensures p[k] == PlacedEnd(w, total, k) && total < p[k] <= total + w.length {
      PlacementAt(w, total, |w.ends|, k);
    }
    var all := ends + p;
    forall k, l | 0 <= k < l < |all| ensures Below(all, k, l) {
      if l < |ends| {
        assert Below(ends, k, l);
      } else if k >= |ends| && l < |all| - 1 {
        assert Below(w.ends, k - |ends|, l - |ends|);
      }
    }
  }

  /** Laid end to end the run ends climb strictly and end at the total length. */
  lemma {:induction false} LaidClimbs(ws: seq<Runs>, width: Width, n: nat)
    requires n <= |ws| && AllTouch(ws, width)
    ensures ClimbsTo(Laid(ws, n), SlotsUpTo(ws, n))
  {
    if n > 0 {
      LaidClimbs(ws, width, n - 1);
      PlacementClimbs(Laid(ws, n - 1), SlotsUpTo(ws, n - 1), ws[n - 1], width);
    }
  }

  /** The runs of the first m windows stand in front. */
  lemma {:induction false} LaidStable(ws: seq<Runs>, m: nat, n: nat, i: nat)
    requires m <= n <= |ws| && i < |Laid(ws, m)|
    ensures i < |Laid(ws, n)| && Laid(ws, n)[i] == Laid(ws, m)[i]
  {
    if m < n { LaidStable(ws, m, n - 1, i); }
  }

  lemma {:induction false} LaidAt(ws: seq<Runs>, m: nat, n: nat, k: nat)
    requires m < n <= |ws| && k < |ws[m].ends|
    ensures |Laid(ws, m)| + k < |Laid(ws, n)|
    ensures Laid(ws, n)[|Laid(ws, m)| + k] == PlacedEnd(ws[m], SlotsUpTo(ws, m), k)
  {
    LaidStable(ws, m + 1, n, |Laid(ws, m)| + k);
    PlacementAt(ws[m], SlotsUpTo(ws, m), |ws[m].ends|, k);
  }

  /** The entry before window m's runs, if there is one, is where the window begins. */
  lemma {:induction false} PrefixEnd(ws: seq<Runs>, width: Width, m: nat, n: nat)
    requires m <= n <= |ws| && AllTouch(ws, width) && |Laid(ws, m)| > 0
    ensures |Laid(ws, m)| <= |Laid(ws, n)| && Laid(ws, n)[|Laid(ws, m)| - 1] == SlotsUpTo(ws, m)
  {
    LaidClimbs(ws, width, m);
    LaidStable(ws, m, n, |Laid(ws, m)| - 1);
  }

  /** The run of a position inside one window. */
  lemma {:induction false} RunOf(w: Runs, width: Width, base: int, j: int) returns (k: int)
    requires Touch(w, width) && 0 <= j < w.length
    ensures 0 <= k < |w.ends| && k == PhysicalIndex(w.ends, w.offset + j)
    ensures PlacedEnd(w, base, k) > base + j && (k > 0 ==> PlacedEnd(w, base, k - 1) <= base + j)
  {
    k := PhysicalIndex(w.ends, w.offset + j);
    RunAmongFinds(w.ends, w.offset + j, |w.ends|);
  }

  /** Around that run, the output's run ends enclose the position. */
  lemma {:induction false} RunEncloses(ws: seq<Runs>, width: Width, m: nat, j: nat) returns (i: int)
    requires m < |ws| && AllTouch(ws, width) && j < ws[m].length
    ensures PhysicalIndex(ws[m].ends, ws[m].offset + j) < |ws[m].ends|
    ensures i == |Laid(ws, m)| + PhysicalIndex(ws[m].ends, ws[m].offset + j) < |Laid(ws, |ws|)|
    ensures Laid(ws, |ws|)[i] > SlotsUpTo(ws, m) + j
    ensures i > 0 ==> Laid(ws, |ws|)[i - 1] <= SlotsUpTo(ws, m) + j
  {
    var k := RunOf(ws[m], width, SlotsUpTo(ws, m), j);
    LaidAt(ws, m, |ws|, k);
    if k > 0 { LaidAt(ws, m, |ws|, k - 1); } else if |Laid(ws, m)| > 0 { PrefixEnd(ws, width, m, |ws|); }
    i := |Laid(ws, m)| + k;
  }

  /** Position j of window m falls into the same run of that window, counted after the runs before it. */
  lemma {:induction false} SameRun(ws: seq<Runs>, width: Width, m: nat, j: nat)
    requires m < |ws| && AllTouch(ws, width) && j < ws[m].length
    ensures PhysicalIndex(ws[m].ends, ws[m].offset + j) < |ws[m].ends|
    ensures PhysicalIndex(Laid(ws, |ws|), SlotsUpTo(ws, m) + j) ==
            |Laid(ws, m)| + PhysicalIndex(ws[m].ends, ws[m].offset + j)
  {
    var i := RunEncloses(ws, width, m, j);
    LaidClimbs(ws, width, |ws|);
    PhysicalIndexIs(Laid(ws, |ws|), SlotsUpTo(ws, m) + j, i);
  }

  // ---------------------------------------------------------------------------------------------
  // Buffers paired with inputs
  // ---------------------------------------------------------------------------------------------

  /** The run-end buffers of the first n inputs; inputs without one are left out. */
  ghost function Gathered(ws: seq<Runs>, n: nat): (bufs: seq<seq<int>>)
    requires n <= |ws|
    ensures |bufs| <= n
  {
    if n == 0 then [] else Gathered(ws, n - 1) + if ws[n - 1].held then [ws[n - 1].ends] else []
  }

  /** The first n buffers, each paired with the input that stands at the same position. */
  ghost function PairedUpTo(ws: seq<Runs>, n: nat): (paired: seq<Runs>)
    requires n <= |Gathered(ws, |ws|)|
    ensures |paired| == n
    ensures forall t {:trigger paired[t]} :: 0 <= t < n ==>
              paired[t] == Runs(ws[t].offset, ws[t].length, true, Gathered(ws, |ws|)[t])
  {
    if n == 0 then []
    else PairedUpTo(ws, n - 1) + [Runs(ws[n - 1].offset, ws[n - 1].length, true, Gathered(ws, |ws|)[n - 1])]
  }

  ghost function Paired(ws: seq<Runs>): seq<Runs> {
    PairedUpTo(ws, |Gathered(ws, |ws|)|)
  }

  /** No input without a buffer stands before a non-empty one. */
  ghost predicate InStep(ws: seq<Runs>) {
    forall i, k :: 0 <= i < k < |ws| && !ws[i].held ==> ws[k].length == 0
  }

  lemma {:induction false} SomeMissing(ws: seq<Runs>, n: nat) returns (i: nat)
    requires n <= |ws| && |Gathered(ws, n)| < n
    ensures i < n && i <= |Gathered(ws, n)| && !ws[i].held
  {
    if |Gathered(ws, n - 1)| < n - 1 { i := SomeMissing(ws, n - 1); } else { i := n - 1; }
  }

  lemma {:induction false} MissingShortens(ws: seq<Runs>, n: nat, i: nat)
    requires i < n <= |ws| && !ws[i].held
    ensures |Gathered(ws, n)| < n
  {
    if i < n - 1 { MissingShortens(ws, n - 1, i); }
  }

  /** In step, every buffer stands at its own input's position, as far as it holds anything. */
  lemma {:induction false} GatheredInStep(ws: seq<Runs>, width: Width, n: nat, t: nat)
    requires AllTouch(ws, width) && InStep(ws) && n <= |ws| && t < |Gathered(ws, n)|
    ensures Gathered(ws, n)[t] == ws[t].ends
  {
    if t < |Gathered(ws, n - 1)| {
      GatheredInStep(ws, width, n - 1, t);
    } else if t < n - 1 {
      var i := SomeMissing(ws, n - 1);
      assert Touch(ws[i], width) && Touch(ws[t], width) && Touch(ws[n - 1], width);
    }
  }

  /** In step, pairing gives the inputs back, up to empty ones at the end. */
  lemma {:induction false} PairedInStep(ws: seq<Runs>, width: Width)
    requires AllTouch(ws, width) && InStep(ws)
    ensures forall t :: 0 <= t < |Paired(ws)| ==> SameRuns(Paired(ws)[t], ws[t])
    ensures forall t :: |Paired(ws)| <= t < |ws| ==> ws[t].length == 0 && ws[t].ends == []
    ensures AllTouch(Paired(ws), width)
  {
    forall t | 0 <= t < |Paired(ws)| ensures SameRuns(Paired(ws)[t], ws[t]) && Touch(Paired(ws)[t], width) {
      GatheredInStep(ws, width, |ws|, t);
      assert Touch(ws[t], width);
    }
    forall t | |Paired(ws)| <= t < |ws| ensures ws[t].length == 0 && ws[t].ends == [] {
      var i := SomeMissing(ws, |ws|);
      assert Touch(ws[i], width) && Touch(ws[t], width);
    }
  }

  ghost predicate SameRuns(v: Runs, w: Runs) {
    v.offset == w.offset && v.length == w.length && v.ends == w.ends
  }

  lemma {:induction false} SamePlacement(v: Runs, w: Runs, base: int, n: nat)
    requires SameRuns(v, w) && n <= |w.ends|
    ensures PlacementUpTo(v, base, n) == PlacementUpTo(w, base, n)
  {
    if n > 0 { SamePlacement(v, w, base, n - 1); }
  }

  lemma {:induction false} SameFront(vs: seq<Runs>, ws: seq<Runs>, n: nat)
    requires n <= |vs| <= |ws| && forall t :: 0 <= t < |vs| ==> SameRuns(vs[t], ws[t])
    ensures Laid(ws, n) == Laid(vs, n) && SlotsUpTo(ws, n) == SlotsUpTo(vs, n)
  {
    if n > 0 {
      SameFront(vs, ws, n - 1);
      SamePlacement(vs[n - 1], ws[n - 1], SlotsUpTo(ws, n - 1), |ws[n - 1].ends|);
    }
  }

  lemma {:induction false} EmptyTail(ws: seq<Runs>, m: nat, n: nat)
    requires m <= n <= |ws| && forall t :: m <= t < n ==> ws[t].length == 0 && ws[t].ends == []
    ensures Laid(ws, n) == Laid(ws, m) && SlotsUpTo(ws, n) == SlotsUpTo(ws, m)
  {
    if m < n {
      EmptyTail(ws, m, n - 1);
      assert Placement(ws[n - 1], SlotsUpTo(ws, n - 1)) == [];
    }
  }

  /** Behind a missing buffer, no buffer that holds runs reaches the position of the last non-empty input. */
  lemma {:induction false} BuffersLag(ws: seq<Runs>, i: nat, last: nat, n: nat, t: nat)
    requires i < last < |ws| && !ws[i].held && n <= |ws| && (forall p :: last < p < |ws| ==> ws[p].ends == [])
    requires t < |Gathered(ws, n)| && Gathered(ws, n)[t] != []
    ensures t < last
  {
    if t < |Gathered(ws, n - 1)| {
      BuffersLag(ws, i, last, n - 1, t);
    } else if n - 1 == last {
      MissingShortens(ws, last, i);
    }
  }

  /** So the slots of that input are not counted. */
  lemma {:induction false} LastNotCounted(ws: seq<Runs>, i: nat, last: nat, n: nat)
    requires i < last < |ws| && !ws[i].held && (forall p :: last < p < |ws| ==> ws[p].ends == []) && n <= |Paired(ws)|
    ensures Counted(Paired(ws), n) <= SlotsUpTo(ws, Smaller(n, last))
  {
    if n > 0 {
      LastNotCounted(ws, i, last, n - 1);
      if Paired(ws)[n - 1].ends != [] { BuffersLag(ws, i, last, |ws|, n - 1); }
    }
  }

  lemma {:induction false} LastNonEmpty(ws: seq<Runs>, k: nat, n: nat) returns (last: nat)
    requires k < n <= |ws| && ws[k].length > 0
    ensures k <= last < n && ws[last].length > 0 && forall p :: last < p < n ==> ws[p].length == 0
  {
    if ws[n - 1].length > 0 { last := n - 1; } else { last := LastNonEmpty(ws, k, n - 1); }
  }

  lemma {:induction false} FewerCounted(ws: seq<Runs>, width: Width, i: nat, last: nat)
    requires AllTouch(ws, width) && i < last < |ws| && !ws[i].held && ws[last].length > 0
    requires forall p :: last < p < |ws| ==> ws[p].length == 0
    ensures Counted(Paired(ws), |Paired(ws)|) < SlotsUpTo(ws, |ws|)
  {
    forall p | last < p < |ws| ensures ws[p].ends == [] { assert Touch(ws[p], width); }
    var n := |Paired(ws)|;
    LastNotCounted(ws, i, last, n);
    SlotsUpToMonotone(ws, Smaller(n, last), last);
    SlotsUpToMonotone(ws, last + 1, |ws|);
  }

  /** Out of step, the buffers count fewer slots than there are. */
  lemma {:induction false} OutOfStepCount(ws: seq<Runs>, width: Width)
    requires AllTouch(ws, width) && !InStep(ws)
    ensures Counted(Paired(ws), |Paired(ws)|) < SlotsUpTo(ws, |ws|)
  {
    var i, k :| 0 <= i < k < |ws| && !ws[i].held && ws[k].length != 0;
    var last := LastNonEmpty(ws, k, |ws|);
    FewerCounted(ws, width, i, last);
  }

  /** Gathers the buffers that exist and pairs them with inputs by position. */
  method PairBuffers(ws: seq<Runs>) returns (paired: seq<Runs>)
    ensures paired == Paired(ws)
  {
    var bufs: seq<seq<int>> := [];
    for i := 0 to |ws|
      invariant bufs == Gathered(ws, i)
    {
      if ws[i].held { bufs := bufs + [ws[i].ends]; }
    }
    paired := [];
    for t := 0 to |bufs|
      invariant paired == PairedUpTo(ws, t)
    {
      paired := paired + [Runs(ws[t].offset, ws[t].length, true, bufs[t])];
    }
  }

  /**
   The run ends of all inputs. They are laid end to end exactly when no input without a buffer stands before a
   non-empty one; otherwise they are not the run ends of any array of that length.
   */
  method UpdateRunEnds(ws: seq<Runs>, width: Width) returns (r: Result<seq<int>>)
    requires AllTouch(ws, width)
    ensures r.Err? <==> SomeRefused(Paired(ws), width)
    ensures r.Ok? ==>
              |r.value| == RunsBefore(Paired(ws), |Paired(ws)|)
              && LastEnd(r.value) == EndAfter(Paired(ws), width, |Paired(ws)|)
    ensures InStep(ws) ==> (r.Err? <==> SlotsUpTo(ws, |ws|) > width.Limit())
    ensures InStep(ws) && width == W16 ==> (r.Err? <==> SlotsUpTo(ws, |ws|) > 32767)
    ensures r.Ok? ==> (r.value == Laid(ws, |ws|) <==> InStep(ws))
    ensures r.Ok? && !InStep(ws) ==> FallsShort(r.value, SlotsUpTo(ws, |ws|))
  {
    var paired := PairBuffers(ws);
    forall t | 0 <= t < |paired| ensures paired[t].length <= width.Limit() { assert Touch(ws[t], width); }
    r := UpdateRuns(paired, width);
    if InStep(ws) {
      PairedInStep(ws, width);
      SameFront(paired, ws, |paired|);
      EmptyTail(ws, |paired|, |ws|);
    } else {
      OutOfStepCount(ws, width);
      LaidClimbs(ws, width, |ws|);
    }
  }

  /**
   An input without a buffer before three slots of one run: the run end 3 is clamped to the first input's length 0.
   */
  method MissingBufferMisplaces() returns (ws: seq<Runs>, ends: seq<int>)
    ensures ws == [Runs(0, 0, false, []), Runs(0, 3, true, [3])] && AllTouch(ws, W32) && SlotsUpTo(ws, 2) == 3
    ensures ends == [0]
  {
    ws := [Runs(0, 0, false, []), Runs(0, 3, true, [3])];
    OnePair(ws);
    var r := UpdateRunEnds(ws, W32);
    ends := r.value;
  }

  lemma {:induction false} OnePair(ws: seq<Runs>)
    requires ws == [Runs(0, 0, false, []), Runs(0, 3, true, [3])]
    ensures AllTouch(ws, W32) && !InStep(ws) && SlotsUpTo(ws, 2) == 3 && |Paired(ws)| == 1
    ensures RunsBefore(Paired(ws), 1) == 1 && EndAfter(Paired(ws), W32, 1) == 0 && !SomeRefused(Paired(ws), W32)
  {
    assert Gathered(ws, 0) == [] && Gathered(ws, 1) == [] && Gathered(ws, 2) == [[3]];
    assert Paired(ws)[0] == Runs(0, 0, true, [3]);
    assert RunsBefore(Paired(ws), 0) == 0 && EndAfter(Paired(ws), W32, 0) == 0;
    assert SlotsUpTo(ws, 0) == 0 && SlotsUpTo(ws, 1) == 0;
  }
}

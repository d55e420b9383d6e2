/** Bounds checks of dictionary indices through minima and maxima of valid runs. */
module IndexBounds {
  import opened Basics
  import opened BitRuns

  const MAX_DICTIONARY_INDEX_VALID_RUNS := 8

  datatype Run = Run(pos: nat, length: nat)

  /** The least and greatest valid value among the first n; `has` says whether there is one. */
  ghost predicate IsMinMax(values: seq<int>, valid: Option<seq<bool>>, n: int, min: int, max: int, has: bool)
    requires 0 <= n <= |values|
  {
    && (has <==> exists i :: 0 <= i < n && IsValid(valid, i))
    && (forall i :: 0 <= i < n && IsValid(valid, i) ==> min <= values[i] <= max)
    && (has ==> exists i :: 0 <= i < n && IsValid(valid, i) && values[i] == min)
    && (has ==> exists i :: 0 <= i < n && IsValid(valid, i) && values[i] == max)
  }

  ghost predicate InBounds(values: seq<int>, valid: Option<seq<bool>>, upperLimit: int) {
    forall i :: 0 <= i < |values| && IsValid(valid, i) ==> 0 <= values[i] < upperLimit
  }

  /** Minima and maxima decide the bounds. */
  lemma {:induction false} MinMaxDecides(values: seq<int>, valid: Option<seq<bool>>, min: int, max: int, has: bool,
      upperLimit: int)
    requires IsMinMax(values, valid, |values|, min, max, has)
    ensures InBounds(values, valid, upperLimit) <==> !has || (0 <= min && max < upperLimit)
  {}

  method GetMinMax(values: seq<int>, a: nat, b: nat) returns (min: int, max: int)
    requires a < b <= |values|
    ensures forall i :: a <= i < b ==> min <= values[i] <= max
    ensures (exists i :: a <= i < b && values[i] == min) && exists i :: a <= i < b && values[i] == max
  {
    min, max := values[a], values[a];
    for i := a + 1 to b
      invariant forall k :: a <= k < i ==> min <= values[k] <= max
      invariant (exists k :: a <= k < i && values[k] == min) && exists k :: a <= k < i && values[k] == max
    {
      if values[i] < min { min := values[i]; }
      if values[i] > max { max := values[i]; }
    }
  }

  /** Folds one valid run into the minimum and maximum of what stands before it. */
  method FoldRun(values: seq<int>, valid: Option<seq<bool>>, at: nat, run: Run, min: int, max: int, has: bool)
    returns (min': int, max': int)
    requires at <= run.pos && run.length > 0 && run.pos + run.length <= |values|
    requires IsMinMax(values, valid, at, min, max, has)
    requires forall i :: at <= i < run.pos ==> !IsValid(valid, i)
    requires forall i :: run.pos <= i < run.pos + run.length ==> IsValid(valid, i)
    ensures IsMinMax(values, valid, run.pos + run.length, min', max', true)
  {
    var runMin, runMax := GetMinMax(values, run.pos, run.pos + run.length);
    assert IsValid(valid, run.pos);
    if !has {
      return runMin, runMax;
    }
    min', max' := min, max;
    if runMin < min { min' := runMin; }
    if runMax > max { max' := runMax; }
  }

  /** Where the first n runs end. */
  function EndOf(runs: seq<Run>, n: nat): nat
    requires n <= |runs|
  {
    if n == 0 then 0 else runs[n - 1].pos + runs[n - 1].length
  }

  /** Run k is the next maximal run of valid slots behind run k - 1. */
  ghost predicate IsNext(valid: seq<bool>, runs: seq<Run>, k: int)
    requires 0 <= k < |runs|
  {
    && EndOf(runs, k) <= runs[k].pos && runs[k].length > 0 && runs[k].pos + runs[k].length <= |valid|
    && (forall i :: EndOf(runs, k) <= i < runs[k].pos ==> !valid[i])
    && (forall i :: runs[k].pos <= i < runs[k].pos + runs[k].length ==> valid[i])
    && (runs[k].pos + runs[k].length < |valid| ==> !valid[runs[k].pos + runs[k].length])
  }

  /** The first runs of a bitmap, at most eight, and whether there are more. */
  method FindValidRuns(valid: seq<bool>) returns (runs: seq<Run>, fragmented: bool)
    ensures |runs| <= 8 && forall k :: 0 <= k < |runs| ==> IsNext(valid, runs, k)
    ensures fragmented <==> exists i :: EndOf(runs, |runs|) <= i < |valid| && valid[i]
    ensures fragmented ==> |runs| == 8
  {
    runs := [];
    while |runs| < MAX_DICTIONARY_INDEX_VALID_RUNS
      invariant |runs| <= MAX_DICTIONARY_INDEX_VALID_RUNS && EndOf(runs, |runs|) <= |valid|
      invariant forall k :: 0 <= k < |runs| ==> IsNext(valid, runs, k)
      decreases MAX_DICTIONARY_INDEX_VALID_RUNS - |runs|
    {
      var pos, n := NextRun(valid, EndOf(runs, |runs|));
      if n == 0 {
        return runs, false;
      }
      ghost var before := runs;
      runs := runs + [Run(pos, n)];
      forall k | 0 <= k < |before| ensures IsNext(valid, runs, k) { assert IsNext(valid, before, k); }
    }
    var pos, more := NextRun(valid, EndOf(runs, |runs|));
    fragmented := more != 0;
    if fragmented { assert valid[pos]; }
  }

  method GetMinMaxRuns(values: seq<int>, valid: seq<bool>, runs: seq<Run>) returns (min: int, max: int, has: bool)
    requires |valid| == |values| && forall k :: 0 <= k < |runs| ==> IsNext(valid, runs, k)
    requires forall i :: EndOf(runs, |runs|) <= i < |valid| ==> !valid[i]
    ensures IsMinMax(values, Some(valid), |values|, min, max, has)
  {
    min, max, has := 0, 0, false;
    for k := 0 to |runs|
      invariant EndOf(runs, k) <= |values| && IsMinMax(values, Some(valid), EndOf(runs, k), min, max, has)
    {
      assert IsNext(valid, runs, k);
      min, max := FoldRun(values, Some(valid), EndOf(runs, k), runs[k], min, max, has);
      has := true;
    }
  }

  method GetMinMaxValid(values: seq<int>, valid: seq<bool>) returns (min: int, max: int, has: bool)
    requires |valid| == |values|
    ensures IsMinMax(values, Some(valid), |values|, min, max, has)
  {
    min, max, has := 0, 0, false;
    var at := 0;
    while true
      invariant 0 <= at <= |values| && IsMinMax(values, Some(valid), at, min, max, has)
      decreases |values| - at
    {
      var pos, n := NextRun(valid, at);
      if n == 0 {
        return;
      }
      min, max := FoldRun(values, Some(valid), at, Run(pos, n), min, max, has);
      at, has := pos + n, true;
    }
  }

  /** When every slot is valid, the window's minimum and maximum are those of its valid values. */
  lemma {:induction false} WholeMinMax(values: seq<int>, valid: Option<seq<bool>>, min: int, max: int)
    requires values != []
    requires (valid.Some? ==> |valid.value| == |values| && forall i :: 0 <= i < |values| ==> valid.value[i])
    requires forall i :: 0 <= i < |values| ==> min <= values[i] <= max
    requires (exists i :: 0 <= i < |values| && values[i] == min) && exists i :: 0 <= i < |values| && values[i] == max
    ensures IsMinMax(values, valid, |values|, min, max, true)
  {
    var i :| 0 <= i < |values| && values[i] == min;
    var j :| 0 <= j < |values| && values[j] == max;
    assert IsValid(valid, i) && IsValid(valid, j);
  }

  /**
   Checks a window of indices. Whether the bitmap is ignored, read in a few runs or read in full after a look at the
   whole window, the answer is the same: every valid index is an entry of the dictionary.
   */
  method CheckIndexBounds(values: seq<int>, valid: Option<seq<bool>>, nulls: int, unsignedMax: Option<int>,
      upperLimit: nat) returns (ok: bool)
    requires valid.Some? ==>
               |valid.value| == |values| && (nulls == 0 ==> forall i :: 0 <= i < |values| ==> valid.value[i])
    requires unsignedMax.Some? ==> forall i :: 0 <= i < |values| ==> 0 <= values[i] <= unsignedMax.value
    ensures ok <==> InBounds(values, valid, upperLimit)
  {
    if |values| == 0 {
      return true;
    }
    if unsignedMax.Some? && upperLimit > unsignedMax.value {
      return true;
    }
    var min, max, has;
    if valid.None? || nulls == 0 {
      min, max := GetMinMax(values, 0, |values|);
      has := true;
      WholeMinMax(values, valid, min, max);
    } else {
      var runs, fragmented := FindValidRuns(valid.value);
      if !fragmented {
        min, max, has := GetMinMaxRuns(values, valid.value, runs);
      } else {
        min, max := GetMinMax(values, 0, |values|);
        if min >= 0 && max < upperLimit {
          return true;
        }
        min, max, has := GetMinMaxValid(values, valid.value);
      }
    }
    MinMaxDecides(values, valid, min, max, has, upperLimit);
    return !has || (min >= 0 && max < upperLimit);
  }
}

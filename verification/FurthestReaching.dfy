/**
 Furthest-reaching points: what the base indexes kept by the greedy search mean, and why each row follows from the last.
 */
module FurthestReaching {
  import opened Basics
  import opened EditGraph

  datatype EditPoint = EditPoint(base: int, target: int)

  /** The point a stored base index stands for on diagonal `diagonal` (inserts minus deletes). */
  function PointOn<T>(p: Problem<T>, diagonal: int, x: int): EditPoint {
    EditPoint(x, Smaller(x + diagonal, |p.target|))
  }

  /** A point the search may compare at: inside both arrays, or at base's end with any target. */
  predicate InBounds<T>(p: Problem<T>, q: EditPoint) {
    0 <= q.base <= |p.base| && q.target <= |p.target| && (q.base == |p.base| || 0 <= q.target)
  }

  /** The pair at base index n of the diagonal lies inside both arrays and is equal. */
  ghost predicate EqualAt<T>(p: Problem<T>, diagonal: int, n: int) {
    0 <= n < |p.base| && 0 <= n + diagonal < |p.target| && ValuesEqual(p, n, n + diagonal)
  }

  ghost predicate EqualRange<T>(p: Problem<T>, diagonal: int, lo: int, hi: int) {
    forall n :: lo <= n < hi ==> EqualAt(p, diagonal, n)
  }

  /** `r` is where the equal pairs that start at `q` stop. */
  ghost predicate IsExtension<T>(p: Problem<T>, q: EditPoint, r: EditPoint) {
    && InBounds(p, q) && InBounds(p, r)
    && r.base - q.base == r.target - q.target && q.base <= r.base
    && EqualRange(p, q.target - q.base, q.base, r.base)
    && !EqualAt(p, r.target - r.base, r.base)
  }

  function AfterDelete<T>(p: Problem<T>, q: EditPoint): EditPoint {
    if q.base != |p.base| then EditPoint(q.base + 1, q.target) else q
  }

  function AfterInsert<T>(p: Problem<T>, q: EditPoint): EditPoint {
    if q.target != |p.target| then EditPoint(q.base, q.target + 1) else q
  }

  // ---------------------------------------------------------------------------------------------
  // What a stored base index means
  // ---------------------------------------------------------------------------------------------

  /** The point at base index i of the diagonal is in the graph and within d edits of the origin. */
  ghost predicate Within<T>(p: Problem<T>, d: int, diagonal: int, i: int) {
    0 <= i <= |p.base| && 0 <= i + diagonal <= |p.target| && Dist(p, i, i + diagonal) <= d
  }

  /** No point of the diagonal within d edits lies beyond x. */
  ghost predicate Furthest<T>(p: Problem<T>, d: int, diagonal: int, x: int) {
    forall i :: Within(p, d, diagonal, i) ==> i <= x
  }

  /** Capped at the end of its diagonal, x is within d edits; diagonals that miss the graph say nothing. */
  ghost predicate Attained<T>(p: Problem<T>, d: int, diagonal: int, x: int) {
    -|p.base| <= diagonal <= |p.target| ==>
      Within(p, d, diagonal, Smaller(x, |p.target| - diagonal))
  }

  /** Nothing more can be kept from x on. */
  ghost predicate Stuck<T>(p: Problem<T>, diagonal: int, x: int) {
    0 <= x <= |p.base| && !EqualAt(p, diagonal, x)
  }

  /**
   A base index obtained by some move into the diagonal with d edits. One that overshoots target stands for target's
   end.
   */
  ghost predicate Candidate<T>(p: Problem<T>, d: int, diagonal: int, x: int) {
    && Stuck(p, diagonal, x)
    && Attained(p, d, diagonal, x)
    && (x + diagonal >= |p.target| ==> Within(p, d, |p.target| - x, x))
    && (diagonal < -|p.base| ==> x == |p.base|)
  }

  ghost predicate Good<T>(p: Problem<T>, d: int, diagonal: int, x: int) {
    Candidate(p, d, diagonal, x) && Furthest(p, d, diagonal, x)
  }

  lemma {:induction false} CandidateInBounds<T>(p: Problem<T>, d: int, diagonal: int, x: int)
    requires Candidate(p, d, diagonal, x)
    ensures InBounds(p, PointOn(p, diagonal, x))
  {}

  /** The four neighbours of a point are one edit further at most. */
  lemma {:induction false} Neighbours<T>(p: Problem<T>, d: int, diagonal: int, i: int)
    requires Within(p, d, diagonal, i)
    ensures i < |p.base| ==> Within(p, d + 1, diagonal - 1, i + 1)
    ensures i > 0 ==> Within(p, d + 1, diagonal + 1, i - 1)
    ensures i + diagonal < |p.target| ==> Within(p, d + 1, diagonal + 1, i)
    ensures i + diagonal > 0 ==> Within(p, d + 1, diagonal - 1, i)
  {
    DistLipschitz(p, i, i + diagonal);
    if i < |p.base| { DistLipschitz(p, i + 1, i + diagonal); }
    if i + diagonal < |p.target| { DistLipschitz(p, i, i + diagonal + 1); }
  }

  /** Diagonals further out than d are not reached within d edits. */
  lemma {:induction false} FarDiagonal<T>(p: Problem<T>, d: int, diagonal: int, x: int)
    requires diagonal < -d || d < diagonal
    ensures Furthest(p, d, diagonal, x)
  {
    forall i | Within(p, d, diagonal, i) ensures i <= x { DistBounds(p, i, i + diagonal); }
  }

  /** Keeping equal pairs never costs an edit. */
  lemma {:induction false} KeepWithin<T>(p: Problem<T>, d: int, diagonal: int, lo: int, hi: int)
    requires lo <= hi && EqualRange(p, diagonal, lo, hi) && Within(p, d, diagonal, lo)
    ensures Within(p, d, diagonal, hi)
  {
    var n := lo;
    while n < hi
      invariant lo <= n <= hi && Within(p, d, diagonal, n)
    {
      assert EqualAt(p, diagonal, n);
      n := n + 1;
    }
  }

  /** A delete from a point that stands for target's end stays at target's end. */
  lemma {:induction false} DeleteAtEnd<T>(p: Problem<T>, d: int, up: int, x: int)
    requires Candidate(p, d - 1, up, x) && x + up >= |p.target|
    ensures x < |p.base| ==> Within(p, d, |p.target| - (x + 1), x + 1)
    ensures Within(p, d, |p.target| - x, x)
  {
    Neighbours(p, d - 1, |p.target| - x, x);
  }

  /** Elsewhere a delete and the pairs kept behind it stay on the diagonal. */
  lemma {:induction false} DeleteAttains<T>(p: Problem<T>, d: int, diagonal: int, up: int, x: int, r: EditPoint)
    requires up == diagonal + 1 && Candidate(p, d - 1, up, x) && -d <= diagonal <= d - 2
    requires IsExtension(p, AfterDelete(p, PointOn(p, up, x)), r)
    ensures Attained(p, d, diagonal, r.base)
  {
    var n, m := |p.base|, |p.target|;
    if diagonal == m {
      assert Within(p, d, diagonal, 0);
    } else if -n <= diagonal <= m {
      var capped := Smaller(x, m - up);
      assert Within(p, d - 1, up, capped);
      Neighbours(p, d - 1, up, capped);
      if x < n && x + up < m { KeepWithin(p, d, diagonal, x + 1, r.base); }
    }
  }

  /** A delete, real or at base's end, leads to a candidate of the next lower diagonal. */
  lemma {:induction false} DeleteCandidate<T>(p: Problem<T>, d: int, diagonal: int, up: int, x: int, r: EditPoint)
    requires up == diagonal + 1 && Candidate(p, d - 1, up, x) && -d <= diagonal <= d - 2
    requires IsExtension(p, AfterDelete(p, PointOn(p, up, x)), r)
    ensures Candidate(p, d, diagonal, r.base)
    ensures r.base >= Smaller(x + 1, |p.base|)
  {
    DeleteAttains(p, d, diagonal, up, x, r);
    if x + up >= |p.target| { DeleteAtEnd(p, d, up, x); }
  }

  lemma {:induction false} InsertAttains<T>(p: Problem<T>, d: int, diagonal: int, down: int, x: int, r: EditPoint)
    requires down == diagonal - 1 && Candidate(p, d - 1, down, x) && -d + 2 <= diagonal <= d
    requires IsExtension(p, AfterInsert(p, PointOn(p, down, x)), r)
    ensures Attained(p, d, diagonal, r.base)
  {
    var n, m := |p.base|, |p.target|;
    if diagonal == -n {
      assert Within(p, d, diagonal, n);
    } else if -n <= diagonal <= m {
      var capped := Smaller(x, m - down);
      assert Within(p, d - 1, down, capped);
      Neighbours(p, d - 1, down, capped);
      if x + down < m { KeepWithin(p, d, diagonal, x, r.base); }
    }
  }

  /** An insert, real or at target's end, leads to a candidate of the next higher diagonal. */
  lemma {:induction false} InsertCandidate<T>(p: Problem<T>, d: int, diagonal: int, down: int, x: int, r: EditPoint)
    requires down == diagonal - 1 && Candidate(p, d - 1, down, x) && -d + 2 <= diagonal <= d
    requires IsExtension(p, AfterInsert(p, PointOn(p, down, x)), r)
    ensures Candidate(p, d, diagonal, r.base)
    ensures r.base >= x
  {
    InsertAttains(p, d, diagonal, down, x, r);
  }

  /** A stuck x that covers the moves from both neighbouring diagonals is furthest. */
  lemma {:induction false} MovesCover<T>(p: Problem<T>, d: int, diagonal: int, x: int, deleted: int, inserted: int,
      i: int)
    requires d > 0 && Stuck(p, diagonal, x)
    requires Furthest(p, d - 1, diagonal + 1, deleted) && Smaller(deleted + 1, |p.base|) <= x
    requires Furthest(p, d - 1, diagonal - 1, inserted) && inserted <= x
    requires Within(p, d, diagonal, i)
    ensures i <= x
    decreases i
  {
    var j := i + diagonal;
    if i == 0 {
    } else if j == 0 {
      assert Within(p, d - 1, diagonal + 1, i - 1);
    } else if ValuesEqual(p, i - 1, j - 1) && Dist(p, i - 1, j - 1) <= d {
      MovesCover(p, d, diagonal, x, deleted, inserted, i - 1);
      assert EqualAt(p, diagonal, i - 1);
    } else if Dist(p, i - 1, j) <= d - 1 {
      assert Within(p, d - 1, diagonal + 1, i - 1);
    } else {
      assert Within(p, d - 1, diagonal - 1, i);
    }
  }

  /** Extending from q stops at base index x. */
  ghost predicate ExtendsTo<T>(p: Problem<T>, q: EditPoint, x: int) {
    IsExtension(p, q, EditPoint(x, q.target - q.base + x))
  }

  /** A candidate that covers the moves from both neighbouring diagonals is furthest-reaching. */
  lemma {:induction false} CoveringIsGood<T>(p: Problem<T>, d: int, diagonal: int, x: int, up: int, deleteFrom: int,
      down: int, insertFrom: int)
    requires d > 0 && Candidate(p, d, diagonal, x) && up == diagonal + 1 && down == diagonal - 1
    requires Furthest(p, d - 1, up, deleteFrom) && Smaller(deleteFrom + 1, |p.base|) <= x
    requires Furthest(p, d - 1, down, insertFrom) && insertFrom <= x
    ensures Good(p, d, diagonal, x)
  {
    forall i | Within(p, d, diagonal, i) ensures i <= x {
      MovesCover(p, d, diagonal, x, deleteFrom, insertFrom, i);
    }
  }

  /** The lowest diagonal of a row is reached by a delete only. */
  lemma {:induction false} LowestGood<T>(p: Problem<T>, d: int, diagonal: int, up: int, deleteFrom: int, x: int)
    requires d > 0 && diagonal == -d && up == diagonal + 1 && Good(p, d - 1, up, deleteFrom)
    requires ExtendsTo(p, AfterDelete(p, PointOn(p, up, deleteFrom)), x)
    ensures Good(p, d, diagonal, x)
  {
    var q := AfterDelete(p, PointOn(p, up, deleteFrom));
    DeleteCandidate(p, d, diagonal, up, deleteFrom, EditPoint(x, q.target - q.base + x));
    FarDiagonal(p, d - 1, diagonal - 1, -1);
    CoveringIsGood(p, d, diagonal, x, up, deleteFrom, diagonal - 1, -1);
  }

  /** The highest diagonal of a row is reached by an insert only. */
  lemma {:induction false} HighestGood<T>(p: Problem<T>, d: int, diagonal: int, down: int, insertFrom: int, x: int)
    requires d > 0 && diagonal == d && down == diagonal - 1 && Good(p, d - 1, down, insertFrom)
    requires ExtendsTo(p, AfterInsert(p, PointOn(p, down, insertFrom)), x)
    ensures Good(p, d, diagonal, x)
  {
    var q := AfterInsert(p, PointOn(p, down, insertFrom));
    InsertCandidate(p, d, diagonal, down, insertFrom, EditPoint(x, q.target - q.base + x));
    FarDiagonal(p, d - 1, diagonal + 1, -1);
    CoveringIsGood(p, d, diagonal, x, diagonal + 1, -1, down, insertFrom);
  }

  /** Elsewhere the better of the two moves is furthest-reaching, whether or not the moves were real. */
  lemma {:induction false} InnerGood<T>(p: Problem<T>, d: int, diagonal: int, up: int, deleteFrom: int, down: int,
      insertFrom: int, deleted: int, inserted: int, x: int)
    requires -d + 2 <= diagonal <= d - 2 && up == diagonal + 1 && down == diagonal - 1
    requires Good(p, d - 1, up, deleteFrom) && Good(p, d - 1, down, insertFrom)
    requires ExtendsTo(p, AfterDelete(p, PointOn(p, up, deleteFrom)), deleted)
    requires ExtendsTo(p, AfterInsert(p, PointOn(p, down, insertFrom)), inserted)
    requires x == if inserted >= deleted then inserted else deleted
    ensures Good(p, d, diagonal, x)
  {
    var qd := AfterDelete(p, PointOn(p, up, deleteFrom));
    DeleteCandidate(p, d, diagonal, up, deleteFrom, EditPoint(deleted, qd.target - qd.base + deleted));
    var qi := AfterInsert(p, PointOn(p, down, insertFrom));
    InsertCandidate(p, d, diagonal, down, insertFrom, EditPoint(inserted, qi.target - qi.base + inserted));
    CoveringIsGood(p, d, diagonal, x, up, deleteFrom, down, insertFrom);
  }

  // ---------------------------------------------------------------------------------------------
  // The table the search fills in
  // ---------------------------------------------------------------------------------------------

  /** The first base index from lo on whose pair on the diagonal is not equal, or n if all below n are. */
  ghost function Stop<T>(p: Problem<T>, diagonal: int, lo: int, n: int): int
    decreases n
  {
    if n <= lo || n <= 0 then lo
    else if Stop(p, diagonal, lo, n - 1) < n - 1 || !EqualAt(p, diagonal, n - 1) then Stop(p, diagonal, lo, n - 1)
    else n
  }

  lemma {:induction false} StopStops<T>(p: Problem<T>, diagonal: int, lo: int, n: int)
    requires 0 <= lo <= n
    ensures lo <= Stop(p, diagonal, lo, n) <= n && EqualRange(p, diagonal, lo, Stop(p, diagonal, lo, n))
    ensures Stop(p, diagonal, lo, n) < n ==> !EqualAt(p, diagonal, Stop(p, diagonal, lo, n))
    decreases n
  {
    if lo < n { StopStops(p, diagonal, lo, n - 1); }
  }

  /** Where keeping equal pairs from q on stops, as a base index. */
  ghost function Extended<T>(p: Problem<T>, q: EditPoint): int {
    Stop(p, q.target - q.base, q.base, |p.base|)
  }

  lemma {:induction false} ExtendedExtends<T>(p: Problem<T>, q: EditPoint)
    requires InBounds(p, q)
    ensures ExtendsTo(p, q, Extended(p, q))
  {
    var diagonal, x := q.target - q.base, Extended(p, q);
    StopStops(p, diagonal, q.base, |p.base|);
    if q.base < x { assert EqualAt(p, diagonal, x - 1); }
  }

  /** Any place where the kept pairs stop is that place. */
  lemma {:induction false} ExtendedIs<T>(p: Problem<T>, q: EditPoint, x: int)
    requires ExtendsTo(p, q, x)
    ensures Extended(p, q) == x
  {
    var diagonal, y := q.target - q.base, Extended(p, q);
    StopStops(p, diagonal, q.base, |p.base|);
    assert x < y ==> EqualAt(p, diagonal, x);
    assert y < x ==> EqualAt(p, diagonal, y);
  }

  /** The base index a delete from x on a diagonal leads to. */
  ghost function FromDelete<T>(p: Problem<T>, diagonal: int, x: int): int {
    Extended(p, AfterDelete(p, PointOn(p, diagonal, x)))
  }

  /** The base index an insert from x on a diagonal leads to. */
  ghost function FromInsert<T>(p: Problem<T>, diagonal: int, x: int): int {
    Extended(p, AfterInsert(p, PointOn(p, diagonal, x)))
  }

  /** Cell k of row d, from the row before: the better of a delete and an insert, the insert on a tie. */
  ghost function Cell<T>(p: Problem<T>, d: nat, before: seq<int>, k: nat): int
    requires |before| == d > 0 && k <= d
  {
    var deleted := if k < d then FromDelete(p, 2 * k - (d - 1), before[k]) else 0;
    if k > 0 && FromInsert(p, 2 * (k - 1) - (d - 1), before[k - 1]) >= deleted
    then FromInsert(p, 2 * (k - 1) - (d - 1), before[k - 1]) else deleted
  }

  ghost function Cells<T>(p: Problem<T>, d: nat, before: seq<int>, n: nat): (cells: seq<int>)
    requires |before| == d > 0 && n <= d + 1
    ensures |cells| == n
  {
    if n == 0 then [] else Cells(p, d, before, n - 1) + [Cell(p, d, before, n - 1)]
  }

  lemma {:induction false} CellsAt<T>(p: Problem<T>, d: nat, before: seq<int>, n: nat, k: nat)
    requires |before| == d > 0 && k < n <= d + 1
    ensures Cells(p, d, before, n)[k] == Cell(p, d, before, k)
  {
    if k < n - 1 { CellsAt(p, d, before, n - 1, k); }
  }

  /** The row of edit count d. */
  ghost function Row<T>(p: Problem<T>, d: nat): (row: seq<int>)
    ensures |row| == d + 1
  {
    if d == 0 then [Extended(p, EditPoint(0, 0))] else Cells(p, d, Row(p, d - 1), d + 1)
  }

  /** The base index kept for edit count d and index k. */
  ghost function Reach<T>(p: Problem<T>, d: nat, k: int): int {
    if 0 <= k <= d then Row(p, d)[k] else 0
  }

  ghost function ReachPoint<T>(p: Problem<T>, d: nat, k: int): EditPoint {
    PointOn(p, 2 * k - d, Reach(p, d, k))
  }

  ghost function Deleted<T>(p: Problem<T>, d: nat, k: int): int
    requires d > 0
  {
    if k < d then FromDelete(p, 2 * k - (d - 1), Reach(p, d - 1, k)) else 0
  }

  ghost function Inserted<T>(p: Problem<T>, d: nat, k: int): int
    requires d > 0
  {
    FromInsert(p, 2 * (k - 1) - (d - 1), Reach(p, d - 1, k - 1))
  }

  ghost predicate ByInsert<T>(p: Problem<T>, d: nat, k: int)
    requires d > 0
  {
    k > 0 && Inserted(p, d, k) >= Deleted(p, d, k)
  }

  lemma {:induction false} ReachStep<T>(p: Problem<T>, d: nat, k: int)
    requires 0 <= k <= d && d > 0
    ensures Reach(p, d, k) == if ByInsert(p, d, k) then Inserted(p, d, k) else Deleted(p, d, k)
  {
    CellsAt(p, d, Row(p, d - 1), d + 1, k);
  }

  lemma {:induction false} DeleteExtends<T>(p: Problem<T>, d: int, diagonal: int, x: int)
    requires Candidate(p, d, diagonal, x)
    ensures ExtendsTo(p, AfterDelete(p, PointOn(p, diagonal, x)), FromDelete(p, diagonal, x))
  {
    CandidateInBounds(p, d, diagonal, x);
    ExtendedExtends(p, AfterDelete(p, PointOn(p, diagonal, x)));
  }

  lemma {:induction false} InsertExtends<T>(p: Problem<T>, d: int, diagonal: int, x: int)
    requires Candidate(p, d, diagonal, x)
    ensures ExtendsTo(p, AfterInsert(p, PointOn(p, diagonal, x)), FromInsert(p, diagonal, x))
  {
    CandidateInBounds(p, d, diagonal, x);
    ExtendedExtends(p, AfterInsert(p, PointOn(p, diagonal, x)));
  }

  ghost predicate CellGood<T>(p: Problem<T>, d: nat, row: seq<int>, k: int)
    requires 0 <= k < |row|
  {
    Good(p, d, 2 * k - d, row[k])
  }

  ghost predicate RowGood<T>(p: Problem<T>, d: nat, row: seq<int>) {
    |row| == d + 1 && forall k :: 0 <= k <= d ==> CellGood(p, d, row, k)
  }

  /**
   The table meets the meaning of its cells: capped at its diagonal's end, each is furthest-reaching for its edit count.
   */
  lemma {:induction false} RowIsGood<T>(p: Problem<T>, d: nat)
    ensures RowGood(p, d, Row(p, d))
    decreases d
  {
    if d == 0 {
      FirstCellIsGood(p);
    } else {
      RowIsGood(p, d - 1);
      var before, row := Row(p, d - 1), Row(p, d);
      forall k | 0 <= k <= d ensures CellGood(p, d, row, k) {
        CellsAt(p, d, before, d + 1, k);
        CellIsGood(p, d, before, k, row[k]);
      }
    }
  }

  lemma {:induction false} LowestCell<T>(p: Problem<T>, d: nat, before: seq<int>, k: nat, x: int)
    requires d > 0 && |before| == d && k == 0 && CellGood(p, d - 1, before, k) && x == Cell(p, d, before, k)
    ensures Good(p, d, 2 * k - d, x)
  {
    var up := 2 * k - (d - 1);
    DeleteExtends(p, d - 1, up, before[k]);
    LowestGood(p, d, 2 * k - d, up, before[k], x);
  }

  lemma {:induction false} HighestCell<T>(p: Problem<T>, d: nat, before: seq<int>, k: nat, x: int)
    requires d > 0 && |before| == d && k == d && CellGood(p, d - 1, before, k - 1) && x == Cell(p, d, before, k)
    ensures Good(p, d, 2 * k - d, x)
  {
    var down := 2 * (k - 1) - (d - 1);
    InsertExtends(p, d - 1, down, before[k - 1]);
    HighestGood(p, d, 2 * k - d, down, before[k - 1], x);
  }

  lemma {:induction false} InnerCell<T>(p: Problem<T>, d: nat, before: seq<int>, k: nat, x: int)
    requires |before| == d && 0 < k < d && CellGood(p, d - 1, before, k) && CellGood(p, d - 1, before, k - 1)
    requires x == Cell(p, d, before, k)
    ensures Good(p, d, 2 * k - d, x)
  {
    InnerStep(p, d, 2 * k - d, 2 * k - (d - 1), before[k], 2 * (k - 1) - (d - 1), before[k - 1], x);
  }

  lemma {:induction false} InnerStep<T>(p: Problem<T>, d: int, diagonal: int, up: int, deleteFrom: int, down: int,
      insertFrom: int, x: int)
    requires -d + 2 <= diagonal <= d - 2 && up == diagonal + 1 && down == diagonal - 1
    requires Good(p, d - 1, up, deleteFrom) && Good(p, d - 1, down, insertFrom)
    requires x == if FromInsert(p, down, insertFrom) >= FromDelete(p, up, deleteFrom)
               then FromInsert(p, down, insertFrom) else FromDelete(p, up, deleteFrom)
    ensures Good(p, d, diagonal, x)
  {
    DeleteExtends(p, d - 1, up, deleteFrom);
    InsertExtends(p, d - 1, down, insertFrom);
    InnerGood(p, d, diagonal, up, deleteFrom, down, insertFrom, FromDelete(p, up, deleteFrom),
        FromInsert(p, down, insertFrom), x);
  }

  lemma {:induction false} CellIsGood<T>(p: Problem<T>, d: nat, before: seq<int>, k: nat, x: int)
    requires d > 0 && RowGood(p, d - 1, before) && k <= d && x == Cell(p, d, before, k)
    ensures Good(p, d, 2 * k - d, x)
  {
    if k == 0 {
      LowestCell(p, d, before, k, x);
    } else if k == d {
      HighestCell(p, d, before, k, x);
    } else {
      InnerCell(p, d, before, k, x);
    }
  }

  lemma {:induction false} ReachIsGood<T>(p: Problem<T>, d: nat, k: int)
    requires 0 <= k <= d
    ensures Good(p, d, 2 * k - d, Reach(p, d, k))
  {
    RowIsGood(p, d);
    assert CellGood(p, d, Row(p, d), k);
  }

  lemma {:induction false} ReachInBounds<T>(p: Problem<T>, d: nat, k: int)
    requires 0 <= k <= d
    ensures InBounds(p, ReachPoint(p, d, k))
  {
    ReachIsGood(p, d, k);
    CandidateInBounds(p, d, 2 * k - d, Reach(p, d, k));
  }

  lemma {:induction false} FirstCellIsGood<T>(p: Problem<T>)
    ensures Good(p, 0, 0, Extended(p, EditPoint(0, 0)))
  {
    var q := EditPoint(0, 0);
    ExtendedExtends(p, q);
    assert Within(p, 0, 0, 0);
    KeepWithin(p, 0, 0, 0, Extended(p, q));
    forall i | Within(p, 0, 0, i) ensures i <= Extended(p, q) { ZeroDistKeeps(p, i); }
  }

  lemma {:induction false} ZeroDistKeeps<T>(p: Problem<T>, i: int)
    requires Within(p, 0, 0, i)
    ensures i <= Extended(p, EditPoint(0, 0))
    decreases i
  {
    ExtendedExtends(p, EditPoint(0, 0));
    if i > 0 {
      DistBounds(p, i - 1, i);
      DistBounds(p, i, i - 1);
      assert Within(p, 0, 0, i - 1) && EqualAt(p, 0, i - 1);
      ZeroDistKeeps(p, i - 1);
    }
  }
}

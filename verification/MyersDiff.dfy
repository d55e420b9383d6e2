/** The greedy diff over triangular storage: the search and the back-trace. */
module MyersDiff {
  import opened Basics
  import opened EditGraph
  import opened FurthestReaching

  datatype Edit = Edit(insert: bool, runLength: int)

  /** Start of the cells that belong to one edit count. */
  function StorageOffset(editCount: int): int {
    editCount * (editCount + 1) / 2
  }

  lemma {:induction false} StorageOffsetIsRowStart(d: nat)
    ensures StorageOffset(d) == RowStart(d) >= 0
  {
    if d > 0 {
      StorageOffsetIsRowStart(d - 1);
      assert d * (d + 1) == (d - 1) * d + 2 * d;
    }
  }

  // ---------------------------------------------------------------------------------------------
  // Edit scripts
  // ---------------------------------------------------------------------------------------------

  /** n kept elements, then the rest. */
  ghost function Keeps(n: int, rest: Script): Script {
    if n <= 0 then rest else Move(Keep, Keeps(n - 1, rest))
  }

  /** The move an entry of an edit script stands for, with the run behind it. */
  ghost function MoveOf(edit: Edit, rest: Script): Script {
    Move(if edit.insert then Insert else Delete, Keeps(edit.runLength, rest))
  }

  /** The moves of the entries from i on. */
  ghost function Moves(edits: seq<Edit>, i: nat): Script
    decreases |edits| - i
  {
    if i >= |edits| then End else MoveOf(edits[i], Moves(edits, i + 1))
  }

  /** The moves of a whole edit script: the first entry is only its run. */
  ghost function ScriptOf(edits: seq<Edit>): Script
    requires edits != []
  {
    Keeps(edits[0].runLength, Moves(edits, 1))
  }

  /** The moves from i on depend only on the entries from i on. */
  lemma {:induction false} MovesFramed(edits: seq<Edit>, edits': seq<Edit>, i: nat)
    requires |edits'| == |edits| && forall j :: i <= j < |edits| ==> edits'[j] == edits[j]
    ensures Moves(edits', i) == Moves(edits, i)
    decreases |edits| - i
  {
    if i < |edits| { MovesFramed(edits, edits', i + 1); }
  }

  lemma {:induction false} KeepsLead<T>(p: Problem<T>, diagonal: int, lo: int, hi: int, rest: Script)
    requires 0 <= lo <= hi && 0 <= lo + diagonal && EqualRange(p, diagonal, lo, hi)
    requires Leads(p, rest, hi, hi + diagonal)
    ensures Leads(p, Keeps(hi - lo, rest), lo, lo + diagonal)
    ensures Cost(Keeps(hi - lo, rest)) == Cost(rest)
    decreases hi - lo
  {
    if lo < hi {
      assert EqualAt(p, diagonal, lo);
      KeepsLead(p, diagonal, lo + 1, hi, rest);
    }
  }

  // ---------------------------------------------------------------------------------------------
  // The back-trace
  // ---------------------------------------------------------------------------------------------

  /** Cell k of row d is a point of a cheapest script, and `rest` is the remainder of that script. */
  ghost predicate OnPath<T>(p: Problem<T>, d: nat, k: int, rest: Script) {
    && 0 <= k <= d
    && OnCheapest(p, d, Reach(p, d, k), Reach(p, d, k) + (2 * k - d), rest)
  }

  ghost predicate OnCheapest<T>(p: Problem<T>, d: int, x: int, y: int, rest: Script) {
    && Leads(p, rest, x, y)
    && Dist(p, x, y) == d
    && d + Cost(rest) == Dist(p, |p.base|, |p.target|)
  }

  /** Prepending one real edit and the equal pairs after it stays on a cheapest script. */
  lemma {:induction false} PrependEdit<T>(p: Problem<T>, d: int, diagonal: int, px: int, py: int, start: int, x: int,
      edit: Edit, rest: Script)
    requires OnCheapest(p, d, x, x + diagonal, rest) && edit.runLength == x - start
    requires start == (if edit.insert then px else px + 1) && start + diagonal == (if edit.insert then py + 1 else py)
    requires 0 <= px <= |p.base| && 0 <= py <= |p.target| && Dist(p, px, py) <= d - 1
    requires start <= x && EqualRange(p, diagonal, start, x)
    ensures OnCheapest(p, d - 1, px, py, MoveOf(edit, rest))
  {
    KeepsLead(p, diagonal, start, x, rest);
    CostAtLeast(p, MoveOf(edit, rest), px, py);
  }

  /** A traced insert was a real insert from an unclamped point, followed by equal pairs only. */
  lemma {:induction false} InsertOrigin<T>(p: Problem<T>, d: int, diagonal: int, down: int, px: int, x: int)
    requires down == diagonal - 1 && -(d - 1) <= down <= d - 1 && Candidate(p, d - 1, down, px)
    requires Within(p, d, diagonal, x) && Dist(p, x, x + diagonal) == d
    requires ExtendsTo(p, AfterInsert(p, PointOn(p, down, px)), x)
    ensures px <= x && EqualRange(p, diagonal, px, x) && Within(p, d - 1, down, px)
  {}

  lemma {:induction false} InsertOnPath<T>(p: Problem<T>, d: int, diagonal: int, down: int, px: int, x: int,
      rest: Script, edit: Edit)
    requires down == diagonal - 1 && -(d - 1) <= down <= d - 1 && Good(p, d - 1, down, px)
    requires x == FromInsert(p, down, px)
    requires OnCheapest(p, d, x, x + diagonal, rest) && edit == Edit(true, x - px)
    ensures edit.runLength >= 0 && OnCheapest(p, d - 1, px, px + down, MoveOf(edit, rest))
  {
    InsertExtends(p, d - 1, down, px);
    InsertOrigin(p, d, diagonal, down, px, x);
    PrependEdit(p, d, diagonal, px, px + down, px, x, edit, rest);
  }

  lemma {:induction false} InsertedFrom<T>(p: Problem<T>, d: nat, k: int) returns (x: int, px: int)
    requires 0 < k <= d && ByInsert(p, d, k)
    ensures x == Reach(p, d, k) && px == Reach(p, d - 1, k - 1)
    ensures Good(p, d - 1, 2 * (k - 1) - (d - 1), px) && x == FromInsert(p, 2 * (k - 1) - (d - 1), px)
  {
    ReachIsGood(p, d - 1, k - 1);
    ReachStep(p, d, k);
    x, px := Reach(p, d, k), Reach(p, d - 1, k - 1);
  }

  lemma {:induction false} TraceInsert<T>(p: Problem<T>, d: nat, k: int, rest: Script, edit: Edit)
    requires d > 0 && OnPath(p, d, k, rest) && ByInsert(p, d, k)
    requires edit == Edit(true, Reach(p, d, k) - Reach(p, d - 1, k - 1))
    ensures edit.runLength >= 0 && OnPath(p, d - 1, k - 1, MoveOf(edit, rest))
  {
    var x, px := InsertedFrom(p, d, k);
    InsertOnPath(p, d, 2 * k - d, 2 * (k - 1) - (d - 1), px, x, rest, edit);
  }

  /** On a cheapest script the delete at base's end, which does nothing, does not occur. */
  lemma {:induction false} TracedDeleteIsReal<T>(p: Problem<T>, d: int, diagonal: int, up: int, px: int, x: int,
      rest: Script)
    requires up == diagonal + 1 && Candidate(p, d - 1, up, px) && OnCheapest(p, d, x, x + diagonal, rest)
    requires px == |p.base| ==> x == |p.base|
    ensures px < |p.base|
  {
    var n, m := |p.base|, |p.target|;
    if px == n {
      CostAtBaseEnd(p, rest, n + diagonal);
      if n + diagonal < m {
        assert Within(p, d - 1, up, n);
        DistFromBaseEnd(p, n + up);
      }
    }
  }

  /** A traced delete was a real delete from an unclamped point, followed by equal pairs only. */
  lemma {:induction false} DeleteOrigin<T>(p: Problem<T>, d: int, diagonal: int, up: int, px: int, x: int)
    requires up == diagonal + 1 && Candidate(p, d - 1, up, px) && px < |p.base| && Within(p, d, diagonal, x)
    requires ExtendsTo(p, AfterDelete(p, PointOn(p, up, px)), x)
    ensures px < x && EqualRange(p, diagonal, px + 1, x) && Within(p, d - 1, up, px)
  {}

  lemma {:induction false} DeleteOnPath<T>(p: Problem<T>, d: int, diagonal: int, up: int, px: int, x: int,
      rest: Script, edit: Edit)
    requires up == diagonal + 1 && Good(p, d - 1, up, px) && x == FromDelete(p, up, px)
    requires OnCheapest(p, d, x, x + diagonal, rest) && edit == Edit(false, x - px - 1)
    ensures edit.runLength >= 0 && OnCheapest(p, d - 1, px, px + up, MoveOf(edit, rest))
  {
    DeleteExtends(p, d - 1, up, px);
    TracedDeleteIsReal(p, d, diagonal, up, px, x, rest);
    DeleteOrigin(p, d, diagonal, up, px, x);
    PrependEdit(p, d, diagonal, px, px + up, px + 1, x, edit, rest);
  }

  lemma {:induction false} DeletedFrom<T>(p: Problem<T>, d: nat, k: int) returns (x: int, px: int)
    requires 0 <= k < d && !ByInsert(p, d, k)
    ensures x == Reach(p, d, k) && px == Reach(p, d - 1, k)
    ensures Good(p, d - 1, 2 * k - (d - 1), px) && x == FromDelete(p, 2 * k - (d - 1), px)
  {
    ReachIsGood(p, d - 1, k);
    ReachStep(p, d, k);
    x, px := Reach(p, d, k), Reach(p, d - 1, k);
  }

  lemma {:induction false} TraceDelete<T>(p: Problem<T>, d: nat, k: int, rest: Script, edit: Edit)
    requires d > 0 && k < d && OnPath(p, d, k, rest) && !ByInsert(p, d, k)
    requires edit == Edit(false, Reach(p, d, k) - Reach(p, d - 1, k) - 1)
    ensures edit.runLength >= 0 && OnPath(p, d - 1, k, MoveOf(edit, rest))
  {
    var x, px := DeletedFrom(p, d, k);
    DeleteOnPath(p, d, 2 * k - d, 2 * k - (d - 1), px, x, rest, edit);
  }

  /** The last cell of a row is always an insert. */
  lemma {:induction false} LastIsInsert<T>(p: Problem<T>, d: nat)
    requires d > 0
    ensures ByInsert(p, d, d)
  {
    ReachIsGood(p, d - 1, d - 1);
    InsertExtends(p, d - 1, 2 * (d - 1) - (d - 1), Reach(p, d - 1, d - 1));
  }

  lemma {:induction false} DistFromBaseEnd<T>(p: Problem<T>, j: int)
    requires 0 <= j <= |p.target|
    ensures Dist(p, |p.base|, |p.target|) <= Dist(p, |p.base|, j) + |p.target| - j
    decreases |p.target| - j
  {
    if j < |p.target| { DistLipschitz(p, |p.base|, j + 1); DistFromBaseEnd(p, j + 1); }
  }

  // ---------------------------------------------------------------------------------------------
  // The search
  // ---------------------------------------------------------------------------------------------

  /** Where row d begins: row r holds r + 1 cells. */
  ghost function RowStart(d: int): int {
    if d <= 0 then 0 else RowStart(d - 1) + d
  }

  lemma {:induction false} RowStartMonotone(m: nat, n: nat)
    requires m <= n
    ensures 0 <= RowStart(m) <= RowStart(n)
  {
    if m < n { RowStartMonotone(m, n - 1); } else if m > 0 { RowStartMonotone(m - 1, m - 1); }
  }

  /** The storage keeps the table's base index for cell k of row d. */
  ghost predicate BaseAt<T>(p: Problem<T>, e: seq<int>, d: nat, k: int) {
    0 <= RowStart(d) && 0 <= k && RowStart(d) + k < |e| && e[RowStart(d) + k] == Reach(p, d, k)
  }

  ghost predicate FlagAt<T>(p: Problem<T>, flags: seq<bool>, d: nat, k: int) {
    0 <= RowStart(d) && 0 <= k && RowStart(d) + k < |flags| && (d > 0 ==> flags[RowStart(d) + k] == ByInsert(p, d, k))
  }

  /** The storage still keeps what a delete gives for cell k of row d. */
  ghost predicate DeletedAt<T>(p: Problem<T>, e: seq<int>, flags: seq<bool>, d: nat, k: int) {
    && 0 <= RowStart(d) && 0 <= k && RowStart(d) + k < |e| && RowStart(d) + k < |flags| && d > 0
    && e[RowStart(d) + k] == Deleted(p, d, k) && !flags[RowStart(d) + k]
  }

  /** Cells 0 to i of row d are final, the others still hold what a delete gives. */
  ghost predicate RowUpTo<T>(p: Problem<T>, e: seq<int>, flags: seq<bool>, d: nat, i: int) {
    && (forall k :: 0 <= k <= i ==> BaseAt(p, e, d, k))
    && (forall k :: 0 <= k <= i ==> FlagAt(p, flags, d, k))
    && (forall k :: i < k <= d ==> DeletedAt(p, e, flags, d, k))
  }

  lemma {:induction false} RowAdvances<T>(p: Problem<T>, e: seq<int>, flags: seq<bool>, e': seq<int>,
      flags': seq<bool>, d: nat, i: nat)
    requires RowUpTo(p, e, flags, d, i) && i < d && |e'| == |e| == |flags'| == |flags|
    requires forall j :: 0 <= j < |e| && j != RowStart(d) + i + 1 ==> e'[j] == e[j] && flags'[j] == flags[j]
    requires BaseAt(p, e', d, i + 1) && FlagAt(p, flags', d, i + 1)
    ensures RowUpTo(p, e', flags', d, i + 1)
  {
    forall k | 0 <= k <= i
      ensures BaseAt(p, e', d, k) && FlagAt(p, flags', d, k)
    {
      assert BaseAt(p, e, d, k) && FlagAt(p, flags, d, k);
    }
    forall k | i + 1 < k <= d ensures DeletedAt(p, e', flags', d, k) { assert DeletedAt(p, e, flags, d, k); }
  }

  /** A finished row joins the rows before it. */
  lemma {:induction false} RowCompletes<T>(p: Problem<T>, e: seq<int>, flags: seq<bool>, d: nat)
    requires HoldsBases(p, e, d) && HoldsFlags(p, flags, d) && RowUpTo(p, e, flags, d, d)
    ensures HoldsBases(p, e, d + 1) && HoldsFlags(p, flags, d + 1)
  {
    forall r: nat, k | 0 <= k <= r < d + 1 ensures BaseAt(p, e, r, k) {}
    forall r: nat, k | 0 < r && 0 <= k <= r < d + 1 ensures FlagAt(p, flags, r, k) {}
  }

  ghost predicate HoldsBases<T>(p: Problem<T>, e: seq<int>, rows: int) {
    forall d: nat, k :: 0 <= k <= d < rows ==> BaseAt(p, e, d, k)
  }

  ghost predicate HoldsFlags<T>(p: Problem<T>, flags: seq<bool>, rows: int) {
    forall d: nat, k :: 0 < d && 0 <= k <= d < rows ==> FlagAt(p, flags, d, k)
  }

  /** Rows depend only on the storage below their end. */
  lemma {:induction false} HoldsFramed<T>(p: Problem<T>, e: seq<int>, e': seq<int>, rows: nat)
    requires HoldsBases(p, e, rows)
    requires RowStart(rows) <= |e'| && forall i :: 0 <= i < RowStart(rows) && i < |e| ==> e'[i] == e[i]
    ensures HoldsBases(p, e', rows)
  {
    forall d: nat, k | 0 <= k <= d < rows ensures BaseAt(p, e', d, k) {
      assert BaseAt(p, e, d, k);
      RowStartMonotone(d + 1, rows);
    }
  }

  lemma {:induction false} FlagsFramed<T>(p: Problem<T>, flags: seq<bool>, flags': seq<bool>, rows: nat)
    requires HoldsFlags(p, flags, rows)
    requires RowStart(rows) <= |flags'| && forall i :: 0 <= i < RowStart(rows) && i < |flags| ==> flags'[i] == flags[i]
    ensures HoldsFlags(p, flags', rows)
  {
    forall d: nat, k | 0 < d && 0 <= k <= d < rows ensures FlagAt(p, flags', d, k) {
      assert FlagAt(p, flags, d, k);
      RowStartMonotone(d + 1, rows);
    }
  }

  /** The first cell that stands for both ends lies on the diagonal of the ends. */
  lemma {:induction false} FinishIsFirst<T>(p: Problem<T>, d: nat, k: int)
    requires d > 0 && d - 1 < Dist(p, |p.base|, |p.target|)
    requires 0 <= k <= d && ReachPoint(p, d, k) == EditPoint(|p.base|, |p.target|)
    requires forall j :: 0 <= j < k ==> ReachPoint(p, d, j) != EditPoint(|p.base|, |p.target|)
    ensures Dist(p, |p.base|, |p.target|) == d && 2 * k - d == |p.target| - |p.base|
  {
    var n, m := |p.base|, |p.target|;
    ReachIsGood(p, d, k);
    assert Within(p, d, m - n, n);
    var kept := DistParity(p, n, m);
    DistBounds(p, n, m);
    ReachIsGood(p, d, m - kept);
    var finish := ReachPoint(p, d, m - kept);
  }

  /** If no cell stands for both ends, the row's edits do not suffice. */
  lemma {:induction false} NotFinished<T>(p: Problem<T>, d: nat)
    requires d > 0 && d - 1 < Dist(p, |p.base|, |p.target|)
    requires forall k :: 0 <= k <= d ==> ReachPoint(p, d, k) != EditPoint(|p.base|, |p.target|)
    ensures d < Dist(p, |p.base|, |p.target|)
  {
    var n, m := |p.base|, |p.target|;
    if Dist(p, n, m) == d {
      var kept := DistParity(p, n, m);
      DistBounds(p, n, m);
      assert Within(p, d, m - n, n);
      ReachIsGood(p, d, m - kept);
      var finish := ReachPoint(p, d, m - kept);
    }
  }

  lemma {:induction false} FirstRowFinish<T>(p: Problem<T>)
    ensures Dist(p, |p.base|, |p.target|) >= 0
    ensures Dist(p, |p.base|, |p.target|) == 0 <==> |p.base| == |p.target| && Reach(p, 0, 0) == |p.base|
  {
    ReachIsGood(p, 0, 0);
    DistBounds(p, |p.base|, |p.target|);
    if Dist(p, |p.base|, |p.target|) == 0 { assert Within(p, 0, 0, |p.base|); }
  }

  /** The leading run completes the script. */
  lemma {:induction false} FirstRun<T>(p: Problem<T>, edits: seq<Edit>)
    requires edits != [] && edits[0].runLength == Reach(p, 0, 0) && OnPath(p, 0, 0, Moves(edits, 1))
    ensures Leads(p, ScriptOf(edits), 0, 0) && Cost(ScriptOf(edits)) == Dist(p, |p.base|, |p.target|)
    ensures edits[0].runLength >= 0
  {
    ExtendedExtends(p, EditPoint(0, 0));
    KeepsLead(p, 0, 0, Reach(p, 0, 0), Moves(edits, 1));
  }

  class QuadraticSpaceMyersDiff<T> {
    const p: Problem<T>
    var finishIndex: int
    var editCount: nat
    var endpointBase: seq<int>
    var insert: seq<bool>

    /** The storage holds exactly the first `rows` rows of the table. */
    ghost predicate Rows(rows: nat)
      reads `endpointBase, `insert
    {
      && |endpointBase| == RowStart(rows) && HoldsBases(p, endpointBase, rows)
      && |insert| == (if rows == 1 then 0 else RowStart(rows)) && HoldsFlags(p, insert, rows)
    }

    /** The search goes on exactly while the rows so far do not reach both ends. */
    ghost predicate Valid()
      reads this
    {
      Rows(editCount + 1) && Searched()
    }

    ghost predicate Searched()
      reads `editCount, `finishIndex
    {
      if finishIndex == -1 then editCount < Dist(p, |p.base|, |p.target|)
      else editCount == Dist(p, |p.base|, |p.target|) && Finished(finishIndex - RowStart(editCount))
    }

    /** Cell k of the last row stands for both ends and lies on the ends' own diagonal. */
    ghost predicate Finished(k: int)
      reads `editCount
    {
      0 <= k <= editCount && 2 * k - editCount == |p.target| - |p.base| && Reach(p, editCount, k) == |p.base|
    }

    constructor (problem: Problem<T>)
      ensures p == problem && Valid() && editCount == 0
    {
      p := problem;
      finishIndex := -1;
      editCount := 0;
      endpointBase := [];
      insert := [];
      new;
      var q := ExtendFrom(EditPoint(0, 0));
      endpointBase := [q.base];
      FirstRowFinish(p);
      assert RowStart(1) == 1;
      if |p.base| == |p.target| && endpointBase[0] == |p.base| { finishIndex := 0; }
    }

    /** Skips the equal pairs from q on; the values are compared only inside both arrays. */
    method ExtendFrom(q: EditPoint) returns (r: EditPoint)
      requires InBounds(p, q)
      ensures r == EditPoint(Extended(p, q), q.target - q.base + Extended(p, q))
    {
      r := q;
      while r.base != |p.base| && r.target != |p.target|
        invariant InBounds(p, r) && r.base - q.base == r.target - q.target && q.base <= r.base
        invariant EqualRange(p, q.target - q.base, q.base, r.base)
        decreases |p.base| - r.base
      {
        if !ValuesEqual(p, r.base, r.target) { break; }
        assert EqualAt(p, q.target - q.base, r.base);
        r := EditPoint(r.base + 1, r.target + 1);
      }
      ExtendedIs(p, q, r.base);
    }

    method DeleteOne(q: EditPoint) returns (r: EditPoint)
      requires InBounds(p, q)
      ensures r.base == Extended(p, AfterDelete(p, q))
    {
      var q' := q;
      if q.base != |p.base| { q' := EditPoint(q.base + 1, q.target); }
      r := ExtendFrom(q');
    }

    method InsertOne(q: EditPoint) returns (r: EditPoint)
      requires InBounds(p, q)
      ensures r.base == Extended(p, AfterInsert(p, q))
    {
      var q' := q;
      if q.target != |p.target| { q' := EditPoint(q.base, q.target + 1); }
      r := ExtendFrom(q');
    }

    /** Joins a stored base index with the target index its position stands for. */
    function GetEditPoint(edits: int, index: int): EditPoint
      requires 0 <= index < |endpointBase|
      reads this
    {
      var insertionsMinusDeletions := 2 * (index - StorageOffset(edits)) - edits;
      var maximalBase := endpointBase[index];
      EditPoint(maximalBase, Smaller(maximalBase + insertionsMinusDeletions, |p.target|))
    }

    lemma {:induction false} GetEditPointIsReachPoint(d: nat, k: int)
      requires BaseAt(p, endpointBase, d, k)
      ensures StorageOffset(d) == RowStart(d) >= 0 && RowStart(d) + k < |endpointBase|
      ensures GetEditPoint(d, RowStart(d) + k) == ReachPoint(p, d, k)
    {
      StorageOffsetIsRowStart(d);
    }

    predicate Done()
      reads this
    {
      finishIndex != -1
    }

    /** Computes the row for one more edit; it is the last row exactly when that many edits suffice. */
    method Next()
      requires Valid() && !Done()
      modifies this
      ensures Valid() && editCount == old(editCount) + 1
    {
      GrowStorage();
      DeleteRow();
      InsertRow();
      FindFinish();
    }

    /** Makes room, filled with zeroes and false flags, for the next row. */
    method GrowStorage()
      requires Rows(editCount + 1)
      modifies this
      ensures editCount == old(editCount) + 1 && finishIndex == old(finishIndex)
      ensures |endpointBase| == RowStart(editCount + 1) == |insert|
      ensures HoldsBases(p, endpointBase, editCount) && HoldsFlags(p, insert, editCount)
      ensures forall i :: 0 <= RowStart(editCount) <= i < |insert| ==> !insert[i] && endpointBase[i] == 0
    {
      editCount := editCount + 1;
      StorageOffsetIsRowStart(editCount + 1);
      StorageOffsetIsRowStart(editCount);
      RowStartMonotone(1, editCount);
      if |endpointBase| < StorageOffset(editCount + 1) {
        endpointBase := endpointBase + seq(StorageOffset(editCount + 1) - |endpointBase|, _ => 0);
      }
      if |insert| < StorageOffset(editCount + 1) {
        insert := insert + seq(StorageOffset(editCount + 1) - |insert|, _ => false);
      }
      HoldsFramed(p, old(endpointBase), endpointBase, editCount);
      FlagsFramed(p, old(insert), insert, editCount);
    }

    /** Tries deleting from base first. */
    method DeleteRow()
      requires editCount > 0 && |endpointBase| == |insert| == RowStart(editCount + 1)
      requires HoldsBases(p, endpointBase, editCount)
      requires forall i :: 0 <= RowStart(editCount) <= i < |endpointBase| ==> endpointBase[i] == 0 && !insert[i]
      modifies this`endpointBase
      ensures |endpointBase| == RowStart(editCount + 1) && HoldsBases(p, endpointBase, editCount)
      ensures forall k :: 0 <= k <= editCount ==> DeletedAt(p, endpointBase, insert, editCount, k)
    {
      var i := 0;
      RowStartMonotone(0, editCount);
      while i < editCount
        invariant 0 <= i <= editCount && |endpointBase| == RowStart(editCount + 1)
        invariant HoldsBases(p, endpointBase, editCount)
        invariant forall k :: 0 <= k < i ==> DeletedAt(p, endpointBase, insert, editCount, k)
        invariant endpointBase[RowStart(editCount) + editCount] == 0
      {
        ghost var e := endpointBase;
        assert BaseAt(p, endpointBase, editCount - 1, i);
        DeleteCell(i);
        HoldsFramed(p, e, endpointBase, editCount);
        forall k | 0 <= k < i
          ensures DeletedAt(p, endpointBase, insert, editCount, k)
        {
          assert DeletedAt(p, e, insert, editCount, k);
        }
        i := i + 1;
      }
      assert DeletedAt(p, endpointBase, insert, editCount, editCount);
    }

    /** One pass of the delete loop: cell i gets what a delete from cell i of the row before leads to. */
    method DeleteCell(i: nat)
      requires i < editCount && |endpointBase| == |insert| == RowStart(editCount + 1)
      requires 0 <= RowStart(editCount) && BaseAt(p, endpointBase, editCount - 1, i) && !insert[RowStart(editCount) + i]
      modifies this`endpointBase
      ensures |endpointBase| == RowStart(editCount + 1)
      ensures forall j :: 0 <= j < |endpointBase| && j != RowStart(editCount) + i ==>
                endpointBase[j] == old(endpointBase)[j]
      ensures DeletedAt(p, endpointBase, insert, editCount, i)
    {
      var previousOffset := StorageOffset(editCount - 1);
      var currentOffset := StorageOffset(editCount);
      StorageOffsetIsRowStart(editCount);
      GetEditPointIsReachPoint(editCount - 1, i);
      ReachInBounds(p, editCount - 1, i);
      var previousEndpoint := GetEditPoint(editCount - 1, i + previousOffset);
      var r := DeleteOne(previousEndpoint);
      endpointBase := endpointBase[i + currentOffset := r.base];
    }

    /** Checks if inserting from target could do better. */
    method InsertRow()
      requires editCount > 0 && |endpointBase| == |insert| == RowStart(editCount + 1)
      requires HoldsBases(p, endpointBase, editCount) && HoldsFlags(p, insert, editCount)
      requires forall k :: 0 <= k <= editCount ==> DeletedAt(p, endpointBase, insert, editCount, k)
      modifies this`endpointBase, this`insert
      ensures Rows(editCount + 1)
    {
      var i := 0;
      assert DeletedAt(p, endpointBase, insert, editCount, 0) && !ByInsert(p, editCount, 0);
      ReachStep(p, editCount, 0);
      assert BaseAt(p, endpointBase, editCount, 0) && FlagAt(p, insert, editCount, 0);
      while i < editCount
        invariant 0 <= i <= editCount && |endpointBase| == |insert| == RowStart(editCount + 1)
        invariant HoldsBases(p, endpointBase, editCount) && HoldsFlags(p, insert, editCount)
        invariant RowUpTo(p, endpointBase, insert, editCount, i)
      {
        ghost var e, flags := endpointBase, insert;
        assert BaseAt(p, endpointBase, editCount - 1, i);
        assert DeletedAt(p, endpointBase, insert, editCount, i + 1);
        InsertCell(i);
        HoldsFramed(p, e, endpointBase, editCount);
        FlagsFramed(p, flags, insert, editCount);
        RowAdvances(p, e, flags, endpointBase, insert, editCount, i);
        i := i + 1;
      }
      RowCompletes(p, endpointBase, insert, editCount);
    }

    /** One pass of the insert loop: cell i + 1 keeps the insert unless the delete got further. */
    method InsertCell(i: nat)
      requires i < editCount && |endpointBase| == |insert| == RowStart(editCount + 1)
      requires BaseAt(p, endpointBase, editCount - 1, i) && DeletedAt(p, endpointBase, insert, editCount, i + 1)
      modifies this`endpointBase, this`insert
      ensures |endpointBase| == |insert| == RowStart(editCount + 1)
      ensures forall j :: 0 <= j < |endpointBase| && j != RowStart(editCount) + i + 1 ==>
                endpointBase[j] == old(endpointBase)[j] && insert[j] == old(insert)[j]
      ensures BaseAt(p, endpointBase, editCount, i + 1) && FlagAt(p, insert, editCount, i + 1)
    {
      var previousOffset := StorageOffset(editCount - 1);
      var currentOffset := StorageOffset(editCount);
      StorageOffsetIsRowStart(editCount);
      var iOut := i + 1;
      var endpointAfterDeletion := GetEditPoint(editCount, iOut + currentOffset);
      GetEditPointIsReachPoint(editCount - 1, i);
      ReachInBounds(p, editCount - 1, i);
      var previousEndpoint := GetEditPoint(editCount - 1, i + previousOffset);
      var endpointAfterInsertion := InsertOne(previousEndpoint);
      assert endpointAfterInsertion.base == Inserted(p, editCount, iOut);
      ReachStep(p, editCount, iOut);
      if endpointAfterInsertion.base - endpointAfterDeletion.base >= 0 {
        insert := insert[iOut + currentOffset := true];
        endpointBase := endpointBase[iOut + currentOffset := endpointAfterInsertion.base];
      }
    }

    /** Looks for a cell that stands for both ends. */
    method FindFinish()
      requires editCount > 0 && Rows(editCount + 1) && finishIndex == -1
      requires editCount - 1 < Dist(p, |p.base|, |p.target|)
      modifies this`finishIndex
      ensures Searched()
    {
      var currentOffset := StorageOffset(editCount);
      StorageOffsetIsRowStart(editCount);
      var finish := EditPoint(|p.base|, |p.target|);
      var iOut := 0;
      while iOut < editCount + 1
        invariant 0 <= iOut <= editCount + 1 && finishIndex == -1
        invariant forall k :: 0 <= k < iOut ==> ReachPoint(p, editCount, k) != finish
      {
        assert BaseAt(p, endpointBase, editCount, iOut);
        GetEditPointIsReachPoint(editCount, iOut);
        if GetEditPoint(editCount, iOut + currentOffset) == finish {
          FinishIsFirst(p, editCount, iOut);
          finishIndex := iOut + currentOffset;
          return;
        }
        iOut := iOut + 1;
      }
      NotFinished(p, editCount);
    }

    lemma {:induction false} FinishOnPath(k: int)
      requires Finished(k) && editCount == Dist(p, |p.base|, |p.target|)
      ensures OnPath(p, editCount, k, End)
    {}

    /** Traces the search back into an edit script. */
    method GetEdits() returns (edits: seq<Edit>)
      requires Valid() && Done()
      ensures |edits| == Dist(p, |p.base|, |p.target|) + 1
      ensures !edits[0].insert && forall i :: 0 <= i < |edits| ==> edits[i].runLength >= 0
      ensures Leads(p, ScriptOf(edits), 0, 0) && Cost(ScriptOf(edits)) == |edits| - 1
    {
      ghost var k := finishIndex - RowStart(editCount);
      assert BaseAt(p, endpointBase, editCount, k);
      GetEditPointIsReachPoint(editCount, k);
      FinishOnPath(k);
      var endpoint := GetEditPoint(editCount, finishIndex);
      edits, endpoint := BackTrace(finishIndex, endpoint, k);
      ghost var traced := edits;
      edits := edits[0 := Edit(false, endpoint.base)];
      MovesFramed(traced, edits, 1);
      FirstRun(p, edits);
    }

    /** The loop of the back-trace, from the finishing cell down to row 0. */
    method BackTrace(finish: int, finishPoint: EditPoint, ghost finishK: int)
      returns (edits: seq<Edit>, endpoint: EditPoint)
      requires Rows(editCount + 1)
      requires finish == RowStart(editCount) + finishK && OnPath(p, editCount, finishK, End)
      requires finishPoint == ReachPoint(p, editCount, finishK)
      ensures |edits| == editCount + 1 && forall i :: 0 <= i < |edits| ==> edits[i].runLength >= 0
      ensures OnPath(p, 0, 0, Moves(edits, 1)) && endpoint == ReachPoint(p, 0, 0)
    {
      edits := seq(editCount + 1, _ => Edit(false, 0));
      var index := finish;
      endpoint := finishPoint;
      ghost var k := finishK;
      var i := editCount;
      while i > 0
        invariant 0 <= i <= editCount && |edits| == editCount + 1
        invariant index == RowStart(i) + k && endpoint == ReachPoint(p, i, k)
        invariant OnPath(p, i, k, Moves(edits, i + 1))
        invariant forall j :: 0 <= j < |edits| ==> edits[j].runLength >= 0
      {
        var edit;
        ghost var before := edits;
        edit, index, endpoint, k := TraceBack(i, index, endpoint, k, Moves(edits, i + 1));
        edits := edits[i := edit];
        MovesFramed(before, edits, i + 1);
        i := i - 1;
      }
    }

    /** The cell a cell was reached from, found through the diagonal its endpoint stands on. */
    method PreviousCell(i: nat, index: int, endpoint: EditPoint, ghost k: int)
      returns (inserted: bool, index': int, previous: EditPoint, ghost k': int)
      requires Rows(editCount + 1) && 0 < i <= editCount && 0 <= k <= i && index == RowStart(i) + k
      requires endpoint == EditPoint(Reach(p, i, k), Reach(p, i, k) + (2 * k - i))
      ensures inserted == ByInsert(p, i, k) && k' == (if inserted then k - 1 else k) && 0 <= k' <= i - 1
      ensures index' == RowStart(i - 1) + k' && previous == ReachPoint(p, i - 1, k')
    {
      assert BaseAt(p, endpointBase, i, k) && FlagAt(p, insert, i, k);
      LastIsInsert(p, i);
      inserted := insert[index];
      var insertionsMinusDeletions := endpoint.base - endpoint.target;
      if inserted { insertionsMinusDeletions := insertionsMinusDeletions + 1; }
      else { insertionsMinusDeletions := insertionsMinusDeletions - 1; }
      k' := if inserted then k - 1 else k;
      assert insertionsMinusDeletions == (i - 1) - 2 * k';
      assert BaseAt(p, endpointBase, i - 1, k');
      GetEditPointIsReachPoint(i - 1, k');
      index' := (i - 1 - insertionsMinusDeletions) / 2 + StorageOffset(i - 1);
      previous := GetEditPoint(i - 1, index');
    }

    /** One pass of the back-trace: the edit that led to a cell, and the cell it came from. */
    method TraceBack(i: nat, index: int, endpoint: EditPoint, ghost k: int, ghost rest: Script)
      returns (edit: Edit, index': int, previous: EditPoint, ghost k': int)
      requires Rows(editCount + 1) && 0 < i <= editCount
      requires index == RowStart(i) + k && OnPath(p, i, k, rest) && endpoint == ReachPoint(p, i, k)
      ensures index' == RowStart(i - 1) + k' && previous == ReachPoint(p, i - 1, k')
      ensures edit.runLength >= 0 && OnPath(p, i - 1, k', MoveOf(edit, rest))
    {
      var inserted;
      inserted, index', previous, k' := PreviousCell(i, index, endpoint, k);
      var in_ := if inserted then 1 else 0;
      edit := Edit(inserted, endpoint.base - previous.base - (1 - in_));
      if inserted { TraceInsert(p, i, k, rest, edit); } else { TraceDelete(p, i, k, rest, edit); }
    }
  }

  /**
   The whole diff: an edit script that is valid and as short as any. Its edits are the elements that a longest pairing
   of agreeing slots leaves over.
   */
  method Diff<T>(p: Problem<T>) returns (edits: seq<Edit>)
    ensures edits != [] && !edits[0].insert && forall i :: 0 <= i < |edits| ==> edits[i].runLength >= 0
    ensures Leads(p, ScriptOf(edits), 0, 0) && Cost(ScriptOf(edits)) == |edits| - 1
    ensures forall script :: Leads(p, script, 0, 0) ==> |edits| - 1 <= Cost(script)
    ensures forall xs, ys :: Common(p, |p.base|, |p.target|, xs, ys) ==>
              |edits| - 1 <= |p.base| + |p.target| - 2 * |xs|
    ensures exists xs, ys :: Common(p, |p.base|, |p.target|, xs, ys) &&
              |edits| - 1 == |p.base| + |p.target| - 2 * |xs|
  {
    var d := new QuadraticSpaceMyersDiff(p);
    DistBounds(p, |p.base|, |p.target|);
    while !d.Done()
      invariant d.p == p && d.Valid()
      decreases |p.base| + |p.target| - d.editCount
    {
      d.Next();
    }
    edits := d.GetEdits();
    forall script | Leads(p, script, 0, 0) ensures |edits| - 1 <= Cost(script) {
      CostAtLeast(p, script, 0, 0);
    }
    ghost var n, m := |p.base|, |p.target|;
    forall xs, ys | Common(p, n, m, xs, ys) ensures |edits| - 1 <= n + m - 2 * |xs| { DistAtMost(p, n, m, xs, ys); }
    ghost var xs, ys := DistAttained(p, n, m);
  }

  /** Slots of two arrays paired in order, each pair equal, nulls included. */
  ghost predicate EqualPairs<T>(base: seq<Option<T>>, target: seq<Option<T>>, xs: seq<int>, ys: seq<int>) {
    && |xs| == |ys|
    && (forall k :: 0 <= k < |xs| ==> 0 <= xs[k] < |base|)
    && (forall k :: 0 <= k < |xs| ==> 0 <= ys[k] < |target|)
    && (forall k, l :: 0 <= k < l < |xs| ==> xs[k] < xs[l] && ys[k] < ys[l])
    && (forall k :: 0 <= k < |xs| ==> base[xs[k]] == target[ys[k]])
  }

  /** With equality as the comparison, no pairing of equal slots in order leaves fewer elements over than are edited. */
  method DiffByEquality<T(==)>(base: seq<Option<T>>, target: seq<Option<T>>) returns (edits: seq<Edit>)
    ensures edits != []
    ensures forall xs, ys :: EqualPairs(base, target, xs, ys) ==> |edits| - 1 <= |base| + |target| - 2 * |xs|
    ensures base == target ==> edits == [Edit(false, |base|)]
  {
    var p := Problem(base, target, (a: T, b: T) => a == b);
    edits := Diff(p);
    forall xs, ys | EqualPairs(base, target, xs, ys) ensures |edits| - 1 <= |base| + |target| - 2 * |xs| {
      forall k | 0 <= k < |xs| ensures Agree(p, xs[k], ys[k]) { assert base[xs[k]] == target[ys[k]]; }
      assert Common(p, |base|, |target|, xs, ys);
    }
    if base == target {
      var all := UpTo(|base|);
      assert EqualPairs(base, target, all, all);
      KeepsOnly(p, edits[0].runLength, 0);
    }
  }

  ghost function UpTo(n: nat): (s: seq<int>)
    ensures |s| == n && forall k :: 0 <= k < n ==> s[k] == k
  {
    if n == 0 then [] else UpTo(n - 1) + [n - 1]
  }

  /** A script that only keeps keeps all of base. */
  lemma {:induction false} KeepsOnly<T>(p: Problem<T>, n: nat, i: int)
    requires Leads(p, Keeps(n, End), i, i)
    ensures i + n == |p.base|
    decreases n
  {
    if n > 0 { KeepsOnly(p, n - 1, i + 1); }
  }
}

/** The walk that prints an edit script, and what its lines are good for. */
module UnifiedDiff {
  import opened Basics
  import opened EditGraph
  import opened MyersDiff

  /** A printed line: a hunk header, an added target element, a removed base element. */
  datatype Line = Position(base: int, target: int) | Added(index: int) | Removed(index: int)

  /** Lines in order, read from the first. */
  datatype Lines = Nil | Cons(line: Line, rest: Lines)

  /** Printed lines in front of others. */
  ghost function Prepend(lines: seq<Line>, rest: Lines): Lines {
    if lines == [] then rest else Prepend(lines[..|lines| - 1], Cons(lines[|lines| - 1], rest))
  }

  lemma {:induction false} PrependOne(lines: seq<Line>, line: Line, rest: Lines)
    ensures Prepend(lines + [line], rest) == Prepend(lines, Cons(line, rest))
  {
    assert (lines + [line])[..|lines|] == lines;
  }

  /** The lines a script gives from position (i, j) on; a header is due unless one was just written. */
  ghost function Hunks(script: Script, i: int, j: int, wrote: bool): Lines {
    match script
    case End => Nil
    case Move(Keep, rest) => Hunks(rest, i + 1, j + 1, false)
    case Move(Delete, rest) => Headed(i, j, wrote, Cons(Removed(i), Hunks(rest, i + 1, j, true)))
    case Move(Insert, rest) => Headed(i, j, wrote, Cons(Added(j), Hunks(rest, i, j + 1, true)))
  }

  ghost function Headed(i: int, j: int, wrote: bool, lines: Lines): Lines {
    if wrote then lines else Cons(Position(i, j), lines)
  }

  /** Lines that can be applied to base from index i on without leaving either array. */
  ghost predicate Applicable<T>(p: Problem<T>, lines: Lines, i: int) {
    && 0 <= i <= |p.base|
    && match lines
       case Nil => true
       case Cons(Position(b, _), rest) => i <= b <= |p.base| && Applicable(p, rest, b)
       case Cons(Removed(b), rest) => b == i < |p.base| && Applicable(p, rest, i + 1)
       case Cons(Added(t), rest) => 0 <= t < |p.target| && Applicable(p, rest, i)
  }

  /** Applies lines to base as a patch: a header copies base up to its position, the end copies the rest. */
  ghost function Patch<T>(p: Problem<T>, lines: Lines, i: int): seq<Option<T>>
    requires Applicable(p, lines, i)
  {
    match lines
    case Nil => p.base[i..]
    case Cons(Position(b, _), rest) => p.base[i..b] + Patch(p, rest, b)
    case Cons(Removed(_), rest) => Patch(p, rest, i + 1)
    case Cons(Added(t), rest) => [p.target[t]] + Patch(p, rest, i)
  }

  /**
   The target indexes are right for a reader that has read base up to i and written n elements: a header gives how many
   are written once base is copied up to its position, and elements are added in target's order.
   */
  ghost predicate Numbered(lines: Lines, i: int, n: int) {
    match lines
    case Nil => true
    case Cons(Position(b, t), rest) => t == n + (b - i) && Numbered(rest, b, t)
    case Cons(Removed(_), rest) => Numbered(rest, i + 1, n)
    case Cons(Added(t), rest) => t == n && Numbered(rest, i, n + 1)
  }

  lemma {:induction false} HunksNumbered(script: Script, i: int, j: int, wrote: bool, start: int)
    requires wrote ==> start == i
    ensures Numbered(Hunks(script, i, j, wrote), start, j - (i - start))
    decreases script
  {
    match script
    case End =>
    case Move(Keep, rest) => HunksNumbered(rest, i + 1, j + 1, false, start);
    case Move(Delete, rest) => HunksNumbered(rest, i + 1, j, true, i + 1);
    case Move(Insert, rest) => HunksNumbered(rest, i, j + 1, true, i);
  }

  /** The printed lines alone rebuild what the script rebuilds: no kept element needs to be printed. */
  lemma {:induction false} PatchReplays<T>(p: Problem<T>, script: Script, i: int, j: int, start: int)
    requires Leads(p, script, i, j) && 0 <= start <= i
    ensures Applicable(p, Hunks(script, i, j, false), start)
    ensures Patch(p, Hunks(script, i, j, false), start) == p.base[start..i] + Replay(p, script, i, j)
    decreases script, 1
  {
    match script
    case End =>
    case Move(Keep, rest) =>
      PatchReplays(p, rest, i + 1, j + 1, start);
      assert p.base[start..i + 1] == p.base[start..i] + [p.base[i]];
    case Move(_, _) => PatchFollows(p, script, i, j);
  }

  /** Right behind an edit the next one needs no header. */
  lemma {:induction false} PatchFollows<T>(p: Problem<T>, script: Script, i: int, j: int)
    requires Leads(p, script, i, j)
    ensures Applicable(p, Hunks(script, i, j, true), i)
    ensures Patch(p, Hunks(script, i, j, true), i) == Replay(p, script, i, j)
    decreases script, 0
  {
    match script
    case End =>
    case Move(Keep, rest) =>
      PatchReplays(p, rest, i + 1, j + 1, i);
      assert p.base[i..i + 1] == [p.base[i]];
    case Move(Delete, rest) => PatchFollows(p, rest, i + 1, j);
    case Move(Insert, rest) => PatchFollows(p, rest, i, j + 1);
  }

  lemma {:induction false} KeepsHunks(n: nat, rest: Script, i: int, j: int, wrote: bool)
    ensures Hunks(Keeps(n, rest), i, j, wrote) == Hunks(rest, i + n, j + n, wrote && n == 0)
    decreases n
  {
    if n > 0 { KeepsHunks(n - 1, rest, i + 1, j + 1, false); }
  }

  lemma {:induction false} KeepsLeadOn<T>(p: Problem<T>, n: nat, rest: Script, i: int, j: int)
    requires Leads(p, Keeps(n, rest), i, j)
    ensures Leads(p, rest, i + n, j + n)
    decreases n
  {
    if n > 0 { KeepsLeadOn(p, n - 1, rest, i + 1, j + 1); }
  }

  /** What is still to be walked leads to both ends and gives the lines still missing. */
  ghost predicate Ahead<T>(p: Problem<T>, script: Script, lines: seq<Line>, i: int, j: int, wrote: bool, all: Lines) {
    Leads(p, script, i, j) && Prepend(lines, Hunks(script, i, j, wrote)) == all
  }

  /** Walks an edit script and collects its lines; elements are printed only from inside their array. */
  method WriteUnified<T>(p: Problem<T>, edits: seq<Edit>) returns (lines: seq<Line>, baseIndex: int, targetIndex: int)
    requires edits != [] && Leads(p, ScriptOf(edits), 0, 0)
    requires forall i :: 0 <= i < |edits| ==> edits[i].runLength >= 0
    ensures Prepend(lines, Nil) == Hunks(ScriptOf(edits), 0, 0, false)
    ensures Applicable(p, Prepend(lines, Nil), 0)
    ensures Patch(p, Prepend(lines, Nil), 0) == Replay(p, ScriptOf(edits), 0, 0)
    ensures Numbered(Prepend(lines, Nil), 0, 0)
    ensures baseIndex == |p.base| && targetIndex == |p.target|
  {
    lines, baseIndex, targetIndex := [], 0, 0;
    var wrotePosition := false;
    ghost var all := Hunks(ScriptOf(edits), 0, 0, false);
    var i := 0;
    while i < |edits|
      invariant 0 <= i <= |edits|
      invariant Ahead(p, if i == 0 then ScriptOf(edits)
                  else Moves(edits, i), lines, baseIndex, targetIndex, wrotePosition, all)
    {
      ghost var rest := Moves(edits, i + 1);
      if i > 0 {
        lines, baseIndex, targetIndex,
            wrotePosition := WriteEdit(p, edits[i], lines, baseIndex, targetIndex, wrotePosition, rest, all);
      }
      baseIndex, targetIndex, wrotePosition := SkipRun(p, edits[i].runLength, lines, baseIndex, targetIndex,
          wrotePosition, rest, all);
      i := i + 1;
    }
    PatchReplays(p, ScriptOf(edits), 0, 0, 0);
    HunksNumbered(ScriptOf(edits), 0, 0, false, 0);
    assert p.base[0..0] == [];
  }

  /** The part of the walk that steps over a run of kept elements. */
  method SkipRun<T>(p: Problem<T>, n: nat, ghost lines: seq<Line>, baseIndex: int, targetIndex: int, wrote: bool,
      ghost rest: Script, ghost all: Lines)
    returns (baseIndex': int, targetIndex': int, wrote': bool)
    requires Ahead(p, Keeps(n, rest), lines, baseIndex, targetIndex, wrote, all)
    ensures Ahead(p, rest, lines, baseIndex', targetIndex', wrote', all)
  {
    KeepsHunks(n, rest, baseIndex, targetIndex, wrote);
    KeepsLeadOn(p, n, rest, baseIndex, targetIndex);
    baseIndex', targetIndex', wrote' := baseIndex, targetIndex, wrote;
    for j := 0 to n
      invariant baseIndex' == baseIndex + j && targetIndex' == targetIndex + j && wrote' == (wrote && j == 0)
    {
      baseIndex', targetIndex', wrote' := baseIndex' + 1, targetIndex' + 1, false;
    }
  }

  /** The part of the walk that writes one insert or delete, with a header when one is due. */
  method WriteEdit<T>(p: Problem<T>, edit: Edit, lines: seq<Line>, baseIndex: int, targetIndex: int, wrote: bool,
      ghost rest: Script, ghost all: Lines)
    returns (lines': seq<Line>, baseIndex': int, targetIndex': int, wrote': bool)
    requires Ahead(p, MoveOf(edit, rest), lines, baseIndex, targetIndex, wrote, all)
    ensures Ahead(p, Keeps(edit.runLength, rest), lines', baseIndex', targetIndex', wrote', all)
  {
    lines', baseIndex', targetIndex', wrote' := lines, baseIndex, targetIndex, wrote;
    ghost var run := Keeps(edit.runLength, rest);
    if !wrote' {
      PrependOne(lines', Position(baseIndex', targetIndex'), Hunks(MoveOf(edit, rest), baseIndex, targetIndex, true));
      lines' := lines' + [Position(baseIndex', targetIndex')];
      wrote' := true;
    }
    if edit.insert {
      assert targetIndex' < |p.target|;
      PrependOne(lines', Added(targetIndex'), Hunks(run, baseIndex, targetIndex + 1, true));
      lines' := lines' + [Added(targetIndex')];
      targetIndex' := targetIndex' + 1;
    } else {
      assert baseIndex' < |p.base|;
      PrependOne(lines', Removed(baseIndex'), Hunks(run, baseIndex + 1, targetIndex, true));
      lines' := lines' + [Removed(baseIndex')];
      baseIndex' := baseIndex' + 1;
    }
  }

  /** Diffing two arrays, printing the diff and patching base with it gives target, when the comparison is equality. */
  method DiffPrintPatch<T(==)>(base: seq<Option<T>>, target: seq<Option<T>>) returns (lines: seq<Line>)
    ensures var p := Problem(base, target, (a, b) => a == b);
            Applicable(p, Prepend(lines, Nil), 0) && Patch(p, Prepend(lines, Nil), 0) == target
  {
    var p := Problem(base, target, (a: T, b: T) => a == b);
    var edits := Diff(p);
    var b, t;
    lines, b, t := WriteUnified(p, edits);
    ghost var replayed := Replay(p, ScriptOf(edits), 0, 0);
    ReplayMatchesTarget(p, ScriptOf(edits), 0, 0);
    forall n | 0 <= n < |replayed| ensures replayed[n] == target[n] { assert StandsFor(p, replayed[n], 0 + n); }
    assert replayed == target;
  }
}

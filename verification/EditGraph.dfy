/** The edit graph of two arrays: what an edit script is, what it costs, and how far one has to go. */
module EditGraph {
  import opened Basics

  /** Two arrays of nullable slots and the comparison of their non-null values, which may be any relation. */
  datatype Problem<!T> = Problem(base: seq<Option<T>>, target: seq<Option<T>>, valueEqual: (T, T) -> bool)

  /** One move of an edit script: keep a shared element, delete one of base, insert one of target. */
  datatype Step = Keep | Delete | Insert

  /** A null equals only a null; other slots are compared by value. */
  predicate ValuesEqual<T>(p: Problem<T>, i: int, j: int)
    requires 0 <= i < |p.base| && 0 <= j < |p.target|
  {
    if p.base[i].None? || p.target[j].None? then p.base[i].None? && p.target[j].None?
    else p.valueEqual(p.base[i].value, p.target[j].value)
  }

  /** An edit script: its moves in order. */
  datatype Script = End | Move(step: Step, rest: Script)

  /** `script` leads from position (i, j) to the ends of both arrays and keeps only equal pairs. */
  ghost predicate Leads<T>(p: Problem<T>, script: Script, i: int, j: int) {
    && 0 <= i <= |p.base| && 0 <= j <= |p.target|
    && match script
       case End => i == |p.base| && j == |p.target|
       case Move(Keep, rest) => i < |p.base| && j < |p.target| && ValuesEqual(p, i, j) && Leads(p, rest, i + 1, j + 1)
       case Move(Delete, rest) => i < |p.base| && Leads(p, rest, i + 1, j)
       case Move(Insert, rest) => j < |p.target| && Leads(p, rest, i, j + 1)
  }

  /** Inserts plus deletes. */
  ghost function Cost(script: Script): nat {
    match script
    case End => 0
    case Move(step, rest) => (if step.Keep? then 0 else 1) + Cost(rest)
  }

  /**
   What applying `script` from position (i, j) of base writes: kept elements come from base, inserted ones from target.
   */
  ghost function Replay<T>(p: Problem<T>, script: Script, i: int, j: int): seq<Option<T>>
    requires Leads(p, script, i, j)
  {
    match script
    case End => []
    case Move(Keep, rest) => [p.base[i]] + Replay(p, rest, i + 1, j + 1)
    case Move(Delete, rest) => Replay(p, rest, i + 1, j)
    case Move(Insert, rest) => [p.target[j]] + Replay(p, rest, i, j + 1)
  }

  /** Fewest inserts and deletes that turn the first i elements of base into the first j of target. */
  ghost function Dist<T>(p: Problem<T>, i: int, j: int): int
    requires 0 <= i <= |p.base| && 0 <= j <= |p.target|
    decreases i + j
  {
    if i == 0 then j
    else if j == 0 then i
    else
      var edited := 1 + Smaller(Dist(p, i - 1, j), Dist(p, i, j - 1));
      if ValuesEqual(p, i - 1, j - 1) then Smaller(edited, Dist(p, i - 1, j - 1)) else edited
  }

  lemma {:induction false} DistBounds<T>(p: Problem<T>, i: int, j: int)
    requires 0 <= i <= |p.base| && 0 <= j <= |p.target|
    ensures Dist(p, i, j) <= i + j
    ensures i - j <= Dist(p, i, j) && j - i <= Dist(p, i, j)
    decreases i + j
  {
    if i > 0 && j > 0 {
      DistBounds(p, i - 1, j);
      DistBounds(p, i, j - 1);
      DistBounds(p, i - 1, j - 1);
    }
  }

  /** The elements a cheapest script does not edit come in pairs. */
  lemma {:induction false} DistParity<T>(p: Problem<T>, i: int, j: int) returns (kept: int)
    requires 0 <= i <= |p.base| && 0 <= j <= |p.target|
    ensures Dist(p, i, j) + 2 * kept == i + j
    decreases i + j
  {
    if i == 0 || j == 0 {
      kept := 0;
    } else {
      var deleted := DistParity(p, i - 1, j);
      var inserted := DistParity(p, i, j - 1);
      var both := DistParity(p, i - 1, j - 1);
      kept := if Dist(p, i, j) == 1 + Dist(p, i - 1, j) then deleted
              else if Dist(p, i, j) == 1 + Dist(p, i, j - 1) then inserted else both + 1;
    }
  }

  /** Moving one column or one row changes the distance by at most one. */
  lemma {:induction false} DistLipschitz<T>(p: Problem<T>, i: int, j: int)
    requires 0 <= i <= |p.base| && 0 <= j <= |p.target|
    ensures i > 0 ==> Dist(p, i - 1, j) <= Dist(p, i, j) + 1 && Dist(p, i, j) <= Dist(p, i - 1, j) + 1
    ensures j > 0 ==> Dist(p, i, j - 1) <= Dist(p, i, j) + 1 && Dist(p, i, j) <= Dist(p, i, j - 1) + 1
    decreases i + j
  {
    if i > 0 && j > 0 {
      DistLipschitz(p, i - 1, j);
      DistLipschitz(p, i, j - 1);
    }
  }

  /** A script from (i, j) cannot cost less than the distance still missing. */
  lemma {:induction false} CostAtLeast<T>(p: Problem<T>, script: Script, i: int, j: int)
    requires Leads(p, script, i, j)
    ensures Dist(p, i, j) + Cost(script) >= Dist(p, |p.base|, |p.target|)
    decreases script
  {
    match script
    case End =>
    case Move(Keep, rest) => CostAtLeast(p, rest, i + 1, j + 1);
    case Move(Delete, rest) => DistLipschitz(p, i + 1, j); CostAtLeast(p, rest, i + 1, j);
    case Move(Insert, rest) => DistLipschitz(p, i, j + 1); CostAtLeast(p, rest, i, j + 1);
  }

  /** Once base is used up only inserts are left. */
  lemma {:induction false} CostAtBaseEnd<T>(p: Problem<T>, script: Script, j: int)
    requires Leads(p, script, |p.base|, j)
    ensures Cost(script) == |p.target| - j
    decreases script
  {
    if script.Move? { CostAtBaseEnd(p, script.rest, j + 1); }
  }

  /** The element stands for target's element j: it is that element, or one of base that equals it. */
  ghost predicate StandsFor<T>(p: Problem<T>, e: Option<T>, j: int)
    requires 0 <= j < |p.target|
  {
    e == p.target[j] || exists m :: 0 <= m < |p.base| && e == p.base[m] && ValuesEqual(p, m, j)
  }

  /** Replaying a script gives an array as long as target that agrees with target slot by slot. */
  lemma {:induction false} ReplayMatchesTarget<T>(p: Problem<T>, script: Script, i: int, j: int)
    requires Leads(p, script, i, j)
    ensures |Replay(p, script, i, j)| == |p.target| - j
    ensures forall n :: 0 <= n < |Replay(p, script, i, j)| ==> StandsFor(p, Replay(p, script, i, j)[n], j + n)
    decreases script
  {
    var r := Replay(p, script, i, j);
    match script
    case End =>
    case Move(Delete, rest) => ReplayMatchesTarget(p, rest, i + 1, j);
    case Move(Keep, rest) =>
      ReplayMatchesTarget(p, rest, i + 1, j + 1);
      StandsInFront(p, p.base[i], Replay(p, rest, i + 1, j + 1), j);
    case Move(Insert, rest) =>
      ReplayMatchesTarget(p, rest, i, j + 1);
      StandsInFront(p, p.target[j], Replay(p, rest, i, j + 1), j);
  }

  lemma {:induction false} StandsInFront<T>(p: Problem<T>, e: Option<T>, r: seq<Option<T>>, j: int)
    requires 0 <= j && |r| == |p.target| - j - 1 && StandsFor(p, e, j)
    requires forall n :: 0 <= n < |r| ==> StandsFor(p, r[n], j + 1 + n)
    ensures forall n :: 0 <= n < |[e] + r| ==> StandsFor(p, ([e] + r)[n], j + n)
  {
    forall n | 0 <= n < |[e] + r| ensures StandsFor(p, ([e] + r)[n], j + n) {
      if n > 0 { assert StandsFor(p, r[n - 1], j + 1 + (n - 1)); }
    }
  }

  // ---------------------------------------------------------------------------------------------
  // Distance and common elements
  // ---------------------------------------------------------------------------------------------

  /** Both slots are null, or neither is and the comparison holds. */
  ghost predicate Agree<T>(p: Problem<T>, x: int, y: int)
    requires 0 <= x < |p.base| && 0 <= y < |p.target|
  {
    || (p.base[x] == None && p.target[y] == None)
    || (p.base[x].Some? && p.target[y].Some? && p.valueEqual(p.base[x].value, p.target[y].value))
  }

  /** Slots of the first i of base and the first j of target, paired in order, each pair in agreement. */
  ghost predicate Common<T>(p: Problem<T>, i: int, j: int, xs: seq<int>, ys: seq<int>)
    requires 0 <= i <= |p.base| && 0 <= j <= |p.target|
  {
    && |xs| == |ys|
    && (forall k :: 0 <= k < |xs| ==> 0 <= xs[k] < i)
    && (forall k :: 0 <= k < |xs| ==> 0 <= ys[k] < j)
    && (forall k, l :: 0 <= k < l < |xs| ==> xs[k] < xs[l] && ys[k] < ys[l])
    && (forall k :: 0 <= k < |xs| ==> Agree(p, xs[k], ys[k]))
  }

  lemma {:induction false} CommonWithin<T>(p: Problem<T>, i: int, j: int, xs: seq<int>, ys: seq<int>, i': int, j': int)
    requires 0 <= i' <= i <= |p.base| && 0 <= j' <= j <= |p.target| && Common(p, i, j, xs, ys)
    requires xs != [] ==> xs[|xs| - 1] < i' && ys[|ys| - 1] < j'
    ensures Common(p, i', j', xs, ys)
  {}

  /** No pairing leaves fewer elements unpaired than the distance. */
  lemma {:induction false} DistAtMost<T>(p: Problem<T>, i: int, j: int, xs: seq<int>, ys: seq<int>)
    requires 0 <= i <= |p.base| && 0 <= j <= |p.target| && Common(p, i, j, xs, ys)
    ensures Dist(p, i, j) <= i + j - 2 * |xs|
    decreases i + j
  {
    if xs == [] {
      DistBounds(p, i, j);
    } else {
      var n := |xs| - 1;
      DistLipschitz(p, i, j);
      if xs[n] < i - 1 {
        CommonWithin(p, i, j, xs, ys, i - 1, j);
        DistAtMost(p, i - 1, j, xs, ys);
      } else if ys[n] < j - 1 {
        CommonWithin(p, i, j, xs, ys, i, j - 1);
        DistAtMost(p, i, j - 1, xs, ys);
      } else {
        assert Agree(p, xs[n], ys[n]);
        assert n > 0 ==> xs[n - 1] < xs[n] && ys[n - 1] < ys[n];
        DistAtMost(p, i - 1, j - 1, xs[..n], ys[..n]);
      }
    }
  }

  /** Some pairing leaves exactly as many unpaired. */
  lemma {:induction false} DistAttained<T>(p: Problem<T>, i: int, j: int) returns (xs: seq<int>, ys: seq<int>)
    requires 0 <= i <= |p.base| && 0 <= j <= |p.target|
    ensures Common(p, i, j, xs, ys) && Dist(p, i, j) == i + j - 2 * |xs|
    decreases i + j
  {
    if i == 0 || j == 0 {
      xs, ys := [], [];
    } else if Dist(p, i, j) == 1 + Dist(p, i - 1, j) {
      xs, ys := DistAttained(p, i - 1, j);
    } else if Dist(p, i, j) == 1 + Dist(p, i, j - 1) {
      xs, ys := DistAttained(p, i, j - 1);
    } else {
      xs, ys := DistAttained(p, i - 1, j - 1);
      xs, ys := xs + [i - 1], ys + [j - 1];
      assert Agree(p, i - 1, j - 1);
    }
  }
}

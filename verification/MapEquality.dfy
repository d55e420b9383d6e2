/** Unordered comparison of map entries by greedy matching. */
module MapEquality {
  import opened Basics

  ghost predicate Equivalence<T(!new)>(eq: (T, T) -> bool) {
    && (forall x :: eq(x, x))
    && (forall x, y :: eq(x, y) ==> eq(y, x))
    && (forall x, y, z :: eq(x, y) && eq(y, z) ==> eq(x, z))
  }

  predicate EntryEqual<K, V>(keyEqual: (K, K) -> bool, valueEqual: (V, V) -> bool, x: (K, V), y: (K, V)) {
    keyEqual(x.0, y.0) && valueEqual(x.1, y.1)
  }

  /** How many of the first n entries are valid and equal to x, among those for which `among` holds. */
  ghost function Count<K, V>(keyEqual: (K, K) -> bool, valueEqual: (V, V) -> bool, s: seq<Option<(K, V)>>,
      among: seq<bool>, x: (K, V), n: nat): nat
    requires n <= |s| == |among|
  {
    if n == 0 then 0
    else
      Count(keyEqual, valueEqual, s, among, x, n - 1) +
      if among[n - 1] && s[n - 1].Some? && EntryEqual(keyEqual, valueEqual, x, s[n - 1].value) then 1 else 0
  }

  function All(n: nat): (s: seq<bool>)
    ensures |s| == n && forall i :: 0 <= i < n ==> s[i]
  {
    if n == 0 then [] else All(n - 1) + [true]
  }

  /** The valid entries of both sides are permutations of each other: every entry is equal to as many on either side. */
  ghost predicate Permutation<K(!new), V(!new)>(keyEqual: (K, K) -> bool, valueEqual: (V, V) -> bool,
      left: seq<Option<(K, V)>>, right: seq<Option<(K, V)>>) {
    forall x :: Count(keyEqual, valueEqual, left, All(|left|), x, |left|) ==
        Count(keyEqual, valueEqual, right, All(|right|), x, |right|)
  }

  ghost function NullsIn<E>(s: seq<Option<E>>, n: nat): nat
    requires n <= |s|
  {
    if n == 0 then 0 else NullsIn(s, n - 1) + if s[n - 1].None? then 1 else 0
  }

  ghost function Marks(used: seq<bool>, n: nat): nat
    requires n <= |used|
  {
    if n == 0 then 0 else Marks(used, n - 1) + if used[n - 1] then 1 else 0
  }

  /** Marking one more. */
  lemma {:induction false} MarkOne(used: seq<bool>, j: nat, n: nat)
    requires j < |used| && !used[j] && n <= |used|
    ensures Marks(used[j := true], n) == Marks(used, n) + if j < n then 1 else 0
  {
    if n > 0 { MarkOne(used, j, n - 1); }
  }

  lemma {:induction false} CountOne<K, V>(keyEqual: (K, K) -> bool, valueEqual: (V, V) -> bool, s: seq<Option<(K, V)>>,
      among: seq<bool>, j: nat, x: (K, V), n: nat)
    requires n <= |s| == |among| && j < |s| && !among[j] && s[j].Some?
    ensures Count(keyEqual, valueEqual, s, among[j := true], x, n) ==
            Count(keyEqual, valueEqual, s, among, x, n) +
            if j < n && EntryEqual(keyEqual, valueEqual, x, s[j].value) then 1 else 0
  {
    if n > 0 { CountOne(keyEqual, valueEqual, s, among, j, x, n - 1); }
  }

  /** If no unmarked entry equals x, the marked ones are all that do. */
  lemma {:induction false} NoneLeft<K, V>(keyEqual: (K, K) -> bool, valueEqual: (V, V) -> bool, s: seq<Option<(K, V)>>,
      among: seq<bool>, x: (K, V), n: nat)
    requires n <= |s| == |among|
    requires forall j :: 0 <= j < n && !among[j] && s[j].Some? ==> !EntryEqual(keyEqual, valueEqual, x, s[j].value)
    ensures Count(keyEqual, valueEqual, s, among, x, n) == Count(keyEqual, valueEqual, s, All(|s|), x, n)
  {
    if n > 0 { NoneLeft(keyEqual, valueEqual, s, among, x, n - 1); }
  }

  lemma {:induction false} CountMonotone<K, V>(keyEqual: (K, K) -> bool, valueEqual: (V, V) -> bool,
      s: seq<Option<(K, V)>>, among: seq<bool>, x: (K, V), m: nat, n: nat)
    requires m <= n <= |s| == |among|
    ensures Count(keyEqual, valueEqual, s, among, x, m) <= Count(keyEqual, valueEqual, s, among, x, n)
  {
    if m < n { CountMonotone(keyEqual, valueEqual, s, among, x, m, n - 1); }
  }

  /** Marked entries that are valid. */
  ghost function ValidMarks<E>(s: seq<Option<E>>, used: seq<bool>, n: nat): nat
    requires n <= |s| == |used|
  {
    if n == 0 then 0 else ValidMarks(s, used, n - 1) + if used[n - 1] && s[n - 1].Some? then 1 else 0
  }

  lemma {:induction false} ValidMarkOne<E>(s: seq<Option<E>>, used: seq<bool>, j: nat, n: nat)
    requires n <= |s| == |used| && j < |s| && !used[j]
    ensures ValidMarks(s, used[j := true], n) == ValidMarks(s, used, n) + if j < n && s[j].Some? then 1 else 0
  {
    if n > 0 { ValidMarkOne(s, used, j, n - 1); }
  }

  /** There are at most as many marked valid entries as valid ones, and as many only if all are marked. */
  lemma {:induction false} AllValidMarked<E>(s: seq<Option<E>>, used: seq<bool>, n: nat)
    requires n <= |s| == |used|
    ensures ValidMarks(s, used, n) <= n - NullsIn(s, n)
    ensures ValidMarks(s, used, n) == n - NullsIn(s, n) ==> forall j :: 0 <= j < n && s[j].Some? ==> used[j]
  {
    if n > 0 { AllValidMarked(s, used, n - 1); }
  }

  lemma {:induction false} AllMarked(used: seq<bool>, n: nat)
    requires n <= |used|
    ensures Marks(used, n) <= n && (Marks(used, n) == n <==> forall j :: 0 <= j < n ==> used[j])
  {
    if n > 0 { AllMarked(used, n - 1); }
  }

  lemma {:induction false} NullsAtMost<E>(s: seq<Option<E>>, n: nat)
    requires n <= |s|
    ensures NullsIn(s, n) <= n
  {
    if n > 0 { NullsAtMost(s, n - 1); }
  }

  /** What one scan of the right side changes: nulls in front of where it stops, and the entry found. */
  ghost predicate Scanned<E>(right: seq<Option<E>>, used: seq<bool>, next: seq<bool>, stop: int, found: bool) {
    && |right| == |used| == |next| && 0 <= stop <= |right|
    && forall k :: 0 <= k < |right| ==>
         next[k] == (used[k] || (right[k].None? && k < stop) || (found && k == stop))
  }

  /** Looks for an unused entry with an equal key and an equal value, marking the nulls it passes. */
  method FindMatch<K, V>(keyEqual: (K, K) -> bool, valueEqual: (V, V) -> bool, x: (K, V),
      right: seq<Option<(K, V)>>, used: seq<bool>, marks: nat)
    returns (found: bool, stop: nat, next: seq<bool>, nextMarks: nat)
    requires |used| == |right| && marks == Marks(used, |used|)
    ensures Scanned(right, used, next, stop, found) && nextMarks == Marks(next, |next|)
    ensures found ==> stop < |right| && !used[stop] && right[stop].Some?
    ensures found ==> keyEqual(x.0, right[stop].value.0) && valueEqual(x.1, right[stop].value.1)
    ensures !found ==> stop == |right|
    ensures forall k :: 0 <= k < stop && !used[k] && right[k].Some? ==>
              !(keyEqual(x.0, right[k].value.0) && valueEqual(x.1, right[k].value.1))
    ensures ValidMarks(right, next, |right|) == ValidMarks(right, used, |right|) + if found then 1 else 0
  {
    next, nextMarks := used, marks;
    for j := 0 to |right|
      invariant Scanned(right, used, next, j, false) && nextMarks == Marks(next, |next|)
      invariant forall k :: 0 <= k < j && !used[k] && right[k].Some? ==>
                  !(keyEqual(x.0, right[k].value.0) && valueEqual(x.1, right[k].value.1))
      invariant ValidMarks(right, next, |right|) == ValidMarks(right, used, |right|)
    {
      if next[j] {
        continue;
      }
      MarkOne(next, j, |next|);
      ValidMarkOne(right, next, j, |right|);
      if right[j].None? {
        next, nextMarks := next[j := true], nextMarks + 1;
        continue;
      }
      if !keyEqual(x.0, right[j].value.0) {
        continue;
      }
      if valueEqual(x.1, right[j].value.1) {
        return true, j, next[j := true], nextMarks + 1;
      }
    }
    return false, |right|, next, nextMarks;
  }

  /** Nulls are marked exactly in front of `top`, the last entry matched, and no entry behind it is. */
  ghost predicate MarkedUpTo<E>(right: seq<Option<E>>, used: seq<bool>, top: int) {
    && |right| == |used| && -1 <= top < |right| && (top >= 0 ==> used[top] && right[top].Some?)
    && forall j :: 0 <= j < |right| ==> (right[j].None? ==> (used[j] <==> j < top)) && (used[j] ==> j <= top)
  }

  /** With all valid entries matched, everything is marked exactly when the last entry is valid. */
  lemma {:induction false} MarkedAll<E>(right: seq<Option<E>>, used: seq<bool>, top: int)
    requires MarkedUpTo(right, used, top) && right != [] && forall j :: 0 <= j < |right| && right[j].Some? ==> used[j]
    ensures Marks(used, |used|) == |right| <==> right[|right| - 1].Some?
  {
    AllMarked(used, |used|);
    if right[|right| - 1].None? { assert !used[|right| - 1]; } else { assert used[|right| - 1] && top == |right| - 1; }
  }

  // ---------------------------------------------------------------------------------------------
  // Matchings
  // ---------------------------------------------------------------------------------------------

  /** Among the first n entries of the left, entry i is matched: with entry pi[i], whose key and value are equal. */
  ghost predicate MatchedAt<K, V>(keyEqual: (K, K) -> bool, valueEqual: (V, V) -> bool,
      left: seq<Option<(K, V)>>, right: seq<Option<(K, V)>>, pi: seq<int>, i: int)
    requires 0 <= i < |left| && i < |pi|
  {
    left[i].Some? ==>
      && 0 <= pi[i] < |right| && right[pi[i]].Some?
      && keyEqual(left[i].value.0, right[pi[i]].value.0) && valueEqual(left[i].value.1, right[pi[i]].value.1)
  }

  /** pi matches the valid entries among the first n of the left with different valid entries of the right. */
  ghost predicate Matches<K, V>(keyEqual: (K, K) -> bool, valueEqual: (V, V) -> bool,
      left: seq<Option<(K, V)>>, right: seq<Option<(K, V)>>, pi: seq<int>, n: int)
    requires 0 <= n <= |left| && n <= |pi|
  {
    && (forall i :: 0 <= i < n ==> MatchedAt(keyEqual, valueEqual, left, right, pi, i))
    && (forall i, j :: 0 <= i < j < n && left[i].Some? && left[j].Some? ==> pi[i] != pi[j])
  }

  /** pi is a bijection between the valid entries of both sides that keeps keys and values. */
  ghost predicate Bijection<K, V>(keyEqual: (K, K) -> bool, valueEqual: (V, V) -> bool,
      left: seq<Option<(K, V)>>, right: seq<Option<(K, V)>>, pi: seq<int>)
  {
    && |pi| == |left| && Matches(keyEqual, valueEqual, left, right, pi, |left|)
    && forall j :: 0 <= j < |right| && right[j].Some? ==> Reached(left, pi, j)
  }

  ghost predicate Reached<E>(left: seq<Option<E>>, pi: seq<int>, j: int) {
    exists i :: 0 <= i < |left| && i < |pi| && left[i].Some? && pi[i] == j
  }

  ghost predicate ReachedBefore<E>(left: seq<Option<E>>, pi: seq<int>, i: int, k: int) {
    exists m :: 0 <= m < i && m < |left| && m < |pi| && left[m].Some? && pi[m] == k
  }

  /** Entry k of the right is free when entry i of the left is matched, stands in front of its match, and is equal. */
  ghost predicate Overlooked<K, V>(keyEqual: (K, K) -> bool, valueEqual: (V, V) -> bool,
      left: seq<Option<(K, V)>>, right: seq<Option<(K, V)>>, pi: seq<int>, i: int, k: int)
    requires 0 <= i < |left| && i < |pi|
  {
    && left[i].Some? && 0 <= k < pi[i] && k < |right| && right[k].Some? && !ReachedBefore(left, pi, i, k)
    && keyEqual(left[i].value.0, right[k].value.0) && valueEqual(left[i].value.1, right[k].value.1)
  }

  /** Each of the first n entries of the left is matched with the first free entry that is equal. */
  ghost predicate FirstFit<K, V>(keyEqual: (K, K) -> bool, valueEqual: (V, V) -> bool,
      left: seq<Option<(K, V)>>, right: seq<Option<(K, V)>>, pi: seq<int>, n: int)
    requires 0 <= n <= |left| && n <= |pi|
  {
    forall i, k :: 0 <= i < n ==> !Overlooked(keyEqual, valueEqual, left, right, pi, i, k)
  }

  /** There is only one way to match first fits. */
  lemma {:induction false} FirstFitsAgree<K, V>(keyEqual: (K, K) -> bool, valueEqual: (V, V) -> bool,
      left: seq<Option<(K, V)>>, right: seq<Option<(K, V)>>, pi: seq<int>, other: seq<int>, n: nat)
    requires n <= |left| && n <= |pi| && n <= |other|
    requires Matches(keyEqual, valueEqual, left, right, pi, n) && FirstFit(keyEqual, valueEqual, left, right, pi, n)
    requires Matches(keyEqual, valueEqual, left, right, other, n)
    requires FirstFit(keyEqual, valueEqual, left, right, other, n)
    ensures forall i :: 0 <= i < n && left[i].Some? ==> pi[i] == other[i]
  {
    if n > 0 {
      var i := n - 1;
      FirstFitsAgree(keyEqual, valueEqual, left, right, pi, other, i);
      assert MatchedAt(keyEqual, valueEqual, left, right, pi, i);
      assert MatchedAt(keyEqual, valueEqual, left, right, other, i);
      assert !Overlooked(keyEqual, valueEqual, left, right, pi, i, other[i]);
      assert !Overlooked(keyEqual, valueEqual, left, right, other, i, pi[i]);
    }
  }

  /** The entries of the right that the first n of the left are matched with. */
  ghost function Taken<E>(left: seq<Option<E>>, pi: seq<int>, size: nat, n: nat): (taken: seq<bool>)
    requires n <= |left| && n <= |pi|
    ensures |taken| == size
    ensures forall j :: 0 <= j < size ==> (taken[j] <==> exists i :: 0 <= i < n && left[i].Some? && pi[i] == j)
  {
    if n == 0 then Unused(size)
    else
      var before := Taken(left, pi, size, n - 1);
      if left[n - 1].Some? && 0 <= pi[n - 1] < size then before[pi[n - 1] := true] else before
  }

  /**
   Matched entries are equal to the same entries, so a matching takes from the right as many as it comes by on the left.
   */
  lemma {:induction false} TakenCounts<K(!new), V(!new)>(keyEqual: (K, K) -> bool, valueEqual: (V, V) -> bool,
      left: seq<Option<(K, V)>>, right: seq<Option<(K, V)>>, pi: seq<int>, x: (K, V), n: nat)
    requires Equivalence(keyEqual) && Equivalence(valueEqual) && n <= |left| && n <= |pi|
    requires Matches(keyEqual, valueEqual, left, right, pi, n)
    ensures Count(keyEqual, valueEqual, left, All(|left|), x, n) ==
            Count(keyEqual, valueEqual, right, Taken(left, pi, |right|, n), x, |right|)
  {
    if n == 0 {
      NothingMarked(keyEqual, valueEqual, right, Taken(left, pi, |right|, 0), |right|);
    } else {
      TakenCounts(keyEqual, valueEqual, left, right, pi, x, n - 1);
      assert MatchedAt(keyEqual, valueEqual, left, right, pi, n - 1);
      if left[n - 1].Some? {
        CountOne(keyEqual, valueEqual, right, Taken(left, pi, |right|, n - 1), pi[n - 1], x, |right|);
      }
    }
  }

  /** Entries between which there is a bijection are permutations of each other. */
  lemma {:induction false} BijectionCounts<K(!new), V(!new)>(keyEqual: (K, K) -> bool, valueEqual: (V, V) -> bool,
      left: seq<Option<(K, V)>>, right: seq<Option<(K, V)>>, pi: seq<int>)
    requires Equivalence(keyEqual) && Equivalence(valueEqual) && Bijection(keyEqual, valueEqual, left, right, pi)
    ensures Permutation(keyEqual, valueEqual, left, right)
  {
    var taken := Taken(left, pi, |right|, |left|);
    forall j | 0 <= j < |right| && right[j].Some? ensures taken[j] { assert Reached(left, pi, j); }
    forall x
      ensures Count(keyEqual, valueEqual, left, All(|left|), x, |left|) ==
              Count(keyEqual, valueEqual, right, All(|right|), x, |right|)
    {
      TakenCounts(keyEqual, valueEqual, left, right, pi, x, |left|);
      NoneLeft(keyEqual, valueEqual, right, taken, x, |right|);
    }
  }

  /** A bijection leaves as many valid entries on either side. */
  lemma {:induction false} BijectionSizes<K, V>(keyEqual: (K, K) -> bool, valueEqual: (V, V) -> bool,
      left: seq<Option<(K, V)>>, right: seq<Option<(K, V)>>, pi: seq<int>)
    requires Bijection(keyEqual, valueEqual, left, right, pi)
    ensures |left| - NullsIn(left, |left|) == |right| - NullsIn(right, |right|)
  {
    var taken := Taken(left, pi, |right|, |left|);
    forall j | 0 <= j < |right| && right[j].Some? ensures taken[j] { assert Reached(left, pi, j); }
    TakenMarks(keyEqual, valueEqual, left, right, pi, |left|);
    AllTaken(right, taken, |right|);
  }

  lemma {:induction false} TakenMarks<K, V>(keyEqual: (K, K) -> bool, valueEqual: (V, V) -> bool,
      left: seq<Option<(K, V)>>, right: seq<Option<(K, V)>>, pi: seq<int>, n: nat)
    requires n <= |left| && n <= |pi| && Matches(keyEqual, valueEqual, left, right, pi, n)
    ensures ValidMarks(right, Taken(left, pi, |right|, n), |right|) == n - NullsIn(left, n)
  {
    if n == 0 {
      NoMarks(right, Taken(left, pi, |right|, 0), |right|);
    } else {
      TakenMarks(keyEqual, valueEqual, left, right, pi, n - 1);
      assert MatchedAt(keyEqual, valueEqual, left, right, pi, n - 1);
      if left[n - 1].Some? { ValidMarkOne(right, Taken(left, pi, |right|, n - 1), pi[n - 1], |right|); }
    }
  }

  lemma {:induction false} NoMarks<E>(s: seq<Option<E>>, used: seq<bool>, n: nat)
    requires n <= |s| == |used| && forall i :: 0 <= i < n ==> !used[i]
    ensures ValidMarks(s, used, n) == 0
  {
    if n > 0 { NoMarks(s, used, n - 1); }
  }

  lemma {:induction false} AllTaken<E>(s: seq<Option<E>>, used: seq<bool>, n: nat)
    requires n <= |s| == |used| && forall i :: 0 <= i < n && s[i].Some? ==> used[i]
    ensures ValidMarks(s, used, n) == n - NullsIn(s, n)
  {
    if n > 0 { AllTaken(s, used, n - 1); }
  }

  /** What the loop over the left knows of the matching found so far. */
  ghost predicate Found<K, V>(keyEqual: (K, K) -> bool, valueEqual: (V, V) -> bool,
      left: seq<Option<(K, V)>>, right: seq<Option<(K, V)>>, pi: seq<int>, used: seq<bool>, n: int)
    requires 0 <= n <= |left| && |used| == |right|
  {
    && |pi| == n && Matches(keyEqual, valueEqual, left, right, pi, n)
    && FirstFit(keyEqual, valueEqual, left, right, pi, n)
    && (forall j :: 0 <= j < |right| && right[j].Some? ==> (used[j] <==> Reached(left, pi, j)))
  }

  /** More entries behind do not change whether an earlier one was overlooked. */
  lemma {:induction false} FirstFitKept<K, V>(keyEqual: (K, K) -> bool, valueEqual: (V, V) -> bool,
      left: seq<Option<(K, V)>>, right: seq<Option<(K, V)>>, pi: seq<int>, x: int)
    requires |pi| < |left| && FirstFit(keyEqual, valueEqual, left, right, pi, |pi|)
    ensures FirstFit(keyEqual, valueEqual, left, right, pi + [x], |pi|)
  {
    var more := pi + [x];
    forall i, k | 0 <= i < |pi| ensures !Overlooked(keyEqual, valueEqual, left, right, more, i, k) {
      assert !Overlooked(keyEqual, valueEqual, left, right, pi, i, k);
      if ReachedBefore(left, pi, i, k) {
        var m :| 0 <= m < i && m < |left| && m < |pi| && left[m].Some? && pi[m] == k;
        assert more[m] == k;
      }
    }
  }

  lemma {:induction false} FoundNext<K, V>(keyEqual: (K, K) -> bool, valueEqual: (V, V) -> bool,
      left: seq<Option<(K, V)>>, right: seq<Option<(K, V)>>, pi: seq<int>, used: seq<bool>, next: seq<bool>, stop: int)
    requires |pi| < |left| && |used| == |right| && Found(keyEqual, valueEqual, left, right, pi, used, |pi|)
    requires left[|pi|].Some? && Scanned(right, used, next, stop, true) && 0 <= stop < |right| && !used[stop]
    requires right[stop].Some? && keyEqual(left[|pi|].value.0, right[stop].value.0)
    requires valueEqual(left[|pi|].value.1, right[stop].value.1)
    requires forall k :: 0 <= k < stop && !used[k] && right[k].Some? ==>
               !(keyEqual(left[|pi|].value.0, right[k].value.0) && valueEqual(left[|pi|].value.1, right[k].value.1))
    ensures Found(keyEqual, valueEqual, left, right, pi + [stop], next, |pi| + 1)
  {
    var n, more := |pi|, pi + [stop];
    forall i | 0 <= i < n + 1 ensures MatchedAt(keyEqual, valueEqual, left, right, more, i) {
      if i < n { assert MatchedAt(keyEqual, valueEqual, left, right, pi, i); }
    }
    FirstFitKept(keyEqual, valueEqual, left, right, pi, stop);
    forall k ensures !Overlooked(keyEqual, valueEqual, left, right, more, n, k) {
      if 0 <= k < stop && Reached(left, pi, k) {
        var m :| 0 <= m < |left| && m < n && left[m].Some? && pi[m] == k;
        assert more[m] == k && ReachedBefore(left, more, n, k);
      }
    }
    forall i | 0 <= i < n && left[i].Some? ensures pi[i] != stop { assert pi[i] == stop ==> Reached(left, pi, stop); }
    forall j | 0 <= j < |right| && right[j].Some? ensures next[j] <==> Reached(left, more, j) {
      if Reached(left, pi, j) {
        var i :| 0 <= i < |left| && i < n && left[i].Some? && pi[i] == j;
        assert more[i] == j;
      }
      if j == stop { assert more[n] == j; }
      if Reached(left, more, j) && j != stop {
        var i :| 0 <= i < |left| && i < n + 1 && left[i].Some? && more[i] == j;
        assert pi[i] == j;
      }
    }
  }

  lemma {:induction false} FoundNull<K, V>(keyEqual: (K, K) -> bool, valueEqual: (V, V) -> bool,
      left: seq<Option<(K, V)>>, right: seq<Option<(K, V)>>, pi: seq<int>, used: seq<bool>)
    requires |pi| < |left| && |used| == |right| && Found(keyEqual, valueEqual, left, right, pi, used, |pi|)
    requires left[|pi|].None?
    ensures Found(keyEqual, valueEqual, left, right, pi + [-1], used, |pi| + 1)
  {
    var n, more := |pi|, pi + [-1];
    FirstFitKept(keyEqual, valueEqual, left, right, pi, -1);
    forall i | 0 <= i < n + 1 ensures MatchedAt(keyEqual, valueEqual, left, right, more, i) {
      if i < n { assert MatchedAt(keyEqual, valueEqual, left, right, pi, i); }
    }
    forall j | 0 <= j < |right| && right[j].Some? ensures used[j] <==> Reached(left, more, j) {
      if Reached(left, pi, j) {
        var i :| 0 <= i < |left| && i < n && left[i].Some? && pi[i] == j;
        assert more[i] == j;
      }
      if Reached(left, more, j) {
        var i :| 0 <= i < |left| && i < n + 1 && left[i].Some? && more[i] == j;
        assert pi[i] == j;
      }
    }
  }

  /** Null entries of the right side are all passed by the scans: there are only nulls, or the last entry is valid. */
  ghost predicate NullsPassed<E>(right: seq<Option<E>>) {
    NullsIn(right, |right|) == |right| || right[|right| - 1].Some?
  }

  /** A bijection of first fits. */
  ghost predicate Greedy<K, V>(keyEqual: (K, K) -> bool, valueEqual: (V, V) -> bool,
      left: seq<Option<(K, V)>>, right: seq<Option<(K, V)>>, pi: seq<int>)
  {
    Bijection(keyEqual, valueEqual, left, right, pi) && FirstFit(keyEqual, valueEqual, left, right, pi, |left|)
  }

  /**
   Greedy matching of map entries in any order. Entries compare equal exactly when first fits are a bijection, for any
   comparisons, and the nulls of the right side are passed. If the comparisons are equivalences any bijection will do.
   */
  method ApproxEqualSingleMapEntry<K(!new), V(!new)>(keyEqual: (K, K) -> bool, valueEqual: (V, V) -> bool,
      left: seq<Option<(K, V)>>, right: seq<Option<(K, V)>>, leftNulls: nat, rightNulls: nat) returns (equal: bool)
    requires leftNulls == NullsIn(left, |left|) && rightNulls == NullsIn(right, |right|)
    ensures equal <==>
              && |left| == |right| && NullsPassed(right)
              && exists pi :: Greedy(keyEqual, valueEqual, left, right, pi)
    ensures Equivalence(keyEqual) && Equivalence(valueEqual) ==>
              (equal <==>
                && |left| == |right| && NullsPassed(right)
                && exists pi :: Bijection(keyEqual, valueEqual, left, right, pi))
  {
    if |left| != |right| || leftNulls != rightNulls {
      SameNulls(keyEqual, valueEqual, left, right);
      return false;
    }
    if leftNulls == |left| {
      AllNull(keyEqual, valueEqual, left, right);
      return true;
    }
    ghost var exact := Equivalence(keyEqual) && Equivalence(valueEqual);
    var used, marks := Unused(|right|), 0;
    ghost var top: int, pi: seq<int> := -1, [];
    NothingMarked(keyEqual, valueEqual, right, used, |right|);
    for i := 0 to |left|
      invariant MarkedUpTo(right, used, top) && marks == Marks(used, |used|)
      invariant ValidMarks(right, used, |right|) == i - NullsIn(left, i)
      invariant Found(keyEqual, valueEqual, left, right, pi, used, i)
    {
      if left[i].None? {
        FoundNull(keyEqual, valueEqual, left, right, pi, used);
        pi := pi + [-1];
        continue;
      }
      var x := left[i].value;
      var found, stop, next, nextMarks := FindMatch(keyEqual, valueEqual, x, right, used, marks);
      if !found {
        NoFirstFits(keyEqual, valueEqual, left, right, pi, used, i);
        if exact { NoBijection(keyEqual, valueEqual, left, right, pi, used, i); }
        return false;
      }
      FoundNext(keyEqual, valueEqual, left, right, pi, used, next, stop);
      pi := pi + [stop];
      top := if stop > top then stop else top;
      used, marks := next, nextMarks;
    }
    AllValidMarked(right, used, |right|);
    MarkedAll(right, used, top);
    assert Greedy(keyEqual, valueEqual, left, right, pi);
    return marks == |right|;
  }

  lemma {:induction false} SameNulls<K, V>(keyEqual: (K, K) -> bool, valueEqual: (V, V) -> bool,
      left: seq<Option<(K, V)>>, right: seq<Option<(K, V)>>)
    ensures (exists pi :: Bijection(keyEqual, valueEqual, left, right, pi)) && |left| == |right| ==>
              NullsIn(left, |left|) == NullsIn(right, |right|)
  {
    if pi :| Bijection(keyEqual, valueEqual, left, right, pi) { BijectionSizes(keyEqual, valueEqual, left, right, pi); }
  }

  lemma {:induction false} AllNull<K, V>(keyEqual: (K, K) -> bool, valueEqual: (V, V) -> bool,
      left: seq<Option<(K, V)>>, right: seq<Option<(K, V)>>)
    requires |left| == |right| == NullsIn(left, |left|) == NullsIn(right, |right|)
    ensures exists pi :: Bijection(keyEqual, valueEqual, left, right, pi)
              && Greedy(keyEqual, valueEqual, left, right, pi)
  {
    OnlyNulls(left, |left|);
    OnlyNulls(right, |right|);
    var pi := NoPartners(|left|);
    assert forall i :: 0 <= i < |left| ==> MatchedAt(keyEqual, valueEqual, left, right, pi, i);
    assert Bijection(keyEqual, valueEqual, left, right, pi);
    assert Greedy(keyEqual, valueEqual, left, right, pi);
  }

  ghost function NoPartners(n: nat): (s: seq<int>)
    ensures |s| == n
  {
    if n == 0 then [] else NoPartners(n - 1) + [-1]
  }

  lemma {:induction false} OnlyNulls<E>(s: seq<Option<E>>, n: nat)
    requires n <= |s| && NullsIn(s, n) == n
    ensures forall i :: 0 <= i < n ==> s[i].None?
  {
    if n > 0 {
      NullsAtMost(s, n - 1);
      OnlyNulls(s, n - 1);
    }
  }

  /** When the scan finds nothing, first fits are no bijection. */
  lemma {:induction false} NoFirstFits<K, V>(keyEqual: (K, K) -> bool, valueEqual: (V, V) -> bool,
      left: seq<Option<(K, V)>>, right: seq<Option<(K, V)>>, pi: seq<int>, used: seq<bool>, i: nat)
    requires |used| == |right| && i < |left| && left[i].Some? && Found(keyEqual, valueEqual, left, right, pi, used, i)
    requires forall k :: 0 <= k < |right| && !used[k] && right[k].Some? ==>
               !(keyEqual(left[i].value.0, right[k].value.0) && valueEqual(left[i].value.1, right[k].value.1))
    ensures forall other :: !Greedy(keyEqual, valueEqual, left, right, other)
  {
    forall other ensures !Greedy(keyEqual, valueEqual, left, right, other) {
      if Greedy(keyEqual, valueEqual, left, right, other) {
        assert MatchedAt(keyEqual, valueEqual, left, right, other, i);
        assert used[other[i]] && Reached(left, pi, other[i]);
        FirstFitsAgree(keyEqual, valueEqual, left, right, pi, other, i);
      }
    }
  }

  /** When the greedy choice is stuck there is no bijection: the stuck entry occurs more often on the left. */
  lemma {:induction false} NoBijection<K(!new), V(!new)>(keyEqual: (K, K) -> bool, valueEqual: (V, V) -> bool,
      left: seq<Option<(K, V)>>, right: seq<Option<(K, V)>>, pi: seq<int>, used: seq<bool>, i: nat)
    requires Equivalence(keyEqual) && Equivalence(valueEqual) && |used| == |right| && i < |left| && left[i].Some?
    requires Found(keyEqual, valueEqual, left, right, pi, used, i)
    requires forall k :: 0 <= k < |right| && !used[k] && right[k].Some? ==>
               !(keyEqual(left[i].value.0, right[k].value.0) && valueEqual(left[i].value.1, right[k].value.1))
    ensures forall other :: !Bijection(keyEqual, valueEqual, left, right, other)
  {
    forall other ensures !Bijection(keyEqual, valueEqual, left, right, other) {
      if Bijection(keyEqual, valueEqual, left, right, other) {
        FoundCounts(keyEqual, valueEqual, left, right, pi, used, left[i].value, i);
        Unmatched(keyEqual, valueEqual, left, right, used, i);
        BijectionCounts(keyEqual, valueEqual, left, right, other);
      }
    }
  }

  lemma {:induction false} FoundCounts<K(!new), V(!new)>(keyEqual: (K, K) -> bool, valueEqual: (V, V) -> bool,
      left: seq<Option<(K, V)>>, right: seq<Option<(K, V)>>, pi: seq<int>, used: seq<bool>, x: (K, V), n: nat)
    requires Equivalence(keyEqual) && Equivalence(valueEqual) && n <= |left| && |used| == |right|
    requires Found(keyEqual, valueEqual, left, right, pi, used, n)
    ensures Count(keyEqual, valueEqual, left, All(|left|), x, n) == Count(keyEqual, valueEqual, right, used, x, |right|)
  {
    var taken := Taken(left, pi, |right|, n);
    TakenCounts(keyEqual, valueEqual, left, right, pi, x, n);
    forall j | 0 <= j < |right| && right[j].Some? ensures taken[j] == used[j] {
      assert used[j] <==> Reached(left, pi, j);
    }
    SameCount(keyEqual, valueEqual, right, taken, used, x, |right|);
  }

  /** Only marks of valid entries count. */
  lemma {:induction false} SameCount<K, V>(keyEqual: (K, K) -> bool, valueEqual: (V, V) -> bool,
      s: seq<Option<(K, V)>>, a: seq<bool>, b: seq<bool>, x: (K, V), n: nat)
    requires n <= |s| == |a| == |b| && forall j :: 0 <= j < n && s[j].Some? ==> a[j] == b[j]
    ensures Count(keyEqual, valueEqual, s, a, x, n) == Count(keyEqual, valueEqual, s, b, x, n)
  {
    if n > 0 { SameCount(keyEqual, valueEqual, s, a, b, x, n - 1); }
  }

  function Unused(n: nat): (s: seq<bool>)
    ensures |s| == n && forall i :: 0 <= i < n ==> !s[i]
  {
    if n == 0 then [] else Unused(n - 1) + [false]
  }

  lemma {:induction false} NothingMarked<K(!new), V(!new)>(keyEqual: (K, K) -> bool, valueEqual: (V, V) -> bool,
      s: seq<Option<(K, V)>>, used: seq<bool>, n: nat)
    requires n <= |s| == |used| && forall i :: 0 <= i < n ==> !used[i]
    ensures Marks(used, n) == 0 == ValidMarks(s, used, n) && forall x :: Count(keyEqual, valueEqual, s, used, x, n) == 0
  {
    if n > 0 { NothingMarked(keyEqual, valueEqual, s, used, n - 1); }
  }

  /** An entry without an unused equal on the right occurs more often on the left. */
  lemma {:induction false} Unmatched<K(!new), V(!new)>(keyEqual: (K, K) -> bool, valueEqual: (V, V) -> bool,
      left: seq<Option<(K, V)>>, right: seq<Option<(K, V)>>, used: seq<bool>, i: nat)
    requires Equivalence(keyEqual) && Equivalence(valueEqual) && |used| == |right| && i < |left| && left[i].Some?
    requires Count(keyEqual, valueEqual, left, All(|left|), left[i].value, i) ==
             Count(keyEqual, valueEqual, right, used, left[i].value, |right|)
    requires forall k :: 0 <= k < |right| && !used[k] && right[k].Some? ==>
               !(keyEqual(left[i].value.0, right[k].value.0) && valueEqual(left[i].value.1, right[k].value.1))
    ensures !Permutation(keyEqual, valueEqual, left, right)
  {
    var x := left[i].value;
    NoneLeft(keyEqual, valueEqual, right, used, x, |right|);
    CountMonotone(keyEqual, valueEqual, left, All(|left|), x, i + 1, |left|);
    assert EntryEqual(keyEqual, valueEqual, x, x);
  }

  /**
   Entries that compare unequal to themselves: a null behind the last valid entry of the right side is never marked.
   */
  method NullBehindMisses() returns (entries: seq<Option<(int, int)>>, equal: bool)
    ensures entries == [Some((1, 2)), None] && !equal
  {
    var eq := (a: int, b: int) => a == b;
    entries := [Some((1, 2)), None];
    assert NullsIn(entries, 0) == 0 && NullsIn(entries, 1) == 0 && NullsIn(entries, 2) == 1;
    equal := ApproxEqualSingleMapEntry(eq, eq, entries, entries, 1, 1);
  }

  /**
   A comparison with a tolerance is no equivalence, and the greedy choice can miss a bijection: 1 takes 2, which 3 would
   have needed, although 1 could have taken 0.
   */
  method GreedyMisses() returns (left: seq<Option<(int, int)>>, right: seq<Option<(int, int)>>, equal: bool)
    ensures left == [Some((0, 1)), Some((0, 3))] && right == [Some((0, 2)), Some((0, 0))] && !equal
    ensures Bijection((a: int, b: int) => a == b, (a: int, b: int) => -1 <= a - b <= 1, left, right, [1, 0])
  {
    var key, value := (a: int, b: int) => a == b, (a: int, b: int) => -1 <= a - b <= 1;
    left, right := [Some((0, 1)), Some((0, 3))], [Some((0, 2)), Some((0, 0))];
    assert NullsIn(left, 0) == 0 && NullsIn(left, 1) == 0 && NullsIn(left, 2) == 0;
    assert NullsIn(right, 0) == 0 && NullsIn(right, 1) == 0 && NullsIn(right, 2) == 0;
    equal := ApproxEqualSingleMapEntry(key, value, left, right, 0, 0);
    forall pi | Bijection(key, value, left, right, pi) ensures !FirstFit(key, value, left, right, pi, 2) {
      assert MatchedAt(key, value, left, right, pi, 0) && MatchedAt(key, value, left, right, pi, 1);
      assert Overlooked(key, value, left, right, pi, 0, 0);
    }
    assert left[0].Some? && left[1].Some? && [1, 0][0] == 1 && [1, 0][1] == 0;
  }
}

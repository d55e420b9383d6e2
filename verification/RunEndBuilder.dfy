/** Building run-end encoded arrays run by run, validating them, and re-encoding slices of them. */
module RunEndBuilder {
  import opened Basics
  import opened Sequences
  import opened Layout
  import Slots
  import opened RunEnds
  import opened ConcatRuns

  // ---------------------------------------------------------------------------------------------
  // Runs under construction
  // ---------------------------------------------------------------------------------------------

  /** The finished runs end strictly below the length, and every run, the open one included, has one value. */
  ghost predicate Building(runEnds: seq<int>, values: seq<Value>, length: int) {
    && 0 <= length && StrictlyIncreasing(runEnds)
    && (forall i :: 0 <= i < |runEnds| ==> 1 <= runEnds[i] < length)
    && |values| == if length == 0 then 0 else |runEnds| + 1
  }

  /** The first n slots: a slot behind all run ends belongs to the open run. */
  ghost function Expanded(runEnds: seq<int>, values: seq<Value>, n: nat): (column: seq<Value>)
    ensures |column| == n && forall i {:trigger column[i]} :: 0 <= i < n ==>
              column[i] == Pick(values, PhysicalIndex(runEnds, i), Null)
  {
    if n == 0 then [] else Expanded(runEnds, values, n - 1) + [Pick(values, PhysicalIndex(runEnds, n - 1), Null)]
  }

  /** Slots of the open run find the last value. */
  lemma {:induction false} OpenRun(runEnds: seq<int>, values: seq<Value>, length: int, i: int)
    requires Building(runEnds, values, length) && (runEnds != [] ==> runEnds[|runEnds| - 1] <= i)
    ensures PhysicalIndex(runEnds, i) == |runEnds|
  {
    PhysicalIndexIs(runEnds, i, |runEnds|);
  }

  /** Closing a run does not move any slot to another run. */
  lemma {:induction false} CloseRun(runEnds: seq<int>, length: int, i: int)
    requires 0 <= i < length && (forall k :: 0 <= k < |runEnds| ==> 1 <= runEnds[k] < length)
    ensures PhysicalIndex(runEnds + [length], i) == PhysicalIndex(runEnds, i)
  {
    var longer := runEnds + [length];
    RunAmongPrefix(runEnds, longer, i, |runEnds|);
    RunAmongFinds(runEnds, i, |runEnds|);
  }

  lemma {:induction false} RunAmongPrefix(a: seq<int>, b: seq<int>, x: int, n: nat)
    requires n <= |a| && n <= |b| && forall i :: 0 <= i < n ==> a[i] == b[i]
    ensures RunAmong(a, x, n) == RunAmong(b, x, n)
  {
    if n > 0 { RunAmongPrefix(a, b, x, n - 1); }
  }

  lemma {:induction false} Closed(runEnds: seq<int>, values: seq<Value>, length: int)
    requires Building(runEnds, values, length) && length > 0
    ensures StrictlyIncreasing(runEnds + [length])
  {
    var longer := runEnds + [length];
    forall i, j | 0 <= i < j < |longer|
      ensures Below(longer, i, j)
    {
      if j < |runEnds| { assert Below(runEnds, i, j); }
    }
  }

  /** A new run with its value behind the old ones. */
  lemma {:induction false} NewRun(runEnds: seq<int>, values: seq<Value>, length: int, n: nat, v: Value)
    requires Building(runEnds, values, length) && n > 0
    ensures var ends := if length == 0 then runEnds else runEnds + [length];
            && Building(ends, values + [v], length + n)
            && Expanded(ends, values + [v], length + n) == Expanded(runEnds, values, length) + Repeat(v, n)
  {
    var ends := if length == 0 then runEnds else runEnds + [length];
    assert runEnds != [] ==> 1 <= runEnds[0] < length;
    if length > 0 { Closed(runEnds, values, length); }
    forall i | 0 <= i < length + n
      ensures Pick(values + [v], PhysicalIndex(ends, i), Null) == if i < length
                then Pick(values, PhysicalIndex(runEnds, i), Null) else v
    {
      if i < length {
        CloseRun(runEnds, length, i);
        RunAmongFinds(runEnds, i, |runEnds|);
      } else {
        OpenRun(ends, values + [v], length + n, i);
      }
    }
    assert Expanded(ends, values + [v], length + n) == Expanded(runEnds, values, length) + Repeat(v, n);
  }

  /** More slots for the open run. */
  lemma {:induction false} LongerRun(runEnds: seq<int>, values: seq<Value>, length: int, n: nat)
    requires Building(runEnds, values, length) && length > 0
    ensures Building(runEnds, values, length + n)
    ensures Expanded(runEnds, values, length + n) == Expanded(runEnds, values, length) + Repeat(values[|values| - 1], n)
  {
    forall i | length <= i < length + n ensures Pick(values, PhysicalIndex(runEnds, i), Null) == values[|values| - 1] {
      OpenRun(runEnds, values, length + n, i);
    }
    assert Expanded(runEnds, values, length + n) == Expanded(runEnds, values, length) + Repeat(values[|values| - 1], n);
  }

  /** The run ends of a finished array; a builder that appended nothing has no buffer for them. */
  function FinishedEnds(runEnds: seq<int>, length: nat): Option<seq<int>> {
    if length == 0 then None else Some(runEnds + [length])
  }

  /** The closed runs decode to the slots appended. */
  lemma {:induction false} FinishedDecodes(runEnds: seq<int>, values: seq<Value>, length: nat, child: Data,
      width: Width)
    requires Building(runEnds, values, length) && length <= width.Limit() && Decode(child) == values
    ensures var d := Data(0, length, 0, None, RunEndBody(FinishedEnds(runEnds, length), child));
            && RunEndFits(d, width) && Decode(d) == Expanded(runEnds, values, length)
            && |Held(d.body.runEnds)| == |values| && LastEnd(Held(d.body.runEnds)) == length
  {
    var ends := Held(FinishedEnds(runEnds, length));
    var d := Data(0, length, 0, None, RunEndBody(FinishedEnds(runEnds, length), child));
    if length > 0 { Closed(runEnds, values, length); }
    forall i | 0 <= i < length ensures Decode(d)[i] == Expanded(runEnds, values, length)[i] {
      CloseRun(runEnds, length, i);
      assert Validity(d)[i] == ValidBit(d, i);
      assert ValueAt(d.body, i) == Pick(values, PhysicalIndex(ends, i), Null);
    }
  }

  /** With any child that holds the values, the parts make a well-formed array of the column, with one run per value. */
  ghost predicate FinishedAs(ends: Option<seq<int>>, values: seq<Value>, n: nat, width: Width, column: seq<Value>) {
    && |Held(ends)| == |values| && LastEnd(Held(ends)) == n
    && forall child :: Decode(child) == values ==>
        DecodesTo(Data(0, n, 0, None, RunEndBody(ends, child)), width, column)
  }

  ghost predicate DecodesTo(d: Data, width: Width, column: seq<Value>) {
    RunEndFits(d, width) && Decode(d) == column
  }

  lemma {:induction false} AllFinished(runEnds: seq<int>, values: seq<Value>, length: nat, width: Width)
    requires Building(runEnds, values, length) && length <= width.Limit()
    ensures FinishedAs(FinishedEnds(runEnds, length), values, length, width, Expanded(runEnds, values, length))
  {
    forall child | Decode(child) == values
      ensures DecodesTo(Data(0, length, 0, None, RunEndBody(FinishedEnds(runEnds, length), child)), width,
                Expanded(runEnds, values, length))
    {
      FinishedDecodes(runEnds, values, length, child, width);
    }
  }

  /** A run without slots breaks the encoding: its end repeats the one before it. */
  lemma {:induction false} EmptyRunBreaks(runEnds: seq<int>, values: seq<Value>, length: nat, v: Value)
    requires Building(runEnds, values, length)
    ensures !Building(if length == 0 then runEnds else runEnds + [length], values + [v], length)
  {
    var ends := if length == 0 then runEnds else runEnds + [length];
    assert length > 0 ==> ends[|ends| - 1] == length;
  }

  /** A run that ends below the end of the run before it breaks the encoding. */
  lemma {:induction false} ShrunkRunBreaks(runEnds: seq<int>, values: seq<Value>, length: nat, shorter: nat)
    requires 0 < shorter + length && shorter < length
    ensures !Building(runEnds + [length], values, shorter)
  {
    var ends := runEnds + [length];
    assert ends[|ends| - 1] == length;
  }

  // ---------------------------------------------------------------------------------------------
  // Counting slots
  // ---------------------------------------------------------------------------------------------

  const TWO_TO_64 := 0x1_0000_0000_0000_0000

  type UInt64 = n: int | 0 <= n < TWO_TO_64

  type Int64 = n: int | -0x8000_0000_0000_0000 <= n < 0x8000_0000_0000_0000

  lemma {:induction false} UnsignedRange(n: UInt64)
    ensures 0 <= n < TwoTo(64)
  {
    Powers();
    assert TwoTo(64) == 2 * TwoTo(63);
  }

  /** The unsigned 64-bit sum that is held against the limit. */
  function Sum(length: nat, n: UInt64): nat {
    (length + n) % TWO_TO_64
  }

  /**
   The check of the sum decides as the true sum would exactly when that sum fits 64 bits. Beyond, the sum is always
   accepted, and smaller than the length was.
   */
  lemma {:induction false} SumDecides(length: nat, n: UInt64, width: Width)
    requires length <= width.Limit()
    ensures length + n < TWO_TO_64 <==> (Sum(length, n) <= width.Limit() <==> length + n <= width.Limit())
    ensures length + n < TWO_TO_64 <==> Sum(length, n) == length + n
    ensures length + n >= TWO_TO_64 ==> Sum(length, n) < length
  {
    if length + n >= TWO_TO_64 { assert Sum(length, n) == length + n - TWO_TO_64; }
  }

  /** Five slots and 2^64 - 1 more are four slots. */
  lemma {:induction false} SumShrinks(width: Width)
    ensures Sum(5, TWO_TO_64 - 1) == 4 <= width.Limit()
  {}

  /** Adding the number as a signed one to the length gives the sum whenever that was accepted. */
  lemma {:induction false} SignedAddition(length: nat, n: UInt64, width: Width)
    requires length <= width.Limit() && Sum(length, n) <= width.Limit()
    ensures W64.Wrap(length + W64.Wrap(n)) == Sum(length, n)
  {
    SumDecides(length, n, width);
    if n > W64.Limit() {
      assert W64.Wrap(n) == n - TWO_TO_64;
    }
  }

  /** The run ends after the open run was closed. */
  function ClosedEnds(runEnds: seq<int>, length: nat): seq<int> {
    if length == 0 then runEnds else runEnds + [length]
  }

  /** What closing a run, counting n slots and appending a value make of runs under construction. */
  lemma {:induction false} RunStarted(runEnds: seq<int>, values: seq<Value>, length: nat, n: UInt64, v: Value,
      width: Width)
    requires Building(runEnds, values, length) && length <= width.Limit()
    ensures Building(ClosedEnds(runEnds, length), values + [v], Sum(length, n)) <==> 0 < n && length + n < TWO_TO_64
    ensures 0 < n && length + n < TWO_TO_64 ==>
              Expanded(ClosedEnds(runEnds, length), values + [v], length + n) ==
                  Expanded(runEnds, values, length) + Repeat(v, n)
    ensures !Building(ClosedEnds(runEnds, length), values + [v], length)
    ensures length > 0 ==> !Building(ClosedEnds(runEnds, length), values, length)
    ensures !Building(ClosedEnds(runEnds, length), values, length + 1)
  {
    SumDecides(length, n, width);
    EmptyRunBreaks(runEnds, values, length, v);
    if length + n >= TWO_TO_64 {
      ShrunkRunBreaks(runEnds, values + [v], length, Sum(length, n));
    } else if n > 0 {
      NewRun(runEnds, values, length, n, v);
    }
  }

  // ---------------------------------------------------------------------------------------------
  // The builder
  // ---------------------------------------------------------------------------------------------

  const NULL_VALUE_STR := "(null)"

  class RunEndEncodedBuilder {
    var length: nat
    var runEnds: seq<int>
    var values: seq<Value>
    var lastStr: Option<string>
    const width: Width
    const parse: string -> Option<Value>
    const empty: Value

    /** Runs are under construction, and the last string, if remembered, is the open run's value. */
    ghost predicate Valid()
      reads this
    {
      && Building(runEnds, values, length) && length <= width.Limit()
      && (lastStr.Some? ==> length > 0 && parse(lastStr.value) == Some(values[|values| - 1]))
    }

    /** The slots appended so far. */
    ghost function Contents(): seq<Value>
      reads this
    {
      Expanded(runEnds, values, length)
    }

    constructor (runEndWidth: Width, parser: string -> Option<Value>, emptyValue: Value)
      ensures Valid() && Contents() == [] && width == runEndWidth && parse == parser && empty == emptyValue
    {
      length, runEnds, values, lastStr := 0, [], [], None;
      width, parse, empty := runEndWidth, parser, emptyValue;
    }

    /** Counts n more slots unless their 64-bit sum exceeds the run-end type. */
    method AddLength(n: UInt64) returns (ok: bool)
      requires length <= width.Limit()
      modifies `length
      ensures ok <==> Sum(old(length), n) <= width.Limit()
      ensures length == if ok then Sum(old(length), n) else old(length)
    {
      if Sum(length, n) > width.Limit() {
        return false;
      }
      SignedAddition(length, n, width);
      length := W64.Wrap(length + W64.Wrap(n));
      return true;
    }

    /** Closes the open run. */
    method FinishRun()
      requires length <= width.Limit()
      modifies `runEnds, `lastStr
      ensures lastStr.None? && runEnds == ClosedEnds(old(runEnds), length)
    {
      lastStr := None;
      if length == 0 {
        return;
      }
      runEnds := runEnds + [width.Wrap(length)];
    }

    /**
     A run of n slots together with the one value the caller appends to the value builder for it. An accepted run of no
     slots breaks the builder, and so does one that makes the sum of the slots wrap.
     */
    method Append(n: UInt64, v: Value) returns (ok: bool)
      requires Valid()
      modifies this
      ensures ok <==> Sum(old(length), n) <= width.Limit()
      ensures ok ==> (Valid() <==> 0 < n && old(length) + n < TWO_TO_64)
      ensures ok && Valid() ==> Contents() == old(Contents()) + Repeat(v, n) && lastStr.None?
      ensures !ok ==> !Valid()
    {
      SumDecides(length, n, width);
      RunStarted(runEnds, values, length, n, v, width);
      FinishRun();
      ok := AddLength(n);
      values := values + [v];
    }

    /** More slots for the open run; a sum that wraps cuts the array instead, and without a run there is no value. */
    method ContinueRun(n: UInt64) returns (ok: bool)
      requires length <= width.Limit()
      modifies `length
      ensures ok <==> Sum(old(length), n) <= width.Limit()
      ensures length == if ok then Sum(old(length), n) else old(length)
      ensures old(Valid() && length > 0) && old(length) + n < TWO_TO_64 ==> Valid()
      ensures ok && old(Valid() && length > 0) && old(length) + n < TWO_TO_64 ==>
                Contents() == old(Contents()) + Repeat(old(values[|values| - 1]), n)
      ensures ok && old(length) + n >= TWO_TO_64 ==> length < old(length) && Contents() == old(Contents())[..length]
      ensures ok && old(Valid() && length == 0) && n > 0 ==> !Valid()
    {
      SumDecides(length, n, width);
      if Valid() && length > 0 { LongerRun(runEnds, values, length, n); }
      ok := AddLength(n);
    }

    /** One run of nulls; none for a count that is not positive. */
    method AppendNulls(n: Int64) returns (ok: bool)
      requires Valid()
      modifies this
      ensures ok <==> n <= 0 || old(length) + n <= width.Limit()
      ensures Valid() <==> ok
      ensures ok ==> Contents() == old(Contents()) + (if n <= 0 then [] else Repeat(Null, n))
    {
      if n <= 0 {
        return true;
      }
      ok := AppendRunOf(Null, n);
    }

    /** One run of empty values; none for a count that is not positive. */
    method AppendEmptyValues(n: Int64) returns (ok: bool)
      requires Valid()
      modifies this
      ensures ok <==> n <= 0 || old(length) + n <= width.Limit()
      ensures Valid() <==> ok
      ensures ok ==> Contents() == old(Contents()) + (if n <= 0 then [] else Repeat(empty, n))
    {
      if n <= 0 {
        return true;
      }
      ok := AppendRunOf(empty, n);
    }

    /** One run whose value is appended before its slots are counted. */
    method AppendRunOf(v: Value, n: Int64) returns (ok: bool)
      requires length <= width.Limit() && n > 0
      modifies this
      ensures length == (if ok then old(length) + n else old(length)) <= width.Limit()
      ensures ok <==> old(length) + n <= width.Limit()
      ensures old(Valid()) ==> (Valid() <==> ok)
      ensures old(Valid()) && ok ==> Contents() == old(Contents()) + Repeat(v, n)
    {
      SumDecides(length, n, width);
      if Valid() { RunStarted(runEnds, values, length, n, v, width); }
      FinishRun();
      values := values + [v];
      ok := AddLength(n);
    }

    /**
     One slot from a string: the null string is a null, a repeated string continues its run, another one starts a run.
     The builder survives a refusal exactly when the string would have continued a run. A string that does not parse is
     found out only after its run was counted and the string remembered.
     */
    method AppendValueFromString(s: string) returns (ok: bool)
      requires length <= width.Limit()
      modifies this
      ensures length <= width.Limit()
      ensures old(Valid()) ==> (ok <==> old(length) + 1 <= width.Limit() && (s == "(null)" || parse(s).Some?))
      ensures old(Valid()) ==> (Valid() <==> ok || (s != "(null)" && old(lastStr) == Some(s)))
      ensures old(Valid()) && ok ==>
                Contents() == old(Contents()) + [if s == "(null)" then Null else parse(s).value]
      ensures s != "(null)" && parse(s).None? && old(lastStr) != Some(s) && old(length) + 1 <= width.Limit() ==>
                !ok && length == old(length) + 1 && values == old(values) && lastStr == Some(s)
      ensures s != "(null)" && old(lastStr) == Some(s) ==>
                && (ok <==> old(length) + 1 <= width.Limit()) && length == old(length) + (if ok then 1 else 0)
                && values == old(values) && runEnds == old(runEnds) && lastStr == old(lastStr)
    {
      if s == NULL_VALUE_STR {
        assert Repeat(Null, 1) == [Null];
        ok := AppendRunOf(Null, 1);
        return;
      }
      if lastStr.Some? && s == lastStr.value {
        if Valid() { assert Repeat(values[|values| - 1], 1) == [values[|values| - 1]]; }
        ok := ContinueRun(1);
        return;
      }
      ok := StartRun(s);
    }

    /** A new run of one slot for a string. */
    method StartRun(s: string) returns (ok: bool)
      requires length <= width.Limit()
      modifies this
      ensures length <= width.Limit()
      ensures ok <==> old(length) + 1 <= width.Limit() && parse(s).Some?
      ensures old(Valid()) ==> (Valid() <==> ok)
      ensures old(Valid()) && ok ==> Contents() == old(Contents()) + [parse(s).value]
      ensures old(length) + 1 <= width.Limit() ==> length == old(length) + 1 && lastStr == Some(s)
      ensures parse(s).None? ==> values == old(values)
    {
      SumDecides(length, 1, width);
      ghost var v := if parse(s).Some? then parse(s).value else Null;
      if Valid() { RunStarted(runEnds, values, length, 1, v, width); }
      assert Repeat(v, 1) == [v];
      FinishRun();
      ok := AddLength(1);
      if !ok {
        return;
      }
      lastStr := Some(s);
      if parse(s).None? {
        return false;
      }
      values := values + [parse(s).value];
    }

    /**
     A string that does not parse is refused once; when it is repeated it passes for a longer run of a value that is not
     there.
     */
    method AppendUnparsableTwice(s: string) returns (first: bool, second: bool)
      requires Valid() && s != NULL_VALUE_STR && parse(s).None? && length + 2 <= width.Limit()
      modifies this
      ensures !first && second && length == old(length) + 2 && values == old(values) && !Valid()
    {
      first := AppendValueFromString(s);
      second := AppendValueFromString(s);
    }

    /** The finished array's parts: run ends that climb to the length, and one value per run. */
    method NewData() returns (ends: Option<seq<int>>, vs: seq<Value>, n: nat)
      requires Valid()
      modifies this
      ensures vs == old(values) && n == old(length) && ends == FinishedEnds(old(runEnds), n)
      ensures FinishedAs(ends, vs, n, width, old(Contents()))
      ensures Valid() && Contents() == []
    {
      AllFinished(runEnds, values, length, width);
      assert runEnds != [] ==> 1 <= runEnds[0] < length;
      FinishRun();
      ends := if |runEnds| == 0 then None else Some(runEnds);
      vs, n := values, length;
      length, runEnds, values := 0, [], [];
    }
  }

  // ---------------------------------------------------------------------------------------------
  // Validation
  // ---------------------------------------------------------------------------------------------

  /**
   Full validation accepts exactly the arrays whose run ends climb from at least 1, fit their type and cover the window.
   */
  method ValidateRunEndEncoded(d: Data, width: Width) returns (ok: bool)
    requires d.body.RunEndBody? && NullsFit(d) && forall i :: 0 <= i < |Held(d.body.runEnds)| ==>
               Held(d.body.runEnds)[i] <= width.Limit()
    ensures ok <==>
              && CountNulls(Validity(d)) == 0 && |Held(d.body.runEnds)| <= d.body.child.length
              && (Held(d.body.runEnds) == [] ==> d.length == 0)
              && (Held(d.body.runEnds) != [] ==>
                  d.offset + d.length <= Held(d.body.runEnds)[|Held(d.body.runEnds)| - 1])
              && StrictlyIncreasing(Held(d.body.runEnds))
                  && (forall i :: 0 <= i < |Held(d.body.runEnds)| ==> 1 <= Held(d.body.runEnds)[i])
  {
    var runEnds := Held(d.body.runEnds);
    var nulls := NullCount(d);
    if nulls != 0 {
      return false;
    }
    if |runEnds| > d.body.child.length {
      return false;
    }
    if |runEnds| == 0 {
      return d.length == 0;
    }
    if d.offset + d.length > width.Limit() || runEnds[|runEnds| - 1] < d.offset + d.length || runEnds[0] < 1 {
      return false;
    }
    var lastSeenRunEnd := runEnds[0];
    for i := 1 to |runEnds|
      invariant lastSeenRunEnd == runEnds[i - 1]
      invariant forall k :: 0 <= k < i ==> 1 <= runEnds[k] <= lastSeenRunEnd
      invariant forall k, l :: 0 <= k < l < i ==> Below(runEnds, k, l)
    {
      if runEnds[i] <= lastSeenRunEnd {
        assert !Below(runEnds, i - 1, i);
        return false;
      }
      lastSeenRunEnd := runEnds[i];
    }
    return true;
  }

  /** The recorded null count, or the count of cleared bits when it is unknown. */
  method NullCount(d: Data) returns (n: int)
    requires NullsFit(d)
    ensures n == CountNulls(Validity(d))
  {
    if d.nulls != UNKNOWN_NULL_COUNT {
      return d.nulls;
    }
    n := 0;
    for i := 0 to d.length
      invariant n == NullsAmong(Validity(d), i)
    {
      assert Validity(d)[i] == ValidBit(d, i);
      if d.validity.Some? && !d.validity.value[d.offset + i] { n := n + 1; }
    }
  }

  // ---------------------------------------------------------------------------------------------
  // Slices re-encoded
  // ---------------------------------------------------------------------------------------------

  /**
   The run ends of a window counted from its start. Behind an offset the last one is cut to the window; at offset 0
   the run ends are shared as they are, so that the last one may lie behind the window.
   */
  method LogicalRunEndsArray(d: Data, width: Width) returns (ends: seq<int>)
    requires RunEndFits(d, width)
    ensures d.offset != 0 ==> Skips(d, width, PhysicalIndex(Held(d.body.runEnds), width.Wrap(d.offset)))
    ensures d.offset != 0 ==>
              ends == Placement(RunsOf(d, PhysicalIndex(Held(d.body.runEnds), width.Wrap(d.offset)),
              PhysicalLength(d)), 0)
    ensures d.offset == 0 ==>
              0 <= PhysicalLength(d) <= |Held(d.body.runEnds)| && ends == Held(d.body.runEnds)[..PhysicalLength(d)]
  {
    var physOffset, physLength := FindRuns(d, width);
    if d.offset == 0 {
      return Held(d.body.runEnds)[..physLength];
    }
    RunsTouch(d, width, physOffset);
    var w := RunsOf(d, physOffset, physLength);
    ends := [];
    for i := 0 to physLength
      invariant |ends| == i && forall k :: 0 <= k < i ==> ends[k] == PlacedEnd(w, 0, k)
    {
      var v := width.Wrap(w.ends[i] - width.Wrap(d.offset));
      v := width.Wrap(Smaller(v, d.length));
      ends := ends + [v];
    }
    PlacementUnique(w, 0, ends);
  }

  lemma {:induction false} OneInput(d: Data)
    ensures Slots.ColumnUpTo([d], 1) == Decode(d) && Slots.SlotStart([d], 1) == d.length
    ensures Slots.ValidUpTo([d], 1) == Validity(d)
  {
    assert Slots.ColumnUpTo([d], 0) == [] && Slots.ValidUpTo([d], 0) == [] && Slots.SlotStart([d], 0) == 0;
  }

  /** Behind an offset, the logical run ends and values are an array at offset 0 with the window's column. */
  lemma {:induction false} ReencodesSlice(d: Data, width: Width, off: nat)
    requires RunEndFits(d, width) && NullsFit(d) && NullsFit(d.body.child) && Skips(d, width, off)
    ensures var e := Data(0, d.length, 0, None,
                          RunEndBody(Some(Placement(RunsOf(d, off, PhysicalLength(d)), 0)),
                              Slice(d.body.child, off, off + PhysicalLength(d))));
            RunEndFits(e, width) && Decode(e) == Decode(d) && LastEnd(Held(e.body.runEnds)) == e.length
  {
    var w, s := RunsOf(d, off, PhysicalLength(d)), Slice(d.body.child, off, off + PhysicalLength(d));
    var e := Data(0, d.length, 0, None, RunEndBody(Some(Placement(w, 0)), s));
    OneInput(d);
    OneInput(s);
    OneRun(w);
    assert IsRunEnds([d], width, 0) && RunSlice([d], width, [off], [w], [s], 0);
    AllValid(d, e);
    if d.length > 0 { RunsFound(Held(d.body.runEnds), d.offset, d.length, width); }
    RunsKeep([d], width, [off], [w], [s], e);
    RunOutputFits([d], width, [off], [w], [s], e);
  }

  lemma {:induction false} OneRun(w: Runs)
    ensures Laid([w], 1) == Placement(w, 0) && SlotsUpTo([w], 1) == w.length
  {
    assert Laid([w], 0) == [] && SlotsUpTo([w], 0) == 0;
  }

  /** Arrays without bitmaps are valid throughout. */
  lemma {:induction false} AllValid(d: Data, e: Data)
    requires d.validity.None? && e.validity.None? && d.length == e.length && e.nulls == 0
    ensures Validity(d) == Validity(e) && NullsFit(e)
  {
    assert forall i :: 0 <= i < d.length ==> ValidBit(e, i) && ValidBit(d, i);
    assert Validity(e) == Validity(d);
    CountNullsZero(Validity(e));
  }

  /** At offset 0 the shared run ends decode to the window too, though the last one may end behind it. */
  lemma {:induction false} SharesPrefix(d: Data, width: Width)
    requires RunEndFits(d, width) && NullsFit(d) && NullsFit(d.body.child) && d.offset == 0
    requires 0 <= PhysicalLength(d) <= |Held(d.body.runEnds)|
    ensures var e := Data(0, d.length,
              0, None, RunEndBody(Some(Held(d.body.runEnds)[..PhysicalLength(d)]),
              Slice(d.body.child, 0, PhysicalLength(d))));
            && Decode(e) == Decode(d)
            && (d.length > 0 ==> LastEnd(Held(e.body.runEnds)) >= d.length)
  {
    var n := PhysicalLength(d);
    var s := Slice(d.body.child, 0, n);
    var e := Data(0, d.length, 0, None, RunEndBody(Some(Held(d.body.runEnds)[..n]), s));
    SliceDecodes(d.body.child, 0, n);
    if d.length > 0 {
      RunsFound(Held(d.body.runEnds), 0, d.length, width);
      RunAmongFinds(Held(d.body.runEnds), 0, |Held(d.body.runEnds)|);
      FirstRunIsZero(Held(d.body.runEnds));
      assert RunsOf(d, 0, n).ends == Held(d.body.runEnds)[..n];
    }
    assert forall i :: 0 <= i < d.length ==> Validity(e)[i] == ValidBit(e, i) && Validity(d)[i] == ValidBit(d, i);
    forall i | 0 <= i < d.length ensures SameSlot(e, d, i) { SharedSlot(d, width, e, i); }
    SameColumn(e, d);
  }

  lemma {:induction false} SharedSlot(d: Data, width: Width, e: Data, i: nat)
    requires RunEndFits(d, width) && d.offset == 0 && i < d.length && Skips(d, width, 0)
    requires e.body.RunEndBody? && e.offset == 0 && Held(e.body.runEnds) == RunsOf(d, 0, PhysicalLength(d)).ends
    requires |Held(d.body.runEnds)| <= d.body.child.length
    requires Decode(e.body.child) == Decode(d.body.child)[..PhysicalLength(d)]
    ensures SameSlot(e, d, i)
  {
    RunInWindow(d, width, 0, i);
    SameRunValue(e.body, i, d.body, i);
  }

  /** The last shared run end is the window's length exactly when a run ends there. */
  lemma {:induction false} LastShared(ends: seq<int>, length: nat, width: Width)
    requires RunEndsFit(ends, 0, length, width) && length > 0
    ensures var last := PhysicalIndex(ends, length - 1); last < |ends| && (ends[last] == length <==> length in ends)
  {
    RunsFound(ends, 0, length, width);
    if length in ends {
      var k :| 0 <= k < |ends| && ends[k] == length;
      if k > 0 { assert Below(ends, k - 1, k); }
      PhysicalIndexIs(ends, length - 1, k);
    }
  }

  lemma {:induction false} FirstRunIsZero(ends: seq<int>)
    requires StrictlyIncreasing(ends) && ends != [] && ends[0] >= 1
    ensures PhysicalIndex(ends, 0) == 0
  {
    PhysicalIndexIs(ends, 0, 0);
  }
}

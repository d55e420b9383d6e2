/** The child values that a list-view array refers to, found by scans that stop early, and when those are right. */
module ListViewRange {
  import opened Basics
  import opened Layout
  import opened Offsets

  predicate IsNull(d: Data, i: int): (r: bool)
    requires 0 <= i < d.length && (d.validity.Some? ==> d.offset + d.length <= |d.validity.value|)
    ensures r <==> !Validity(d)[i]
  {
    d.validity.Some? && !d.validity.value[d.offset + i]
  }

  /** Slot i is valid and its view is not empty. */
  ghost predicate Refers(d: Data, i: int) {
    && 0 <= i < d.length && d.body.ListViewBody? && d.offset + i < |d.body.sizes| && d.offset + i < |d.body.starts|
    && Validity(d)[i] && d.body.sizes[d.offset + i] > 0
  }

  ghost function First(d: Data, i: int): int
    requires Refers(d, i)
  {
    d.body.starts[d.offset + i]
  }

  ghost function End(d: Data, i: int): int
    requires Refers(d, i)
  {
    d.body.starts[d.offset + i] + d.body.sizes[d.offset + i]
  }

  /** The smallest contiguous range of child values that covers every non-empty valid view; (0, 0) if there is none. */
  ghost predicate IsRangeUsed(d: Data, r: Range) {
    if exists i :: Refers(d, i) then
      && (forall i :: Refers(d, i) ==> r.offset <= First(d, i) && End(d, i) <= r.offset + r.length)
      && (exists i :: Refers(d, i) && First(d, i) == r.offset)
      && (exists i :: Refers(d, i) && End(d, i) == r.offset + r.length)
    else r == Range(0, 0)
  }

  lemma {:induction false} RangeUsedUnique(d: Data, r: Range, s: Range)
    requires IsRangeUsed(d, r) && IsRangeUsed(d, s)
    ensures r == s
  {}

  lemma {:induction false} RefersFits(d: Data, i: int, width: Width)
    requires ListViewFits(d, width) && Refers(d, i)
    ensures 0 <= First(d, i) < End(d, i) <= d.body.child.length
    ensures First(d, i) <= width.Limit() && End(d, i) - First(d, i) <= width.Limit()
  {
    assert Validity(d)[i];
  }

  lemma {:induction false} RangeCovers(d: Data, r: Range, i: int)
    requires IsRangeUsed(d, r) && Refers(d, i)
    ensures r.offset <= First(d, i) && End(d, i) <= r.offset + r.length
  {}

  lemma {:induction false} RangeUsedInChild(d: Data, r: Range, width: Width)
    requires ListViewFits(d, width) && IsRangeUsed(d, r)
    ensures 0 <= r.offset <= width.Limit() && 0 <= r.length && r.offset + r.length <= d.body.child.length
  {
    if exists i :: Refers(d, i) {
      var i :| Refers(d, i) && First(d, i) == r.offset;
      RefersFits(d, i, width);
      var j :| Refers(d, j) && End(d, j) == r.offset + r.length;
      RefersFits(d, j, width);
    }
  }

  // ---------------------------------------------------------------------------------------------
  // The scans
  // ---------------------------------------------------------------------------------------------

  /** The least start of a view among the first n slots. */
  ghost function LeastStart(d: Data, n: nat): Option<int> {
    if n == 0 then None
    else
      var before := LeastStart(d, n - 1);
      if !Refers(d, n - 1) || (before.Some? && before.value <= First(d, n - 1)) then before else Some(First(d, n - 1))
  }

  /** The end of a view in the arithmetic of the offset type. */
  ghost function EndAs(d: Data, width: Width, i: int): int
    requires Refers(d, i)
  {
    width.Wrap(End(d, i))
  }

  /** Where the backward scan stops: at the child's length, as a number of the offset type. */
  function StopAt(d: Data, width: Width): int
    requires d.body.ListViewBody?
  {
    width.Wrap(d.body.child.length)
  }

  /** What the backward scan has found in the last n slots. */
  ghost function ScannedEnd(d: Data, width: Width, n: nat): Option<int>
    requires d.body.ListViewBody?
  {
    if n == 0 then None else ScanNext(d, width, d.length - n, ScannedEnd(d, width, n - 1))
  }

  /** What reading slot i makes of what was found behind it. */
  ghost function ScanNext(d: Data, width: Width, i: int, found: Option<int>): Option<int>
    requires d.body.ListViewBody?
  {
    if !Refers(d, i) || found == Some(StopAt(d, width)) || (found.Some? && found.value >= EndAs(d, width, i)) then found
    else Some(EndAs(d, width, i))
  }

  ghost function OrZero(x: Option<int>): int {
    if x.None? then 0 else x.value
  }

  /** The range that the two scans compute. */
  ghost function ScannedRange(d: Data, width: Width): Range
    requires d.body.ListViewBody?
  {
    if d.length == 0 || d.nulls == d.length then Range(0, 0)
    else
      var least := OrZero(LeastStart(d, d.length));
      Range(least, OrZero(ScannedEnd(d, width, d.length)) - least)
  }

  lemma {:induction false} LeastStartIs(d: Data, width: Width, n: nat)
    requires ListViewFits(d, width)
    ensures forall i :: Refers(d, i) && i < n ==> LeastStart(d, n).Some? && LeastStart(d, n).value <= First(d, i)
    ensures LeastStart(d, n).Some? ==> exists i :: Refers(d, i) && i < n && First(d, i) == LeastStart(d, n).value
    ensures LeastStart(d, n).Some? ==> 0 <= LeastStart(d, n).value <= width.Limit()
  {
    if n > 0 {
      LeastStartIs(d, width, n - 1);
      if Refers(d, n - 1) { RefersFits(d, n - 1, width); }
    }
  }

  lemma {:induction false} ZeroIsLeast(d: Data, width: Width, m: nat, n: nat)
    requires ListViewFits(d, width) && m <= n && LeastStart(d, m) == Some(0)
    ensures LeastStart(d, n) == Some(0)
  {
    if m < n {
      ZeroIsLeast(d, width, m, n - 1);
      if Refers(d, n - 1) { RefersFits(d, n - 1, width); }
    }
  }

  lemma {:induction false} StopStays(d: Data, width: Width, m: nat, n: nat)
    requires d.body.ListViewBody? && m <= n && ScannedEnd(d, width, m) == Some(StopAt(d, width))
    ensures ScannedEnd(d, width, n) == Some(StopAt(d, width))
  {
    if m < n { StopStays(d, width, m, n - 1); }
  }

  /** The smallest start of a non-empty valid view, 0 when there is none. */
  method MinListViewOffset(d: Data, width: Width) returns (minOffset: int)
    requires ListViewFits(d, width) && NullsFit(d)
    ensures minOffset == OrZero(LeastStart(d, d.length))
  {
    var offsets, sizes := d.body.starts[d.offset..], d.body.sizes[d.offset..];
    var i := 0;
    while i < d.length && (IsNull(d, i) || sizes[i] == 0)
      invariant 0 <= i <= d.length && LeastStart(d, i) == None
    {
      assert !Refers(d, i);
      i := i + 1;
    }
    if i >= d.length {
      return 0;
    }
    minOffset := offsets[i];
    assert SlotFits(d, i, width) && Refers(d, i) && First(d, i) == minOffset;
    i := i + 1;
    if minOffset == 0 {
      ZeroIsLeast(d, width, i, d.length);
      return 0;
    }
    while i < d.length
      invariant 0 < i <= d.length && LeastStart(d, i) == Some(minOffset)
    {
      if !IsNull(d, i) {
        assert SlotFits(d, i, width) && (Refers(d, i) <==> sizes[i] > 0);
        var offset := offsets[i];
        if offset < minOffset && sizes[i] > 0 { minOffset := offset; }
      }
      i := i + 1;
    }
  }

  /** The last slot that refers to values, or slot 0. */
  method LastSlot(d: Data, width: Width) returns (i: nat)
    requires ListViewFits(d, width) && NullsFit(d) && d.length > 0
    ensures i < d.length && ScannedEnd(d, width, d.length - 1 - i) == None && (Refers(d, i) || i == 0)
  {
    var sizes := d.body.sizes[d.offset..];
    i := d.length - 1;
    while i != 0 && (IsNull(d, i) || sizes[i] == 0)
      invariant 0 <= i < d.length && ScannedEnd(d, width, d.length - 1 - i) == None
    {
      assert !Refers(d, i);
      i := i - 1;
    }
    if i != 0 { assert SlotFits(d, i, width); }
  }

  /** The largest end of a non-empty valid view, as far as the scan from the back gets; 0 when there is none. */
  method MaxListViewEnd(d: Data, width: Width) returns (maxEnd: int)
    requires ListViewFits(d, width) && NullsFit(d) && d.length > 0
    ensures maxEnd == OrZero(ScannedEnd(d, width, d.length))
  {
    var i := LastSlot(d, width);
    var offset, size := d.body.starts[d.offset + i], d.body.sizes[d.offset + i];
    ghost var n := d.length - i;
    if i == 0 {
      if IsNull(d, i) || size == 0 {
        assert !Refers(d, i);
        return 0;
      }
      assert SlotFits(d, i, width) && Refers(d, i);
      return width.Wrap(offset + size);
    }
    maxEnd := width.Wrap(offset + size);
    assert ScannedEnd(d, width, n) == Some(maxEnd);
    if maxEnd == StopAt(d, width) {
      StopStays(d, width, n, d.length);
      return;
    }
    maxEnd := ScanOn(d, width, i, maxEnd);
  }

  /** The rest of the backward scan; reading the view at `start` again would change nothing. */
  method ScanOn(d: Data, width: Width, start: nat, found: int) returns (maxEnd: int)
    requires ListViewFits(d, width) && NullsFit(d) && start < d.length && found != StopAt(d, width)
    requires ScannedEnd(d, width, d.length - start) == Some(found)
    ensures ScannedEnd(d, width, d.length) == Some(maxEnd)
  {
    maxEnd := found;
    var i: int := start - 1;
    while i >= 0
      invariant -1 <= i < start && maxEnd != StopAt(d, width) && ScannedEnd(d, width, d.length - 1 - i) == Some(maxEnd)
      decreases i
    {
      ghost var n := d.length - i;
      maxEnd := ReadView(d, width, i, maxEnd);
      assert ScannedEnd(d, width, n) == Some(maxEnd);
      if maxEnd == StopAt(d, width) {
        StopStays(d, width, n, d.length);
        return;
      }
      i := i - 1;
    }
  }

  method ReadView(d: Data, width: Width, i: nat, found: int) returns (maxEnd: int)
    requires ListViewFits(d, width) && NullsFit(d) && i < d.length && found != StopAt(d, width)
    ensures Some(maxEnd) == ScanNext(d, width, i, Some(found))
  {
    maxEnd := found;
    var offset, size := d.body.starts[d.offset + i], d.body.sizes[d.offset + i];
    if size > 0 && !IsNull(d, i) {
      assert Refers(d, i) && EndAs(d, width, i) == width.Wrap(offset + size);
      if width.Wrap(offset + size) > maxEnd { maxEnd := width.Wrap(offset + size); }
    } else {
      assert !Refers(d, i);
    }
  }

  /** The two scans together; an all-null array is not scanned. */
  method RangeOfValuesUsed(d: Data, width: Width) returns (r: Range)
    requires ListViewFits(d, width) && NullsFit(d)
    ensures r == ScannedRange(d, width)
  {
    if d.length == 0 || d.nulls == d.length {
      return Range(0, 0);
    }
    var minOffset := MinListViewOffset(d, width);
    var maxEnd := MaxListViewEnd(d, width);
    return Range(minOffset, maxEnd - minOffset);
  }

  // ---------------------------------------------------------------------------------------------
  // When the scans are right
  // ---------------------------------------------------------------------------------------------

  /** The ends of all views fit the offset type. */
  ghost predicate EndsFit(d: Data, width: Width) {
    forall i :: Refers(d, i) ==> End(d, i) <= width.Limit()
  }

  /**
   The backward scan stops too early: the child is so long that its length, as a number of the offset type, is the end
   of some view, which is the largest end behind it but not the largest of all.
   */
  ghost predicate Misled(d: Data, width: Width)
    requires d.body.ListViewBody?
  {
    exists i :: StopsAt(d, width, i) && exists k :: Refers(d, k) && End(d, k) > End(d, i)
  }

  ghost predicate StopsAt(d: Data, width: Width, i: int)
    requires d.body.ListViewBody?
  {
    Refers(d, i) && End(d, i) == StopAt(d, width) && forall k :: Refers(d, k) && k > i ==> End(d, k) <= End(d, i)
  }

  /** The scan is not misled as long as the child's length fits the offset type. */
  lemma {:induction false} ShortChild(d: Data, width: Width)
    requires ListViewFits(d, width) && d.body.child.length <= width.Limit()
    ensures EndsFit(d, width) && !Misled(d, width)
  {
    forall i | Refers(d, i) ensures End(d, i) <= d.body.child.length { RefersFits(d, i, width); }
  }

  /** A view's end comes out as it is, or negative. */
  lemma {:induction false} EndAsIs(d: Data, width: Width, i: int)
    requires ListViewFits(d, width) && Refers(d, i)
    ensures EndAs(d, width, i) == if End(d, i) <= width.Limit() then End(d, i) else End(d, i) - 2 * (width.Limit() + 1)
    ensures End(d, i) > width.Limit() ==> EndAs(d, width, i) < 0
  {
    RefersFits(d, i, width);
  }

  lemma {:induction false} ScannedAmong(d: Data, width: Width, n: nat)
    requires ListViewFits(d, width) && n <= d.length
    ensures ScannedEnd(d, width, n).Some? ==>
              exists i :: Refers(d, i) && i >= d.length - n && ScannedEnd(d, width, n).value == EndAs(d, width, i)
    ensures (exists i :: Refers(d, i) && i >= d.length - n) ==> ScannedEnd(d, width, n).Some?
  {
    if n > 0 { ScannedAmong(d, width, n - 1); }
  }

  /** The scan finds the largest end, unless it has stopped. */
  lemma {:induction false} ScannedIs(d: Data, width: Width, n: nat)
    requires ListViewFits(d, width) && n <= d.length && EndsFit(d, width)
    ensures ScannedEnd(d, width, n).Some? && ScannedEnd(d, width, n).value != StopAt(d, width) ==>
              forall i :: Refers(d, i) && i >= d.length - n ==> End(d, i) <= ScannedEnd(d, width, n).value
    ensures ScannedEnd(d, width, n) == Some(StopAt(d, width)) ==> exists i :: StopsAt(d, width, i)
  {
    if n > 0 {
      ScannedIs(d, width, n - 1);
      ScannedAmong(d, width, n - 1);
      var i := d.length - n;
      if Refers(d, i) {
        EndAsIs(d, width, i);
        if ScannedEnd(d, width, n) == Some(StopAt(d, width)) && ScannedEnd(d, width, n - 1) != Some(StopAt(d, width)) {
          assert StopsAt(d, width, i);
        }
      }
    }
  }

  lemma {:induction false} MisledStops(d: Data, width: Width, i: nat)
    requires ListViewFits(d, width) && EndsFit(d, width) && StopsAt(d, width, i)
    ensures ScannedEnd(d, width, d.length) == Some(StopAt(d, width))
  {
    var n := d.length - i;
    ScannedAmong(d, width, n - 1);
    EndAsIs(d, width, i);
    if ScannedEnd(d, width, n - 1).Some? {
      var k :| Refers(d, k) && k >= d.length - (n - 1) && ScannedEnd(d, width, n - 1).value == EndAs(d, width, k);
      EndAsIs(d, width, k);
    }
    StopStays(d, width, n, d.length);
  }

  lemma {:induction false} RefersNone(d: Data)
    requires NullsFit(d) && (d.length == 0 || d.nulls == d.length)
    ensures forall i :: !Refers(d, i)
  {
    CountNullsZero(Validity(d));
  }

  /** The computed range begins at the least start, and reaches no further than the child, if it is a range at all. */
  lemma {:induction false} ScannedRangeBounds(d: Data, width: Width)
    requires ListViewFits(d, width)
    ensures var r := ScannedRange(d, width);
            0 <= r.offset && r.offset + r.length <= Smaller(d.body.child.length, width.Limit())
  {
    LeastStartIs(d, width, d.length);
    ScannedAmong(d, width, d.length);
    if ScannedEnd(d, width, d.length).Some? {
      var i :| Refers(d, i) && ScannedEnd(d, width, d.length).value == EndAs(d, width, i);
      EndAsIs(d, width, i);
      RefersFits(d, i, width);
    }
  }

  /**
   The scans find the smallest covering range exactly when the ends of the views fit the offset type and do not mislead
   the scan.
   */
  lemma {:induction false} RangeIsRight(d: Data, width: Width)
    requires ListViewFits(d, width) && NullsFit(d)
    ensures IsRangeUsed(d, ScannedRange(d, width)) <==> EndsFit(d, width) && !Misled(d, width)
  {
    if d.length == 0 || d.nulls == d.length {
      RefersNone(d);
    } else if !EndsFit(d, width) {
      TooFar(d, width);
    } else if Misled(d, width) {
      var i :| StopsAt(d, width, i) && exists k :: Refers(d, k) && End(d, k) > End(d, i);
      MisledStops(d, width, i);
    } else {
      FoundRange(d, width);
    }
  }

  lemma {:induction false} TooFar(d: Data, width: Width)
    requires ListViewFits(d, width) && !EndsFit(d, width)
    ensures !IsRangeUsed(d, ScannedRange(d, width))
  {
    var i :| Refers(d, i) && End(d, i) > width.Limit();
    ScannedRangeBounds(d, width);
  }

  lemma {:induction false} FoundRange(d: Data, width: Width)
    requires ListViewFits(d, width) && EndsFit(d, width) && !Misled(d, width) && d.length > 0 && d.nulls != d.length
    ensures IsRangeUsed(d, ScannedRange(d, width))
  {
    var n := d.length;
    LeastStartIs(d, width, n);
    ScannedIs(d, width, n);
    ScannedAmong(d, width, n);
    if exists i :: Refers(d, i) {
      var i :| Refers(d, i) && ScannedEnd(d, width, n).value == EndAs(d, width, i);
      EndAsIs(d, width, i);
      assert i >= d.length - n && End(d, i) == ScannedEnd(d, width, n).value;
    }
  }

  /**
   A child of 2^32 + 10 values counts as 10, so that a view that ends at 10 hides one in front of it that ends at 100.
   */
  lemma {:induction false} LongChildMisleads(child: Data)
    requires child.length == 0x1_0000_000A
    ensures var d := Data(0, 2, 0, None, ListViewBody([50, 5], [50, 5], child));
            ListViewFits(d, W32) && EndsFit(d, W32) && Misled(d, W32)
  {
    var d := Data(0, 2, 0, None, ListViewBody([50, 5], [50, 5], child));
    assert Validity(d)[0] == ValidBit(d, 0) && Validity(d)[1] == ValidBit(d, 1);
    assert Refers(d, 0) && Refers(d, 1) && End(d, 0) == 100 && End(d, 1) == 10;
    assert W32.Wrap(0x1_0000_000A) == 10;
    assert StopsAt(d, W32, 1);
  }

  // ---------------------------------------------------------------------------------------------
  // Validation
  // ---------------------------------------------------------------------------------------------

  /** The full validation of a list-view array's slots, null slots included. */
  method FullyValidateOffsetsAndSizes(d: Data, width: Width) returns (ok: bool)
    requires d.body.ListViewBody? && d.offset + d.length <= |d.body.starts| && d.offset + d.length <= |d.body.sizes|
    requires forall i :: d.offset <= i < d.offset + d.length ==>
               d.body.starts[i] <= width.Limit() && d.body.sizes[i] <= width.Limit()
    ensures ok <==> forall i :: 0 <= i < d.length ==> SlotFits(d, i, width)
    ensures ok ==> ListViewFits(d, width)
  {
    var limit := d.body.child.length;
    for slot := 0 to d.length
      invariant forall i :: 0 <= i < slot ==> SlotFits(d, i, width)
    {
      var size := d.body.sizes[d.offset + slot];
      if size > 0 {
        var offset := d.body.starts[d.offset + slot];
        if offset < 0 || offset > limit {
          assert !SlotFits(d, slot, width);
          return false;
        }
        if size > limit - offset {
          assert !SlotFits(d, slot, width);
          return false;
        }
      } else if size < 0 {
        assert !SlotFits(d, slot, width);
        return false;
      }
    }
    return true;
  }
}

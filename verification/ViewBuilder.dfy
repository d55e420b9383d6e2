/** The binary view builder: headers over shared blocks, and rollback to a captured row. */
module ViewBuilder {
  import opened Layout
  import opened MultiBuffer

  const VIEW_INLINE_SIZE := 12
  const VIEW_VALUE_SIZE_LIMIT := 0x7FFF_FFFF

  /** Validity, headers with room to spare, and the blocks they refer to. */
  datatype Views = Views(valid: seq<bool>, headers: seq<Header>, data: State)

  /** What is appended to a view builder. */
  datatype Append = Value(v: seq<Byte>) | NullValue | EmptyValue

  ghost function Appends(a: Append): Layout.Value {
    match a
    case Value(v) => Bytes(v)
    case NullValue => Null
    case EmptyValue => Bytes([])
  }

  /** Headers behind the length are blank. */
  predicate Shaped(s: Views) {
    && Sound(s.data) && |s.valid| <= |s.headers|
    && forall i :: |s.valid| <= i < |s.headers| ==> s.headers[i] == Inline([])
  }

  /** Headers behind the length are blank, and every valid header resolves. */
  ghost predicate SoundViews(s: Views) {
    && Shaped(s)
    && forall i :: 0 <= i < |s.valid| && s.valid[i] ==> HeaderFits(s.headers[i], BytesOf(s.data.blocks))
  }

  ghost function ViewAt(s: Views, i: int): Layout.Value
    requires 0 <= i < |s.valid| && |s.valid| <= |s.headers|
  {
    if s.valid[i] then Bytes(Resolve(s.headers[i], BytesOf(s.data.blocks))) else Null
  }

  ghost function ContentsUpTo(s: Views, n: nat): (column: seq<Layout.Value>)
    requires n <= |s.valid| <= |s.headers|
    ensures |column| == n && forall i {:trigger column[i]} :: 0 <= i < n ==> column[i] == ViewAt(s, i)
  {
    if n == 0 then [] else ContentsUpTo(s, n - 1) + [ViewAt(s, n - 1)]
  }

  /** The column built so far. */
  ghost function Contents(s: Views): seq<Layout.Value>
    requires Shaped(s)
  {
    ContentsUpTo(s, |s.valid|)
  }

  // ---------------------------------------------------------------------------------------------
  // Operations on states
  // ---------------------------------------------------------------------------------------------

  /** Room for one more header; new headers are blank. */
  function WithRoom(headers: seq<Header>, n: nat): seq<Header> {
    if n < |headers| then headers else headers + Blanks(n + 1 - |headers|)
  }

  function Blanks(n: nat): (s: seq<Header>)
    ensures |s| == n && forall i :: 0 <= i < n ==> s[i] == Inline([])
  {
    if n == 0 then [] else Blanks(n - 1) + [Inline([])]
  }

  /** A long value goes to the blocks, a short one into its header; nulls and empty values write no header. */
  function ViewStep(s: Views, a: Append, blockSize: nat): Views
    requires Shaped(s)
  {
    var n, headers := |s.valid|, WithRoom(s.headers, |s.valid|);
    match a
    case Value(v) =>
      if |v| <= VIEW_INLINE_SIZE then Views(s.valid + [true], headers[n := Inline(v)], s.data)
      else
        var reserved := Reserved(s.data, |v|, blockSize);
        ReservedHasRoom(s.data, |v|, blockSize);
        Views(s.valid + [true], headers[n := HeaderFor(reserved, v)], Appended(reserved, v))
    case NullValue => Views(s.valid + [false], headers, s.data)
    case EmptyValue => Views(s.valid + [true], headers, s.data)
  }

  /**
   Values of up to 12 bytes stay in the header, longer ones go to a block; nulls and empty values leave a blank header.
   */
  lemma {:induction false} StepPlaces(s: Views, a: Append, blockSize: nat)
    requires Shaped(s)
    ensures var t, n := ViewStep(s, a, blockSize), |s.valid|;
            && |t.valid| == n + 1 <= |t.headers| && t.valid == s.valid + [!a.NullValue?]
            && (a.Value? && |a.v| <= 12 ==> t.headers[n] == Inline(a.v) && t.data == s.data)
            && (a.Value? && |a.v| > 12 ==> t.headers[n].Ref? && t.headers[n].size == |a.v|)
            && (!a.Value? ==> t.headers[n] == Inline([]) && t.data == s.data)
  {}

  /** Block numbers and offsets can be written in 32 bits. */
  ghost predicate Addressable(s: State) {
    |s.blocks| <= W32.Limit() && forall i :: 0 <= i < |s.blocks| ==> |s.blocks[i].bytes| <= W32.Limit()
  }

  lemma {:induction false} StepData(s: Views, a: Append, blockSize: nat)
    requires Shaped(s)
    ensures var t := ViewStep(s, a, blockSize);
            t.data == if a.Value? && |a.v| > VIEW_INLINE_SIZE then Step(s.data, Put(a.v), blockSize) else s.data
    ensures Shaped(ViewStep(s, a, blockSize)) && Extends(s.data, ViewStep(s, a, blockSize).data)
  {
    if a.Value? && |a.v| > VIEW_INLINE_SIZE {
      StepSound(s.data, Put(a.v), blockSize);
      StepExtends(s.data, Put(a.v), blockSize);
    } else {
      assert forall i :: 0 <= i < |s.data.blocks| ==> BlockExtends(s.data, s.data, i);
    }
  }

  /** The header written for the new slot resolves to the value. */
  lemma {:induction false} NewHeader(s: Views, a: Append, blockSize: nat)
    requires SoundViews(s) && Addressable(ViewStep(s, a, blockSize).data)
    ensures var t, n := ViewStep(s, a, blockSize), |s.valid|;
            && |t.valid| == n + 1 <= |t.headers|
            && (t.valid[n] ==> HeaderFits(t.headers[n], BytesOf(t.data.blocks)))
            && ViewAt(t, n) == Appends(a)
  {
    if a.Value? && |a.v| > VIEW_INLINE_SIZE {
      var r := Reserved(s.data, |a.v|, blockSize);
      ReservedHasRoom(s.data, |a.v|, blockSize);
      var t := Appended(r, a.v);
      assert |r.blocks[r.current].bytes| <= |t.blocks[r.current].bytes|;
      AppendedResolves(r, a.v);
    }
  }

  /** Appending keeps earlier slots and adds the value. */
  lemma {:induction false} StepContents(s: Views, a: Append, blockSize: nat)
    requires SoundViews(s) && Addressable(ViewStep(s, a, blockSize).data)
    ensures SoundViews(ViewStep(s, a, blockSize))
    ensures Contents(ViewStep(s, a, blockSize)) == Contents(s) + [Appends(a)]
  {
    var t := ViewStep(s, a, blockSize);
    StepData(s, a, blockSize);
    NewHeader(s, a, blockSize);
    forall i | 0 <= i < |s.valid|
      ensures t.valid[i] == s.valid[i] && t.headers[i] == s.headers[i] && ViewAt(t, i) == ViewAt(s, i)
      ensures t.valid[i] ==> HeaderFits(t.headers[i], BytesOf(t.data.blocks))
    {
      if s.valid[i] { ResolvesSame(s.data, t.data, s.headers[i]); }
    }
    assert ContentsUpTo(t, |t.valid|) == ContentsUpTo(s, |s.valid|) + [Appends(a)];
  }

  // ---------------------------------------------------------------------------------------------
  // Rollback
  // ---------------------------------------------------------------------------------------------

  function ViewsCaptured(s: Views): Views {
    s.(data := Captured(s.data))
  }

  /** Truncates to n slots, undoes the blocks, and blanks the headers behind. */
  function ViewsUndone(s: Views, n: nat): Views
    requires n <= |s.valid| && n <= |s.headers|
  {
    Views(s.valid[..n], s.headers[..n] + Blanks(|s.headers| - n), Undone(s.data))
  }

  /** `s` is `a` with slots added behind, and its log leads back to a's blocks. */
  ghost predicate GrownFrom(a: Views, s: Views) {
    && |a.valid| <= |s.valid| <= |s.headers| && s.valid[..|a.valid|] == a.valid && |a.valid| <= |a.headers|
    && s.headers[..|a.valid|] == a.headers[..|a.valid|] && LeadsBack(a.data, s.data)
  }

  lemma {:induction false} StepGrows(a: Views, s: Views, op: Append, blockSize: nat)
    requires Shaped(s) && GrownFrom(a, s)
    ensures GrownFrom(a, ViewStep(s, op, blockSize))
  {
    StepData(s, op, blockSize);
    if op.Value? && |op.v| > VIEW_INLINE_SIZE { StepLeadsBack(a.data, s.data, Put(op.v), blockSize); }
    var t, n := ViewStep(s, op, blockSize), |a.valid|;
    assert t.valid[..n] == s.valid[..n] && t.headers[..n] == s.headers[..n];
  }

  lemma {:induction false} UndoneContents(a: Views, s: Views)
    requires Shaped(a) && GrownFrom(a, s)
    ensures Shaped(ViewsUndone(s, |a.valid|)) && Contents(ViewsUndone(s, |a.valid|)) == Contents(a)
    ensures SoundViews(a) ==> SoundViews(ViewsUndone(s, |a.valid|))
  {
    var n := |a.valid|;
    var u := ViewsUndone(s, n);
    UndoLeadsBack(a.data, s.data);
    forall i | 0 <= i < n
      ensures u.valid[i] == a.valid[i] && u.headers[i] == a.headers[i] && ViewAt(u, i) == ViewAt(a, i)
    {
      assert s.headers[..n][i] == a.headers[..n][i];
    }
    assert ContentsUpTo(u, n) == ContentsUpTo(a, n);
  }

  /** The state after the first n appends. */
  function RunAppends(s: Views, ops: seq<Append>, blockSize: nat, n: nat): (r: Views)
    requires Shaped(s) && n <= |ops|
    ensures Shaped(r)
  {
    if n == 0 then s
    else
      StepData(RunAppends(s, ops, blockSize, n - 1), ops[n - 1], blockSize);
      ViewStep(RunAppends(s, ops, blockSize, n - 1), ops[n - 1], blockSize)
  }

  lemma {:induction false} RunGrows(a: Views, ops: seq<Append>, blockSize: nat, n: nat)
    requires Shaped(a) && n <= |ops|
    ensures Shaped(ViewsCaptured(a)) && GrownFrom(a, RunAppends(ViewsCaptured(a), ops, blockSize, n))
  {
    if n == 0 {
      assert forall i :: 0 <= i < |a.data.blocks| ==> BlockLeadsBack(a.data, Captured(a.data), i);
    } else {
      RunGrows(a, ops, blockSize, n - 1);
      StepGrows(a, RunAppends(ViewsCaptured(a), ops, blockSize, n - 1), ops[n - 1], blockSize);
    }
  }

  /** Rolling back after any appends gives the captured column, blocks and current block, ready for further appends. */
  lemma {:induction false} RollbackGivesBack(a: Views, ops: seq<Append>, blockSize: nat)
    requires SoundViews(a)
    ensures Shaped(ViewsCaptured(a))
    ensures var s := RunAppends(ViewsCaptured(a), ops, blockSize, |ops|);
            && |a.valid| <= |s.valid| <= |s.headers|
            && var u := ViewsUndone(s, |a.valid|);
            && SoundViews(u) && Contents(u) == Contents(a)
            && BytesOf(u.data.blocks) == BytesOf(a.data.blocks) && u.data.current == a.data.current
  {
    RunGrows(a, ops, blockSize, |ops|);
    UndoneContents(a, RunAppends(ViewsCaptured(a), ops, blockSize, |ops|));
    UndoLeadsBack(a.data, RunAppends(ViewsCaptured(a), ops, blockSize, |ops|).data);
  }

  ghost function AppendedUpTo(ops: seq<Append>, n: nat): (column: seq<Layout.Value>)
    requires n <= |ops|
    ensures |column| == n
  {
    if n == 0 then [] else AppendedUpTo(ops, n - 1) + [Appends(ops[n - 1])]
  }

  /** Blocks that can be addressed could be addressed before. */
  lemma {:induction false} AddressableBefore(a: State, b: State)
    requires Extends(a, b) && Addressable(b)
    ensures Addressable(a)
  {
    forall i | 0 <= i < |a.blocks| ensures |a.blocks[i].bytes| <= W32.Limit() { assert BlockExtends(a, b, i); }
  }

  /** Any run of appends adds exactly the appended values, as long as its blocks can be addressed in 32 bits. */
  lemma {:induction false} RunContents(s: Views, ops: seq<Append>, blockSize: nat, n: nat)
    requires SoundViews(s) && n <= |ops| && Addressable(RunAppends(s, ops, blockSize, n).data)
    ensures SoundViews(RunAppends(s, ops, blockSize, n))
    ensures Contents(RunAppends(s, ops, blockSize, n)) == Contents(s) + AppendedUpTo(ops, n)
  {
    if n > 0 {
      var before := RunAppends(s, ops, blockSize, n - 1);
      StepData(before, ops[n - 1], blockSize);
      AddressableBefore(before.data, RunAppends(s, ops, blockSize, n).data);
      RunContents(s, ops, blockSize, n - 1);
      StepContents(before, ops[n - 1], blockSize);
    }
  }

  // ---------------------------------------------------------------------------------------------
  // The builder
  // ---------------------------------------------------------------------------------------------

  class BinaryViewBuilder {
    var valid: seq<bool>
    var rawData: seq<Header>
    var savedLength: nat
    const blockBuilder: MultiBufferBuilder

    ghost function State(): Views
      reads this, blockBuilder
    {
      Views(valid, rawData, blockBuilder.Value())
    }

    constructor (blockSize: nat)
      ensures SoundViews(State()) && Contents(State()) == [] && fresh(blockBuilder)
      ensures blockBuilder.blockSize == blockSize
    {
      valid, rawData, savedLength := [], [], 0;
      blockBuilder := new MultiBufferBuilder(blockSize);
    }

    /** Appends a value; values of more than 2^31 - 1 bytes are refused. */
    method Append(v: seq<Byte>) returns (ok: bool)
      requires SoundViews(State())
      modifies this, blockBuilder
      ensures ok <==> |v| < TwoTo(31)
      ensures State() == if ok then ViewStep(old(State()), Value(v), blockBuilder.blockSize) else old(State())
      ensures ok && Addressable(State().data) ==>
                SoundViews(State()) && Contents(State()) == old(Contents(State())) + [Bytes(v)]
    {
      Powers();
      if |v| > VIEW_VALUE_SIZE_LIMIT {
        return false;
      }
      if |v| > VIEW_INLINE_SIZE {
        blockBuilder.Reserve(|v|);
      }
      rawData := WithRoom(rawData, |valid|);
      var header := Inline(v);
      if |v| > VIEW_INLINE_SIZE {
        header := blockBuilder.UnsafeAppend(v);
      }
      rawData := rawData[|valid| := header];
      valid := valid + [true];
      if Addressable(State().data) { StepContents(old(State()), Value(v), blockBuilder.blockSize); }
      return true;
    }

    /** Appends a null or an empty value without writing its header, which is blank already. */
    method AppendBlank(isValid: bool)
      requires SoundViews(State())
      modifies this
      ensures State() == ViewStep(old(State()), if isValid then EmptyValue else NullValue, blockBuilder.blockSize)
      ensures Addressable(State().data) ==>
                SoundViews(State()) && Contents(State()) ==
                old(Contents(State())) + [if isValid then Bytes([]) else Null]
    {
      rawData := WithRoom(rawData, |valid|);
      valid := valid + [isValid];
      if Addressable(State().data) {
        StepContents(old(State()), if isValid then EmptyValue else NullValue, blockBuilder.blockSize);
      }
    }

    method Capture()
      modifies this, blockBuilder
      ensures State() == ViewsCaptured(old(State())) && savedLength == |valid|
    {
      savedLength := |valid|;
      blockBuilder.Capture();
    }

    /** Rolls back to the captured row: truncates, undoes the blocks, and blanks the headers behind. */
    method Restore(ghost a: Views)
      requires Shaped(a) && GrownFrom(a, State()) && savedLength == |a.valid|
      modifies this, blockBuilder
      ensures State() == ViewsUndone(old(State()), |a.valid|)
      ensures Shaped(State()) && Contents(State()) == Contents(a) && (SoundViews(a) ==> SoundViews(State()))
    {
      UndoneContents(a, State());
      valid := valid[..savedLength];
      blockBuilder.Restore();
      for i := savedLength to |rawData|
        invariant savedLength == old(savedLength) && |rawData| == |old(rawData)|
        invariant valid == old(valid)[..old(savedLength)]
        invariant blockBuilder.Value() == Undone(old(blockBuilder.Value()))
        invariant forall k :: 0 <= k < |rawData| ==>
                    rawData[k] == if savedLength <= k < i then Inline([]) else old(rawData)[k]
      {
        rawData := rawData[i := Inline([])];
      }
      assert rawData == old(rawData)[..savedLength] + Blanks(|old(rawData)| - savedLength);
    }
  }
}

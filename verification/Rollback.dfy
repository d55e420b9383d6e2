/** Row rollback in the record builder: a tree of builders returns to the state captured before a row that failed. */
module Rollback {
  import opened Layout
  import BinaryBuilder
  import opened BuilderTree
  import opened BuilderColumns
  import opened MultiBuffer
  import opened ViewBuilder
  import opened Dictionaries

  // ---------------------------------------------------------------------------------------------
  // Checkpoints
  // ---------------------------------------------------------------------------------------------

  /**
   What a checkpoint records of a builder: its length, the size of its data or dictionary, and its children. View
   builders keep an undo log themselves.
   */
  datatype Checkpoint = Checkpoint(length: nat, stateSize: nat, children: seq<Checkpoint>)

  function Mark(t: Tree): (c: Checkpoint)
    decreases t
  {
    Checkpoint(Len(t), if t.DictionaryB? then |t.memoTable| else if t.BinaryB? then |t.bytes|
        else 0, Marks(t, ChildCount(t)))
  }

  function Marks(t: Tree, n: nat): (cs: seq<Checkpoint>)
    requires n <= ChildCount(t)
    ensures |cs| == n && forall i {:trigger cs[i]} :: 0 <= i < n ==> cs[i] == Mark(ChildOf(t, i))
    decreases t, 0, n
  {
    if n == 0 then [] else Marks(t, n - 1) + [Mark(ChildOf(t, n - 1))]
  }

  /** Capturing starts a new undo log in every view builder. */
  function Capture(t: Tree): Tree
    decreases t, 1
  {
    match t
    case ViewB(views, blockSize) => ViewB(ViewsCaptured(views), blockSize)
    case ListB(valid, offsets, child) => ListB(valid, offsets, Capture(child))
    case ListViewB(valid, starts, sizes, child) => ListViewB(valid, starts, sizes, Capture(child))
    case FixedSizeListB(valid, size, child) => FixedSizeListB(valid, size, Capture(child))
    case StructB(valid, children) => StructB(valid, CaptureUpTo(children, |children|))
    case MapB(list) => MapB(Capture(list))
    case _ => t
  }

  function CaptureUpTo(children: seq<Tree>, n: nat): (cs: seq<Tree>)
    requires n <= |children|
    ensures |cs| == n && forall i {:trigger cs[i]} :: 0 <= i < n ==> cs[i] == Capture(children[i])
    decreases children, 0, n
  {
    if n == 0 then [] else CaptureUpTo(children, n - 1) + [Capture(children[n - 1])]
  }

  function Take<T>(s: seq<T>, n: int): seq<T> {
    if 0 <= n <= |s| then s[..n] else s
  }

  /** The checkpoint of the only child. */
  function Only(c: Checkpoint): Checkpoint {
    if |c.children| > 0 then c.children[0] else c
  }

  /**
   Truncates a builder, restores its own state, then its children. A map truncates its list, which is then restored
   itself.
   */
  function Restore(t: Tree, c: Checkpoint): Tree
    decreases t
  {
    match t
    case FixedB(valid, values) => FixedB(Take(valid, c.length), Take(values, c.length))
    case BinaryB(valid, offsets, bytes) =>
      BinaryB(Take(valid, c.length), Take(offsets, c.length), 
              if c.stateSize <= |bytes| then bytes[..c.stateSize]
                  else Take(bytes, BinaryBuilder.DataLen(offsets, bytes, c.length)))
    case ViewB(views, blockSize) =>
      if c.length <= |views.valid| && c.length <= |views.headers| then ViewB(ViewsUndone(views, c.length), blockSize)
          else t
    case ListB(valid, offsets, child) => ListB(Take(valid, c.length), Take(offsets, c.length), Restore(child, Only(c)))
    case ListViewB(valid, starts, sizes, child) =>
      ListViewB(Take(valid, c.length), Take(starts, c.length), Take(sizes, c.length), Restore(child, Only(c)))
    case FixedSizeListB(valid, size, child) => FixedSizeListB(Take(valid, c.length), size, Restore(child, Only(c)))
    case StructB(valid, children) => StructB(Take(valid, c.length), RestoreUpTo(children, c, |children|))
    case DictionaryB(valid, indices, memoTable) =>
      DictionaryB(Take(valid, c.length), Take(indices, c.length), Take(memoTable, c.stateSize))
    case MapB(list) =>
      if !list.ListB? then t
      else
        var d := Only(c);
        MapB(ListB(Take(Take(list.valid, c.length), d.length), Take(Take(list.offsets, c.length), d.length),
            Restore(list.child, Only(d))))
  }

  function RestoreUpTo(children: seq<Tree>, c: Checkpoint, n: nat): (rs: seq<Tree>)
    requires n <= |children|
    ensures |rs| == n && forall i {:trigger rs[i]} :: 0 <= i < n ==>
              rs[i] == if i < |c.children| then Restore(children[i], c.children[i]) else children[i]
    decreases children, n
  {
    if n == 0 then []
    else
      var child := children[n - 1];
      RestoreUpTo(children, c, n - 1) + [if n - 1 < |c.children| then Restore(child, c.children[n - 1]) else child]
  }

  // ---------------------------------------------------------------------------------------------
  // Growth since a capture
  // ---------------------------------------------------------------------------------------------

  /** Every builder of `b` has what the builder of `a` at its place had, with more behind. */
  ghost predicate Grown(a: Tree, b: Tree)
    decreases a
  {
    match a
    case FixedB(valid, values) => b.FixedB? && valid <= b.valid && values <= b.values
    case BinaryB(valid, offsets, bytes) =>
      && b.BinaryB? && valid <= b.valid && offsets <= b.offsets && bytes <= b.bytes
      && (if |offsets| < |b.offsets| then b.offsets[|offsets|] == |bytes| else b.bytes == bytes)
    case ViewB(views, blockSize) => b.ViewB? && b.blockSize == blockSize && GrownFrom(views, b.views)
    case ListB(valid, offsets, child) => b.ListB? && valid <= b.valid && offsets <= b.offsets && Grown(child, b.child)
    case ListViewB(valid, starts, sizes, child) =>
      b.ListViewB? && valid <= b.valid && starts <= b.starts && sizes <= b.sizes && Grown(child, b.child)
    case FixedSizeListB(valid, size, child) =>
      b.FixedSizeListB? && valid <= b.valid && b.size == size && Grown(child, b.child)
    case StructB(valid, children) =>
      && b.StructB? && valid <= b.valid && |b.children| == |children|
      && forall i :: 0 <= i < |children| ==> Grown(children[i], b.children[i])
    case DictionaryB(valid, indices, memoTable) =>
      b.DictionaryB? && valid <= b.valid && indices <= b.indices && memoTable <= b.memoTable
    case MapB(list) => b.MapB? && Grown(list, b.list)
  }

  /**
   The builders hold the same: slots, offsets, bytes and dictionaries; view builders the same column, blocks and current
   block.
   */
  ghost predicate Same(a: Tree, b: Tree)
    decreases a
  {
    match a
    case ViewB(views, blockSize) =>
      && b.ViewB? && b.blockSize == blockSize && Shaped(views) && Shaped(b.views)
          && (SoundViews(views) ==> SoundViews(b.views))
      && b.views.valid == views.valid && Contents(b.views) == Contents(views)
      && BytesOf(b.views.data.blocks) == BytesOf(views.data.blocks) && b.views.data.current == views.data.current
    case ListB(valid, offsets, child) => b.ListB? && b.valid == valid && b.offsets == offsets && Same(child, b.child)
    case ListViewB(valid, starts, sizes, child) =>
      b.ListViewB? && b.valid == valid && b.starts == starts && b.sizes == sizes && Same(child, b.child)
    case FixedSizeListB(valid, size, child) =>
      b.FixedSizeListB? && b.valid == valid && b.size == size && Same(child, b.child)
    case StructB(valid, children) =>
      b.StructB? && b.valid == valid && |b.children| == |children| && forall i :: 0 <= i < |children| ==>
          Same(children[i], b.children[i])
    case MapB(list) => b.MapB? && Same(list, b.list)
    case _ => b == a
  }

  lemma {:induction false} CaptureGrown(a: Tree)
    requires SoundTree(a)
    ensures Grown(a, Capture(a))
    decreases a
  {
    match a
    case ViewB(views, _) =>
      assert forall i :: 0 <= i < |views.data.blocks| ==> BlockLeadsBack(views.data, Captured(views.data), i);
    case ListB(_, _, child) => ChildSound(a, 0); CaptureGrown(child);
    case ListViewB(_, _, _, child) => ChildSound(a, 0); CaptureGrown(child);
    case FixedSizeListB(_, _, child) => ChildSound(a, 0); CaptureGrown(child);
    case StructB(_, children) =>
      forall i | 0 <= i < |children| ensures Grown(children[i], Capture(children[i])) {
        ChildSound(a, i);
        CaptureGrown(children[i]);
      }
    case MapB(list) => ChildSound(a, 0); CaptureGrown(list);
    case _ =>
  }

  lemma {:induction false} WithChildGrown(a: Tree, b: Tree, i: nat, c: Tree)
    requires Grown(a, b) && i < ChildCount(b) && ChildCount(a) == ChildCount(b) && Grown(ChildOf(a, i), c)
    ensures Grown(a, WithChildOf(b, i, c))
  {}

  lemma {:induction false} ChildGrown(a: Tree, b: Tree, i: nat)
    requires Grown(a, b) && i < ChildCount(b)
    ensures ChildCount(a) == ChildCount(b) && Grown(ChildOf(a, i), ChildOf(b, i))
  {}

  /** An append to a builder, or anywhere below it, keeps what the builders grew from. */
  lemma {:induction false} ApplyGrown(a: Tree, b: Tree, op: BuilderTree.Op)
    requires SoundTree(b) && Grown(a, b)
    ensures Grown(a, Apply(b, op))
    decreases op
  {
    if b.ViewB? && op.AppendView? { StepGrows(a.views, b.views, op.a, b.blockSize); }
    if b.DictionaryB? && op.AppendEntry? { assert b.memoTable <= Remember(b.memoTable, op.v); }
    if op.Under? && op.child < ChildCount(b) {
      ChildSound(b, op.child);
      ChildGrown(a, b, op.child);
      ApplyGrown(ChildOf(a, op.child), ChildOf(b, op.child), op.op);
      WithChildGrown(a, b, op.child, Apply(ChildOf(b, op.child), op.op));
    }
  }

  /** Truncation alone finds the captured data length, for every append begins at the length before it. */
  lemma {:induction false} TruncationFindsData(a: Tree, b: Tree)
    requires SoundTree(a) && Grown(a, b) && a.BinaryB?
    ensures BinaryBuilder.DataLen(b.offsets, b.bytes, Len(a)) == |a.bytes| && b.bytes[..|a.bytes|] == a.bytes
  {
    assert b.bytes[..|a.bytes|] == a.bytes;
  }

  lemma {:induction false} ViewsGivenBack(a: Tree, b: Tree)
    requires SoundTree(a) && Grown(a, b) && a.ViewB?
    ensures Same(a, Restore(b, Mark(a)))
  {
    UndoneContents(a.views, b.views);
    UndoLeadsBack(a.views.data, b.views.data);
  }

  lemma {:induction false} StructGivenBack(a: Tree, b: Tree)
    requires SoundTree(a) && Grown(a, b) && a.StructB?
    requires forall i :: 0 <= i < |a.children| ==> Same(a.children[i], Restore(b.children[i], Mark(a.children[i])))
    ensures Same(a, Restore(b, Mark(a)))
  {
    var c, r := Mark(a), Restore(b, Mark(a));
    forall i | 0 <= i < |a.children| ensures Same(a.children[i], r.children[i]) {
      assert c.children[i] == Mark(ChildOf(a, i)) && r.children[i] == Restore(b.children[i], c.children[i]);
    }
  }

  /** Lists, list-views and fixed-size lists, given their child. */
  lemma {:induction false} ListGivenBack(a: Tree, b: Tree)
    requires SoundTree(a) && Grown(a, b) && (a.ListB? || a.ListViewB? || a.FixedSizeListB?)
    requires Same(a.child, Restore(b.child, Mark(a.child)))
    ensures Same(a, Restore(b, Mark(a)))
  {
    assert Mark(a).children[0] == Mark(ChildOf(a, 0));
  }

  lemma {:induction false} MapGivenBack(a: Tree, b: Tree)
    requires SoundTree(a) && Grown(a, b) && a.MapB?
    requires b.MapB? && b.list.ListB? && Same(a.list.child, Restore(b.list.child, Mark(a.list.child)))
    ensures Same(a, Restore(b, Mark(a)))
  {
    var c := Mark(a);
    assert c.children[0] == Mark(ChildOf(a, 0)) && Mark(a.list).children[0] == Mark(ChildOf(a.list, 0));
  }

  /** Restoring what grew from a captured tree gives the captured tree back. */
  lemma {:induction false} RestoreGivesBack(a: Tree, b: Tree)
    requires SoundTree(a) && Grown(a, b)
    ensures Same(a, Restore(b, Mark(a)))
    decreases a
  {
    if a.ViewB? {
      ViewsGivenBack(a, b);
    } else if a.ListB? || a.ListViewB? || a.FixedSizeListB? {
      ChildSound(a, 0);
      RestoreGivesBack(a.child, b.child);
      ListGivenBack(a, b);
    } else if a.StructB? {
      forall i | 0 <= i < |a.children| ensures Same(a.children[i], Restore(b.children[i], Mark(a.children[i]))) {
        ChildSound(a, i);
        RestoreGivesBack(a.children[i], b.children[i]);
      }
      StructGivenBack(a, b);
    } else if a.MapB? {
      ChildSound(a, 0);
      ChildSound(a.list, 0);
      RestoreGivesBack(a.list.child, b.list.child);
      MapGivenBack(a, b);
    }
  }

  // ---------------------------------------------------------------------------------------------
  // Soundness of the builders
  // ---------------------------------------------------------------------------------------------

  lemma {:induction false} CaptureSound(t: Tree)
    requires SoundTree(t)
    ensures SoundTree(Capture(t)) && (t.ListB? ==> Capture(t).ListB?)
    decreases t
  {
    var u := Capture(t);
    forall i | 0 <= i < ChildCount(t) ensures SoundTree(Capture(ChildOf(t, i))) {
      ChildSound(t, i);
      CaptureSound(ChildOf(t, i));
    }
    if t.MapB? {
      ChildSound(t, 0);
      CaptureSound(t.list);
    }
    forall i | 0 <= i < ChildCount(u)
      ensures SoundTree(ChildOf(u, i))
    {
      assert ChildOf(u, i) == Capture(ChildOf(t, i));
    }
  }

  /** Trees that hold the same are equally sound. */
  lemma {:induction false} SameSound(a: Tree, b: Tree)
    requires SoundTree(a) && Same(a, b)
    ensures SoundTree(b)
    decreases a
  {
    forall i | 0 <= i < ChildCount(b) ensures SoundTree(ChildOf(b, i)) {
      ChildSound(a, i);
      SameSound(ChildOf(a, i), ChildOf(b, i));
    }
  }

  lemma {:induction false} SameSlots(valid: seq<bool>, a: Body, b: Body)
    requires forall i :: 0 <= i < |valid| ==> ValueAt(a, i) == ValueAt(b, i)
    ensures Decode(ArrayOf(valid, a)) == Decode(ArrayOf(valid, b))
  {
    var x, y := ArrayOf(valid, a), ArrayOf(valid, b);
    forall i | 0 <= i < |valid| ensures Validity(x)[i] == Validity(y)[i] { assert ValidBit(x, i) == ValidBit(y, i); }
    assert forall i :: 0 <= i < |valid| ==> SameSlot(x, y, i);
    SameColumn(x, y);
  }

  lemma {:induction false} SameRecords(valid: seq<bool>, a: seq<Data>, b: seq<Data>)
    requires |a| == |b| && forall f :: 0 <= f < |a| ==> Decode(a[f]) == Decode(b[f])
    ensures Decode(ArrayOf(valid, StructBody(a))) == Decode(ArrayOf(valid, StructBody(b)))
  {
    forall i | 0 <= i < |valid| ensures ValueAt(StructBody(a), i) == ValueAt(StructBody(b), i) {
      forall f | 0 <= f < |a| ensures FieldsAt(a, i, |a|)[f] == FieldsAt(b, i, |a|)[f] {
        FieldAt(a, i, |a|, f);
        FieldAt(b, i, |a|, f);
      }
      assert FieldsAt(a, i, |a|) == FieldsAt(b, i, |a|);
    }
    SameSlots(valid, StructBody(a), StructBody(b));
  }

  /** Trees that hold the same stand for the same column. */
  lemma {:induction false} SameStands(a: Tree, b: Tree)
    requires SoundTree(a) && Same(a, b)
    ensures Len(a) == Len(b) && Column(a) == Column(b)
    decreases a
  {
    forall i | 0 <= i < ChildCount(a) ensures Column(ChildOf(a, i)) == Column(ChildOf(b, i)) {
      ChildSound(a, i);
      SameStands(ChildOf(a, i), ChildOf(b, i));
    }
    if a.ViewB? {
      ViewColumn(a);
      ViewColumn(b);
    } else if a.ListB? || a.ListViewB? || a.FixedSizeListB? {
      assert Column(ChildOf(a, 0)) == Column(ChildOf(b, 0));
      SameSlots(a.valid, Finished(a).body, Finished(b).body);
    } else if a.StructB? {
      var x, y := Finished(a).body.children, Finished(b).body.children;
      forall f | 0 <= f < |x|
        ensures Decode(x[f]) == Decode(y[f])
      {
        assert Column(ChildOf(a, f)) == Column(ChildOf(b, f));
      }
      SameRecords(a.valid, x, y);
    } else if a.MapB? {
      assert Column(ChildOf(a, 0)) == Column(ChildOf(b, 0));
      ChildSound(a, 0);
      SameStands(a.list, b.list);
    }
  }

  // ---------------------------------------------------------------------------------------------
  // The record builder
  // ---------------------------------------------------------------------------------------------

  /** One append that the decoder makes: in which field, and what. */
  datatype RowOp = RowOp(field: nat, op: BuilderTree.Op)

  ghost predicate AllSound(fields: seq<Tree>) {
    forall i :: 0 <= i < |fields| ==> SoundTree(fields[i])
  }

  ghost predicate AllGrown(a: seq<Tree>, b: seq<Tree>) {
    |a| == |b| && forall i :: 0 <= i < |a| ==> Grown(a[i], b[i])
  }

  ghost predicate AllSame(a: seq<Tree>, b: seq<Tree>) {
    |a| == |b| && forall i :: 0 <= i < |a| ==> Same(a[i], b[i])
  }

  /** The fields after the first n appends of a row. */
  function ApplyRow(fields: seq<Tree>, row: seq<RowOp>, n: nat): (out: seq<Tree>)
    requires n <= |row|
    ensures |out| == |fields|
  {
    if n == 0 then fields
    else
      var before, r := ApplyRow(fields, row, n - 1), row[n - 1];
      if r.field < |before| then before[r.field := Apply(before[r.field], r.op)] else before
  }

  // ---------------------------------------------------------------------------------------------
  // Rows of values
  // ---------------------------------------------------------------------------------------------

  /** The appends to field f among the first n of a row. */
  ghost function OpsOf(row: seq<RowOp>, f: nat, n: nat): seq<BuilderTree.Op>
    requires n <= |row|
  {
    if n == 0 then [] else OpsOf(row, f, n - 1) + if row[n - 1].field == f then [row[n - 1].op] else []
  }

  /** A field sees the appends to it, whatever is appended to other fields in between. */
  lemma {:induction false} RowProjects(fields: seq<Tree>, row: seq<RowOp>, f: nat, n: nat)
    requires f < |fields| && n <= |row|
    ensures ApplyRow(fields, row, n)[f] == ApplyAll(fields[f], OpsOf(row, f, n), |OpsOf(row, f, n)|)
  {
    if n > 0 {
      RowProjects(fields, row, f, n - 1);
      if row[n - 1].field == f {
        var before, ops := OpsOf(row, f, n - 1), OpsOf(row, f, n);
        ApplyPrefix(fields[f], before, ops, |before|);
      } else {
        assert OpsOf(row, f, n) == OpsOf(row, f, n - 1);
      }
    }
  }

  /** Capturing changes nothing that a builder stands for. */
  lemma {:induction false} CaptureWhole(t: Tree, k: Kind)
    requires Whole(t) && HasKind(t, k)
    ensures Whole(Capture(t)) && HasKind(Capture(t), k) && Column(Capture(t)) == Column(t)
    decreases t
  {
    CaptureFinished(t);
    var u := Capture(t);
    forall i | 0 <= i < ChildCount(t)
      ensures Whole(Capture(ChildOf(t, i))) && Column(Capture(ChildOf(t, i))) == Column(ChildOf(t, i))
    {
      CaptureWhole(ChildOf(t, i), KindBelow(t, k, i));
    }
    forall i | 0 <= i < ChildCount(u) ensures Whole(ChildOf(u, i)) { assert ChildOf(u, i) == Capture(ChildOf(t, i)); }
    CaptureKind(t, k);
    CaptureWholeBuilder(t, u);
  }

  ghost function KindBelow(t: Tree, k: Kind, i: nat): (elem: Kind)
    requires HasKind(t, k) && i < ChildCount(t)
    ensures HasKind(ChildOf(t, i), elem)
  {
    match k
    case ListK(e) => e
    case ListViewK(e) => e
    case FixedSizeListK(_, e) => e
    case MapK(list) => list
    case StructK(fields) => fields[i]
  }

  lemma {:induction false} CaptureFinished(t: Tree)
    ensures Finished(Capture(t)) == Finished(t) && Len(Capture(t)) == Len(t)
    decreases t
  {
    match t
    case ListB(_, _, child) => CaptureFinished(child);
    case ListViewB(_, _, _, child) => CaptureFinished(child);
    case FixedSizeListB(_, _, child) => CaptureFinished(child);
    case StructB(_, children) =>
      forall i | 0 <= i < |children| ensures Finished(Capture(children[i])) == Finished(children[i]) {
        CaptureFinished(children[i]);
      }
      assert FinishedUpTo(Capture(t).children, |children|) == FinishedUpTo(children, |children|);
    case MapB(list) => CaptureFinished(list);
    case _ =>
  }

  lemma {:induction false} CaptureKind(t: Tree, k: Kind)
    requires HasKind(t, k)
    ensures HasKind(Capture(t), k)
    decreases k
  {
    match k
    case ListK(elem) => CaptureKind(t.child, elem);
    case ListViewK(elem) => CaptureKind(t.child, elem);
    case FixedSizeListK(_, elem) => CaptureKind(t.child, elem);
    case StructK(fields) =>
      forall i | 0 <= i < |fields|
        ensures HasKind(Capture(t.children[i]), fields[i])
      {
        CaptureKind(t.children[i], fields[i]);
      }
    case MapK(list) => CaptureKind(t.list, list);
    case _ =>
  }

  lemma {:induction false} CaptureWholeBuilder(t: Tree, u: Tree)
    requires WholeBuilder(t) && u == Capture(t)
    requires forall i :: 0 <= i < ChildCount(t) ==> Column(Capture(ChildOf(t, i))) == Column(ChildOf(t, i))
    ensures WholeBuilder(u)
  {
    if t.ListB? || t.ListViewB? || t.FixedSizeListB? {
      assert Column(Capture(ChildOf(t, 0))) == Column(ChildOf(t, 0));
      if t.ListViewB? { assert forall i :: 0 <= i < |t.valid| ==> ViewInside(t, i) && ViewInside(u, i); }
    } else if t.StructB? {
      forall i | 0 <= i < |t.children| ensures Len(u.children[i]) == |t.valid| {
        assert Column(Capture(ChildOf(t, i))) == Column(ChildOf(t, i));
      }
    }
  }

  /** The row decodes one value for every field, the fields in any order, and all builders are whole. */
  ghost predicate RowFits(fields: seq<Tree>, kinds: seq<Kind>, values: seq<Layout.Value>, row: seq<RowOp>) {
    && |kinds| == |values| == |fields|
    && forall i :: 0 <= i < |fields| ==> FieldFits(fields[i], kinds[i], values[i], OpsOf(row, i, |row|))
  }

  ghost predicate FieldFits(t: Tree, k: Kind, v: Layout.Value, ops: seq<BuilderTree.Op>) {
    Whole(t) && HasKind(t, k) && Conforms(k, v) && ops == OpsFor(k, v)
  }

  ghost predicate FieldsAddressable(fields: seq<Tree>) {
    forall i :: 0 <= i < |fields| ==> AllAddressable(fields[i])
  }

  /** Every field's column has gained its value of the row. */
  ghost predicate RowAdded(before: seq<Tree>, after: seq<Tree>, values: seq<Layout.Value>) {
    && |after| == |before| == |values|
    && forall i :: 0 <= i < |values| ==> Whole(after[i]) && Column(after[i]) == Column(before[i]) + [values[i]]
  }

  lemma {:induction false} RowAdds(fields: seq<Tree>, kinds: seq<Kind>, values: seq<Layout.Value>, row: seq<RowOp>,
      after: seq<Tree>)
    requires RowFits(fields, kinds, values, row) && FieldsAddressable(after)
    requires after == ApplyRow(CaptureUpTo(fields, |fields|), row, |row|)
    ensures RowAdded(fields, after, values)
  {
    var captured := CaptureUpTo(fields, |fields|);
    forall i | 0 <= i < |values| ensures Whole(after[i]) && Column(after[i]) == Column(fields[i]) + [values[i]] {
      assert FieldFits(fields[i], kinds[i], values[i], OpsOf(row, i, |row|));
      RowProjects(captured, row, i, |row|);
      CaptureWhole(fields[i], kinds[i]);
      FedAdds(captured[i], kinds[i], values[i]);
    }
  }

  class RecordBuilder {
    var fields: seq<Tree>
    var checkpoints: seq<Checkpoint>

    constructor (builders: seq<Tree>)
      requires AllSound(builders)
      ensures fields == builders && AllSound(fields)
    {
      fields, checkpoints := builders, [];
    }

    /** Captures every field. */
    method CaptureAll()
      requires AllSound(fields)
      modifies this
      ensures AllSound(fields) && AllGrown(old(fields), fields) && fields == CaptureUpTo(old(fields), |old(fields)|)
      ensures |checkpoints| == |fields| && forall i {:trigger checkpoints[i]} :: 0 <= i < |fields| ==>
                checkpoints[i] == Mark(old(fields)[i])
    {
      checkpoints := [];
      for i := 0 to |fields|
        invariant |fields| == |old(fields)| && |checkpoints| == i && AllSound(fields)
        invariant forall k {:trigger checkpoints[k]} :: 0 <= k < i ==> checkpoints[k] == Mark(old(fields)[k])
        invariant forall k :: 0 <= k < i ==> Grown(old(fields)[k], fields[k]) && fields[k] == Capture(old(fields)[k])
        invariant forall k :: i <= k < |fields| ==> fields[k] == old(fields)[k]
      {
        CaptureSound(fields[i]);
        CaptureGrown(fields[i]);
        checkpoints := checkpoints + [Mark(fields[i])];
        fields := fields[i := Capture(fields[i])];
      }
    }

    /** Restores every field from its checkpoint. */
    method RestoreAll(ghost saved: seq<Tree>)
      requires AllSound(saved) && AllGrown(saved, fields) && |checkpoints| == |fields|
      requires forall i {:trigger checkpoints[i]} :: 0 <= i < |fields| ==> checkpoints[i] == Mark(saved[i])
      modifies `fields
      ensures AllSame(saved, fields) && AllSound(fields)
    {
      for i := 0 to |fields|
        invariant |fields| == |saved| == |checkpoints|
        invariant forall k {:trigger checkpoints[k]} :: 0 <= k < |fields| ==> checkpoints[k] == Mark(saved[k])
        invariant forall k :: 0 <= k < i ==> Same(saved[k], fields[k])
        invariant forall k :: i <= k < |fields| ==> Grown(saved[k], fields[k])
      {
        RestoreGivesBack(saved[i], fields[i]);
        fields := fields[i := Restore(fields[i], checkpoints[i])];
      }
      forall i | 0 <= i < |fields| ensures SoundTree(fields[i]) { SameSound(saved[i], fields[i]); }
    }

    /**
     Decodes one row: the appends the decoder makes before it ends or fails. After a failure every field holds what
     it held before the row; otherwise every field's column has gained its value of the row.
     */
    method UnmarshalOne(row: seq<RowOp>, failed: bool)
      requires AllSound(fields)
      modifies this
      ensures AllSound(fields)
      ensures failed ==> AllSame(old(fields), fields)
      ensures failed ==> forall i :: 0 <= i < |fields| ==> Column(fields[i]) == Column(old(fields)[i])
      ensures !failed ==> fields == ApplyRow(CaptureUpTo(old(fields), |old(fields)|), row, |row|)
      ensures !failed && FieldsAddressable(fields) ==>
                forall kinds, values :: RowFits(old(fields), kinds, values, row) ==>
                    RowAdded(old(fields), fields, values)
    {
      CaptureAll();
      ghost var captured := fields;
      for n := 0 to |row|
        invariant AllSound(fields) && AllGrown(old(fields), fields) && fields == ApplyRow(captured, row, n)
        invariant |checkpoints| == |fields| && forall i {:trigger checkpoints[i]} :: 0 <= i < |fields| ==>
                    checkpoints[i] == Mark(old(fields)[i])
      {
        var r := row[n];
        if r.field < |fields| {
          ApplyGrown(old(fields)[r.field], fields[r.field], r.op);
          ApplySound(fields[r.field], r.op);
          fields := fields[r.field := Apply(fields[r.field], r.op)];
        }
      }
      if failed {
        RestoreAll(old(fields));
        forall i | 0 <= i < |fields| ensures Column(fields[i]) == Column(old(fields)[i]) {
          SameStands(old(fields)[i], fields[i]);
        }
      } else if FieldsAddressable(fields) {
        forall kinds, values | RowFits(old(fields), kinds, values, row) ensures RowAdded(old(fields), fields, values) {
          RowAdds(old(fields), kinds, values, row, fields);
        }
      }
    }
  }
}

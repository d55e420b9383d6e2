/**
 What a tree of builders stands for: the column of the array it would make, and what the appends of a value add to it.
 */
module BuilderColumns {
  import opened Basics
  import opened Layout
  import BinaryBuilder
  import opened MultiBuffer
  import opened ViewBuilder
  import opened Dictionaries
  import opened BuilderTree

  // ---------------------------------------------------------------------------------------------
  // The finished array
  // ---------------------------------------------------------------------------------------------

  function ArrayOf(valid: seq<bool>, body: Body): Data {
    Data(0, |valid|, UNKNOWN_NULL_COUNT, Some(valid), body)
  }

  /** The array a builder makes of what it holds; offsets get one more entry, the end of the last slot. */
  ghost function Finished(t: Tree): Data
    decreases t
  {
    match t
    case FixedB(valid, values) => ArrayOf(valid, FixedBody(values))
    case BinaryB(valid, offsets, bytes) => ArrayOf(valid, BinaryBody(Some(offsets + [|bytes|]), bytes))
    case ViewB(views, _) => ArrayOf(views.valid, ViewBody(views.headers, BytesOf(views.data.blocks)))
    case ListB(valid, offsets, child) => ArrayOf(valid, ListBody(Some(offsets + [Len(child)]), Finished(child)))
    case ListViewB(valid, starts, sizes, child) => ArrayOf(valid, ListViewBody(starts, sizes, Finished(child)))
    case FixedSizeListB(valid, size, child) => ArrayOf(valid, FixedSizeListBody(size, Finished(child)))
    case StructB(valid, children) => ArrayOf(valid, StructBody(FinishedUpTo(children, |children|)))
    case DictionaryB(valid, indices, memoTable) => ArrayOf(valid, DictionaryBody(Some(indices), memoTable))
    case MapB(list) => Finished(list)
  }

  ghost function FinishedUpTo(children: seq<Tree>, n: nat): (ds: seq<Data>)
    requires n <= |children|
    ensures |ds| == n && forall i {:trigger ds[i]} :: 0 <= i < n ==> ds[i] == Finished(children[i])
    decreases children, n
  {
    if n == 0 then [] else FinishedUpTo(children, n - 1) + [Finished(children[n - 1])]
  }

  lemma {:induction false} FinishedLength(t: Tree)
    ensures Finished(t).length == Len(t)
    decreases t
  {
    if t.MapB? { FinishedLength(t.list); }
  }

  /** The column of the values appended so far. */
  ghost function Column(t: Tree): (column: seq<Value>)
    ensures |column| == Len(t)
  {
    FinishedLength(t);
    Decode(Finished(t))
  }

  // ---------------------------------------------------------------------------------------------
  // Whole builders
  // ---------------------------------------------------------------------------------------------

  /** The view of slot i lies inside the child. */
  ghost predicate ViewInside(t: Tree, i: int)
    requires t.ListViewB? && 0 <= i < |t.starts| && i < |t.sizes|
  {
    0 <= t.starts[i] && 0 <= t.sizes[i] && t.starts[i] + t.sizes[i] <= Len(t.child)
  }

  ghost predicate WholeBuilder(t: Tree) {
    SoundBuilder(t) &&
    match t
    case BinaryB(_, offsets, bytes) => BinaryBuilder.Covering(offsets, bytes)
    case ViewB(views, _) => SoundViews(views)
    case ListB(_, offsets, child) => BinaryBuilder.Covering(offsets, Column(child))
    case ListViewB(valid, _, _, _) => forall i :: 0 <= i < |valid| ==> ViewInside(t, i)
    case FixedSizeListB(valid, size, child) => Len(child) == |valid| * size
    case StructB(valid, children) => forall i :: 0 <= i < |children| ==> Len(children[i]) == |valid|
    case DictionaryB(valid, indices, memoTable) =>
      forall i :: 0 <= i < |valid| && valid[i] ==> 0 <= indices[i] < |memoTable|
    case _ => true
  }

  /** Every value of every builder is there as a whole: children hold what their parents' slots need. */
  ghost predicate Whole(t: Tree)
    decreases t
  {
    WholeBuilder(t) && forall i :: 0 <= i < ChildCount(t) ==> Whole(ChildOf(t, i))
  }

  lemma {:induction false} WholeSound(t: Tree)
    requires Whole(t)
    ensures SoundTree(t)
    decreases t
  {
    forall i | 0 <= i < ChildCount(t) ensures SoundTree(ChildOf(t, i)) { WholeSound(ChildOf(t, i)); }
  }

  /** In every view builder block numbers and offsets can be written in 32 bits. */
  ghost predicate AllAddressable(t: Tree)
    decreases t
  {
    (t.ViewB? ==> Addressable(t.views.data)) && forall i :: 0 <= i < ChildCount(t) ==> AllAddressable(ChildOf(t, i))
  }

  /** Appends only make addresses larger. */
  lemma {:induction false} AddressableBefore(t: Tree, op: BuilderTree.Op)
    requires AllAddressable(Apply(t, op))
    ensures AllAddressable(t)
    decreases op
  {
    var u := Apply(t, op);
    if t.ViewB? && op.AppendView? {
      if Shaped(t.views) {
        StepData(t.views, op.a, t.blockSize);
        BlocksBefore(t.views.data, u.views.data);
      }
    } else if !op.Under? {
      forall i | 0 <= i < ChildCount(t) ensures AllAddressable(ChildOf(t, i)) { assert ChildOf(u, i) == ChildOf(t, i); }
    } else if op.child < ChildCount(t) {
      var c := Apply(ChildOf(t, op.child), op.op);
      ReplaceChild(t, op.child, c, c);
      assert AllAddressable(ChildOf(u, op.child));
      AddressableBefore(ChildOf(t, op.child), op.op);
      forall i | 0 <= i < ChildCount(t) ensures AllAddressable(ChildOf(t, i)) {
        if i != op.child { assert ChildOf(u, i) == ChildOf(t, i); }
      }
    }
  }

  lemma {:induction false} BlocksBefore(a: State, b: State)
    requires Extends(a, b) && Addressable(b)
    ensures Addressable(a)
  {
    forall i | 0 <= i < |a.blocks| ensures |a.blocks[i].bytes| <= W32.Limit() { assert BlockExtends(a, b, i); }
  }

  lemma {:induction false} AddressableEarlier(t: Tree, ops: seq<BuilderTree.Op>, n: nat)
    requires n <= |ops| && AllAddressable(ApplyAll(t, ops, n))
    ensures AllAddressable(t)
  {
    if n > 0 {
      AddressableBefore(ApplyAll(t, ops, n - 1), ops[n - 1]);
      AddressableEarlier(t, ops, n - 1);
    }
  }

  // ---------------------------------------------------------------------------------------------
  // One more slot
  // ---------------------------------------------------------------------------------------------

  /** An array that keeps the valid slots of another and has one more stands for its column and one more value. */
  lemma {:induction false} OneMoreSlot(valid: seq<bool>, a: Body, isValid: bool, b: Body, v: Value)
    requires forall i :: 0 <= i < |valid| && valid[i] ==> ValueAt(b, i) == ValueAt(a, i)
    requires v == if isValid then ValueAt(b, |valid|) else Null
    ensures Decode(ArrayOf(valid + [isValid], b)) == Decode(ArrayOf(valid, a)) + [v]
  {
    var x, y := ArrayOf(valid, a), ArrayOf(valid + [isValid], b);
    forall i | 0 <= i < y.length ensures Decode(y)[i] == if i < |valid| then Decode(x)[i] else v {
      assert Validity(y)[i] == ValidBit(y, i);
      assert Decode(y)[i] == SlotValue(y, i);
      if i < |valid| {
        assert Validity(x)[i] == ValidBit(x, i);
        assert Decode(x)[i] == SlotValue(x, i);
      }
    }
  }

  /** Ranges keep their items, and the new range holds the new ones. */
  lemma {:induction false} OneMoreRange<T>(offsets: seq<int>, items: seq<T>, more: seq<T>)
    requires BinaryBuilder.Covering(offsets, items)
    ensures BinaryBuilder.Covering(offsets + [|items|], items + more)
    ensures forall i :: 0 <= i < |offsets| ==> SameRange(offsets, items, more, i)
    ensures Cut(items + more, |items|, |items| + |more|) == more
  {
    var n, longer, all := |offsets|, offsets + [|items|], items + more;
    forall i | 0 <= i <= n ensures BinaryBuilder.InOrderAt(longer, all, i) {
      if i < n { assert BinaryBuilder.InOrderAt(offsets, items, i); }
    }
    forall i | 0 <= i < n ensures SameRange(offsets, items, more, i) {
      assert BinaryBuilder.InOrderAt(offsets, items, i);
      var a, b := offsets[i], BinaryBuilder.EndOf(offsets, items, i);
      assert all[a..b] == items[a..b];
    }
    assert all[|items|..|items| + |more|] == more;
  }

  ghost predicate SameRange<T>(offsets: seq<int>, items: seq<T>, more: seq<T>, i: int)
    requires 0 <= i < |offsets|
  {
    var old_, new_ := offsets + [|items|], offsets + [|items|] + [|items| + |more|];
    Cut(items + more, new_[i], new_[i + 1]) == Cut(items, old_[i], old_[i + 1])
  }

  /** A part of a sequence is there in a longer one. */
  lemma {:induction false} SameCut<T>(s: seq<T>, more: seq<T>, a: int, b: int)
    requires 0 <= a <= b <= |s|
    ensures Cut(s + more, a, b) == Cut(s, a, b)
  {
    assert (s + more)[a..b] == s[a..b];
  }

  // ---------------------------------------------------------------------------------------------
  // Builders without children
  // ---------------------------------------------------------------------------------------------

  /** What an append of its own adds to a builder's column. */
  lemma {:induction false} FixedAdds(t: Tree, isValid: bool, value: int)
    requires t.FixedB? && Whole(t)
    ensures var u := Apply(t, AppendFixed(isValid, value));
            Whole(u) && Column(u) == Column(t) + [if isValid then Number(value) else Null]
  {
    var v := if isValid then Number(value) else Null;
    OneMoreSlot(t.valid, FixedBody(t.values), isValid, FixedBody(t.values + [value]), v);
  }

  lemma {:induction false} BinaryAdds(t: Tree, isValid: bool, v: seq<Byte>)
    requires t.BinaryB? && Whole(t)
    ensures var u := Apply(t, AppendBytes(isValid, v));
            Whole(u) && Column(u) == Column(t) + [if isValid then Bytes(v) else Null]
  {
    var offsets, bytes := t.offsets, t.bytes;
    OneMoreRange(offsets, bytes, v);
    var a := BinaryBody(Some(offsets + [|bytes|]), bytes);
    var b := BinaryBody(Some(offsets + [|bytes|] + [|bytes + v|]), bytes + v);
    forall i | 0 <= i < |t.valid| ensures ValueAt(b, i) == ValueAt(a, i) { assert SameRange(offsets, bytes, v, i); }
    OneMoreSlot(t.valid, a, isValid, b, if isValid then Bytes(v) else Null);
  }

  /** View builders and their arrays stand for the same column. */
  lemma {:induction false} ViewColumn(t: Tree)
    requires t.ViewB? && Shaped(t.views)
    ensures Column(t) == Contents(t.views)
  {
    var d := Finished(t);
    forall i | 0 <= i < d.length ensures Decode(d)[i] == Contents(t.views)[i] {
      assert Validity(d)[i] == ValidBit(d, i) && Decode(d)[i] == SlotValue(d, i);
      assert ValueAt(d.body, 0 + i) == Bytes(Resolve(t.views.headers[i], BytesOf(t.views.data.blocks)));
      assert Contents(t.views)[i] == ViewAt(t.views, i);
    }
  }

  lemma {:induction false} ViewAdds(t: Tree, a: Append)
    requires t.ViewB? && Whole(t)
    ensures var u := Apply(t, AppendView(a));
            AllAddressable(u) ==> Whole(u) && Column(u) == Column(t) + [ViewBuilder.Appends(a)]
  {
    var u := Apply(t, AppendView(a));
    if AllAddressable(u) {
      StepContents(t.views, a, t.blockSize);
      ViewColumn(t);
      ViewColumn(u);
    }
  }

  lemma {:induction false} DictionaryAdds(t: Tree, v: Value)
    requires t.DictionaryB? && Whole(t)
    ensures var u := Apply(t, AppendEntry(v)); Whole(u) && Column(u) == Column(t) + [v]
    ensures var u := Apply(t, AppendNullEntry); Whole(u) && Column(u) == Column(t) + [Null]
  {
    var u := Apply(t, AppendEntry(v));
    var a, b := DictionaryBody(Some(t.indices), t.memoTable), DictionaryBody(Some(u.indices), u.memoTable);
    assert t.memoTable <= u.memoTable && u.memoTable[FindAmong(t.memoTable, v, |t.memoTable|)] == v;
    forall i | 0 <= i < |t.valid| && t.valid[i] ensures ValueAt(b, i) == ValueAt(a, i) {
      assert u.indices[i] == t.indices[i];
    }
    OneMoreSlot(t.valid, a, true, b, v);
    var w := DictionaryBody(Some(t.indices + [0]), t.memoTable);
    OneMoreSlot(t.valid, a, false, w, Null);
  }

  // ---------------------------------------------------------------------------------------------
  // Builders with one child
  // ---------------------------------------------------------------------------------------------

  /** A list: a slot of its own, and the items appended to the child. */
  lemma {:induction false} ListAdds(t: Tree, isValid: bool, items: seq<Value>, child: Tree)
    requires t.ListB? && Whole(t) && Whole(child) && Column(child) == Column(t.child) + items
    ensures var u := WithChildOf(ApplyOwn(t, AppendSlot(isValid)), 0, child);
            Whole(u) && Column(u) == Column(t) + [if isValid then ListOf(items) else Null]
  {
    var u := WithChildOf(ApplyOwn(t, AppendSlot(isValid)), 0, child);
    var offsets, column := t.offsets, Column(t.child);
    OneMoreRange(offsets, column, items);
    FinishedLength(t.child);
    var a := ListBody(Some(offsets + [|column|]), Finished(t.child));
    var b := ListBody(Some(offsets + [|column|] + [|column + items|]), Finished(child));
    forall i | 0 <= i < |t.valid|
      ensures ValueAt(b, i) == ValueAt(a, i)
    {
      assert SameRange(offsets, column, items, i);
    }
    OneMoreSlot(t.valid, a, isValid, b, if isValid then ListOf(items) else Null);
    assert forall i :: 0 <= i < ChildCount(u) ==> ChildOf(u, i) == child;
  }

  /** A list under construction: the child's values from its offset to the next one, or to the end. */
  lemma {:induction false} ListHolds(t: Tree, i: nat)
    requires t.ListB? && i < |t.valid| == |t.offsets| && BinaryBuilder.InOrderAt(t.offsets, Column(t.child), i)
    ensures var upto := BinaryBuilder.EndOf(t.offsets, Column(t.child), i);
            Column(t)[i] == if t.valid[i] then ListOf(Column(t.child)[t.offsets[i]..upto]) else Null
  {
    var d := Finished(t);
    assert Validity(d)[i] == ValidBit(d, i);
    assert Decode(d)[i] == SlotValue(d, i);
    var offsets := t.offsets + [Len(t.child)];
    assert offsets[i + 1] == BinaryBuilder.EndOf(t.offsets, Column(t.child), i);
    assert ValueAt(d.body, 0 + i) == ListOf(Cut(Column(t.child), offsets[i], offsets[i + 1]));
  }

  /** An append below a list changes only its last list, which gains the values. */
  lemma {:induction false} BelowList(t: Tree, more: seq<Value>, child: Tree, i: nat)
    requires t.ListB? && Whole(t) && Column(child) == Column(t.child) + more && i < |t.valid|
    ensures Len(WithChildOf(t, 0, child)) == Len(t)
    ensures !t.valid[i] ==> Column(WithChildOf(t, 0, child))[i] == Column(t)[i] == Null
    ensures t.valid[i] ==>
              && Column(t)[i].ListOf?
              && Column(WithChildOf(t, 0, child))[i] ==
                  ListOf(Column(t)[i].items + if i == |t.valid| - 1 then more else [])
  {
    var u, column := WithChildOf(t, 0, child), Column(t.child);
    assert BinaryBuilder.InOrderAt(t.offsets, column, i);
    assert BinaryBuilder.InOrderAt(t.offsets, column + more, i);
    ListHolds(t, i);
    ListHolds(u, i);
    var from, upto := t.offsets[i], BinaryBuilder.EndOf(t.offsets, column, i);
    if i == |t.valid| - 1 {
      assert (column + more)[from..|column + more|] == column[from..upto] + more;
    } else {
      assert (column + more)[from..upto] == column[from..upto] + [];
    }
  }

  lemma {:induction false} ListViewAdds(t: Tree, isValid: bool, items: seq<Value>, child: Tree)
    requires t.ListViewB? && Whole(t) && Whole(child) && Column(child) == Column(t.child) + items
    ensures var u := WithChildOf(ApplyOwn(t, AppendWithSize(isValid, |items|)), 0, child);
            Whole(u) && Column(u) == Column(t) + [if isValid then ListOf(items) else Null]
  {
    var u, n := WithChildOf(ApplyOwn(t, AppendWithSize(isValid, |items|)), 0, child), |t.valid|;
    var column := Column(t.child);
    var a, b := Finished(t).body, Finished(u).body;
    forall i | 0 <= i < n ensures ValueAt(b, i) == ValueAt(a, i) && ViewInside(u, i) {
      assert ViewInside(t, i) && u.starts[i] == t.starts[i] && u.sizes[i] == t.sizes[i];
      SameCut(column, items, t.starts[i], t.starts[i] + t.sizes[i]);
    }
    assert (column + items)[|column|..|column| + |items|] == items;
    OneMoreSlot(t.valid, a, isValid, b, if isValid then ListOf(items) else Null);
    assert ViewInside(u, n);
    assert forall i :: 0 <= i < ChildCount(u) ==> ChildOf(u, i) == child;
  }

  lemma {:induction false} Chunk(i: nat, n: nat, size: nat)
    requires i < n
    ensures i * size <= (i + 1) * size == i * size + size <= n * size
  {
    assert (i + 1) * size <= n * size;
  }

  lemma {:induction false} ChunkIs(d: Data, size: nat, i: nat, from: int, upto: int)
    requires from == i * size && upto == (i + 1) * size
    ensures ValueAt(FixedSizeListBody(size, d), i) == ListOf(Cut(Decode(d), from, upto))
  {}

  lemma {:induction false} ChunkKept(a: Data, b: Data, items: seq<Value>, n: nat, size: nat, i: nat)
    requires Decode(b) == Decode(a) + items && |items| == size && a.length == n * size && i <= n
    ensures ValueAt(FixedSizeListBody(size, b), i) ==
            if i < n then ValueAt(FixedSizeListBody(size, a), i) else ListOf(items)
  {
    var from, upto := i * size, (i + 1) * size;
    ChunkIs(b, size, i, from, upto);
    Chunk(i, n + 1, size);
    if i < n {
      ChunkIs(a, size, i, from, upto);
      Chunk(i, n, size);
      SameCut(Decode(a), items, from, upto);
    } else {
      CutBehind(Decode(a), items, from, upto);
    }
  }

  lemma {:induction false} CutBehind<T>(s: seq<T>, more: seq<T>, a: int, b: int)
    requires a == |s| && b == |s| + |more|
    ensures Cut(s + more, a, b) == more
  {
    assert (s + more)[a..b] == more;
  }

  lemma {:induction false} FixedSizeAdds(t: Tree, isValid: bool, items: seq<Value>, child: Tree)
    requires t.FixedSizeListB? && Whole(t) && Whole(child) && |items| == t.size
    requires Column(child) == Column(t.child) + items
    ensures var u := WithChildOf(ApplyOwn(t, AppendSlot(isValid)), 0, child);
            Whole(u) && Column(u) == Column(t) + [if isValid then ListOf(items) else Null]
  {
    var u, n, size := WithChildOf(ApplyOwn(t, AppendSlot(isValid)), 0, child), |t.valid|, t.size;
    var a, b := Finished(t.child), Finished(child);
    forall i | 0 <= i <= n
      ensures ValueAt(FixedSizeListBody(size, b), i) ==
              if i < n then ValueAt(FixedSizeListBody(size, a), i) else ListOf(items)
    {
      ChunkKept(a, b, items, n, size, i);
    }
    Chunk(n, n + 1, size);
    OneMoreSlot(t.valid, FixedSizeListBody(size, a), isValid, FixedSizeListBody(size, b),
        if isValid then ListOf(items) else Null);
    assert forall i :: 0 <= i < ChildCount(u) ==> ChildOf(u, i) == child;
  }

  // ---------------------------------------------------------------------------------------------
  // Structs
  // ---------------------------------------------------------------------------------------------

  /** Child i has gained value i. */
  ghost predicate Gained(before: seq<Tree>, after: seq<Tree>, values: seq<Value>, i: int)
    requires 0 <= i < |before| == |after| == |values|
  {
    Whole(after[i]) && Column(after[i]) == Column(before[i]) + [values[i]]
  }

  lemma {:induction false} StructAdds(t: Tree, isValid: bool, values: seq<Value>, children: seq<Tree>)
    requires t.StructB? && Whole(t) && |children| == |t.children| == |values|
    requires forall i :: 0 <= i < |values| ==> Gained(t.children, children, values, i)
    ensures var u := StructB(t.valid + [isValid], children);
            Whole(u) && Column(u) == Column(t) + [if isValid then Record(values) else Null]
  {
    var u, n, m := StructB(t.valid + [isValid], children), |t.valid|, |values|;
    var a, b := Finished(t).body, Finished(u).body;
    forall f | 0 <= f < m
      ensures Len(children[f]) == n + 1 && Column(children[f]) == Column(t.children[f]) + [values[f]]
    {
      assert Gained(t.children, children, values, f);
    }
    forall i | 0 <= i <= n ensures ValueAt(b, i) == if i < n then ValueAt(a, i) else Record(values) {
      forall f | 0 <= f < m
        ensures FieldsAt(b.children, i, m)[f] == if i < n then FieldsAt(a.children, i, m)[f] else values[f]
      {
        FieldAt(a.children, i, m, f);
        FieldAt(b.children, i, m, f);
        assert Decode(b.children[f]) == Column(children[f]) && Decode(a.children[f]) == Column(t.children[f]);
      }
      assert FieldsAt(b.children, i, m) == if i < n then FieldsAt(a.children, i, m) else values;
    }
    OneMoreSlot(t.valid, a, isValid, b, if isValid then Record(values) else Null);
    forall i | 0 <= i < ChildCount(u) ensures Whole(ChildOf(u, i)) { assert Gained(t.children, children, values, i); }
  }

  // ---------------------------------------------------------------------------------------------
  // Decoding a value
  // ---------------------------------------------------------------------------------------------

  /** The builder after the appends that decode a value. */
  ghost function Fed(t: Tree, k: Kind, v: Value): Tree {
    ApplyAll(t, OpsFor(k, v), |OpsFor(k, v)|)
  }

  ghost function FedAll(t: Tree, k: Kind, vs: seq<Value>, n: nat): Tree
    requires n <= |vs|
  {
    ApplyAll(t, OpsForAll(k, vs, n), |OpsForAll(k, vs, n)|)
  }

  lemma {:induction false} FedNext(t: Tree, k: Kind, vs: seq<Value>, n: nat)
    requires 0 < n <= |vs|
    ensures FedAll(t, k, vs, n) == Fed(FedAll(t, k, vs, n - 1), k, vs[n - 1])
  {
    ApplyJoined(t, OpsForAll(k, vs, n), OpsForAll(k, vs, n - 1), OpsFor(k, vs[n - 1]));
  }

  /** A builder's own append, then others. */
  lemma {:induction false} OwnFirst(t: Tree, op: BuilderTree.Op, ops: seq<BuilderTree.Op>)
    requires !op.Under?
    ensures ApplyAll(t, [op] + ops, 1 + |ops|) == ApplyAll(ApplyOwn(t, op), ops, |ops|)
  {
    ApplyJoined(t, [op] + ops, [op], ops);
    assert ApplyAll(t, [op], 0) == t;
  }

  /** A builder with one child: its own append, then the child's. */
  lemma {:induction false} FedChild(t: Tree, op: BuilderTree.Op, elem: Kind, vs: seq<Value>)
    requires ChildCount(t) == 1 && !t.MapB? && !op.Under?
    ensures var ops := [op] + UnderAll(0, OpsForAll(elem, vs, |vs|));
            ApplyAll(t, ops, |ops|) == WithChildOf(ApplyOwn(t, op), 0, FedAll(ChildOf(t, 0), elem, vs, |vs|))
  {
    var below := OpsForAll(elem, vs, |vs|);
    OwnFirst(t, op, UnderAll(0, below));
    ApplyUnder(ApplyOwn(t, op), 0, below, |below|);
    assert ChildOf(ApplyOwn(t, op), 0) == ChildOf(t, 0);
  }

  /** Decoding a value adds exactly that value to the builder's column. */
  lemma {:induction false} FedAdds(t: Tree, k: Kind, v: Value)
    requires Whole(t) && HasKind(t, k) && Conforms(k, v)
    ensures HasKind(Fed(t, k, v), k)
    ensures AllAddressable(Fed(t, k, v)) ==> Whole(Fed(t, k, v)) && Column(Fed(t, k, v)) == Column(t) + [v]
    decreases k, 0, 1
  {
    ApplyAllKind(t, k, OpsFor(k, v), |OpsFor(k, v)|);
    match k
    case ListK(elem) => FedListAdds(t, k, elem, v);
    case ListViewK(elem) => FedListAdds(t, k, elem, v);
    case FixedSizeListK(_, elem) => FedListAdds(t, k, elem, v);
    case StructK(fields) => FedStructAdds(t, fields, v);
    case MapK(list) => FedMapAdds(t, list, v);
    case _ => FedFlatAdds(t, k, v);
  }

  lemma {:induction false} FedFlatAdds(t: Tree, k: Kind, v: Value)
    requires Whole(t) && HasKind(t, k) && Conforms(k, v)
    requires k.FixedK? || k.BinaryK? || k.ViewK? || k.DictionaryK?
    ensures AllAddressable(Fed(t, k, v)) ==> Whole(Fed(t, k, v)) && Column(Fed(t, k, v)) == Column(t) + [v]
  {
    var op := OwnOp(k, v);
    assert ApplyAll(t, [op], 0) == t && ApplyAll(t, [op], 1) == Apply(t, op);
    match k
    case FixedK => FixedAdds(t, !v.Null?, if v.Number? then v.n else 0);
    case BinaryK => BinaryAdds(t, !v.Null?, if v.Bytes? then v.b else []);
    case ViewK => ViewAdds(t, op.a);
    case DictionaryK => DictionaryAdds(t, v);
  }

  lemma {:induction false} PartsConform(k: Kind, elem: Kind, v: Value)
    requires Conforms(k, v) && (k == ListK(elem) || k == ListViewK(elem) || (k.FixedSizeListK? && k.elem == elem))
    ensures forall i :: 0 <= i < |Parts(k, v)| ==> Conforms(elem, Parts(k, v)[i])
    ensures !v.Null? ==> v == ListOf(Parts(k, v))
    ensures k.FixedSizeListK? ==> |Parts(k, v)| == k.size
  {}

  lemma {:induction false} FedListAdds(t: Tree, k: Kind, elem: Kind, v: Value)
    requires Whole(t) && HasKind(t, k) && Conforms(k, v)
    requires k == ListK(elem) || k == ListViewK(elem) || (k.FixedSizeListK? && k.elem == elem)
    ensures AllAddressable(Fed(t, k, v)) ==> Whole(Fed(t, k, v)) && Column(Fed(t, k, v)) == Column(t) + [v]
    decreases k, 0, 0
  {
    var parts, op := Parts(k, v), OwnOp(k, v);
    PartsConform(k, elem, v);
    FedChild(t, op, elem, parts);
    assert Whole(ChildOf(t, 0));
    FedAllAdds(t.child, elem, parts, |parts|);
    FedListGains(t, k, v, parts, FedAll(t.child, elem, parts, |parts|));
  }

  lemma {:induction false} FedListGains(t: Tree, k: Kind, v: Value, parts: seq<Value>, child: Tree)
    requires Whole(t) && HasKind(t, k) && (k.ListK? || k.ListViewK? || k.FixedSizeListK?)
    requires parts == Parts(k, v) && (!v.Null? ==> v == ListOf(parts)) && (k.FixedSizeListK? ==> |parts| == k.size)
    requires AllAddressable(child) ==> Whole(child) && Column(child) == Column(t.child) + parts[..|parts|]
    ensures var u := WithChildOf(ApplyOwn(t, OwnOp(k, v)), 0, child);
            AllAddressable(u) ==> Whole(u) && Column(u) == Column(t) + [v]
  {
    var u := WithChildOf(ApplyOwn(t, OwnOp(k, v)), 0, child);
    assert parts[..|parts|] == parts && ChildOf(u, 0) == child;
    if AllAddressable(u) { ListKindAdds(t, k, v, parts, child); }
  }

  lemma {:induction false} ListKindAdds(t: Tree, k: Kind, v: Value, parts: seq<Value>, child: Tree)
    requires Whole(t) && HasKind(t, k) && (k.ListK? || k.ListViewK? || k.FixedSizeListK?)
    requires parts == Parts(k, v) && (!v.Null? ==> v == ListOf(parts)) && (k.FixedSizeListK? ==> |parts| == k.size)
    requires Whole(child) && Column(child) == Column(t.child) + parts
    ensures var u := WithChildOf(ApplyOwn(t, OwnOp(k, v)), 0, child); Whole(u) && Column(u) == Column(t) + [v]
  {
    match k
    case ListK(_) => ListAdds(t, !v.Null?, parts, child);
    case ListViewK(_) => ListViewAdds(t, !v.Null?, parts, child);
    case FixedSizeListK(_, _) => FixedSizeAdds(t, !v.Null?, parts, child);
  }

  /** Decoding values one after the other adds them in order. */
  lemma {:induction false} FedAllAdds(t: Tree, k: Kind, vs: seq<Value>, n: nat)
    requires Whole(t) && HasKind(t, k) && n <= |vs| && forall i :: 0 <= i < |vs| ==> Conforms(k, vs[i])
    ensures HasKind(FedAll(t, k, vs, n), k)
    ensures AllAddressable(FedAll(t, k, vs, n)) ==>
              Whole(FedAll(t, k, vs, n)) && Column(FedAll(t, k, vs, n)) == Column(t) + vs[..n]
    decreases k, 2, n
  {
    ApplyAllKind(t, k, OpsForAll(k, vs, n), |OpsForAll(k, vs, n)|);
    if n == 0 {
      assert Column(t) + vs[..0] == Column(t);
    } else if AllAddressable(FedAll(t, k, vs, n)) {
      FedNext(t, k, vs, n);
      FedAllAdds(t, k, vs, n - 1);
      FedNextAdds(t, FedAll(t, k, vs, n - 1), k, vs, n);
    }
  }

  lemma {:induction false} FedNextAdds(t: Tree, before: Tree, k: Kind, vs: seq<Value>, n: nat)
    requires 0 < n <= |vs| && Conforms(k, vs[n - 1]) && HasKind(before, k)
    requires AllAddressable(before) ==> Whole(before) && Column(before) == Column(t) + vs[..n - 1]
    requires AllAddressable(Fed(before, k, vs[n - 1]))
    ensures Whole(Fed(before, k, vs[n - 1])) && Column(Fed(before, k, vs[n - 1])) == Column(t) + vs[..n]
    decreases k, 1, 0
  {
    AddressableEarlier(before, OpsFor(k, vs[n - 1]), |OpsFor(k, vs[n - 1])|);
    FedAdds(before, k, vs[n - 1]);
    assert (Column(t) + vs[..n - 1]) + [vs[n - 1]] == Column(t) + vs[..n];
  }

  /** The first n children have been fed, the others are as they were. */
  ghost predicate FieldsFed(t: Tree, u: Tree, fields: seq<Kind>, vs: seq<Value>, n: nat)
    requires t.StructB? && |t.children| == |fields| <= |vs|
  {
    && u.StructB? && u.valid == t.valid && |u.children| == |t.children|
    && forall i :: 0 <= i < |fields| ==> FieldFed(t, u, fields, vs, n, i)
  }

  ghost predicate FieldFed(t: Tree, u: Tree, fields: seq<Kind>, vs: seq<Value>, n: nat, i: int)
    requires t.StructB? && |t.children| == |fields| <= |vs| && u.StructB? && |u.children| == |fields|
    requires 0 <= i < |fields|
  {
    u.children[i] == if i < n then Fed(t.children[i], fields[i], vs[i]) else t.children[i]
  }

  ghost function FedFieldsUpTo(t: Tree, fields: seq<Kind>, vs: seq<Value>, n: nat): Tree
    requires n <= |fields| && n <= |vs|
  {
    ApplyAll(t, OpsForFields(fields, vs, n), |OpsForFields(fields, vs, n)|)
  }

  lemma {:induction false} FedFieldNext(t: Tree, fields: seq<Kind>, vs: seq<Value>, n: nat)
    requires 0 < n <= |fields| && n <= |vs|
    ensures var own := OpsFor(fields[n - 1], vs[n - 1]);
            FedFieldsUpTo(t, fields, vs, n) ==
                ApplyAll(FedFieldsUpTo(t, fields, vs, n - 1), UnderAll(n - 1, own), |own|)
  {
    var before, under := OpsForFields(fields, vs, n - 1), UnderAll(n - 1, OpsFor(fields[n - 1], vs[n - 1]));
    ApplyJoined(t, OpsForFields(fields, vs, n), before, under);
  }

  lemma {:induction false} FedFields(t: Tree, fields: seq<Kind>, vs: seq<Value>, n: nat)
    requires t.StructB? && |t.children| == |fields| <= |vs| && n <= |fields|
    ensures FieldsFed(t, FedFieldsUpTo(t, fields, vs, n), fields, vs, n)
  {
    if n == 0 {
      assert forall i :: 0 <= i < |fields| ==> FieldFed(t, t, fields, vs, 0, i);
    } else {
      FedFields(t, fields, vs, n - 1);
      FedFieldNext(t, fields, vs, n);
      FedField(t, FedFieldsUpTo(t, fields, vs, n - 1), fields, vs, n);
    }
  }

  lemma {:induction false} FedField(t: Tree, u: Tree, fields: seq<Kind>, vs: seq<Value>, n: nat)
    requires t.StructB? && |t.children| == |fields| <= |vs| && 0 < n <= |fields|
    requires FieldsFed(t, u, fields, vs, n - 1)
    ensures var own := OpsFor(fields[n - 1], vs[n - 1]);
            FieldsFed(t, ApplyAll(u, UnderAll(n - 1, own), |own|), fields, vs, n)
  {
    var own := OpsFor(fields[n - 1], vs[n - 1]);
    assert FieldFed(t, u, fields, vs, n - 1, n - 1);
    ApplyUnder(u, n - 1, own, |own|);
    var w := WithChildOf(u, n - 1, ApplyAll(ChildOf(u, n - 1), own, |own|));
    forall i | 0 <= i < |fields|
      ensures FieldFed(t, w, fields, vs, n, i)
    {
      assert FieldFed(t, u, fields, vs, n - 1, i);
    }
  }

  lemma {:induction false} FedStruct(t: Tree, fields: seq<Kind>, v: Value)
    requires t.StructB? && |t.children| == |fields| == |Parts(StructK(fields), v)|
    ensures var u := Fed(t, StructK(fields), v);
            FieldsFed(ApplyOwn(t, AppendSlot(!v.Null?)), u, fields, Parts(StructK(fields), v), |fields|)
  {
    var op, vs := AppendSlot(!v.Null?), Parts(StructK(fields), v);
    var below := OpsForFields(fields, vs, |fields|);
    assert OpsFor(StructK(fields), v) == [op] + below;
    OwnFirst(t, op, below);
    FedFields(ApplyOwn(t, op), fields, vs, |fields|);
  }

  lemma {:induction false} FedStructAdds(t: Tree, fields: seq<Kind>, v: Value)
    requires Whole(t) && HasKind(t, StructK(fields)) && Conforms(StructK(fields), v)
    ensures var k := StructK(fields);
            AllAddressable(Fed(t, k, v)) ==> Whole(Fed(t, k, v)) && Column(Fed(t, k, v)) == Column(t) + [v]
    decreases fields, 0
  {
    var k, vs, own := StructK(fields), Parts(StructK(fields), v), ApplyOwn(t, AppendSlot(!v.Null?));
    var u := Fed(t, k, v);
    FedStruct(t, fields, v);
    if AllAddressable(u) {
      forall i | 0 <= i < |fields| ensures Gained(t.children, u.children, vs, i) {
        assert FieldFed(own, u, fields, vs, |fields|, i) && AllAddressable(ChildOf(u, i)) && Whole(ChildOf(t, i));
        FedAdds(t.children[i], fields[i], vs[i]);
      }
      StructAdds(t, !v.Null?, vs, u.children);
    }
  }

  lemma {:induction false} FedMapAdds(t: Tree, list: Kind, v: Value)
    requires Whole(t) && HasKind(t, MapK(list)) && Conforms(MapK(list), v)
    ensures var k := MapK(list);
            AllAddressable(Fed(t, k, v)) ==> Whole(Fed(t, k, v)) && Column(Fed(t, k, v)) == Column(t) + [v]
    decreases list, 3
  {
    var ops := OpsFor(list, v);
    ApplyUnder(t, 0, ops, |ops|);
    var u := Fed(t, MapK(list), v);
    assert ChildOf(u, 0) == Fed(t.list, list, v) && Whole(ChildOf(t, 0));
    FedAdds(t.list, list, v);
  }
}

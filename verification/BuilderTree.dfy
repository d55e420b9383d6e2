/** Builders with their children as values: what an append does to a builder, and the appends that decode a value. */
module BuilderTree {
  import opened Sequences
  import opened Layout
  import opened ViewBuilder
  import opened Dictionaries

  /** A builder with its children. The validity of a builder's slots is kept by the bitmap builder. */
  datatype Tree =
    | FixedB(valid: seq<bool>, values: seq<int>)
    | BinaryB(valid: seq<bool>, offsets: seq<int>, bytes: seq<Byte>)
    | ViewB(views: Views, blockSize: nat)
    | ListB(valid: seq<bool>, offsets: seq<int>, child: Tree)
    | ListViewB(valid: seq<bool>, starts: seq<int>, sizes: seq<int>, child: Tree)
    | FixedSizeListB(valid: seq<bool>, size: nat, child: Tree)
    | StructB(valid: seq<bool>, children: seq<Tree>)
    | DictionaryB(valid: seq<bool>, indices: seq<int>, memoTable: seq<Value>)
    | MapB(list: Tree)

  /** The number of slots. */
  function Len(t: Tree): nat {
    match t
    case ViewB(views, _) => |views.valid|
    case MapB(list) => Len(list)
    case _ => |t.valid|
  }

  function ChildCount(t: Tree): nat {
    match t
    case ListB(_, _, _) => 1
    case ListViewB(_, _, _, _) => 1
    case FixedSizeListB(_, _, _) => 1
    case MapB(_) => 1
    case StructB(_, children) => |children|
    case _ => 0
  }

  function ChildOf(t: Tree, i: nat): Tree
    requires i < ChildCount(t)
  {
    match t
    case ListB(_, _, child) => child
    case ListViewB(_, _, _, child) => child
    case FixedSizeListB(_, _, child) => child
    case StructB(_, children) => children[i]
    case MapB(list) => list
  }

  function WithChildOf(t: Tree, i: nat, c: Tree): Tree
    requires i < ChildCount(t)
  {
    match t
    case ListB(valid, offsets, _) => ListB(valid, offsets, c)
    case ListViewB(valid, starts, sizes, _) => ListViewB(valid, starts, sizes, c)
    case FixedSizeListB(valid, size, _) => FixedSizeListB(valid, size, c)
    case StructB(valid, children) => StructB(valid, children[i := c])
    case MapB(_) => MapB(c)
  }

  /** The parts of a builder fit each other. */
  ghost predicate SoundBuilder(t: Tree) {
    match t
    case FixedB(valid, values) => |values| == |valid|
    case BinaryB(valid, offsets, _) => |offsets| == |valid|
    case ViewB(views, _) => Shaped(views)
    case ListB(valid, offsets, _) => |offsets| == |valid|
    case ListViewB(valid, starts, sizes, _) => |starts| == |sizes| == |valid|
    case DictionaryB(valid, indices, _) => |indices| == |valid|
    case MapB(list) => list.ListB?
    case _ => true
  }

  ghost predicate SoundTree(t: Tree) {
    SoundBuilder(t) && forall i :: 0 <= i < ChildCount(t) ==> SoundTree(ChildOf(t, i))
  }

  // ---------------------------------------------------------------------------------------------
  // Appends
  // ---------------------------------------------------------------------------------------------

  /** One append to one builder: the builder itself, or one somewhere below it. */
  datatype Op =
    | AppendFixed(isValid: bool, value: int)
    | AppendBytes(isValid: bool, bytes: seq<Byte>)
    | AppendView(a: Append)
    | AppendSlot(isValid: bool)
    | AppendWithSize(isValid: bool, size: int)
    | AppendEntry(v: Value)
    | AppendNullEntry
    | Under(child: nat, op: Op)

  lemma {:induction false} ChildSound(t: Tree, i: nat)
    requires SoundTree(t) && i < ChildCount(t)
    ensures SoundTree(ChildOf(t, i))
  {}

  /** The builder after an append of its own that fits its kind; nested builders append to their children separately. */
  function ApplyOwn(t: Tree, op: Op): Tree {
    match (t, op)
    case (FixedB(valid, values), AppendFixed(isValid, value)) => FixedB(valid + [isValid], values + [value])
    case (BinaryB(valid, offsets, bytes), AppendBytes(isValid, v)) =>
      BinaryB(valid + [isValid], offsets + [|bytes|], bytes + v)
    case (ViewB(views, blockSize), AppendView(a)) =>
      if Shaped(views) then ViewB(ViewStep(views, a, blockSize), blockSize) else t
    case (ListB(valid, offsets, child), AppendSlot(isValid)) => ListB(valid + [isValid], offsets + [Len(child)], child)
    case (ListViewB(valid, starts, sizes, child), AppendWithSize(isValid, size)) =>
      ListViewB(valid + [isValid], starts + [Len(child)], sizes + [size], child)
    case (FixedSizeListB(valid, size, child), AppendSlot(isValid)) => FixedSizeListB(valid + [isValid], size, child)
    case (StructB(valid, children), AppendSlot(isValid)) => StructB(valid + [isValid], children)
    case (DictionaryB(valid, indices, memoTable), AppendEntry(v)) =>
      DictionaryB(valid + [true], indices + [FindAmong(memoTable, v, |memoTable|)], Remember(memoTable, v))
    case (DictionaryB(valid, indices, memoTable), AppendNullEntry) =>
      DictionaryB(valid + [false], indices + [0], memoTable)
    case _ => t
  }

  /** The builder after an append to it or to a builder below it. */
  function Apply(t: Tree, op: Op): Tree
    decreases op
  {
    if !op.Under? then ApplyOwn(t, op)
    else if op.child < ChildCount(t) then WithChildOf(t, op.child, Apply(ChildOf(t, op.child), op.op))
    else t
  }

  lemma {:induction false} WithChildSound(t: Tree, i: nat, c: Tree)
    requires SoundTree(t) && i < ChildCount(t) && SoundTree(c) && (t.MapB? ==> c.ListB?)
    ensures SoundTree(WithChildOf(t, i, c))
  {
    var u := WithChildOf(t, i, c);
    forall j | 0 <= j < ChildCount(u) ensures SoundTree(ChildOf(u, j)) {
      assert ChildOf(u, j) == if j == i then c else ChildOf(t, j);
    }
  }

  /** An append keeps a builder sound and its kind. */
  lemma {:induction false} ApplySound(t: Tree, op: Op)
    requires SoundTree(t)
    ensures SoundTree(Apply(t, op)) && (t.ListB? ==> Apply(t, op).ListB?)
    decreases op
  {
    if t.ViewB? && op.AppendView? { StepData(t.views, op.a, t.blockSize); }
    if !op.Under? {
      var u := ApplyOwn(t, op);
      forall j | 0 <= j < ChildCount(u) ensures SoundTree(ChildOf(u, j)) { assert ChildOf(u, j) == ChildOf(t, j); }
    } else if op.child < ChildCount(t) {
      ChildSound(t, op.child);
      ApplySound(ChildOf(t, op.child), op.op);
      WithChildSound(t, op.child, Apply(ChildOf(t, op.child), op.op));
    }
  }

  /** The builder after the first n appends. */
  function ApplyAll(t: Tree, ops: seq<Op>, n: nat): Tree
    requires n <= |ops|
  {
    if n == 0 then t else Apply(ApplyAll(t, ops, n - 1), ops[n - 1])
  }

  lemma {:induction false} ApplyPrefix(t: Tree, a: seq<Op>, b: seq<Op>, n: nat)
    requires n <= |a| && a <= b
    ensures ApplyAll(t, a, n) == ApplyAll(t, b, n)
  {
    if n > 0 { ApplyPrefix(t, a, b, n - 1); }
  }

  /** Appends one after the other. */
  lemma {:induction false} ApplyBoth(t: Tree, a: seq<Op>, b: seq<Op>, n: nat)
    requires n <= |b|
    ensures ApplyAll(t, a + b, |a| + n) == ApplyAll(ApplyAll(t, a, |a|), b, n)
  {
    if n == 0 { ApplyPrefix(t, a, a + b, |a|); } else { ApplyBoth(t, a, b, n - 1); }
  }

  lemma {:induction false} ApplyJoined(t: Tree, ops: seq<Op>, a: seq<Op>, b: seq<Op>)
    requires ops == a + b
    ensures ApplyAll(t, ops, |ops|) == ApplyAll(ApplyAll(t, a, |a|), b, |b|)
  {
    ApplyBoth(t, a, b, |b|);
  }

  function UnderAll(i: nat, ops: seq<Op>): (under: seq<Op>)
    ensures |under| == |ops| && forall k {:trigger under[k]} :: 0 <= k < |ops| ==> under[k] == Under(i, ops[k])
  {
    if ops == [] then [] else UnderAll(i, ops[..|ops| - 1]) + [Under(i, ops[|ops| - 1])]
  }

  lemma {:induction false} ReplaceChild(t: Tree, i: nat, c: Tree, d: Tree)
    requires i < ChildCount(t)
    ensures ChildCount(WithChildOf(t, i, c)) == ChildCount(t) && ChildOf(WithChildOf(t, i, c), i) == c
    ensures WithChildOf(WithChildOf(t, i, c), i, d) == WithChildOf(t, i, d) && WithChildOf(t, i, ChildOf(t, i)) == t
  {}

  /** Appends below a child are appends to the child. */
  lemma {:induction false} ApplyUnder(t: Tree, i: nat, ops: seq<Op>, n: nat)
    requires i < ChildCount(t) && n <= |ops|
    ensures ApplyAll(t, UnderAll(i, ops), n) == WithChildOf(t, i, ApplyAll(ChildOf(t, i), ops, n))
  {
    if n == 0 {
      ReplaceChild(t, i, ChildOf(t, i), ChildOf(t, i));
    } else {
      ApplyUnder(t, i, ops, n - 1);
      assert UnderAll(i, ops)[n - 1] == Under(i, ops[n - 1]);
      var c := ApplyAll(ChildOf(t, i), ops, n - 1);
      ReplaceChild(t, i, c, Apply(c, ops[n - 1]));
    }
  }

  // ---------------------------------------------------------------------------------------------
  // Decoding a value
  // ---------------------------------------------------------------------------------------------

  /** What kind of values a builder takes. */
  datatype Kind =
    | FixedK
    | BinaryK
    | ViewK
    | ListK(elem: Kind)
    | ListViewK(elem: Kind)
    | FixedSizeListK(size: nat, elem: Kind)
    | StructK(fields: seq<Kind>)
    | DictionaryK
    | MapK(list: Kind)

  ghost predicate HasKind(t: Tree, k: Kind)
    decreases k
  {
    match k
    case FixedK => t.FixedB?
    case BinaryK => t.BinaryB?
    case ViewK => t.ViewB?
    case ListK(elem) => t.ListB? && HasKind(t.child, elem)
    case ListViewK(elem) => t.ListViewB? && HasKind(t.child, elem)
    case FixedSizeListK(size, elem) => t.FixedSizeListB? && t.size == size && HasKind(t.child, elem)
    case StructK(fields) =>
      t.StructB? && |t.children| == |fields| && forall i :: 0 <= i < |fields| ==> HasKind(t.children[i], fields[i])
    case DictionaryK => t.DictionaryB?
    case MapK(list) => t.MapB? && list.ListK? && HasKind(t.list, list)
  }

  /** The value is null, or of the kind. */
  ghost predicate Conforms(k: Kind, v: Value)
    decreases k
  {
    v.Null? ||
    match k
    case FixedK => v.Number?
    case BinaryK => v.Bytes?
    case ViewK => v.Bytes? && |v.b| <= VIEW_VALUE_SIZE_LIMIT
    case ListK(elem) => v.ListOf? && forall i :: 0 <= i < |v.items| ==> Conforms(elem, v.items[i])
    case ListViewK(elem) => v.ListOf? && forall i :: 0 <= i < |v.items| ==> Conforms(elem, v.items[i])
    case FixedSizeListK(size, elem) =>
      v.ListOf? && |v.items| == size && forall i :: 0 <= i < size ==> Conforms(elem, v.items[i])
    case StructK(fields) =>
      v.Record? && |v.items| == |fields| && forall i :: 0 <= i < |fields| ==> Conforms(fields[i], v.items[i])
    case DictionaryK => true
    case MapK(list) => Conforms(list, v)
  }

  /**
   The values that go to the children: those of the list or record; a null fills fixed-size lists and structs with
   nulls.
   */
  ghost function Parts(k: Kind, v: Value): seq<Value> {
    if v.ListOf? || v.Record? then v.items
    else match k
      case FixedSizeListK(size, _) => Repeat(Null, size)
      case StructK(fields) => Repeat(Null, |fields|)
      case _ => []
  }

  /** The append to the builder itself. */
  ghost function OwnOp(k: Kind, v: Value): Op {
    match k
    case FixedK => AppendFixed(!v.Null?, if v.Number? then v.n else 0)
    case BinaryK => AppendBytes(!v.Null?, if v.Bytes? then v.b else [])
    case ViewK => AppendView(if v.Bytes? then ViewBuilder.Value(v.b) else NullValue)
    case ListViewK(_) => AppendWithSize(!v.Null?, |Parts(k, v)|)
    case DictionaryK => if v.Null? then AppendNullEntry else AppendEntry(v)
    case _ => AppendSlot(!v.Null?)
  }

  /** The appends that decode one value: a builder's own, then those of its children in order. */
  ghost function OpsFor(k: Kind, v: Value): seq<Op>
    decreases k, 1
  {
    match k
    case ListK(elem) => [OwnOp(k, v)] + UnderAll(0, OpsForAll(elem, Parts(k, v), |Parts(k, v)|))
    case ListViewK(elem) => [OwnOp(k, v)] + UnderAll(0, OpsForAll(elem, Parts(k, v), |Parts(k, v)|))
    case FixedSizeListK(_, elem) => [OwnOp(k, v)] + UnderAll(0, OpsForAll(elem, Parts(k, v), |Parts(k, v)|))
    case StructK(fields) =>
      [OwnOp(k, v)] + OpsForFields(fields, Parts(k, v), if |fields| <= |Parts(k, v)| then |fields| else 0)
    case MapK(list) => UnderAll(0, OpsFor(list, v))
    case _ => [OwnOp(k, v)]
  }

  ghost function OpsForAll(elem: Kind, vs: seq<Value>, n: nat): seq<Op>
    requires n <= |vs|
    decreases elem, 2, n
  {
    if n == 0 then [] else OpsForAll(elem, vs, n - 1) + OpsFor(elem, vs[n - 1])
  }

  ghost function OpsForFields(fields: seq<Kind>, vs: seq<Value>, n: nat): seq<Op>
    requires n <= |fields| && n <= |vs|
    decreases fields, 0, n
  {
    if n == 0 then [] else OpsForFields(fields, vs, n - 1) + UnderAll(n - 1, OpsFor(fields[n - 1], vs[n - 1]))
  }

  lemma {:induction false} ApplyKind(t: Tree, k: Kind, op: Op)
    requires HasKind(t, k)
    ensures HasKind(Apply(t, op), k)
    decreases op
  {
    if op.Under? && op.child < ChildCount(t) {
      var elem := match k case ListK(e) => e case ListViewK(e) => e case FixedSizeListK(_, e) => e
                  case MapK(l) => l case StructK(fields) => fields[op.child];
      ApplyKind(ChildOf(t, op.child), elem, op.op);
    }
  }

  lemma {:induction false} ApplyAllKind(t: Tree, k: Kind, ops: seq<Op>, n: nat)
    requires HasKind(t, k) && n <= |ops|
    ensures HasKind(ApplyAll(t, ops, n), k)
  {
    if n > 0 {
      ApplyAllKind(t, k, ops, n - 1);
      ApplyKind(ApplyAll(t, ops, n - 1), k, ops[n - 1]);
    }
  }
}

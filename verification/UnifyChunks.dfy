/** Unifying the dictionaries of a chunked array at every level of a nested type. */
module UnifyChunks {
  import opened Layout
  import opened Offsets
  import opened Dictionaries
  import opened ConcatDictionaries

  /** The types of an array's children. */
  function Fields(t: DType): seq<DType> {
    match t
    case List(_, elem) => [elem]
    case ListView(_, elem) => [elem]
    case FixedSizeList(_, elem) => [elem]
    case RunEndEncoded(_, elem) => [elem]
    case Struct(fields) => fields
    case _ => []
  }

  predicate HasChild(d: Data, f: int) {
    match d.body
    case ListBody(_, _) => f == 0
    case ListViewBody(_, _, _) => f == 0
    case FixedSizeListBody(_, _) => f == 0
    case RunEndBody(_, _) => f == 0
    case StructBody(children) => 0 <= f < |children|
    case _ => false
  }

  /** Child f; an array without that child stands for itself. */
  function ChildAt(d: Data, f: int): Data {
    if !HasChild(d, f) then d else if d.body.StructBody? then d.body.children[f] else d.body.child
  }

  function WithChild(d: Data, f: int, c: Data): Data
    requires HasChild(d, f)
  {
    match d.body
    case ListBody(offsets, _) => d.(body := ListBody(offsets, c))
    case ListViewBody(starts, sizes, _) => d.(body := ListViewBody(starts, sizes, c))
    case FixedSizeListBody(size, _) => d.(body := FixedSizeListBody(size, c))
    case RunEndBody(runEnds, _) => d.(body := RunEndBody(runEnds, c))
    case StructBody(children) => d.(body := StructBody(children[f := c]))
  }

  function ChildrenUpTo(chunks: seq<Data>, f: int, n: nat): (children: seq<Data>)
    requires n <= |chunks|
    ensures |children| == n && forall j {:trigger children[j]} :: 0 <= j < n ==> children[j] == ChildAt(chunks[j], f)
  {
    if n == 0 then [] else ChildrenUpTo(chunks, f, n - 1) + [ChildAt(chunks[n - 1], f)]
  }

  function Children(chunks: seq<Data>, f: int): (children: seq<Data>)
    ensures |children| == |chunks| && forall j {:trigger children[j]} :: 0 <= j < |chunks| ==>
              children[j] == ChildAt(chunks[j], f)
  {
    ChildrenUpTo(chunks, f, |chunks|)
  }

  lemma {:induction false} WellFormedChild(t: DType, d: Data, f: int)
    requires WellFormed(t, d) && 0 <= f < |Fields(t)|
    ensures HasChild(d, f) && WellFormed(Fields(t)[f], ChildAt(d, f))
  {}

  lemma {:induction false} WellFormedChildren(t: DType, chunks: seq<Data>, f: int)
    requires AllWellFormed(t, chunks) && 0 <= f < |Fields(t)|
    ensures AllWellFormed(Fields(t)[f], Children(chunks, f)) && forall j :: 0 <= j < |chunks| ==> HasChild(chunks[j], f)
  {
    forall j | 0 <= j < |chunks| ensures IsWellFormed(Fields(t)[f], Children(chunks, f), j) && HasChild(chunks[j], f) {
      assert IsWellFormed(t, chunks, j);
      WellFormedChild(t, chunks[j], f);
    }
  }

  // ---------------------------------------------------------------------------------------------
  // What fails, and what is not checked
  // ---------------------------------------------------------------------------------------------

  /** The unified dictionary of chunks of dictionary type. */
  ghost function UnifiedEntries(chunks: seq<Data>): seq<Value> {
    TableAfter(DictionariesUpTo(chunks, |chunks|), |chunks|)
  }

  /** Chunk j needs no new indices: its map is the identity. */
  ghost predicate Untouched(chunks: seq<Data>, j: int)
    requires 0 <= j < |chunks|
  {
    Identity(MapInto(EntriesOf(chunks[j]), UnifiedEntries(chunks)))
  }

  ghost predicate ChunkUnreadable(chunks: seq<Data>, j: int)
    requires 0 <= j < |chunks|
  {
    chunks[j].body.DictionaryBody? && !Untouched(chunks, j) && Unreadable(chunks[j], |EntriesOf(chunks[j])|)
  }

  /**
   At some dictionary level the unified dictionary is too long for the index type, or a chunk cannot be sent through its
   map.
   */
  ghost predicate Fails(t: DType, chunks: seq<Data>)
    decreases t, 1
  {
    || (exists f :: 0 <= f < |Fields(t)| && ChildFails(t, chunks, f))
    || (t.Dictionary? && (|UnifiedEntries(chunks)| > t.indexLimit
        || exists j :: 0 <= j < |chunks| && ChunkUnreadable(chunks, j)))
  }

  ghost predicate ChildFails(t: DType, chunks: seq<Data>, f: int)
    requires 0 <= f < |Fields(t)|
    decreases t, 0
  {
    Fails(Fields(t)[f], Children(chunks, f))
  }

  /** Every dictionary, unified or not, can be counted in 32 bits. */
  ghost predicate Small(t: DType, chunks: seq<Data>)
    decreases t, 1
  {
    && (forall f :: 0 <= f < |Fields(t)| ==> ChildSmall(t, chunks, f))
    && (t.Dictionary? ==>
          && |UnifiedEntries(chunks)| <= W32.Limit() + 1
          && forall j :: 0 <= j < |chunks| ==> |EntriesOf(chunks[j])| <= W32.Limit() + 1)
  }

  ghost predicate ChildSmall(t: DType, chunks: seq<Data>, f: int)
    requires 0 <= f < |Fields(t)|
    decreases t, 0
  {
    Small(Fields(t)[f], Children(chunks, f))
  }

  /** At every dictionary level each chunk's bitmap can be used unshifted, or its map is the identity. */
  ghost predicate FrontsAgree(t: DType, chunks: seq<Data>)
    decreases t, 1
  {
    && (forall f :: 0 <= f < |Fields(t)| ==> ChildFrontsAgree(t, chunks, f))
    && (t.Dictionary? ==> forall j :: 0 <= j < |chunks| ==> FrontAgrees(chunks[j]) || Untouched(chunks, j))
  }

  ghost predicate ChildFrontsAgree(t: DType, chunks: seq<Data>, f: int)
    requires 0 <= f < |Fields(t)|
    decreases t, 0
  {
    FrontsAgree(Fields(t)[f], Children(chunks, f))
  }

  /** A chunk is left untouched exactly when its dictionary is the front of the unified one. */
  lemma {:induction false} UntouchedIffPrefix(indexLimit: nat, chunks: seq<Data>, j: nat)
    requires j < |chunks| && Small(Dictionary(indexLimit), chunks)
    ensures Untouched(chunks, j) <==> EntriesOf(chunks[j]) <= UnifiedEntries(chunks)
  {
    var dicts := DictionariesUpTo(chunks, |chunks|);
    assert dicts[j] == EntriesOf(chunks[j]);
    TableAfterKeeps(dicts, |dicts|);
    TableKnows(dicts, |dicts|, j);
    IdentityIffPrefix(dicts[j], UnifiedEntries(chunks));
  }

  // ---------------------------------------------------------------------------------------------
  // Results
  // ---------------------------------------------------------------------------------------------

  /** Two arrays of a type have equal, duplicate-free dictionaries at every level. */
  ghost predicate Share(t: DType, a: Data, b: Data)
    decreases t
  {
    && (forall f :: 0 <= f < |Fields(t)| ==> Share(Fields(t)[f], ChildAt(a, f), ChildAt(b, f)))
    && (t.Dictionary? ==>
          a.body.DictionaryBody? && b.body.DictionaryBody? && a.body.dictionary == b.body.dictionary
              && NoDuplicates(a.body.dictionary))
  }

  /** Sharing reaches every dictionary: through lists of all sorts, runs and all fields of structs. */
  lemma {:induction false} ShareReaches(t: DType, a: Data, b: Data)
    requires WellFormed(t, a) && WellFormed(t, b) && Share(t, a, b)
    ensures t.Dictionary? ==> a.body.dictionary == b.body.dictionary && NoDuplicates(a.body.dictionary)
    ensures t.List? || t.ListView? || t.FixedSizeList? || t.RunEndEncoded? ==> Share(t.elem, a.body.child, b.body.child)
    ensures t.Struct? ==>
              forall f :: 0 <= f < |t.fields| ==> Share(t.fields[f], a.body.children[f], b.body.children[f])
  {
    if |Fields(t)| > 0 && !t.Struct? {
      assert Share(Fields(t)[0], ChildAt(a, 0), ChildAt(b, 0));
    }
    if t.Struct? {
      forall f | 0 <= f < |t.fields| ensures Share(t.fields[f], a.body.children[f], b.body.children[f]) {
        assert Share(Fields(t)[f], ChildAt(a, f), ChildAt(b, f));
      }
    }
  }

  ghost predicate AllShare(t: DType, chunks: seq<Data>) {
    forall i, j :: 0 <= i < |chunks| && 0 <= j < |chunks| ==> Share(t, chunks[i], chunks[j])
  }

  /** The chunks are well-formed, stand for the same columns and share one dictionary at every level. */
  ghost predicate Unified(t: DType, chunks: seq<Data>, out: seq<Data>) {
    && |out| == |chunks| && AllWellFormed(t, out) && AllShare(t, out)
    && forall j {:trigger out[j]} :: 0 <= j < |out| ==> Decode(out[j]) == Decode(chunks[j])
  }

  /** The chunks stay well-formed only if the fronts agree, and then they are unified. */
  ghost predicate Outcome(t: DType, chunks: seq<Data>, out: seq<Data>) {
    && |out| == |chunks|
    && (AllWellFormed(t, out) ==> FrontsAgree(t, chunks))
    && (Small(t, chunks) && FrontsAgree(t, chunks) ==> Unified(t, chunks, out))
  }

  // ---------------------------------------------------------------------------------------------
  // Children with the same columns
  // ---------------------------------------------------------------------------------------------

  /** The arrays differ at most in their children. */
  ghost predicate SameShell(d: Data, e: Data) {
    && e.offset == d.offset && e.length == d.length && e.nulls == d.nulls && e.validity == d.validity
    && match d.body
       case ListBody(offsets, _) => e.body.ListBody? && e.body.offsets == offsets
       case ListViewBody(starts, sizes, _) => e.body.ListViewBody? && e.body.starts == starts && e.body.sizes == sizes
       case FixedSizeListBody(size, _) => e.body.FixedSizeListBody? && e.body.size == size
       case RunEndBody(runEnds, _) => e.body.RunEndBody? && e.body.runEnds == runEnds
       case StructBody(children) => e.body.StructBody? && |e.body.children| == |children|
       case _ => e.body == d.body
  }

  /** The arrays differ at most in their children, and the children stand for the same columns. */
  ghost predicate Like(d: Data, e: Data) {
    SameShell(d, e) && forall f :: HasChild(d, f) ==> Decode(ChildAt(e, f)) == Decode(ChildAt(d, f))
  }

  lemma {:induction false} LikeSlot(d: Data, e: Data, i: int)
    requires Like(d, e)
    ensures SameSlot(d, e, i)
  {
    if d.body.StructBody? {
      var n, p := |d.body.children|, d.offset + i;
      forall f | 0 <= f < n ensures FieldsAt(d.body.children, p, n)[f] == FieldsAt(e.body.children, p, n)[f] {
        assert HasChild(d, f);
        FieldAt(d.body.children, p, n, f);
        FieldAt(e.body.children, p, n, f);
      }
      assert FieldsAt(d.body.children, p, n) == FieldsAt(e.body.children, p, n);
    } else if HasChild(d, 0) {
      assert Decode(ChildAt(e, 0)) == Decode(ChildAt(d, 0));
    }
  }

  lemma {:induction false} LikeValidity(d: Data, e: Data)
    requires SameShell(d, e)
    ensures Validity(d) == Validity(e) && (NullsFit(d) ==> NullsFit(e))
  {
    forall i | 0 <= i < d.length ensures Validity(d)[i] == Validity(e)[i] { assert ValidBit(d, i) == ValidBit(e, i); }
  }

  lemma {:induction false} LikeDecodes(d: Data, e: Data)
    requires Like(d, e)
    ensures Decode(d) == Decode(e)
  {
    LikeValidity(d, e);
    forall i | 0 <= i < d.length && Validity(d)[i] ensures SameSlot(d, e, i) { LikeSlot(d, e, i); }
    SameColumn(d, e);
  }

  /** Well-formed children with the same columns keep an array well-formed. */
  lemma {:induction false} LikeWellFormed(t: DType, d: Data, e: Data)
    requires WellFormed(t, d) && Like(d, e) && !t.Dictionary?
    requires forall f :: 0 <= f < |Fields(t)| ==> WellFormed(Fields(t)[f], ChildAt(e, f))
    ensures WellFormed(t, e)
  {
    LikeValidity(d, e);
    forall f | HasChild(d, f) ensures ChildAt(e, f).length == ChildAt(d, f).length {
      assert |Decode(ChildAt(e, f))| == |Decode(ChildAt(d, f))|;
    }
    if t.Struct? {
      forall f | 0 <= f < |t.fields|
        ensures WellFormed(t.fields[f], e.body.children[f]) && e.body.children[f].length == d.body.children[f].length
      {
        assert HasChild(d, f) && HasChild(e, f) && WellFormed(Fields(t)[f], ChildAt(e, f));
      }
    } else if |Fields(t)| > 0 {
      assert HasChild(d, 0) && HasChild(e, 0) && WellFormed(Fields(t)[0], ChildAt(e, 0));
      if t.ListView? { LikeViewsFit(d, e, t.width); }
    }
  }

  lemma {:induction false} LikeViewsFit(d: Data, e: Data, width: Width)
    requires ListViewFits(d, width) && SameShell(d, e) && Validity(d) == Validity(e)
    requires e.body.child.length == d.body.child.length
    ensures ListViewFits(e, width)
  {
    forall i | 0 <= i < e.length && Validity(e)[i] ensures SlotFits(e, i, width) { assert SlotFits(d, i, width); }
  }

  // ---------------------------------------------------------------------------------------------
  // The dictionary level
  // ---------------------------------------------------------------------------------------------

  /** Sends every chunk's indices through its map, and fails on the first that cannot be read. */
  method TransposeAll(indexLimit: nat, chunks: seq<Data>, dict: seq<Value>, maps: seq<seq<int>>)
    returns (r: Result<seq<Data>>)
    requires AllWellFormed(Dictionary(indexLimit), chunks) && dict == UnifiedEntries(chunks)
    requires |maps| == |chunks| && AllMapInto(maps, DictionariesUpTo(chunks, |chunks|), dict)
    ensures r.Err? <==> exists j :: 0 <= j < |chunks| && ChunkUnreadable(chunks, j)
    ensures r.Ok? ==>
              |r.value| == |chunks| && forall k :: 0 <= k < |chunks| ==> ChunkSent(chunks, dict, maps, r.value, k)
  {
    var out := [];
    for j := 0 to |chunks|
      invariant |out| == j && forall k :: 0 <= k < j ==> ChunkSent(chunks, dict, maps, out, k)
      invariant forall k :: 0 <= k < j ==> !ChunkUnreadable(chunks, k)
    {
      var chunk := TransposeChunk(indexLimit, chunks, dict, maps, j);
      if chunk.Err? {
        return Err(chunk.error);
      }
      ghost var before := out;
      out := out + [chunk.value];
      forall k | 0 <= k <= j ensures ChunkSent(chunks, dict, maps, out, k) {
        if k < j { assert ChunkSent(chunks, dict, maps, before, k); }
      }
    }
    return Ok(out);
  }

  ghost predicate ChunkSent(chunks: seq<Data>, dict: seq<Value>, maps: seq<seq<int>>, out: seq<Data>, k: int)
    requires 0 <= k < |chunks| && k < |maps| && k < |out|
  {
    SentThrough(chunks[k], dict, maps[k], out[k])
  }

  method TransposeChunk(indexLimit: nat, chunks: seq<Data>, dict: seq<Value>, maps: seq<seq<int>>, j: nat)
    returns (r: Result<Data>)
    requires AllWellFormed(Dictionary(indexLimit), chunks) && dict == UnifiedEntries(chunks)
    requires j < |maps| == |chunks| && AllMapInto(maps, DictionariesUpTo(chunks, |chunks|), dict)
    ensures r.Err? <==> ChunkUnreadable(chunks, j)
    ensures r.Ok? ==> SentThrough(chunks[j], dict, maps[j], r.value)
  {
    assert IsWellFormed(Dictionary(indexLimit), chunks, j);
    OwnMap(chunks, maps, j);
    r := TransposeDictIndices(chunks[j], dict, maps[j]);
  }

  lemma {:induction false} OwnMap(chunks: seq<Data>, maps: seq<seq<int>>, j: nat)
    requires j < |chunks| == |maps| && AllMapInto(maps, DictionariesUpTo(chunks, |chunks|), UnifiedEntries(chunks))
    ensures |maps[j]| == |EntriesOf(chunks[j])| && (Identity(maps[j]) <==> Untouched(chunks, j))
  {
    var dicts := DictionariesUpTo(chunks, |chunks|);
    assert MapsInto(maps, dicts, UnifiedEntries(chunks), j) && dicts[j] == EntriesOf(chunks[j]);
  }

  lemma {:induction false} DictionaryOutcome(indexLimit: nat, chunks: seq<Data>, maps: seq<seq<int>>, out: seq<Data>)
    requires AllWellFormed(Dictionary(indexLimit), chunks) && |maps| == |chunks| == |out|
    requires AllMapInto(maps, DictionariesUpTo(chunks, |chunks|), UnifiedEntries(chunks))
    requires NoDuplicates(UnifiedEntries(chunks))
    requires forall k :: 0 <= k < |chunks| ==> ChunkSent(chunks, UnifiedEntries(chunks), maps, out, k)
    ensures Outcome(Dictionary(indexLimit), chunks, out)
  {
    var t := Dictionary(indexLimit);
    forall j | 0 <= j < |chunks|
      ensures IsWellFormed(t, out, j) ==> FrontAgrees(chunks[j]) || Untouched(chunks, j)
      ensures Small(t, chunks) && FrontsAgree(t, chunks) ==>
                IsWellFormed(t, out, j) && Decode(out[j]) == Decode(chunks[j])
    {
      OwnMap(chunks, maps, j);
      assert ChunkSent(chunks, UnifiedEntries(chunks), maps, out, j);
      if Small(t, chunks) { OwnMapSends(chunks, maps, j); }
    }
    forall i, j | 0 <= i < |out| && 0 <= j < |out| ensures Share(t, out[i], out[j]) {
      assert ChunkSent(chunks, UnifiedEntries(chunks), maps, out, i)
          && ChunkSent(chunks, UnifiedEntries(chunks), maps, out, j);
    }
  }

  lemma {:induction false} OwnMapSends(chunks: seq<Data>, maps: seq<seq<int>>, j: nat)
    requires j < |chunks| == |maps| && AllMapInto(maps, DictionariesUpTo(chunks, |chunks|), UnifiedEntries(chunks))
    requires |UnifiedEntries(chunks)| <= W32.Limit() + 1
    ensures Sends(maps[j], EntriesOf(chunks[j]), UnifiedEntries(chunks))
  {
    var dicts := DictionariesUpTo(chunks, |chunks|);
    assert MapsInto(maps, dicts, UnifiedEntries(chunks), j) && dicts[j] == EntriesOf(chunks[j]);
    MapSends(dicts[j], UnifiedEntries(chunks));
  }

  /** One dictionary for all chunks, and every chunk's indices sent through its map. */
  method UnifyDictionary(indexLimit: nat, chunks: seq<Data>) returns (r: Result<seq<Data>>)
    requires AllWellFormed(Dictionary(indexLimit), chunks)
    ensures r.Err? <==> Fails(Dictionary(indexLimit), chunks)
    ensures r.Ok? ==> Outcome(Dictionary(indexLimit), chunks, r.value)
  {
    var unified := UnifyDictionaries(DictionariesUpTo(chunks, |chunks|), indexLimit);
    if unified.Err? {
      return Err(unified.error);
    }
    r := TransposeAll(indexLimit, chunks, unified.value.1, unified.value.0);
    if r.Ok? { DictionaryOutcome(indexLimit, chunks, unified.value.0, r.value); }
  }

  // ---------------------------------------------------------------------------------------------
  // All levels
  // ---------------------------------------------------------------------------------------------

  /** The children up to f are done, and the later ones are as they were. */
  ghost predicate Progress(t: DType, chunks: seq<Data>, out: seq<Data>, f: int)
    requires |out| == |chunks| && 0 <= f <= |Fields(t)|
  {
    && (forall j :: 0 <= j < |out| ==> SameShell(chunks[j], out[j]))
    && (forall k :: 0 <= k < f ==> Outcome(Fields(t)[k], Children(chunks, k), Children(out, k)))
    && (forall k :: f <= k < |Fields(t)| ==> Children(out, k) == Children(chunks, k))
  }

  ghost predicate AllHave(chunks: seq<Data>, f: int) {
    forall j :: 0 <= j < |chunks| ==> HasChild(chunks[j], f)
  }

  /** Puts the unified children f into the chunks. */
  method PutChildren(chunks: seq<Data>, out: seq<Data>, f: int, children: seq<Data>) returns (put: seq<Data>)
    requires |out| == |chunks| == |children|
    requires forall j :: 0 <= j < |out| ==> SameShell(chunks[j], out[j]) && HasChild(out[j], f)
    ensures |put| == |out| && forall j :: 0 <= j < |out| ==> SameShell(chunks[j], put[j])
    ensures Children(put, f) == children && forall k :: k != f && AllHave(out, k) ==>
              Children(put, k) == Children(out, k)
  {
    put := out;
    for j := 0 to |out|
      invariant |put| == |out|
      invariant forall k {:trigger put[k]} :: 0 <= k < j ==> put[k] == WithChild(out[k], f, children[k])
      invariant forall k {:trigger put[k]} :: j <= k < |out| ==> put[k] == out[k]
    {
      put := put[j := WithChild(put[j], f, children[j])];
    }
    forall j | 0 <= j < |out|
      ensures SameShell(chunks[j], put[j])
    {
      assert put[j] == WithChild(out[j], f, children[j]);
    }
    assert AllHave(out, f);
    forall k | AllHave(out, k) ensures Children(put, k) == if k == f then children else Children(out, k) {
      forall j | 0 <= j < |out| ensures ChildAt(put[j], k) == if k == f then children[j] else ChildAt(out[j], k) {
        assert put[j] == WithChild(out[j], f, children[j]);
      }
    }
  }

  lemma {:induction false} UnifiedChunk(t: DType, chunks: seq<Data>, out: seq<Data>, j: nat)
    requires |out| == |chunks| && Progress(t, chunks, out, |Fields(t)|) && !t.Dictionary? && AllWellFormed(t, chunks)
    requires j < |out|
    requires forall k :: 0 <= k < |Fields(t)| ==> Unified(Fields(t)[k], Children(chunks, k), Children(out, k))
    ensures IsWellFormed(t, out, j) && Decode(out[j]) == Decode(chunks[j])
  {
    var d, e := chunks[j], out[j];
    assert IsWellFormed(t, chunks, j);
    forall f | 0 <= f < |Fields(t)|
      ensures WellFormed(Fields(t)[f], ChildAt(e, f)) && Decode(ChildAt(e, f)) == Decode(ChildAt(d, f))
    {
      assert IsWellFormed(Fields(t)[f], Children(out, f), j) && Children(out, f)[j] == ChildAt(e, f)
          && Children(chunks, f)[j] == ChildAt(d, f);
    }
    forall f | HasChild(d, f) ensures 0 <= f < |Fields(t)| {}
    LikeDecodes(d, e);
    LikeWellFormed(t, d, e);
  }

  lemma {:induction false} ProgressOutcome(t: DType, chunks: seq<Data>, out: seq<Data>)
    requires |out| == |chunks| && Progress(t, chunks, out, |Fields(t)|) && !t.Dictionary? && AllWellFormed(t, chunks)
    ensures Outcome(t, chunks, out)
  {
    if AllWellFormed(t, out) {
      forall f | 0 <= f < |Fields(t)| ensures ChildFrontsAgree(t, chunks, f) { WellFormedChildren(t, out, f); }
    }
    if Small(t, chunks) && FrontsAgree(t, chunks) {
      forall k | 0 <= k < |Fields(t)| ensures Unified(Fields(t)[k], Children(chunks, k), Children(out, k)) {
        assert ChildSmall(t, chunks, k) && ChildFrontsAgree(t, chunks, k);
      }
      forall j | 0 <= j < |out|
        ensures IsWellFormed(t, out, j) && Decode(out[j]) == Decode(chunks[j])
      {
        UnifiedChunk(t, chunks, out, j);
      }
      forall i, j | 0 <= i < |out| && 0 <= j < |out| ensures Share(t, out[i], out[j]) {
        forall f | 0 <= f < |Fields(t)| ensures Share(Fields(t)[f], ChildAt(out[i], f), ChildAt(out[j], f)) {
          assert AllShare(Fields(t)[f], Children(out, f)) && Children(out, f)[i] == ChildAt(out[i], f)
              && Children(out, f)[j] == ChildAt(out[j], f);
        }
      }
    }
  }

  /**
   Unifies the dictionaries below and at this type. It fails exactly when a unified dictionary is too long for its index
   type or a chunk cannot be read through its map. Otherwise, if the dictionaries can be counted in 32 bits, every chunk
   stays well-formed, keeps its column and shares one dictionary with the others at every level, exactly when the fronts
   of the bitmaps agree.
   */
  method UnifyRecursive(t: DType, chunks: seq<Data>) returns (r: Result<seq<Data>>)
    requires AllWellFormed(t, chunks)
    ensures r.Err? <==> Fails(t, chunks)
    ensures r.Ok? ==> Outcome(t, chunks, r.value)
    ensures r.Ok? && Small(t, chunks) ==> (Unified(t, chunks, r.value) <==> FrontsAgree(t, chunks))
    decreases t, 2
  {
    if t.Dictionary? {
      r := UnifyDictionary(t.indexLimit, chunks);
    } else {
      r := UnifyChildren(t, chunks);
    }
  }

  /** Unifies all children of the chunks, one after the other. */
  method UnifyChildren(t: DType, chunks: seq<Data>) returns (r: Result<seq<Data>>)
    requires AllWellFormed(t, chunks) && !t.Dictionary?
    ensures r.Err? <==> Fails(t, chunks)
    ensures r.Ok? ==> Outcome(t, chunks, r.value)
    decreases t, 1
  {
    var out := chunks;
    for f := 0 to |Fields(t)|
      invariant |out| == |chunks| && Progress(t, chunks, out, f)
      invariant forall k :: 0 <= k < f ==> !ChildFails(t, chunks, k)
    {
      var put := UnifyChild(t, chunks, out, f);
      if put.Err? {
        return put;
      }
      out := put.value;
    }
    ProgressOutcome(t, chunks, out);
    return Ok(out);
  }

  /** Unifies child f of all chunks and puts the results in place. */
  method UnifyChild(t: DType, chunks: seq<Data>, out: seq<Data>, f: nat) returns (r: Result<seq<Data>>)
    requires AllWellFormed(t, chunks) && f < |Fields(t)| && |out| == |chunks| && Progress(t, chunks, out, f)
    ensures r.Err? <==> ChildFails(t, chunks, f)
    ensures r.Ok? ==> |r.value| == |chunks| && Progress(t, chunks, r.value, f + 1)
    decreases t, 0
  {
    WellFormedChildren(t, chunks, f);
    var unified := UnifyRecursive(Fields(t)[f], Children(out, f));
    if unified.Err? {
      return unified;
    }
    forall k | 0 <= k < |Fields(t)| ensures AllHave(out, k) {
      WellFormedChildren(t, chunks, k);
      forall j | 0 <= j < |out| ensures HasChild(out[j], k) { assert SameShell(chunks[j], out[j]); }
    }
    assert AllHave(out, f);
    var put := PutChildren(chunks, out, f, unified.value);
    return Ok(put);
  }
}

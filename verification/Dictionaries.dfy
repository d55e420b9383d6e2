/** Dictionary unification: one duplicate-free dictionary for many, and maps that stay right as it grows. */
module Dictionaries {
  import opened Basics
  import opened Layout
  import opened Offsets

  // ---------------------------------------------------------------------------------------------
  // The memo table
  // ---------------------------------------------------------------------------------------------

  /** Where a value stands among the first n entries, or n. */
  function FindAmong(table: seq<Value>, v: Value, n: nat): (i: nat)
    requires n <= |table|
    ensures i <= n && (i < n ==> table[i] == v)
  {
    if n == 0 then 0
    else
      var i := FindAmong(table, v, n - 1);
      if i < n - 1 || table[n - 1] == v then i else n
  }

  lemma {:induction false} FindAmongMisses(table: seq<Value>, v: Value, n: nat)
    requires n <= |table| && FindAmong(table, v, n) == n
    ensures forall i :: 0 <= i < n ==> table[i] != v
  {
    if n > 0 { FindAmongMisses(table, v, n - 1); }
  }

  ghost predicate NoDuplicates(table: seq<Value>) {
    forall i, j :: 0 <= i < j < |table| ==> table[i] != table[j]
  }

  /** The table after asking for v: unchanged if v is known, else v is added at the end. */
  function Remember(table: seq<Value>, v: Value): seq<Value> {
    if FindAmong(table, v, |table|) < |table| then table else table + [v]
  }

  lemma {:induction false} RememberKeeps(table: seq<Value>, v: Value)
    requires NoDuplicates(table)
    ensures NoDuplicates(Remember(table, v)) && table <= Remember(table, v)
    ensures FindAmong(table, v, |table|) < |Remember(table, v)|
    ensures Remember(table, v)[FindAmong(table, v, |table|)] == v
  {
    if FindAmong(table, v, |table|) == |table| { FindAmongMisses(table, v, |table|); }
  }

  /** The table after the first n entries of a dictionary. */
  ghost function RememberUpTo(table: seq<Value>, dict: seq<Value>, n: nat): seq<Value>
    requires n <= |dict|
  {
    if n == 0 then table else Remember(RememberUpTo(table, dict, n - 1), dict[n - 1])
  }

  ghost function RememberAll(table: seq<Value>, dict: seq<Value>): seq<Value> {
    RememberUpTo(table, dict, |dict|)
  }

  lemma {:induction false} RememberUpToKeeps(table: seq<Value>, dict: seq<Value>, n: nat)
    requires n <= |dict| && NoDuplicates(table)
    ensures NoDuplicates(RememberUpTo(table, dict, n)) && table <= RememberUpTo(table, dict, n)
    ensures forall v :: v in RememberUpTo(table, dict, n) ==> v in table || v in dict
  {
    if n > 0 {
      RememberUpToKeeps(table, dict, n - 1);
      RememberKeeps(RememberUpTo(table, dict, n - 1), dict[n - 1]);
    }
  }

  /** `transpose` sends every entry of `dict` to an equal entry of `table`. */
  ghost predicate Sends(transpose: seq<int>, dict: seq<Value>, table: seq<Value>) {
    && |transpose| == |dict|
    && forall i :: 0 <= i < |dict| ==> 0 <= transpose[i] < |table| && table[transpose[i]] == dict[i]
  }

  /** The entries of a dictionary that are in the table before position n. */
  ghost predicate Known(table: seq<Value>, dict: seq<Value>, n: nat)
    requires n <= |dict|
  {
    forall i :: 0 <= i < n ==> FindAmong(table, dict[i], |table|) < |table|
  }

  /** Where the first n entries of a dictionary stand in a table, as 32-bit numbers. */
  ghost function MapUpTo(dict: seq<Value>, table: seq<Value>, n: nat): (m: seq<int>)
    requires n <= |dict|
    ensures |m| == n && forall i {:trigger m[i]} :: 0 <= i < n ==> m[i] == W32.Wrap(FindAmong(table, dict[i], |table|))
  {
    if n == 0 then [] else MapUpTo(dict, table, n - 1) + [W32.Wrap(FindAmong(table, dict[n - 1], |table|))]
  }

  ghost function MapInto(dict: seq<Value>, table: seq<Value>): seq<int> {
    MapUpTo(dict, table, |dict|)
  }

  lemma {:induction false} FindStable(table: seq<Value>, larger: seq<Value>, v: Value, n: nat)
    requires table <= larger && |table| <= n <= |larger| && FindAmong(table, v, |table|) < |table|
    ensures FindAmong(larger, v, n) == FindAmong(table, v, |table|)
  {
    if n == |table| { FindPrefix(table, larger, v, n); } else { FindStable(table, larger, v, n - 1); }
  }

  lemma {:induction false} FindPrefix(table: seq<Value>, larger: seq<Value>, v: Value, n: nat)
    requires table <= larger && n <= |table|
    ensures FindAmong(larger, v, n) == FindAmong(table, v, n)
  {
    if n > 0 { FindPrefix(table, larger, v, n - 1); }
  }

  /** Maps made early stay right: entries are only ever added behind. */
  lemma {:induction false} MapStable(dict: seq<Value>, table: seq<Value>, larger: seq<Value>, n: nat)
    requires n <= |dict| && table <= larger && Known(table, dict, n)
    ensures Known(larger, dict, n) && MapUpTo(dict, larger, n) == MapUpTo(dict, table, n)
  {
    forall i | 0 <= i < n ensures FindAmong(larger, dict[i], |larger|) == FindAmong(table, dict[i], |table|) {
      FindStable(table, larger, dict[i], |larger|);
    }
  }

  /** The map sends every entry to an equal one, as long as the table can be counted in 32 bits. */
  lemma {:induction false} MapSends(dict: seq<Value>, table: seq<Value>)
    requires Known(table, dict, |dict|) && |table| <= W32.Limit() + 1
    ensures Sends(MapInto(dict, table), dict, table)
  {}

  /** The map is the identity exactly when the dictionary is the front of the table. */
  lemma {:induction false} IdentityIffPrefix(dict: seq<Value>, table: seq<Value>)
    requires Known(table, dict, |dict|) && NoDuplicates(table) && |table| <= W32.Limit() + 1
    requires |dict| <= W32.Limit() + 1
    ensures Identity(MapInto(dict, table)) <==> dict <= table
  {
    var m := MapInto(dict, table);
    if Identity(m) {
      forall i | 0 <= i < |dict| ensures i < |table| && table[i] == dict[i] { assert m[i] == W32.Wrap(i) == i; }
    }
    if dict <= table {
      forall i | 0 <= i < |m| ensures m[i] == W32.Wrap(i) {
        assert table[FindAmong(table, dict[i], |table|)] == dict[i] == table[i];
      }
    }
  }

  ghost predicate Identity(transpose: seq<int>) {
    forall i :: 0 <= i < |transpose| ==> transpose[i] == W32.Wrap(i)
  }

  // ---------------------------------------------------------------------------------------------
  // The unifier
  // ---------------------------------------------------------------------------------------------

  /** The largest values of the signed index types. */
  predicate IsSignedLimit(l: int) {
    l == 0x7F || l == W16.Limit() || l == W32.Limit() || l == W64.Limit()
  }

  /** Those of 8, 16, 32 and 64 bits. */
  lemma {:induction false} SignedLimits(l: int)
    ensures IsSignedLimit(l) <==> l == TwoTo(7) - 1 || l == TwoTo(15) - 1 || l == TwoTo(31) - 1 || l == TwoTo(63) - 1
  {
    Powers();
    assert TwoTo(7) == 128;
  }

  class Unifier {
    var memoTable: seq<Value>

    ghost predicate Valid()
      reads this
    {
      NoDuplicates(memoTable)
    }

    constructor ()
      ensures Valid() && memoTable == []
    {
      memoTable := [];
    }

    /** Looks a value (or null) up, adding it when it is new. */
    method GetOrInsert(v: Value) returns (index: nat)
      requires Valid()
      modifies this
      ensures Valid() && memoTable == Remember(old(memoTable), v)
      ensures index == FindAmong(memoTable, v, |memoTable|) < |memoTable| && old(memoTable) <= memoTable
    {
      RememberKeeps(memoTable, v);
      FindPrefix(memoTable, memoTable + [v], v, |memoTable|);
      index := FindAmong(memoTable, v, |memoTable|);
      if index == |memoTable| { memoTable := memoTable + [v]; }
    }

    /** Adds a dictionary. */
    method Unify(dict: seq<Value>)
      requires Valid()
      modifies this
      ensures Valid() && memoTable == RememberAll(old(memoTable), dict)
    {
      for i := 0 to |dict|
        invariant Valid() && memoTable == RememberUpTo(old(memoTable), dict, i)
      {
        var _ := GetOrInsert(dict[i]);
      }
    }

    /** Adds a dictionary and returns where each of its entries went; map entries are 32-bit. */
    method UnifyAndTranspose(dict: seq<Value>) returns (transpose: seq<int>)
      requires Valid()
      modifies this
      ensures Valid() && old(memoTable) <= memoTable && memoTable == RememberAll(old(memoTable), dict)
      ensures Known(memoTable, dict, |dict|) && transpose == MapInto(dict, memoTable)
    {
      transpose := [];
      for i := 0 to |dict|
        invariant Valid() && memoTable == RememberUpTo(old(memoTable), dict, i) && old(memoTable) <= memoTable
        invariant Known(memoTable, dict, i) && transpose == MapUpTo(dict, memoTable, i)
      {
        ghost var before := memoTable;
        var index := GetOrInsert(dict[i]);
        MapStable(dict, before, memoTable, i);
        transpose := transpose + [W32.Wrap(index)];
      }
    }

    /** Hands out the unified dictionary and starts over, unless it is too long for the index type. */
    method GetResultWithIndexType(indexLimit: nat) returns (r: Result<seq<Value>>)
      requires Valid()
      modifies this
      ensures Valid()
      ensures r.Err? <==> |old(memoTable)| > indexLimit
      ensures r.Ok? ==> r.value == old(memoTable) && memoTable == []
      ensures r.Err? ==> memoTable == old(memoTable)
    {
      var dictLen := |memoTable|;
      if dictLen > indexLimit {
        return Err(DictionaryTooLarge);
      }
      r := Ok(memoTable);
      memoTable := [];
    }

    /** Hands out the unified dictionary with the smallest signed index limit that counts its entries. */
    method GetResult() returns (indexLimit: int, dict: seq<Value>)
      requires Valid() && |memoTable| <= W64.Limit()
      modifies this
      ensures Valid() && dict == old(memoTable) && memoTable == []
      ensures IsSignedLimit(indexLimit) && |dict| <= indexLimit
      ensures forall l :: IsSignedLimit(l) && |dict| <= l ==> indexLimit <= l
    {
      var dictLen := |memoTable|;
      if dictLen <= 0x7F { indexLimit := 0x7F; }
      else if dictLen <= W16.Limit() { indexLimit := W16.Limit(); }
      else if dictLen <= W32.Limit() { indexLimit := W32.Limit(); }
      else { indexLimit := W64.Limit(); }
      dict := memoTable;
      memoTable := [];
    }
  }

  // ---------------------------------------------------------------------------------------------
  // Many dictionaries
  // ---------------------------------------------------------------------------------------------

  /** The table after the first n dictionaries. */
  ghost function TableAfter(dicts: seq<seq<Value>>, n: nat): seq<Value>
    requires n <= |dicts|
  {
    if n == 0 then [] else RememberAll(TableAfter(dicts, n - 1), dicts[n - 1])
  }

  lemma {:induction false} TableAfterKeeps(dicts: seq<seq<Value>>, n: nat)
    requires n <= |dicts|
    ensures NoDuplicates(TableAfter(dicts, n))
    ensures forall v :: v in TableAfter(dicts, n) ==> exists k :: 0 <= k < n && v in dicts[k]
  {
    if n > 0 {
      TableAfterKeeps(dicts, n - 1);
      RememberUpToKeeps(TableAfter(dicts, n - 1), dicts[n - 1], |dicts[n - 1]|);
    }
  }

  /** Every dictionary unified so far is in the table. */
  lemma {:induction false} TableKnows(dicts: seq<seq<Value>>, n: nat, k: nat)
    requires k < n <= |dicts|
    ensures Known(TableAfter(dicts, n), dicts[k], |dicts[k]|)
  {
    var table, last := TableAfter(dicts, n - 1), dicts[n - 1];
    TableAfterKeeps(dicts, n - 1);
    RememberUpToKeeps(table, last, |last|);
    if k < n - 1 {
      TableKnows(dicts, n - 1, k);
      MapStable(dicts[k], table, TableAfter(dicts, n), |dicts[k]|);
    } else {
      RememberKnows(table, last, |last|);
    }
  }

  lemma {:induction false} RememberKnows(table: seq<Value>, dict: seq<Value>, n: nat)
    requires n <= |dict| && NoDuplicates(table)
    ensures Known(RememberUpTo(table, dict, n), dict, n)
  {
    if n > 0 {
      var before := RememberUpTo(table, dict, n - 1);
      RememberKnows(table, dict, n - 1);
      RememberUpToKeeps(table, dict, n - 1);
      KnowsOneMore(before, dict, n - 1);
    }
  }

  lemma {:induction false} KnowsOneMore(table: seq<Value>, dict: seq<Value>, n: nat)
    requires n < |dict| && NoDuplicates(table) && Known(table, dict, n)
    ensures Known(Remember(table, dict[n]), dict, n + 1)
  {
    RememberKeeps(table, dict[n]);
    MapStable(dict, table, Remember(table, dict[n]), n);
    FindPrefix(table, table + [dict[n]], dict[n], |table|);
  }

  /** Dictionary k is in the table, and its map leads there. */
  ghost predicate MapsInto(maps: seq<seq<int>>, dicts: seq<seq<Value>>, table: seq<Value>, k: int)
    requires 0 <= k < |maps| <= |dicts|
  {
    Known(table, dicts[k], |dicts[k]|) && maps[k] == MapInto(dicts[k], table)
  }

  ghost predicate AllMapInto(maps: seq<seq<int>>, dicts: seq<seq<Value>>, table: seq<Value>) {
    |maps| <= |dicts| && forall k :: 0 <= k < |maps| ==> MapsInto(maps, dicts, table, k)
  }

  /**
   Unifies all dictionaries: every map, however early it was made, sends its dictionary's entries to equal
   entries of the one duplicate-free result. It fails exactly when the result is too long for the index type.
   */
  method UnifyDictionaries(dicts: seq<seq<Value>>, indexLimit: nat) returns (r: Result<(seq<seq<int>>, seq<Value>)>)
    ensures r.Err? <==> |TableAfter(dicts, |dicts|)| > indexLimit
    ensures r.Ok? ==> r.value.1 == TableAfter(dicts, |dicts|) && NoDuplicates(r.value.1)
    ensures r.Ok? ==> |r.value.0| == |dicts| && AllMapInto(r.value.0, dicts, r.value.1)
    ensures r.Ok? && |r.value.1| <= W32.Limit() + 1 ==>
              forall k :: 0 <= k < |dicts| ==> Sends(r.value.0[k], dicts[k], r.value.1)
  {
    var u := new Unifier();
    var maps := [];
    for i := 0 to |dicts|
      invariant u.Valid() && u.memoTable == TableAfter(dicts, i) && |maps| == i && AllMapInto(maps, dicts, u.memoTable)
    {
      ghost var before, earlier := u.memoTable, maps;
      var transpose := u.UnifyAndTranspose(dicts[i]);
      maps := maps + [transpose];
      forall k | 0 <= k < |maps| ensures MapsInto(maps, dicts, u.memoTable, k) {
        if k < i {
          assert MapsInto(earlier, dicts, before, k);
          MapStable(dicts[k], before, u.memoTable, |dicts[k]|);
        }
      }
    }
    TableAfterKeeps(dicts, |dicts|);
    var dict := u.GetResultWithIndexType(indexLimit);
    if dict.Err? {
      return Err(dict.error);
    }
    if |dict.value| <= W32.Limit() + 1 {
      forall k | 0 <= k < |dicts| ensures Sends(maps[k], dicts[k], dict.value) {
        assert MapsInto(maps, dicts, dict.value, k);
        MapSends(dicts[k], dict.value);
      }
    }
    return Ok((maps, dict.value));
  }

  // ---------------------------------------------------------------------------------------------
  // Transposing indices
  // ---------------------------------------------------------------------------------------------

  /** Window slot i is no entry of a map with n entries. */
  ghost predicate OutOfRange(d: Data, n: nat, i: int)
    requires d.body.DictionaryBody?
  {
    !(0 <= Pick(Held(d.body.indices), d.offset + i, 0) < n)
  }

  /**
   Sending the indices through a map of n entries reads what is not there: the index buffer is missing, a bitmap to
   be shifted is, or a slot of the window, null or not, is no entry of the map.
   */
  ghost predicate Unreadable(d: Data, n: nat)
    requires d.body.DictionaryBody?
  {
    d.body.indices.None? || (d.offset != 0 && d.nulls != 0 && d.validity.None?)
        || exists i :: 0 <= i < d.length && OutOfRange(d, n, i)
  }

  method IsTrivialTransposition(transpose: seq<int>) returns (trivial: bool)
    ensures trivial <==> Identity(transpose)
  {
    for i := 0 to |transpose|
      invariant forall k :: 0 <= k < i ==> transpose[k] == W32.Wrap(k)
    {
      if transpose[i] != W32.Wrap(i) { return false; }
    }
    return true;
  }

  /** The bitmap can be used unshifted: there is no shift, it is shifted, or there is none, or its front is all set. */
  ghost predicate FrontAgrees(d: Data) {
    || d.offset == 0 || d.nulls != 0 || d.validity.None?
    || (d.length <= |d.validity.value| && forall i :: 0 <= i < d.length ==> d.validity.value[i])
  }

  /** The window's indices sent through a map; it fails on a slot that is no entry of the map. */
  method TransposeInts(d: Data, transpose: seq<int>) returns (r: Result<seq<int>>)
    requires d.body.DictionaryBody? && d.body.indices.Some? && IndicesCover(d)
    ensures r.Err? <==> exists i :: 0 <= i < d.length && OutOfRange(d, |transpose|, i)
    ensures r.Ok? ==> |r.value| == d.length
    ensures r.Ok? ==>
              forall i :: 0 <= i < d.length ==> r.value[i] == Pick(transpose, d.body.indices.value[d.offset + i], 0)
  {
    var outBuf := [];
    for i := 0 to d.length
      invariant |outBuf| == i && forall k :: 0 <= k < i ==> !OutOfRange(d, |transpose|, k)
      invariant forall k :: 0 <= k < i ==> outBuf[k] == Pick(transpose, d.body.indices.value[d.offset + k], 0)
    {
      var index := d.body.indices.value[d.offset + i];
      if index < 0 || index >= |transpose| {
        assert OutOfRange(d, |transpose|, i);
        return Err(IndexOutOfRange);
      }
      outBuf := outBuf + [transpose[index]];
    }
    return Ok(outBuf);
  }

  /** What is promised of an array whose indices were sent through a map. */
  ghost predicate SentThrough(d: Data, dict: seq<Value>, transpose: seq<int>, out: Data) {
    && d.body.DictionaryBody? && out.body.DictionaryBody? && out.body.dictionary == dict && out.length == d.length
    && (Validity(out) == Validity(d) <==> FrontAgrees(d) || Identity(transpose))
    && (NullsFit(out) <==> FrontAgrees(d) || Identity(transpose))
    && (Sends(transpose, d.body.dictionary, dict) && |transpose| <= W32.Limit() + 1
        && (FrontAgrees(d) || Identity(transpose)) ==>
          Decode(out) == Decode(d) && DictionaryFits(out))
  }

  /**
   Replaces an array's dictionary and sends its indices through the map. With an identity map the buffers are kept, and
   nothing can fail; otherwise it fails exactly on unreadable input. The slots keep their validity, and the null count
   is right, exactly when the map is the identity or the bitmap's front agrees; then the column is unchanged.
   */
  method TransposeDictIndices(d: Data, dict: seq<Value>, transpose: seq<int>) returns (r: Result<Data>)
    requires DictionaryFits(d) && NullsFit(d) && |transpose| == |d.body.dictionary|
    ensures r.Err? <==> !Identity(transpose) && Unreadable(d, |transpose|)
    ensures r.Ok? ==> SentThrough(d, dict, transpose, r.value)
  {
    var trivial := IsTrivialTransposition(transpose);
    if trivial {
      var same := d.(body := DictionaryBody(d.body.indices, dict));
      SameBuffers(d, same, transpose);
      return Ok(same);
    }
    var nullBitmap := d.validity;
    if d.offset != 0 && d.nulls != 0 {
      if d.validity.None? {
        return Err(MissingBitmap);
      }
      nullBitmap := Some(d.validity.value[d.offset..d.offset + d.length]);
    }
    if d.body.indices.None? {
      return Err(MissingIndices);
    }
    var outBuf := TransposeInts(d, transpose);
    if outBuf.Err? {
      return Err(outBuf.error);
    }
    var out := Data(0, d.length, d.nulls, nullBitmap, DictionaryBody(Some(outBuf.value), dict));
    TransposedValidity(d, out);
    if FrontAgrees(d) && Sends(transpose, d.body.dictionary, dict) { TransposedSlots(d, out, transpose); }
    return Ok(out);
  }

  lemma {:induction false} SameBuffers(d: Data, same: Data, transpose: seq<int>)
    requires DictionaryFits(d) && NullsFit(d) && |transpose| == |d.body.dictionary| && Identity(transpose)
    requires same.body.DictionaryBody? && same == d.(body := DictionaryBody(d.body.indices, same.body.dictionary))
    ensures SentThrough(d, same.body.dictionary, transpose, same)
  {
    assert forall i :: 0 <= i < d.length ==> ValidBit(same, i) == ValidBit(d, i);
    assert Validity(same) == Validity(d);
    if Sends(transpose, d.body.dictionary, same.body.dictionary) && |transpose| <= W32.Limit() + 1 {
      forall i | 0 <= i < d.length && Validity(d)[i] ensures Follows(d, same, transpose, i) {
        assert 0 <= d.body.indices.value[d.offset + i] < |transpose|;
      }
      TransposedSlots(d, same, transpose);
    }
  }

  lemma {:induction false} TransposedValidity(d: Data, out: Data)
    requires NullsFit(d) && out.offset == 0 && out.length == d.length && out.nulls == d.nulls
    requires d.offset != 0 && d.nulls != 0 ==>
               d.validity.Some? && out.validity == Some(d.validity.value[d.offset..d.offset + d.length])
    requires d.offset == 0 || d.nulls == 0 ==> out.validity == d.validity
    ensures Validity(out) == Validity(d) <==> FrontAgrees(d)
    ensures NullsFit(out) <==> FrontAgrees(d)
  {
    CountNullsZero(Validity(d));
    CountNullsZero(Validity(out));
    if d.offset != 0 && d.nulls != 0 {
      assert forall i :: 0 <= i < d.length ==> ValidBit(out, i) == ValidBit(d, i);
    } else if d.offset != 0 && d.validity.Some? {
      assert forall i :: 0 <= i < d.length ==> Validity(d)[i];
      assert forall i :: 0 <= i < d.length ==> Validity(out)[i] == d.validity.value[i];
    } else {
      assert forall i :: 0 <= i < d.length ==> ValidBit(out, i) == ValidBit(d, i);
    }
  }

  /** Valid slots sent through the map find the same values. */
  lemma {:induction false} TransposedSlots(d: Data, out: Data, transpose: seq<int>)
    requires DictionaryFits(d) && out.body.DictionaryBody? && Sends(transpose, d.body.dictionary, out.body.dictionary)
    requires out.length == d.length && IndicesCover(out) && Validity(out) == Validity(d)
    requires forall i :: 0 <= i < d.length && Validity(d)[i] ==> Follows(d, out, transpose, i)
    ensures Decode(out) == Decode(d) && DictionaryFits(out)
  {
    forall i | 0 <= i < d.length && Validity(out)[i]
      ensures SameSlot(out, d, i) && 0 <= out.body.indices.value[out.offset + i] < |out.body.dictionary|
    {
      assert Follows(d, out, transpose, i) && 0 <= d.body.indices.value[d.offset + i] < |d.body.dictionary|;
    }
    SameColumn(out, d);
  }

  ghost predicate Follows(d: Data, out: Data, transpose: seq<int>, i: int)
    requires 0 <= i < d.length == out.length && d.body.DictionaryBody? && out.body.DictionaryBody? && IndicesCover(d)
    requires IndicesCover(out)
  {
    out.body.indices.value[out.offset + i] == Pick(transpose, d.body.indices.value[d.offset + i], 0)
  }

  /** Without that agreement a valid slot can turn null: a bitmap with a cleared bit in front of the window. */
  lemma {:induction false} UnshiftedBitmapMisreads()
    ensures var d := Data(1, 1, 0, Some([false, true]), DictionaryBody(Some([0, 0]), [Number(7)]));
            && DictionaryFits(d) && NullsFit(d) && !FrontAgrees(d) && Decode(d) == [Number(7)]
            && Decode(Data(0, 1, 0, d.validity, DictionaryBody(Some([1]), [Number(8), Number(7)]))) == [Null]
  {
    var d := Data(1, 1, 0, Some([false, true]), DictionaryBody(Some([0, 0]), [Number(7)]));
    var out := Data(0, 1, 0, d.validity, DictionaryBody(Some([1]), [Number(8), Number(7)]));
    assert ValidBit(d, 0) && !ValidBit(out, 0);
    assert Validity(d)[0] && !Validity(out)[0];
    CountNullsZero(Validity(d));
    assert Decode(d)[0] == SlotValue(d, 0) && Decode(out)[0] == SlotValue(out, 0);
  }

  /**
   A null slot with an index behind the dictionary is a legal array that a map other than the identity cannot read.
   */
  lemma {:induction false} NullSlotUnreadable()
    ensures var d := Data(0, 2, 1, Some([false, true]), DictionaryBody(Some([5, 0]), [Number(7)]));
            DictionaryFits(d) && NullsFit(d) && Decode(d) == [Null, Number(7)] && !Identity([1]) && Unreadable(d, 1)
  {
    var d := Data(0, 2, 1, Some([false, true]), DictionaryBody(Some([5, 0]), [Number(7)]));
    assert Validity(d)[0] == ValidBit(d, 0) == false && Validity(d)[1] == ValidBit(d, 1) == true;
    assert NullsAmong(Validity(d), 0) == 0 && NullsAmong(Validity(d), 1) == 1 && NullsAmong(Validity(d), 2) == 1;
    assert Decode(d)[0] == SlotValue(d, 0) && Decode(d)[1] == SlotValue(d, 1);
    assert OutOfRange(d, 1, 0) && [1][0] == 1;
  }

  /** An all-null array over an empty dictionary has an identity map, whatever its index slots hold. */
  lemma {:induction false} AllNullReadable()
    ensures var d := Data(0, 1, 1, Some([false]), DictionaryBody(Some([0]), []));
            DictionaryFits(d) && NullsFit(d) && Unreadable(d, 0) && Identity([])
  {
    var d := Data(0, 1, 1, Some([false]), DictionaryBody(Some([0]), []));
    assert Validity(d)[0] == ValidBit(d, 0) == false;
    assert NullsAmong(Validity(d), 0) == 0 && NullsAmong(Validity(d), 1) == 1;
    assert OutOfRange(d, 0, 0);
  }
}

/** Concatenation of dictionary-encoded arrays: one dictionary for all, indices kept or sent through its maps. */
module ConcatDictionaries {
  import opened Basics
  import opened Sequences
  import opened Layout
  import opened Slots
  import opened Offsets
  import opened Dictionaries
  import opened ConcatKinds

  ghost predicate AllDictionaries(data: seq<Data>) {
    forall i :: 0 <= i < |data| ==> IsDictionary(data, i)
  }

  ghost predicate IsDictionary(data: seq<Data>, i: int)
    requires 0 <= i < |data|
  {
    DictionaryFits(data[i]) && NullsFit(data[i])
  }

  function EntriesOf(d: Data): seq<Value> {
    if d.body.DictionaryBody? then d.body.dictionary else []
  }

  /** The dictionaries of the first n inputs. */
  function DictionariesUpTo(data: seq<Data>, n: nat): (dicts: seq<seq<Value>>)
    requires n <= |data|
    ensures |dicts| == n && forall i {:trigger dicts[i]} :: 0 <= i < n ==> dicts[i] == EntriesOf(data[i])
  {
    if n == 0 then [] else DictionariesUpTo(data, n - 1) + [EntriesOf(data[n - 1])]
  }

  /** All inputs have the first one's dictionary. */
  ghost predicate OneDictionary(dicts: seq<seq<Value>>) {
    forall i :: 0 <= i < |dicts| ==> dicts[i] == dicts[0]
  }

  method DictsSame(dicts: seq<seq<Value>>) returns (same: bool)
    ensures same <==> OneDictionary(dicts)
  {
    for i := 0 to |dicts|
      invariant forall k :: 0 <= k < i ==> dicts[k] == dicts[0]
    {
      if dicts[i] != dicts[0] { return false; }
    }
    return true;
  }

  /** The index slot j of an input gets: its own, or where the map sends it, with 0 in null slots. */
  ghost function SentIndex(d: Data, maps: Option<seq<int>>, j: nat): int {
    if !d.body.DictionaryBody? then 0
    else if maps.None? then Pick(Held(d.body.indices), d.offset + j, 0)
    else if ValidBit(d, j) then Pick(maps.value, Pick(Held(d.body.indices), d.offset + j, 0), 0)
    else 0
  }

  ghost predicate SentWindow(d: Data, maps: Option<seq<int>>, piece: seq<int>) {
    |piece| == d.length && forall j :: 0 <= j < d.length ==> piece[j] == SentIndex(d, maps, j)
  }

  /** One input's window of indices, unchanged; a missing buffer adds nothing. */
  method CopyIndices(d: Data) returns (piece: seq<int>)
    requires DictionaryFits(d)
    ensures SentWindow(d, None, piece)
  {
    if d.body.indices.None? {
      return [];
    }
    piece := d.body.indices.value[d.offset..d.offset + d.length];
  }

  /** One input's window of indices sent through its map, null slots zeroed. */
  method TransposeWindow(d: Data, transpose: seq<int>) returns (piece: seq<int>)
    requires DictionaryFits(d) && NullsFit(d) && |transpose| == |d.body.dictionary| && d.body.indices.Some?
    ensures SentWindow(d, Some(transpose), piece)
  {
    piece := [];
    for j := 0 to d.length
      invariant |piece| == j && forall k :: 0 <= k < j ==> piece[k] == SentIndex(d, Some(transpose), k)
    {
      assert Validity(d)[j] == ValidBit(d, j);
      if d.validity.None? || d.validity.value[d.offset + j] {
        piece := piece + [transpose[d.body.indices.value[d.offset + j]]];
      } else {
        piece := piece + [0];
      }
    }
  }

  /** The map of input m, when the dictionaries were unified. */
  ghost function MapOf(maps: Option<seq<seq<int>>>, m: nat): Option<seq<int>> {
    if maps.None? then None else Some(Pick(maps.value, m, []))
  }

  ghost predicate AllSent(data: seq<Data>, maps: Option<seq<seq<int>>>, pieces: seq<seq<int>>, n: nat)
    requires n <= |data| && n <= |pieces|
  {
    forall k :: 0 <= k < n ==> IsSent(data, maps, pieces, k)
  }

  ghost predicate IsSent(data: seq<Data>, maps: Option<seq<seq<int>>>, pieces: seq<seq<int>>, k: int)
    requires 0 <= k < |data| && k < |pieces|
  {
    SentWindow(data[k], MapOf(maps, k), pieces[k])
  }

  ghost predicate NoIndices(d: Data) {
    d.body.DictionaryBody? && d.body.indices.None?
  }

  ghost predicate SomeWithoutIndices(data: seq<Data>) {
    exists i :: 0 <= i < |data| && NoIndices(data[i])
  }

  /** The index windows of all inputs end to end; a map needs an index buffer, even that of an empty input. */
  method ConcatDictIndices(data: seq<Data>, maps: Option<seq<seq<int>>>)
    returns (r: Result<seq<int>>, ghost pieces: seq<seq<int>>)
    requires AllDictionaries(data)
    requires maps.Some? ==>
               |maps.value| == |data| && forall i :: 0 <= i < |data| ==> |maps.value[i]| == |EntriesOf(data[i])|
    ensures r.Err? <==> maps.Some? && SomeWithoutIndices(data)
    ensures r.Ok? ==> |pieces| == |data| && AllSent(data, maps, pieces, |data|) && r.value == Flat(pieces)
  {
    var windows: seq<seq<int>> := [];
    for i := 0 to |data|
      invariant |windows| == i && AllSent(data, maps, windows, i)
      invariant maps.Some? ==> forall k :: 0 <= k < i ==> !NoIndices(data[k])
    {
      assert IsDictionary(data, i);
      ghost var before := windows;
      var piece;
      if maps.None? {
        piece := CopyIndices(data[i]);
      } else {
        if data[i].body.indices.None? {
          assert NoIndices(data[i]);
          return Err(MissingIndices), [];
        }
        piece := TransposeWindow(data[i], maps.value[i]);
      }
      windows := windows + [piece];
      forall k | 0 <= k < i ensures IsSent(data, maps, windows, k) {
        assert IsSent(data, maps, before, k) && windows[k] == before[k];
      }
    }
    var indices := ConcatBuffers(windows);
    pieces := windows;
    return Ok(indices), pieces;
  }

  lemma {:induction false} SentAt(data: seq<Data>, maps: Option<seq<seq<int>>>, pieces: seq<seq<int>>, m: nat, j: nat)
    requires |pieces| == |data| && AllSent(data, maps, pieces, |data|) && m < |data| && j < data[m].length
    ensures SlotStart(data, m) + j < |Flat(pieces)| == SlotStart(data, |data|)
    ensures Flat(pieces)[SlotStart(data, m) + j] == SentIndex(data[m], MapOf(maps, m), j)
  {
    forall k {:trigger pieces[k]} | 0 <= k < |data|
      ensures |pieces[k]| == data[k].length
    {
      assert IsSent(data, maps, pieces, k);
    }
    WindowStarts(data, pieces, m);
    WindowStarts(data, pieces, |data|);
    assert IsSent(data, maps, pieces, m);
    FlatAt(pieces, m, j);
  }

  /** Each input's index goes to an equal entry of the output's dictionary. */
  ghost predicate Serves(data: seq<Data>, maps: Option<seq<seq<int>>>, dict: seq<Value>, m: nat)
    requires m < |data|
  {
    && data[m].body.DictionaryBody?
    && (maps.None? ==> data[m].body.dictionary == dict)
    && (maps.Some? ==> m < |maps.value| && Sends(maps.value[m], data[m].body.dictionary, dict))
  }

  lemma {:induction false} DictionarySlotKept(data: seq<Data>, maps: Option<seq<seq<int>>>, pieces: seq<seq<int>>,
      o: Data, m: nat, j: nat)
    requires AllDictionaries(data) && |pieces| == |data| && AllSent(data, maps, pieces, |data|)
    requires m < |data| && j < data[m].length && Validity(data[m])[j]
    requires o.body.DictionaryBody? && o.body.indices == Some(Flat(pieces)) && Serves(data, maps, o.body.dictionary, m)
    ensures Kept(data, o, m, j)
    ensures SlotStart(data, m) + j < |o.body.indices.value|
    ensures 0 <= o.body.indices.value[SlotStart(data, m) + j] < |o.body.dictionary|
  {
    assert IsDictionary(data, m);
    SentAt(data, maps, pieces, m, j);
    assert Validity(data[m])[j] == ValidBit(data[m], j);
  }

  lemma {:induction false} DictionariesKeep(data: seq<Data>, maps: Option<seq<seq<int>>>, pieces: seq<seq<int>>,
      o: Data)
    requires AllDictionaries(data) && |pieces| == |data| && AllSent(data, maps, pieces, |data|) && Covers(data, o)
    requires o.body.DictionaryBody? && o.body.indices == Some(Flat(pieces))
    requires forall m: nat :: m < |data| ==> Serves(data, maps, o.body.dictionary, m)
    ensures Decode(o) == ColumnUpTo(data, |data|) && DictionaryFits(o)
  {
    forall m: nat, j: nat | m < |data| && j < data[m].length && Validity(data[m])[j] ensures Kept(data, o, m, j) {
      assert Serves(data, maps, o.body.dictionary, m);
      DictionarySlotKept(data, maps, pieces, o, m, j);
    }
    KeptDecodes(data, o);
    forall k {:trigger pieces[k]} | 0 <= k < |data|
      ensures |pieces[k]| == data[k].length
    {
      assert IsSent(data, maps, pieces, k);
    }
    WindowStarts(data, pieces, |data|);
    forall i: nat | i < o.length && Validity(o)[i] ensures 0 <= o.body.indices.value[i] < |o.body.dictionary| {
      var m, j := LocateSlot(data, |data|, i);
      ValidAt(data, m, j);
      assert Serves(data, maps, o.body.dictionary, m);
      DictionarySlotKept(data, maps, pieces, o, m, j);
    }
  }

  /**
   Dictionaries that differ cannot be joined: the unified one is too long for the index type, or an input, be it empty,
   has no index buffer to send through its map.
   */
  ghost predicate NotUnifiable(data: seq<Data>, indexLimit: nat) {
    var dicts := DictionariesUpTo(data, |data|);
    !OneDictionary(dicts) && (|TableAfter(dicts, |dicts|)| > indexLimit || SomeWithoutIndices(data))
  }

  /** Equal dictionaries are kept, others unified. */
  method ConcatDictionary(data: seq<Data>, indexLimit: nat) returns (r: Result<Data>)
    requires AllDictionaries(data) && data != []
    ensures r.Err? <==> NotUnifiable(data, indexLimit)
    ensures r.Ok? && |TableAfter(DictionariesUpTo(data, |data|), |data|)| <= W32.Limit() + 1 ==>
              Decode(r.value) == ColumnUpTo(data, |data|) && DictionaryFits(r.value) && NullsFit(r.value)
  {
    var dicts := DictionariesUpTo(data, |data|);
    AllCounted(data);
    var same := DictsSame(dicts);
    var maps, dict := None, dicts[0];
    if !same {
      var unified := UnifyDictionaries(dicts, indexLimit);
      if unified.Err? {
        return Err(unified.error);
      }
      maps, dict := Some(unified.value.0), unified.value.1;
      forall i | 0 <= i < |data| ensures |maps.value[i]| == |EntriesOf(data[i])| {
        assert MapsInto(maps.value, dicts, dict, i) && dicts[i] == EntriesOf(data[i]);
      }
    }
    var indices, pieces := ConcatDictIndices(data, maps);
    if indices.Err? {
      return Err(indices.error);
    }
    var out := Assemble(data, DictionaryBody(Some(indices.value), dict));
    if |TableAfter(dicts, |data|)| <= W32.Limit() + 1 {
      forall m: nat | m < |data|
        ensures Serves(data, maps, dict, m)
      {
        assert IsDictionary(data, m) && dicts[m] == EntriesOf(data[m]);
      }
      DictionariesKeep(data, maps, pieces, out);
    }
    return Ok(out);
  }

  /** An empty array without an index buffer, as a fresh builder makes it, cannot be joined with another dictionary. */
  lemma {:induction false} EmptyDictionaryRefused()
    ensures var data := [Data(0, 0, 0, None, DictionaryBody(None, [])),
              Data(0, 1, 0, None, DictionaryBody(Some([0]), [Number(7)]))];
            AllDictionaries(data) && NotUnifiable(data, 0x7F)
  {
    var data := [Data(0, 0, 0, None, DictionaryBody(None, [])),
        Data(0, 1, 0, None, DictionaryBody(Some([0]), [Number(7)]))];
    assert NoIndices(data[0]);
    forall i | 0 <= i < |data| ensures IsDictionary(data, i) { CountNullsZero(Validity(data[i])); AllSet(data[i]); }
    var dicts := DictionariesUpTo(data, |data|);
    assert dicts[0] == EntriesOf(data[0]) && dicts[1] == EntriesOf(data[1]);
  }

  lemma {:induction false} AllSet(d: Data)
    requires d.validity.None?
    ensures forall i :: 0 <= i < d.length ==> Validity(d)[i]
  {
    forall i | 0 <= i < d.length ensures Validity(d)[i] { assert ValidBit(d, i); }
  }

  lemma {:induction false} AllCounted(data: seq<Data>)
    requires AllDictionaries(data)
    ensures AllNullsFit(data)
  {
    forall i | 0 <= i < |data| ensures NullsFit(data[i]) { assert IsDictionary(data, i); }
  }
}

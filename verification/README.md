# Arrow arrays: layouts, transformations and builders

A Dafny model of the in-memory array layer of Apache Arrow for Go, with proofs that the code which turns one physical
layout into another keeps the logical column. Every physical array is a value of `Layout.Data` (a window, a validity
bitmap and a body: fixed width, binary, binary view, list, list-view, fixed-size list, struct, dictionary, run-end
encoded), `Layout.Decode` gives the column it stands for, and `Layout.WellFormed` says which buffers a type needs.
Most theorems are statements about `Decode`.

## Main results

* **Diff.** `MyersDiff.Diff` returns a valid edit script, and no script between the two arrays has fewer inserts and
  deletes, for an arbitrary comparison of values. The no-op delete at base's end, the no-op insert at target's end and
  the clamped target are modelled; `FurthestReaching.RowIsGood` says what every stored cell means despite them, and
  that minimality is what makes the back-trace sound. The edits are exactly the elements that a longest in-order
  pairing of agreeing slots, nulls included, leaves over; equal arrays give one run. Printing the script and patching
  base with the printed lines gives target (`UnifiedDiff.DiffPrintPatch`).
* **Concatenation.** `Concat.Concat`, by induction over nested types: it fails exactly when some level is rejected
  (`Concat.Rejected`). Otherwise, for inputs within what the code relies on (`Concat.Countable`), the result is
  well-formed and its column is the inputs' columns end to end exactly when every level is positioned
  (`Concat.Positioned`): the moved starts of list-views fit the offset type, and no run-end encoded input without a
  run-ends buffer stands before a non-empty one.
* **Dictionaries.** Index maps made early still send every entry to an equal entry of the final, duplicate-free
  dictionary. Unification at every level of a nested type fails exactly when a dictionary is too long or a chunk cannot
  be read through its map; otherwise the chunks stay well-formed, keep their columns and share one dictionary exactly
  when the fronts of their bitmaps agree.
* **Rollback.** After any appends anywhere in a tree of builders, restoring gives back what was captured, the
  multi-block undo log of view builders included. A row that succeeds adds exactly its values: `BuilderColumns.FedAdds`
  shows, by induction over nested builders, that the appends which decode a value add that value to the column of the
  array the builder makes.
* **State machines.** The table reader, the validity-bitmap builder, the binary builder on top of it and the run-end
  builder refine sequences, and finished arrays decode to what was appended.
* **Fast equality.** Whole-run comparison, index bounds through minima and maxima, chunk-wise comparison and greedy
  map matching agree with the plain definitions; matching is a bijection of entries whose keys and values are equal.
* **Time.** Timestamp and INT96 conversions are exact or refused, without overflow, at both ends of the range.

## Where the code does not do what one might expect

* `RunEnds.UpdateRunEnds`: run-end buffers are paired with inputs by position after missing ones were left out. The run
  ends are laid end to end exactly when no input without a buffer stands before a non-empty one; otherwise they are the
  run ends of no array of that length. `RunEnds.MissingBufferMisplaces` and `Concat.EmptyRunEndsOutOfStep` are instances.
* `ConcatDictionaries.ConcatDictionary`: when dictionaries differ, an input without an index buffer is refused, even if
  it is empty; `EmptyDictionaryRefused` is an instance.
* `ListViewRange.RangeIsRight`: the range of values used is found exactly when the ends of the views fit the offset type
  and none of them is mistaken for the end of the child; `LongChildMisleads` is an instance.
* `ConcatListViews.DisplacementExact`: the displaced start of a list-view is right exactly when it fits the offset
  type; only the number of slots is checked. `DisplacementWraps` is an instance that turns negative, and
  `ListViewBeyond` says that then the whole output is no list-view array.
* `Dictionaries.TransposeDictIndices`: index slots of nulls are read too, so a map other than the identity fails (as a
  panic) on a null slot that is no entry; `NullSlotUnreadable` is an instance, `AllNullReadable` one that passes. A bitmap
  is used unshifted when the null count is zero at a non-zero offset; the validity is kept exactly when the map is the
  identity or `FrontAgrees`, and `UnshiftedBitmapMisreads` is an input on which a value turns null.
* `RunEndBuilder.SumDecides`: the sum that is held against the run-end type wraps at 2^64. It decides as the true sum
  would exactly when that is below 2^64; beyond, every number of slots is accepted and the array shrinks (`SumShrinks`).
* `RunEndBuilder.RunEndEncodedBuilder.AppendValueFromString`: a string that does not parse is counted and remembered
  before it is found out. The builder survives a refusal exactly when the string continues a run;
  `AppendUnparsableTwice` shows the same string being accepted the second time.
* `RunEndBuilder.EmptyRunBreaks`: a run of length 0 breaks the encoding.
* `RunEndBuilder.LogicalRunEndsArray`: at offset 0 the last run end is not cut to the length, in contrast to slices at
  other offsets; `LastShared` says when it is the length all the same.
* `MapEquality.ApproxEqualSingleMapEntry`: with null entries, equal entry sets compare equal exactly when the last
  entry of the right side is valid or all entries are null; `NullBehindMisses` is an instance. With comparisons that
  are no equivalences, such as a tolerance, the greedy choice can miss a bijection; `GreedyMisses` is an instance, and
  the exact condition is that first fits are one.
* `MultiBuffer.Resized`: an undo gives back bytes and lengths, but a block that is cut loses its spare room.

## Model

| member | source | states |
|---|---|---|
| `EditGraph.DistParity` | arrow/array/diff.go:306-346 | the elements a cheapest script does not edit come in pairs, so the ends lie on a diagonal of the right parity |
| `EditGraph.DistLipschitz` | arrow/array/diff.go:276-290 | one insert or delete changes the distance by at most one |
| `EditGraph.CostAtLeast` | arrow/array/diff.go:352-386 | no edit script costs less than the distance, from any position |
| `EditGraph.ReplayMatchesTarget` | arrow/array/diff.go:33-50 | replaying a script on base gives an array as long as target whose slots are, or equal, target's |
| `EditGraph.DistAtMost` | arrow/array/diff.go:177-182 | no in-order pairing of agreeing slots, nulls with nulls, leaves fewer elements over than the distance |
| `EditGraph.DistAttained` | arrow/array/diff.go:177-182 | some such pairing leaves exactly as many |
| `FurthestReaching.DeleteCandidate` | arrow/array/diff.go:276-281 | a delete, real or at base's end, and the pairs kept behind it lead to an attainable cell of the next lower diagonal |
| `FurthestReaching.InsertCandidate` | arrow/array/diff.go:285-290 | an insert, real or at target's end, and the pairs kept behind it lead to an attainable cell of the next higher diagonal |
| `FurthestReaching.MovesCover` | arrow/array/diff.go:306-346 | a stuck index that covers the moves from both neighbouring diagonals is beaten by no point within the edit count |
| `FurthestReaching.InnerGood` | arrow/array/diff.go:306-346 | the better of delete and insert is furthest-reaching, whether or not the moves were real |
| `FurthestReaching.RowIsGood` | arrow/array/diff.go:306-346 | every cell of every row, capped at its diagonal's end, is the furthest point of its diagonal within its edit count |
| `FurthestReaching.ReachInBounds` | arrow/array/diff.go:299-304 | the point a stored cell stands for is inside both arrays, or at base's end with a possibly negative target |
| `MyersDiff.StorageOffsetIsRowStart` | arrow/array/diff.go:293-295 | the closed form is the sum of the lengths of the rows before |
| `MyersDiff.TraceInsert` | arrow/array/diff.go:352-386 | a traced insert was real, from an unclamped point, its run is not negative and covers equal pairs only, and the script stays cheapest |
| `MyersDiff.TracedDeleteIsReal` | arrow/array/diff.go:276-281 | the delete that does nothing at base's end does not occur on a cheapest script |
| `MyersDiff.TraceDelete` | arrow/array/diff.go:352-386 | a traced delete was real, from an unclamped point, its run is not negative and covers equal pairs only, and the script stays cheapest |
| `MyersDiff.LastIsInsert` | arrow/array/diff.go:323-337 | the last cell of a row is always reached by an insert, so the back-trace never reads the zero filler |
| `MyersDiff.FinishIsFirst` | arrow/array/diff.go:339-345 | the first cell that stands for both ends lies on the ends' own diagonal and its edit count is the distance |
| `MyersDiff.NotFinished` | arrow/array/diff.go:339-345 | if no cell of a row stands for both ends, more edits are needed |
| `MyersDiff.QuadraticSpaceMyersDiff.constructor` | arrow/array/diff.go:155-175 | the search starts with row 0, finished exactly when the arrays are equal |
| `MyersDiff.QuadraticSpaceMyersDiff.ExtendFrom` | arrow/array/diff.go:263-272 | stops behind the last equal pair; values are compared only inside both arrays |
| `MyersDiff.QuadraticSpaceMyersDiff.DeleteOne` | arrow/array/diff.go:276-281 | the base index a delete leads to |
| `MyersDiff.QuadraticSpaceMyersDiff.InsertOne` | arrow/array/diff.go:285-290 | the base index an insert leads to |
| `MyersDiff.QuadraticSpaceMyersDiff.GetEditPointIsReachPoint` | arrow/array/diff.go:299-304 | joining a stored base index with its position's diagonal gives the table's point |
| `MyersDiff.QuadraticSpaceMyersDiff.Next` | arrow/array/diff.go:306-346 | adds one row to the storage, all rows hold the table, and the search is done exactly when the row's edits suffice |
| `MyersDiff.QuadraticSpaceMyersDiff.DeleteRow` | arrow/array/diff.go:317-321 | fills the row with what deletes lead to and leaves earlier rows alone |
| `MyersDiff.QuadraticSpaceMyersDiff.InsertRow` | arrow/array/diff.go:323-337 | each cell keeps the better move, the insert on a tie, and the flag says which |
| `MyersDiff.QuadraticSpaceMyersDiff.FindFinish` | arrow/array/diff.go:339-345 | the finish index is set exactly when the row's edits suffice |
| `MyersDiff.QuadraticSpaceMyersDiff.GetEdits` | arrow/array/diff.go:352-386 | the traced entries are a valid script of exactly the distance's cost, with run lengths that are not negative |
| `MyersDiff.QuadraticSpaceMyersDiff.PreviousCell` | arrow/array/diff.go:362-374 | the index computed from the endpoint's diagonal is the cell it was reached from |
| `MyersDiff.Diff` | arrow/array/diff.go:119-133 | a valid script, as short as any, whose edits are what a longest pairing of agreeing slots leaves over; the loop ends within base plus target rounds |
| `MyersDiff.DiffByEquality` | arrow/array/diff.go:33-50 | with equality as the comparison, no pairing of equal slots leaves fewer over, and equal arrays give a single run |
| `UnifiedDiff.PatchReplays` | arrow/array/diff.go:58-84 | the printed lines alone, applied as a patch, rebuild what the script rebuilds |
| `UnifiedDiff.HunksNumbered` | arrow/array/diff.go:58-84 | every header and every added line has the target index that patching has reached |
| `UnifiedDiff.WriteUnified` | arrow/array/diff.go:58-84 | the walk prints the script's hunks with right indexes, reads only inside the arrays and consumes both exactly |
| `UnifiedDiff.DiffPrintPatch` | arrow/array/diff.go:33-84 | diff, print and patch give target when the comparison is equality |
| `Layout.LimitIsGreatest` | arrow/array/concat.go:873-879 | the limit of 16, 32 or 64 bits is one less than the power of two below |
| `Layout.WrapIsSigned` | arrow/array/concat.go:873-879 | conversion gives the number of the range that differs by whole turns |
| `Layout.NullSlot` | arrow/array/array.go:82-90 | a slot is null exactly when its bit is cleared |
| `Layout.FixedSlot` | arrow/array/dictionary.go:461-490 | a slot holds its own value, or the dictionary's entry at its index |
| `Layout.BinarySlot` | arrow/array/binary.go:56-62 | a slot holds the bytes between its offsets |
| `Layout.ViewSlot` | arrow/array/binary.go:606-614 | a slot holds the header's bytes, or those of its buffer |
| `Layout.ListSlot` | arrow/array/list.go:159-164 | a slot holds the child's slots between its offsets |
| `Layout.ListViewSlot` | arrow/array/list.go:801-814 | a slot holds the child's slots of its view |
| `Layout.FixedSizeListSlot` | arrow/array/fixed_size_list.go:112-117 | a slot holds as many of the child's slots as the list is long |
| `Layout.StructSlot` | arrow/array/struct.go:237-275 | a slot holds one slot of every child |
| `Layout.RunSlot` | arrow/array/encoded.go:219-221 | a slot holds the value of the run that covers it |
| `Layout.SliceDecodes` | arrow/array/data.go:243-280 | slicing an array slices its column |
| `Layout.SliceWellFormed` | arrow/array/data.go:243-280 | slices of well-formed arrays are well-formed, for every type |
| `Sequences.ConcatBuffers` | arrow/array/concat.go:139-153 | the buffers end to end |
| `Slots.SumArraySizes` | arrow/array/concat.go:401-407 | the slots of all inputs |
| `Slots.ConcatBitmaps` | arrow/array/concat.go:826-859 | the validity windows end to end, with set bits for inputs without a bitmap |
| `Slots.KeptDecodes` | arrow/array/concat.go:560-810 | an output with the inputs' validity that keeps every valid slot stands for the inputs' columns end to end |
| `Offsets.ConcatOffsets` | arrow/array/concat.go:226-319 | offsets rebased window by window and the value range of each window, or the first refusal |
| `Offsets.RefusedIffTooLong` | arrow/array/concat.go:247-319 | for climbing offsets a window is refused exactly when the values used in total exceed the offset type |
| `ConcatKinds.Assemble` | arrow/array/concat.go:573-588 | lengths and null counts summed, one unknown count making the sum unknown, bitmaps joined unless there are no nulls |
| `ConcatKinds.ConcatFixed` | arrow/array/concat.go:155-178 | each slot's value stands where the concatenation has the slot |
| `ConcatKinds.ConcatBinary` | arrow/array/concat.go:180-219 | rebased offsets and the bytes used, refused exactly when these exceed the offset type |
| `ConcatKinds.BinaryKeeps` | arrow/array/concat.go:180-219 | the column of the output is the inputs' columns end to end |
| `ConcatKinds.BinaryOutputFits` | arrow/array/concat.go:180-219 | the output's offsets climb inside its bytes |
| `ConcatNested.GatherChildrenRanges` | arrow/array/concat.go:128-135 | each child cut to its range |
| `ConcatNested.ConcatListOffsets` | arrow/array/concat.go:674-707 | offsets rebased and children cut to what is used, refused exactly when the values used exceed the offset type |
| `ConcatNested.ListKeeps` | arrow/array/concat.go:674-707 | given the joined child, every list keeps its values |
| `ConcatNested.GatherChildrenMultiplier` | arrow/array/concat.go:118-124 | each child cut to the list size times its window |
| `ConcatNested.FixedSizeKeeps` | arrow/array/concat.go:720-730 | given the joined child, every fixed-size list keeps its values and the child is long enough |
| `ConcatNested.GatherChildren` | arrow/array/concat.go:111-113 | each field's child cut to the parent's window |
| `ConcatNested.StructKeeps` | arrow/array/concat.go:731-744 | given the joined fields, every record keeps its fields |
| `ListViewRange.MinListViewOffset` | arrow/array/list.go:1489-1528 | the least start of a valid non-empty view, despite the early exit at 0 |
| `ListViewRange.LeastStartIs` | arrow/array/list.go:1489-1528 | that start is below or at every other one and belongs to a view |
| `ListViewRange.MaxListViewEnd` | arrow/array/list.go:1536-1584 | what the backward scan finds in the arithmetic of the offset type, with its exit at the child's length cut to that type |
| `ListViewRange.RangeOfValuesUsed` | arrow/array/list.go:1586-1597 | the range the two scans compute; all-null and empty arrays are not scanned |
| `ListViewRange.RangeIsRight` | arrow/array/list.go:1489-1597 | it is the smallest range that covers all valid non-empty views exactly when their ends fit the offset type and do not mislead the scan |
| `ListViewRange.ShortChild` | arrow/array/list.go:1563-1583 | neither happens while the child's length fits the offset type |
| `ListViewRange.LongChildMisleads` | arrow/array/list.go:1563-1583 | an instance where the early exit hides a view |
| `ListViewRange.FullyValidateOffsetsAndSizes` | arrow/array/list.go:999-1016 | accepts exactly the views whose sizes and ends stay inside the child, however long it is |
| `ConcatListViews.DisplacementExact` | arrow/array/concat.go:416-466 | the displaced start is exact exactly when it fits the offset type |
| `ConcatListViews.DisplacementWraps` | arrow/array/concat.go:476-479 | an instance past the limit that turns negative |
| `ConcatListViews.PutListViewOffsets` | arrow/array/concat.go:416-466 | valid non-empty views are displaced in wrapping arithmetic, the others start at 0 |
| `ConcatListViews.ConcatListViewOffsets` | arrow/array/concat.go:475-497 | all displaced starts; fails exactly when 32-bit views have more slots than the type counts |
| `ConcatListViews.ZeroNullListViewSizes` | arrow/array/concat.go:499-511 | null slots get size 0, the others keep theirs |
| `ConcatListViews.ListViewKeeps` | arrow/array/concat.go:513-556 | when the displaced starts fit, every valid view covers equal values in the new child |
| `ConcatListViews.ListViewOutputFits` | arrow/array/concat.go:513-556 | all views stay inside the new child and null slots have size 0 |
| `ConcatListViews.ListViewBeyond` | arrow/array/concat.go:475-497 | when a displaced start does not fit, some view of the output starts at a negative position |
| `ConcatViews.ConcatHeaders` | arrow/array/concat.go:640-668 | headers move behind the buffers of the inputs before, in 32-bit arithmetic |
| `ConcatViews.ViewsKeep` | arrow/array/concat.go:640-668 | every valid header resolves to the same bytes |
| `ConcatDictionaries.DictsSame` | arrow/array/concat.go:607-617 | whether all dictionaries equal the first |
| `ConcatDictionaries.ConcatDictIndices` | arrow/array/concat.go:348-399 | index windows end to end, sent through their maps with 0 in null slots when there are maps; with maps, fails exactly when an input has no index buffer |
| `ConcatDictionaries.ConcatDictionary` | arrow/array/concat.go:603-637 | the inputs' columns end to end; fails exactly when the dictionaries differ and the unified one exceeds the index type or an input has no index buffer |
| `ConcatDictionaries.EmptyDictionaryRefused` | arrow/array/concat.go:366-369 | an instance of the latter with an empty input |
| `RunEnds.FindPhysicalIndex` | arrow/encoded/ree_utils.go:37-59 | the binary search finds the first run that ends behind a position cut to the run-end type |
| `RunEnds.WrapCancels` | arrow/array/concat.go:925-929 | subtracting the offset after a wrapped addition is exact whenever the result fits |
| `RunEnds.OverflowsOutside` | arrow/array/concat.go:916-920 | against an end that is not negative, exactly sums beyond the type or below zero are refused |
| `RunEnds.AppendRuns` | arrow/array/concat.go:888-933 | one window's run ends appended, shifted and clamped in wrapping arithmetic; fails exactly when the unsigned sum exceeds the run-end type |
| `RunEnds.UpdateRuns` | arrow/array/concat.go:881-935 | on windows with their own run ends, laid end to end, failing exactly when the total length exceeds the run-end type; on any windows, what is refused and how far the output reaches |
| `RunEnds.PairedInStep` | arrow/array/concat.go:71-85 | pairing by position gives each input its own run ends when no missing buffer stands before a non-empty input |
| `RunEnds.OutOfStepCount` | arrow/array/concat.go:71-85 | otherwise the paired buffers count fewer slots than there are |
| `RunEnds.UpdateRunEnds` | arrow/array/concat.go:783-792 | the result is the run ends laid end to end exactly when the buffers are in step, and otherwise falls short of the total length; in step, 16-bit run ends are refused exactly beyond 32767 slots |
| `RunEnds.MissingBufferMisplaces` | arrow/array/concat.go:783-792 | an instance whose run ends come out as [0] for three slots |
| `RunEnds.LaidClimbs` | arrow/array/concat.go:881-935 | they climb strictly and end at the total length |
| `RunEnds.SameRun` | arrow/array/concat.go:881-935 | each position falls into the run of its own window, counted behind the runs before |
| `ConcatRuns.FindRuns` | arrow/encoded/ree_utils.go:71-107 | the first run of a window and how many touch it |
| `ConcatRuns.RunsTouch` | arrow/encoded/ree_utils.go:71-107 | the runs found are exactly those that touch the window |
| `ConcatRuns.RunsKeep` | arrow/array/concat.go:762-804 | given the joined values, every slot keeps its value |
| `ConcatRuns.RunOutputFits` | arrow/array/concat.go:762-804 | the output's run ends climb strictly and end at its length |
| `Concat.ConcatListType` | arrow/array/concat.go:674-707 | one level of lists over the recursion |
| `Concat.GatherRanges` | arrow/array/concat.go:513-526 | the range of each list-view input and its child cut to it; refused exactly when a scan ends before it begins |
| `Concat.ConcatListViewType` | arrow/array/concat.go:513-556 | one level of list-views over the recursion, null slots emptied |
| `Concat.ConcatStructType` | arrow/array/concat.go:731-744 | field by field; fails exactly when some field does |
| `Concat.ConcatRunEndType` | arrow/array/concat.go:762-804 | one level of runs over the recursion |
| `Concat.EmptyRunEndsOutOfStep` | arrow/array/concat.go:762-804 | well-formed inputs on which the output is no array |
| `Concat.Concat` | arrow/array/concat.go:560-810 | fails exactly when some level is rejected; else, for countable inputs, well-formed with the inputs' columns end to end exactly when positioned |
| `Concat.SlicesRejoin` | arrow/array/concat.go:560-810 | the slices of an array are inputs whose columns end to end are the array's |
| `Dictionaries.MapStable` | arrow/array/dictionary.go:1639-1664 | a map made early is the map into the larger table |
| `Dictionaries.MapSends` | arrow/array/dictionary.go:1639-1664 | the map sends every entry to an equal one while the table can be counted in 32 bits |
| `Dictionaries.IdentityIffPrefix` | arrow/array/dictionary.go:1513-1520 | a map is the identity exactly when the dictionary is the front of the unified one |
| `Dictionaries.Unifier.Unify` | arrow/array/dictionary.go:1620-1637 | the table remembers every entry once, in first-seen order |
| `Dictionaries.Unifier.UnifyAndTranspose` | arrow/array/dictionary.go:1639-1664 | the map leads from each entry to where it stands in the table |
| `Dictionaries.Unifier.GetResultWithIndexType` | arrow/array/dictionary.go:1693-1728 | hands out the table and starts over, or refuses exactly when it is too long |
| `Dictionaries.Unifier.GetResult` | arrow/array/dictionary.go:1666-1691 | the smallest signed index type that counts the entries |
| `Dictionaries.SignedLimits` | arrow/array/dictionary.go:1666-1691 | the limits are those of 8, 16, 32 and 64 bits |
| `Dictionaries.UnifyDictionaries` | arrow/array/concat.go:321-346 | every map is right for the one duplicate-free result; fails exactly when it is too long |
| `Dictionaries.TableAfterKeeps` | arrow/array/dictionary.go:1639-1664 | the unified dictionary has no duplicates and no entry of its own |
| `Dictionaries.TransposeInts` | internal/utils/transpose_ints_def.go:56-67 | each index replaced by its map entry; fails exactly when a slot is no entry of the map |
| `Dictionaries.TransposeDictIndices` | arrow/array/dictionary.go:1522-1562 | fails exactly when the map is not the identity and the input is unreadable; else validity and null count are right exactly under the stated condition, and then the column is unchanged |
| `Dictionaries.UnshiftedBitmapMisreads` | arrow/array/dictionary.go:1548-1555 | without the condition a valid slot can turn null |
| `Dictionaries.NullSlotUnreadable` | arrow/array/dictionary.go:1557-1561 | a legal array with a null slot on which it fails |
| `Dictionaries.AllNullReadable` | arrow/array/dictionary.go:1535-1539 | an all-null array over an empty dictionary on which it cannot fail |
| `UnifyChunks.LikeDecodes` | arrow/array/dictionary.go:1868-1887 | replacing children by children with the same columns keeps the column |
| `UnifyChunks.LikeWellFormed` | arrow/array/dictionary.go:1868-1887 | well-formed children with the same columns keep an array well-formed |
| `UnifyChunks.UntouchedIffPrefix` | arrow/array/dictionary.go:1918-1928 | a chunk keeps its indices exactly when its dictionary is the front of the unified one |
| `UnifyChunks.ShareReaches` | arrow/array/dictionary.go:1868-1887 | sharing reaches the dictionaries below lists of all sorts, runs and structs |
| `UnifyChunks.UnifyDictionary` | arrow/array/dictionary.go:1889-1930 | the same at a dictionary level itself: one dictionary, every chunk's indices sent through its map |
| `UnifyChunks.UnifyRecursive` | arrow/array/dictionary.go:1859-1933 | fails exactly when at some level a dictionary is too long or a chunk unreadable; else chunks stay well-formed, keep their columns and share one duplicate-free dictionary at every level exactly when the bitmap fronts agree |
| `IndexBounds.FindValidRuns` | arrow/array/dictionary.go:71-86 | the first eight maximal runs, and whether there are more |
| `IndexBounds.GetMinMaxRuns` | arrow/array/dictionary.go:88-106 | minimum and maximum over the valid slots |
| `IndexBounds.GetMinMaxValid` | arrow/array/dictionary.go:108-127 | the same, reading the whole bitmap |
| `IndexBounds.CheckIndexBounds` | arrow/array/dictionary.go:145-203 | on every path, accepts exactly when each valid index is an entry of the dictionary |
| `Chunks.NewChunkedSlice` | arrow/array/table.go:49-90 | the slice's rows are the column's rows i to j; ranges outside the column are refused |
| `Chunks.ChunkedBinaryApply` | arrow/array/compare.go:74-108 | aligned, non-empty slices that follow each other from row 0 and cover every row unless the function fails on the last |
| `Chunks.ChunkedEqual` | arrow/array/compare.go:111-130 | true exactly when the rows are equal, whatever the chunks and however nulls are counted |
| `TableReader.SkipEmpty` | arrow/array/table.go:368-374 | with rows left, skipping ends strictly inside a chunk |
| `TableReader.TableReader.constructor` | arrow/array/table.go:322-347 | positions at row 0; a chunk size that is not positive means the largest |
| `TableReader.TableReader.Contiguous` | arrow/array/table.go:365-380 | a positive batch size within the limits that ends at a chunk boundary, the chunk size or the last row |
| `TableReader.TableReader.Next` | arrow/array/table.go:355-412 | a non-empty batch of at most the chunk size with the next rows of every column; all batches together are the rows so far, and it stops exactly at the last row |
| `Bitmaps.PutBitAt` | arrow/bitutil/bitutil.go:27-30 | setting or clearing one bit through its mask leaves the others |
| `Bitmaps.BitIsShifted` | arrow/bitutil/bitutil.go:27-30 | bit i is the one that shifting by i brings to the front |
| `Bitmaps.ByteIsSum` | arrow/bitutil/bitutil.go:27-30 | a byte is the sum of 2^i over its set bits i |
| `Bitmaps.BitIsSetShifted` | arrow/bitutil/bitutil.go:27-30 | bit k of a bitmap is bit k mod 8 of byte k / 8, counted from the least significant |
| `Bitmaps.PackBoolsByte` | arrow/array/builder.go:271-299 | eight booleans in the byte that is the sum of 2^i over the true ones, and how many are false |
| `Bitmaps.PackBools` | arrow/array/builder.go:213-344 | writes exactly the given bits from any bit offset on and counts the cleared ones |
| `BitmapBuilder.SetValidBits` | arrow/array/builder.go:347-368 | sets exactly the given range, by bits and whole bytes |
| `BitmapBuilder.NextPowerIs` | arrow/bitutil/bitutil.go:41 | the capacity is the smallest power of two above the request |
| `BitmapBuilder.Builder.Reserve` | arrow/array/builder.go:201-209 | room for more, contents unchanged, new bits clear |
| `BitmapBuilder.Builder.UnsafeAppendBoolToBitmap` | arrow/array/builder.go:394-401 | one value appended; a null needs no write because later bits are clear |
| `BitmapBuilder.Builder.UnsafeSetValid` | arrow/array/builder.go:347-368 | n valid slots appended |
| `BitmapBuilder.Builder.UnsafeAppendNulls` | arrow/array/builder.go:370-382 | n null slots appended and counted |
| `BitmapBuilder.Builder.UnsafeAppendBoolsToBitmap` | arrow/array/builder.go:213-269 | the given validity appended, an empty one standing for n valid slots |
| `BitmapBuilder.Builder.Truncate` | arrow/array/builder.go:184-199 | a prefix of the contents, nulls recounted, later bits clear; other lengths are refused |
| `BitmapBuilder.Builder.SetNull` | arrow/array/builder.go:136-143 | one slot turned null and counted once |
| `BitmapBuilder.RepeatedBehind` | arrow/array/builder.go:347-382 | setting a range behind the contents appends equal values and counts the null ones |
| `BinaryBuilder.AppendedSlot` | arrow/array/binarybuilder.go:118-133 | writing the offset before the bytes ends the slot before it and changes no earlier slot |
| `BinaryBuilder.BlankSlots` | arrow/array/binarybuilder.go:382-399 | slots that all begin at the end of the bytes are null or empty and change no earlier slot |
| `BinaryBuilder.TruncatedSlots` | arrow/array/binarybuilder.go:303-311 | cutting the bytes at the first dropped offset leaves the slots in front as they were |
| `BinaryBuilder.FinishedSlots` | arrow/array/binarybuilder.go:353-374 | with one more offset the buffers are a well-formed binary array that decodes to the slots |
| `BinaryBuilder.BinaryBuilder.Append` | arrow/array/binarybuilder.go:118-123 | the value appended, exactly when the bytes can be counted in the offset type |
| `BinaryBuilder.BinaryBuilder.AppendNull` | arrow/array/binarybuilder.go:129-133 | a null appended |
| `BinaryBuilder.BinaryBuilder.AppendEmptyValue` | arrow/array/binarybuilder.go:147-151 | an empty value, which is not a null, appended |
| `BinaryBuilder.BinaryBuilder.AppendNulls` | arrow/array/binarybuilder.go:135-145 | n nulls appended, none for a count that is not positive |
| `BinaryBuilder.BinaryBuilder.AppendEmptyValues` | arrow/array/binarybuilder.go:153-161 | n empty values appended, none for a count that is not positive |
| `BinaryBuilder.BinaryBuilder.AppendPieces` | arrow/array/binarybuilder.go:185-188 | the loop that writes offsets and bytes stands for the values once their validity follows |
| `BinaryBuilder.BinaryBuilder.AppendValues` | arrow/array/binarybuilder.go:166-191 | all values appended, null where the validity says so, exactly when the bytes can be counted; a validity of another length is refused |
| `BinaryBuilder.BinaryBuilder.ValueOf` | arrow/array/binarybuilder.go:229-238 | the bytes of a slot, the last one ending at the end of the bytes |
| `BinaryBuilder.BinaryBuilder.Truncate` | arrow/array/binarybuilder.go:303-311 | a prefix of the contents; other lengths are refused |
| `BinaryBuilder.BinaryBuilder.NewData` | arrow/array/binarybuilder.go:353-368 | a well-formed array that decodes to everything appended, and the builder starts over |
| `MultiBuffer.ReservedHasRoom` | arrow/array/bufferbuilder.go:187-224 | after a reservation the current block has room |
| `MultiBuffer.ReservedWhere` | arrow/array/bufferbuilder.go:187-224 | a block that has room is used, the current one or else the first; only when none has, a block of at least the block size is added |
| `MultiBuffer.ViewsStable` | arrow/array/bufferbuilder.go:284-297 | a header resolves to the bytes it was written for after any later reservations and appends |
| `MultiBuffer.UndoGivesBack` | arrow/array/bufferbuilder.go:255-282 | undo after any such run gives back the captured blocks' bytes and the current block |
| `MultiBuffer.ResizedRoom` | arrow/memory/buffer.go:159-177 | a cut block keeps less than 64 bytes of room |
| `MultiBuffer.MultiBufferBuilder.Reserve` | arrow/array/bufferbuilder.go:187-224 | room in the current block, else in the first block that has it, else in a new one |
| `MultiBuffer.MultiBufferBuilder.UnsafeAppend` | arrow/array/bufferbuilder.go:284-297 | the value behind the current block's bytes, its place in the header, and the old length logged once |
| `MultiBuffer.MultiBufferBuilder.Restore` | arrow/array/bufferbuilder.go:273-282 | new blocks dropped, logged ones cut in any order, the captured block current |
| `ViewBuilder.StepContents` | arrow/array/binarybuilder.go:594-659 | an append keeps earlier slots and adds the value, while places can be written in 32 bits |
| `ViewBuilder.StepPlaces` | arrow/array/binarybuilder.go:594-659 | values of up to 12 bytes stay in the header, longer ones go to a block, nulls and empty values leave a blank header |
| `ViewBuilder.RunContents` | arrow/array/binarybuilder.go:594-659 | any run of appends adds exactly the appended values |
| `ViewBuilder.RollbackGivesBack` | arrow/array/binarybuilder.go:514-524 | rolling back after any appends gives the captured column and blocks, with blank headers behind |
| `ViewBuilder.BinaryViewBuilder.Append` | arrow/array/binarybuilder.go:594-603 | appends the value; longer ones than 2^31 - 1 bytes are refused |
| `ViewBuilder.BinaryViewBuilder.AppendBlank` | arrow/array/binarybuilder.go:623-645 | a null or an empty value without a header write |
| `ViewBuilder.BinaryViewBuilder.Restore` | arrow/array/binarybuilder.go:519-524 | back to the captured column |
| `BuilderColumns.FixedAdds` | arrow/array/numericbuilder.gen.go:70-78 | the column gains the number or a null |
| `BuilderColumns.BinaryAdds` | arrow/array/binarybuilder.go:118-133 | the column gains the bytes or a null |
| `BuilderColumns.ViewAdds` | arrow/array/binarybuilder.go:594-645 | the column gains what was appended, while places can be written in 32 bits |
| `BuilderColumns.DictionaryAdds` | arrow/array/dictionary.go:857-861 | the column gains the entry or a null |
| `BuilderColumns.ListAdds` | arrow/array/list.go:614-639 | the column gains the list of the values appended to the child, or a null |
| `BuilderColumns.BelowList` | arrow/array/list.go:418-445 | values appended to the child go to the last list, all others stay |
| `BuilderColumns.ListViewAdds` | arrow/array/list.go:1423-1457 | the same for list-views |
| `BuilderColumns.FixedSizeAdds` | arrow/array/fixed_size_list.go:227-240 | the same for fixed-size lists, where nulls fill the child |
| `BuilderColumns.StructAdds` | arrow/array/struct.go:384-400 | the column gains the record of the values its children gained, or a null |
| `BuilderColumns.FedAdds` | arrow/array/list.go:614-639 | the appends that decode a value of any kind add exactly that value to the column, and builders stay whole |
| `BuilderColumns.FedAllAdds` | arrow/array/list.go:641-648 | decoding values one after the other adds them in order |
| `Rollback.ApplyGrown` | arrow/array/record.go:576-599 | an append to any builder of the tree keeps everything it grew from |
| `Rollback.TruncationFindsData` | arrow/array/binarybuilder.go:303-311 | truncation cuts the data at the captured length |
| `Rollback.RestoreGivesBack` | arrow/array/record.go:548-566 | restoring parents before children gives the captured tree back |
| `Rollback.SameStands` | arrow/array/record.go:548-566 | trees that hold the same stand for the same column |
| `Rollback.RowAdds` | arrow/array/record.go:576-655 | a row that decodes one value for every field, in any order of the fields, adds each value to its field's column |
| `Rollback.RecordBuilder.CaptureAll` | arrow/array/record.go:526-546 | a checkpoint of every field, contents unchanged |
| `Rollback.RecordBuilder.UnmarshalOne` | arrow/array/record.go:576-655 | after a failed row every field holds what it held and stands for the same column; otherwise every column has gained its value of the row |
| `RunEndBuilder.NewRun` | arrow/array/encoded.go:461-485 | closing a run moves no slot, and the new run's slots follow |
| `RunEndBuilder.FinishedDecodes` | arrow/array/encoded.go:560-572 | the finished runs climb strictly to the length, one value each, and decode to the appended slots; nothing appended means no run-ends buffer |
| `RunEndBuilder.SumDecides` | arrow/array/encoded.go:453-459 | the 64-bit sum decides and counts as the true sum exactly when that is below 2^64; beyond, it is accepted and smaller than the length |
| `RunEndBuilder.SumShrinks` | arrow/array/encoded.go:453-459 | an instance: five slots and 2^64 - 1 more are four |
| `RunEndBuilder.UnsignedRange` | arrow/array/encoded.go:453-459 | slots are counted in 64 bits |
| `RunEndBuilder.RunStarted` | arrow/array/encoded.go:461-485 | a started run keeps the encoding exactly when it has slots and the sum does not wrap; without a value or without slots it breaks |
| `RunEndBuilder.RunEndEncodedBuilder.AddLength` | arrow/array/encoded.go:453-459 | counts slots by their 64-bit sum, refused exactly when that exceeds the run-end type |
| `RunEndBuilder.RunEndEncodedBuilder.Append` | arrow/array/encoded.go:482-485 | a run of n slots with its one value; the builder stays right exactly when n is positive and the sum does not wrap |
| `RunEndBuilder.RunEndEncodedBuilder.ContinueRun` | arrow/array/encoded.go:494-496 | n more slots of the open run; a sum that wraps cuts the array |
| `RunEndBuilder.RunEndEncodedBuilder.AppendNulls` | arrow/array/encoded.go:498-512 | one run of nulls; the builder stays right exactly when it is accepted |
| `RunEndBuilder.RunEndEncodedBuilder.AppendEmptyValues` | arrow/array/encoded.go:522-538 | one run of empty values; the builder stays right exactly when it is accepted |
| `RunEndBuilder.RunEndEncodedBuilder.AppendValueFromString` | arrow/array/encoded.go:575-595 | one slot; repeats of the last string join its run; the builder survives exactly accepted strings and refused repeats, and remembers a string that does not parse |
| `RunEndBuilder.RunEndEncodedBuilder.AppendUnparsableTwice` | arrow/array/encoded.go:575-595 | a string that does not parse is refused, then accepted as a longer run without a value |
| `RunEndBuilder.RunEndEncodedBuilder.NewData` | arrow/array/encoded.go:560-572 | the array decodes to everything appended, and the builder starts over |
| `RunEndBuilder.EmptyRunBreaks` | arrow/array/encoded.go:482-485 | a run of length 0 breaks the encoding |
| `RunEndBuilder.ValidateRunEndEncoded` | arrow/array/encoded.go:260-316 | full validation accepts exactly well-formed run ends that cover the window |
| `RunEndBuilder.LogicalRunEndsArray` | arrow/array/encoded.go:151-187 | the window's run ends counted from its start, cut to it behind an offset and shared at offset 0 |
| `RunEndBuilder.ReencodesSlice` | arrow/array/encoded.go:113-187 | logical run ends and values are an array at offset 0 with the window's column |
| `RunEndBuilder.SharesPrefix` | arrow/array/encoded.go:155-159 | at offset 0 they decode to the window too |
| `RunEndBuilder.LastShared` | arrow/array/encoded.go:155-159 | the last shared run end is the length exactly when a run ends there |
| `VariableWidthEquality.EqualRun` | arrow/array/binary.go:536-562 | equal payload and equal slot lengths hold exactly when all slots of the run are equal |
| `VariableWidthEquality.EqualListRun` | arrow/array/compare.go:412-431 | the same for lists |
| `VariableWidthEquality.EqualByRuns` | arrow/array/binary.go:496-534 | true exactly when all valid slots are equal, whatever null count is declared |
| `VariableWidthEquality.EqualBySlots` | arrow/array/binary.go:236-242 | the same, slot by slot |
| `VariableWidthEquality.ArrayEqualBinary` | arrow/array/binary.go:235-251 | the sampling heuristic never changes the answer |
| `VariableWidthEquality.ArrayEqualListOffsets` | arrow/array/compare.go:407-433 | list arrays are equal exactly when their valid slots are |
| `VariableWidthEquality.EqualSlotsAreEqualColumns` | arrow/array/binary.go:235-251 | with the same validity, equal slots are equal columns |
| `MapEquality.FindMatch` | arrow/array/compare.go:1020-1042 | finds the first unused entry with an equal key and an equal value or shows there is none, marking the nulls it passes |
| `MapEquality.BijectionCounts` | arrow/array/compare.go:995-1048 | for equivalences, a bijection of entries with equal keys and equal values makes every entry occur as often on either side |
| `MapEquality.FirstFitsAgree` | arrow/array/compare.go:1013-1046 | there is only one way to match first fits |
| `MapEquality.Unmatched` | arrow/array/compare.go:1013-1046 | an entry without an unused equal occurs more often on the left, so the greedy choice loses nothing |
| `MapEquality.NoBijection` | arrow/array/compare.go:1013-1046 | for equivalences, when the greedy choice is stuck there is no bijection |
| `MapEquality.ApproxEqualSingleMapEntry` | arrow/array/compare.go:995-1048 | true exactly when first fits are a bijection of entries with equal keys and values and right-hand nulls are passed; for equivalences, exactly when there is any bijection |
| `MapEquality.NullBehindMisses` | arrow/array/compare.go:1020-1048 | entries that compare unequal to themselves |
| `MapEquality.GreedyMisses` | arrow/array/compare.go:1020-1042 | with a tolerance as comparison, entries that a bijection matches compare unequal |
| `Timestamps.Combine` | arrow/datatype_fixedwidth.go:286-307 | the exact sum or a refusal, without overflow, also where division truncates below the smallest value |
| `Timestamps.ToTime` | arrow/datatype_fixedwidth.go:258-269 | the exact instant of every timestamp |
| `Timestamps.TimestampFromTime` | arrow/datatype_fixedwidth.go:272-307 | the instant rounded down to the unit, refused exactly when it does not fit |
| `Timestamps.RoundTrip` | arrow/datatype_fixedwidth.go:258-307 | timestamp to instant and back is the identity for every 64-bit value and unit |
| `Timestamps.ToTimestamp` | parquet/types.go:97-122 | the exact nanosecond value, refused exactly when it does not fit or exceeds a day |
| `Timestamps.Int96Agrees` | parquet/types.go:86-122 | both ways from INT96 to a nanosecond timestamp agree |
| `Timestamps.EpochDay` | parquet/types.go:34 | day 2440588 begins with the Unix epoch |
| `Timestamps.DaysFollow` | parquet/types.go:86-95 | every day begins 86400 seconds after the one before |

## Left out

- Buffers are sequences of their elements, built by appending: allocation, reference counts, byte order and in-place sharing of memory are not modelled.
- Lengths and positions are unbounded integers, so the checks for overflow of the machine's own int are not modelled; offset, run-end, index and header fields have explicit widths.
- Null, boolean, map (as an array), union and extension types in concatenation; map arrays are concatenated like lists.
- Concat.Concat: states the column of the result under `Countable`, for the code does not check view buffers, unified dictionaries or the ends of list-views against their types; what comes out beyond that is not stated.
- Run-end encoded arrays whose null count is unknown, or with a bitmap of their own, are not part of `Layout.WellFormed`.
- UnifyChunks.UnifyRecursive: states the columns for dictionaries of at most 2^31 entries; the flag that says whether anything changed and the writing of new children into the input's own nested arrays are not modelled.
- Dictionaries are sequences of values; the memo table's hashing and the layout of the dictionary array are not modelled.
- The bit-run readers and bitmap copies are given by short loops with the same result.
- Rollback is modelled on values: a tree of builders is a value that a row's appends replace, so aliasing between builders is not captured; run-end and union builders are not part of the tree. JSON itself is not modelled: a row is a sequence of appends, and `BuilderTree.OpsFor` gives those that decode a value, with the fields of a struct in order and the final size of a list-view written at once.
- BuilderColumns.FedAdds: offsets, starts and sizes of builders are unbounded integers; their 32-bit overflow is modelled for the binary builder only.
- Rollback.RestoreGivesBack: the flag of the run-end builder that a checkpoint does not save is outside the tree.
- BitmapBuilder.Builder.Reserve: growth only; a resize to fewer bits is not modelled.
- BinaryBuilder.BinaryBuilder.Append: once the bytes exceed the offset type, which the code asserts only in debug builds, nothing more is stated; spare room in the buffers is not modelled.
- ViewBuilder.BinaryViewBuilder.Append: spare headers are added one at a time rather than by doubling; bulk appends are not modelled.
- RunEndBuilder.RunEndEncodedBuilder.Append: joins the call that starts a run and the append to the value builder that goes with it; JSON decoding and room reserved for run ends before any are appended are not modelled.
- Equality of run-end encoded arrays over merged runs; lists and maps in the range of values used.
- MyersDiff.Diff: the type checks before the search and the choice of the value comparison are left to the caller.
- Printing of single values in unified diffs, JSON, string parsing and approximate floating-point equality.
- The vectorised packing of booleans and transposition of indices; the portable versions are modelled.
- Timestamps.TimestampFromTime: an unknown unit is not representable.

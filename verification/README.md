# A verified model of Realm's list mutation, transactions, handover and change notification

Realm keeps objects in a versioned file. Swift code sees them through live
collections that it mutates inside write transactions, observes for changes, and
passes between threads. This project models the parts of that machinery where the
behaviour is hardest to see from the code, and proves what they promise:

* **Bulk list mutation** (`Lists`, `Selections`). `List`'s range and offset
  operations are loops of single insertions and removals whose indices shift under
  their own effect. Each loop refines a one-line sequence specification, with the
  exact condition under which it raises and what it leaves behind when it does.
* **Versions and transactions** (`VersionedStores`, `RealmWrites`). Any number of
  instances begin, write, commit, cancel, refresh, freeze and hand out references
  in any order. Isolation, append-only history, frozen views and serialisability
  hold over every run; `Realm.write` is characterised for every block.
* **Handover between queues** (`Handovers`). The Combine publishers turn values into
  one-shot references, queue them and resolve them elsewhere while the file moves on.
* **Change sets** (`IndexSets`, `IndexSetOperations`, `ChangeSets`, `RowChanges`,
  `Reports`, `StoredChanges`, `ChangeMerging`, `ChangeBuilders`). Index-set arithmetic, the
  recording of single changes, and the merge of whole change sets. The merge is
  proved to compose: an account of a change from A to B and one of a change from B
  to C become a true account of the change from A to C, moves included.
* **Calculating change sets** (`Sorting`, `RowPairing`, `CommonBlocks`,
  `RowAlignment`, `KeptRuns`, `Calculation`). From the object keys of two versions, repeated
  objects included, to a true change set: pairing by key, the search for longest
  common blocks, and the alignment along them.
* **Notification delivery** (`CallbackTrails`, `Notifiers`, `CollectionNotifiers`,
  `ObserveBlocks`). How a collection notifier accumulates, packages and delivers
  change sets to callbacks that may register and remove callbacks while being
  called, and what a Swift observer then sees.
* **Tables** (`Reconstruction`, `TableViews`). What an observer is told suffices to
  rebuild the new version from the old one, and a table view that follows the
  notifications shows the collection, over every run.
* **Observer chains** (`ObserverChains`). The intrusive doubly linked lists of
  key-value observers, on the heap.
* **Dates** (`Timestamps`) and **bridging, iteration and coding** (`Bridging`,
  `Iteration`).

Exceptions are values (`Outcomes`), traps are `None`, threads are interleaved steps,
and callbacks, codecs and other instances are universally quantified. Where Swift
uses a type, `Bridging.Type` is that type as a value.

## Where the code differs from what it documents

* `removeSubrange` and `replaceSubrange` on a range that runs past the end raise
  only after everything from the lower bound on has been removed
  (`Lists.List.RemoveSubrange`, `Lists.List.ReplaceSubrange` state it exactly).
* The lower clamp of dates subtracts the epoch with the wrong sign, so timestamps in
  the lowest 2 × 978307200 seconds do not survive a round trip
  (`Timestamps.RoundTripTimestamp`, `Timestamps.EarlyTimestampIsClamped`).
* `m_callback_count` is documented as the number of packaged callbacks that are still
  present, but removing a callback that was registered after the packaging also
  decrements it. The delivery then stops short (or, once the counter has wrapped, does
  not stop where it should), and a callback that is not reached loses what was due.
  `Notifiers.LoopTestWrongIff` gives the exact conditions, `Notifiers.LostIff` and
  `Notifiers.LostForGood` the exact loss, `Notifiers.LateRemovalMisses` a run, and
  `Notifiers.PoliteLosesNothing` a condition on callers that rules it out.
* A list's observer does not skip the first change set, so a change committed before
  its first call makes it receive an update before any initial notification
  (`ObserveBlocks.ObserverProtocol` has the exact condition,
  `ObserveBlocks.ListStartsWithUpdate` the runs, `ObserveBlocks.ListMayStartWithUpdate`
  one of them).
* Resolving a reference in an instance that is behind refreshes it to the latest
  version, not to the referenced one, so a collection handed over live need not match
  the change indices it arrives with (`Handovers.ResolvedAtEmission`,
  `Handovers.LiveUpdateMayMismatch`).
* The indices reported as modifications are positions in the previous version, as a
  table view's batch update wants them; the parameter's documentation says the new
  version. `Reports.ModifiedMayDiffer` is an input on which the two differ, and
  `Reports.ModifiedAgreeIff` says exactly when they agree.

* The search for common blocks compares a position in the first sequence with the
  bound of the second one before it looks to the right of a block, and so can leave out
  a row that could be kept: `CommonBlocks.RowMissed` is an input, and
  `CommonBlocks.FindLongestMatches` shows that only rows further back in the first
  sequence than in the second can be left out.
* Among equally long blocks the one with fewer modified rows is meant to be taken, but
  the number for the best one is counted over other rows
  (`CommonBlocks.LazyCountIsOff`, `CommonBlocks.Better`).

## Model

| member | source | states |
|---|---|---|
| `Lists.RlmArray.InsertObject` | Realm/RLMArray.mm:261-267 | inserts before the index, raises exactly beyond the count and then changes nothing |
| `Lists.RlmArray.RemoveObjectAt` | Realm/RLMArray.mm:280-285 | removes exactly that element, raises exactly out of bounds and then changes nothing |
| `Lists.RlmArray.RemoveLastObject` | Realm/RLMArray.mm:82-87 | drops the last element, nothing on an empty array |
| `Lists.RlmArray.MoveObject` | Realm/RLMArray.mm:301-313 | removal followed by insertion at the destination among the rest, both bounds checked |
| `Lists.List.Get` | RealmSwift/List.swift:110-114 | the element, or an exception for a negative or too large position |
| `Lists.List.Insert` | RealmSwift/List.swift:288-291 | bounds and effect of a single insertion |
| `Lists.List.Remove` | RealmSwift/List.swift:302-305 | bounds and effect of a single removal |
| `Lists.List.Move` | RealmSwift/List.swift:341-345 | bounds and effect of the primitive move |
| `Lists.List.AppendAll` | RealmSwift/List.swift:272-276 | the loop appends the whole sequence |
| `Lists.List.ReplaceSubrange` | RealmSwift/List.swift:501-511 | becomes prefix, new elements, suffix exactly when the range fits; otherwise the list is truncated at the lower bound |
| `Lists.List.RemoveSubrange` | RealmSwift/List.swift:610-615 | the range is gone exactly when it fits; otherwise the list is truncated at the lower bound |
| `Lists.List.RemoveFirst` | RealmSwift/List.swift:562-572 | all or nothing: drops the first n exactly when 0 <= n <= count |
| `Lists.List.RemoveLast` | RealmSwift/List.swift:580-590 | all or nothing: drops the last n exactly when 0 <= n <= count |
| `Lists.List.InsertContents` | RealmSwift/List.swift:597-603 | the moving index inserts the elements in order; agrees with the splice of an empty range |
| `Lists.List.RemoveAtOffsets` | RealmSwift/List.swift:618-622 | leaves exactly the unselected elements in order, or raises with nothing changed |
| `Lists.List.MoveOffsets` | RealmSwift/List.swift:625-638 | unselected before, selected, unselected after the destination; raises exactly on an invalid offset or destination, with nothing changed |
| `Lists.List.CopyAtOffsets` | RealmSwift/List.swift:626-629 | the copies are the selected elements in order |
| `Lists.List.RemoveOriginals` | RealmSwift/List.swift:631-637 | removing the originals around the inserted copies never misses an index and completes the move |
| `Lists.MoveKeepsElements` | RealmSwift/List.swift:625-638 | a move is a permutation |
| `Lists.MovedAt` | RealmSwift/List.swift:625-638 | where each element ends up, computed by counting |
| `Lists.MoveIsRemoveThenInsert` | RealmSwift/List.swift:625-638 | the two-phase move equals removing and inserting among the rest |
| `Lists.BlockMove` | RealmSwift/List.swift:625-638 | moving a contiguous block exchanges two neighbouring stretches |
| `Lists.BlockLands` | RealmSwift/List.swift:625-638 | the block stands together at its landing position |
| `Lists.MoveBackRestores` | RealmSwift/List.swift:625-638 | moving a block back from where it landed restores the list |
| `Lists.SingletonMoveIsPrimitive` | RealmSwift/List.swift:341-345 | moving one offset is the primitive move with the adjusted destination |
| `Lists.RemoveOffsetsIsRemoveSubrange` | RealmSwift/List.swift:610-622 | removing contiguous offsets is removing the subrange |
| `Timestamps.ForDate` | Realm/RLMUtil.hpp:146-169 | null, NaN, both clamps, exact truncation in between; every cast fits and the result has one sign |
| `Timestamps.SplitTruncation` | Realm/RLMUtil.hpp:159-161 | truncating seconds and then the rest is truncating nanoseconds |
| `Timestamps.ReferenceDate` | Realm/RLMUtil.hpp:139-144 | the shift between the epochs is the time from 1970 to 2001 by the calendar |
| `Timestamps.ConvertsUnique` | Realm/RLMUtil.hpp:146-169 | the meaning determines the timestamp |
| `Timestamps.InstantRange` | Realm/RLMUtil.hpp:153-157 | unclamped instants lie strictly between the clamp values |
| `Timestamps.ForDateMonotone` | Realm/RLMUtil.hpp:146-169 | conversion is monotone over all dates except NaN, clamps and infinities included |
| `Timestamps.RoundTripTimestamp` | Realm/RLMUtil.hpp:139-169 | timestamp to date to timestamp is the identity if and only if the timestamp is between the guards or a clamp value |
| `Timestamps.EarlyTimestampIsClamped` | Realm/RLMUtil.hpp:156-157 | a representable timestamp that the lower guard clamps |
| `Timestamps.RoundTripDate` | Realm/RLMUtil.hpp:139-169 | date to timestamp to date moves by less than a nanosecond and only towards the reference date |
| `IndexSets.UnshiftMonotone` | Realm/ObjectStore/src/index_set.cpp:667-671 | unshifting keeps order |
| `IndexSets.ShiftUnshift` | Realm/ObjectStore/src/index_set.cpp:656-671 | shift and unshift are inverse off the set |
| `IndexSets.UnshiftInserted` | Realm/ObjectStore/src/index_set.cpp:456-485 | unshifting across an insertion is unshifting twice |
| `IndexSets.UnshiftErased` | Realm/ObjectStore/src/index_set.cpp:542-571 | unshifting commutes with erasing |
| `IndexSetOperations.ShiftIndex` | Realm/ObjectStore/src/index_set.cpp:656-665 | the loop finds the position with that rank outside the set |
| `IndexSetOperations.UnshiftIndex` | Realm/ObjectStore/src/index_set.cpp:667-671 | the index less the members below it |
| `IndexSetOperations.EraseAt` | Realm/ObjectStore/src/index_set.cpp:542-571 | the members outside the positions, renumbered |
| `IndexSetOperations.ShiftForInsertAt` | Realm/ObjectStore/src/index_set.cpp:508-533 | the members moved apart for the inserted positions |
| `IndexSetOperations.InsertAt` | Realm/ObjectStore/src/index_set.cpp:456-485 | the moved members together with the positions |
| `IndexSetOperations.AddShiftedBy` | Realm/ObjectStore/src/index_set.cpp:375-420 | one pass translates back across one set, forward across the other, and merges |
| `IndexSetOperations.AddShifted` | Realm/ObjectStore/src/index_set.cpp:359-373 | adds the position with that rank outside the set |
| `IndexSetOperations.EraseOrUnshift` | Realm/ObjectStore/src/index_set.cpp:573-595 | renumbers the rest, and reports the index unless it was a member |
| `IndexSetOperations.Contains` | Realm/ObjectStore/src/index_set.cpp:273-277 | membership |
| `IndexSetOperations.Add` | Realm/ObjectStore/src/index_set.cpp:346-349 | set insertion |
| `IndexSetOperations.AddAll` | Realm/ObjectStore/src/index_set.cpp:351-357 | union |
| `IndexSetOperations.Remove` | Realm/ObjectStore/src/index_set.cpp:641-644 | set removal |
| `IndexSetOperations.RemoveAll` | Realm/ObjectStore/src/index_set.cpp:646-654 | difference |
| `ChangeSets.KeepsComposes` | Realm/ObjectStore/src/impl/collection_change_builder.cpp:126-132 | a row survives the combined change if and only if it survives both, at the composed positions |
| `ChangeSets.CombineFits` | Realm/ObjectStore/src/impl/collection_change_builder.cpp:126-132 | the combined indices fit the outer versions |
| `ChangeSets.CombineMovesValid` | Realm/ObjectStore/src/impl/collection_change_builder.cpp:273-281 | combined moves are deletions and insertions, and share no end |
| `ChangeSets.CombinedMoveIff` | Realm/ObjectStore/src/impl/collection_change_builder.cpp:69-124 | a row is reported as moved exactly if one of the changes moved it and neither deleted it |
| `ChangeSets.CombinedModifiedIff` | Realm/ObjectStore/src/impl/collection_change_builder.cpp:107-140 | a row is reported as modified exactly if the second change modified it, or the first did and it stayed or was moved |
| `ChangeSets.CombineDescribes` | Realm/ObjectStore/src/impl/collection_change_builder.cpp:40-144 | true accounts of consecutive changes combine to a true account |
| `ChangeSets.DropKeeps` | Realm/ObjectStore/src/impl/collection_change_builder.cpp:146-158 | dropping a stale move turns exactly its row into a survivor |
| `ChangeSets.CleanUpDescribes` | Realm/ObjectStore/src/impl/collection_change_builder.cpp:146-158 | cleaning up stale moves, in any order, keeps the account true |
| `ChangeSets.DropUnstales` | Realm/ObjectStore/src/impl/collection_change_builder.cpp:146-158 | dropping a stale move makes no other move stale |
| `ChangeSets.CleanUpLeavesNone` | Realm/ObjectStore/src/impl/collection_change_builder.cpp:146-158 | no move that is a no-op is left |
| `ChangeSets.CleanUpOnlyDrops` | Realm/ObjectStore/src/impl/collection_change_builder.cpp:146-158 | nothing but moves with their deletion and insertion is dropped |
| `ChangeSets.SurvivorsAgree` | Realm/ObjectStore/src/impl/collection_change_builder.cpp:533-557 | deleting the deletions and the insertions leaves the same rows in the same order |
| `Reports.ModifiedPairs` | Realm/ObjectStore/src/impl/collection_change_builder.cpp:653-673 | old and new modification indices name exactly the modified rows that kept their place |
| `Reports.ModifiedSurvives` | Realm/ObjectStore/src/impl/collection_change_builder.cpp:653-673 | every reported modification is of a surviving row |
| `Reports.ModifiedAgreeIff` | RealmSwift/RealmCollection.swift:104-110 | reported modifications are positions in the new version exactly when as many rows were deleted as inserted in front of each |
| `Reports.ModifiedMayDiffer` | RealmSwift/RealmCollection.swift:104-110 | an inserted row in front of a modified one: row 1 is modified and row 0 reported |
| `Reports.ToldDescribes` | Realm/ObjectStore/src/impl/collection_change_builder.cpp:653-673 | a finalized change set is still a true account, apart from its moves |
| `Reports.FinalEmptyIff` | Realm/ObjectStore/src/impl/collection_change_builder.cpp:653-673 | finalizing an account leaves nothing exactly if there was nothing |
| `Reconstruction.SurvivorAt` | Realm/ObjectStore/src/impl/collection_change_builder.cpp:533-557 | each row that was not inserted is the survivor of its rank |
| `Reconstruction.ApplyChange` | Realm/ObjectStore/src/impl/collection_change_builder.cpp:533-557 | deleting back to front and inserting front to back turns the old version into the new one, up to the modifications |
| `Reconstruction.UpdateTable` | RealmSwift/RealmCollection.swift:59-80 | a table updated in a batch from the three reported lists, fetching only inserted and modified rows, is the new collection exactly |
| `Reconstruction.BatchedIsNew` | RealmSwift/RealmCollection.swift:59-80 | a table that shows the old version shows the new one after a true report |
| `TableViews.ScreenFollows` | RealmSwift/RealmCollection.swift:59-80 | call by call, a table that reloads on initial and batch-updates on update shows the end of its history |
| `TableViews.TableInSync` | RealmSwift/RealmCollection.swift:59-80 | over every run of polite callers without suppression, however changes are batched, the table shows the collection as of the last packaging |
| `RowChanges.SingleDescribes` | Realm/ObjectStore/src/impl/collection_change_builder.cpp:160-271 | the change set of one insertion, erasure, move, modification or clearing is true |
| `RowChanges.RecordDescribes` | Realm/ObjectStore/src/impl/collection_change_builder.cpp:160-271 | recording one more change keeps the account true |
| `RowChanges.MoveCarriesMark` | Realm/ObjectStore/src/impl/collection_change_builder.cpp:262-270 | recording a move carries the mark of a modified row along and marks no other |
| `RowChanges.RunDescribes` | Realm/ObjectStore/src/impl/collection_change_builder.cpp:160-271 | so does recording any sequence of changes |
| `RowChanges.FreshRunDescribes` | Realm/ObjectStore/src/impl/collection_change_builder.cpp:160-271 | a builder describes everything it was told |
| `StoredChanges.CombineInsertion` | Realm/ObjectStore/src/impl/collection_change_builder.cpp:178-192 | the in-place update for an insertion is the combination with it |
| `StoredChanges.CombineErasure` | Realm/ObjectStore/src/impl/collection_change_builder.cpp:194-210 | the in-place update for an erasure is the combination with it |
| `StoredChanges.CombineClearing` | Realm/ObjectStore/src/impl/collection_change_builder.cpp:212-224 | the in-place update for a clearing is the combination with it |
| `StoredChanges.CombineRelocation` | Realm/ObjectStore/src/impl/collection_change_builder.cpp:226-271 | the in-place update for a move is the combination with it |
| `StoredChanges.InsertRows` | Realm/ObjectStore/src/impl/collection_change_builder.cpp:178-192 | computes that combination |
| `StoredChanges.EraseRow` | Realm/ObjectStore/src/impl/collection_change_builder.cpp:194-210 | computes that combination |
| `StoredChanges.RelocateRow` | Realm/ObjectStore/src/impl/collection_change_builder.cpp:226-271 | computes that combination, carrying the modification mark |
| `StoredChanges.RelocateMoves` | Realm/ObjectStore/src/impl/collection_change_builder.cpp:230-250 | the loop shifts recorded moves and re-targets the moved row's own |
| `StoredChanges.FinalizeStored` | Realm/ObjectStore/src/impl/collection_change_builder.cpp:653-673 | computes the finalized change set |
| `ChangeMerging.UpdateMoves` | Realm/ObjectStore/src/impl/collection_change_builder.cpp:69-97 | moves of moved rows are joined, dead ones dropped, the others re-targeted |
| `ChangeMerging.RebaseMoves` | Realm/ObjectStore/src/impl/collection_change_builder.cpp:99-124 | later moves are expressed in the first version, moves of new rows dropped |
| `ChangeMerging.CleanUpStaleMoves` | Realm/ObjectStore/src/impl/collection_change_builder.cpp:146-158 | the erasing loop computes the clean-up, and no stale move is left |
| `ChangeMerging.CombineStored` | Realm/ObjectStore/src/impl/collection_change_builder.cpp:69-140 | the whole in-place merge computes the combination |
| `ChangeMerging.MergeStored` | Realm/ObjectStore/src/impl/collection_change_builder.cpp:40-144 | the merge including its shortcuts for empty sides; a real merge leaves no stale move |
| `ChangeMerging.EmptyMeansSame` | Realm/ObjectStore/src/impl/collection_change_builder.cpp:42-47 | an empty account means nothing changed, which justifies the shortcuts |
| `ChangeMerging.MergeDescribes` | Realm/ObjectStore/src/impl/collection_change_builder.cpp:40-144 | merging accounts of consecutive changes gives a true account of both |
| `ChangeBuilders.CollectionChangeBuilder.Insert` | Realm/ObjectStore/src/impl/collection_change_builder.cpp:178-192 | the builder's new state is the old one combined with the insertion, or without move tracking just the modifications making room |
| `ChangeBuilders.CollectionChangeBuilder.Modify` | Realm/ObjectStore/src/impl/collection_change_builder.cpp:160-166 | likewise for a modification |
| `ChangeBuilders.CollectionChangeBuilder.Erase` | Realm/ObjectStore/src/impl/collection_change_builder.cpp:194-210 | likewise for an erasure |
| `ChangeBuilders.CollectionChangeBuilder.Clear` | Realm/ObjectStore/src/impl/collection_change_builder.cpp:212-224 | likewise for a clearing, whose size it recomputes |
| `ChangeBuilders.CollectionChangeBuilder.Move` | Realm/ObjectStore/src/impl/collection_change_builder.cpp:226-271 | likewise for a move |
| `ChangeBuilders.CollectionChangeBuilder.Merge` | Realm/ObjectStore/src/impl/collection_change_builder.cpp:40-144 | the builder's new state is the merge, without stale moves |
| `ChangeBuilders.CollectionChangeBuilder.Finalize` | Realm/ObjectStore/src/impl/collection_change_builder.cpp:653-673 | the finalized form of what was recorded |
| `RowPairing.BuildRowInfo` | Realm/ObjectStore/src/impl/collection_change_builder.cpp:616-624 | all rows of a version, sorted by key |
| `RowPairing.PairUp` | Realm/ObjectStore/src/impl/collection_change_builder.cpp:559-593 | the walk pairs rows with equal keys and splits the rest; nothing is left on both sides that could have been paired, and nothing at all if the versions have the same keys |
| `RowPairing.LeftoversAreGone` | Realm/ObjectStore/src/impl/collection_change_builder.cpp:559-593 | without repeated objects exactly the gone ones are left over in the old version and the new ones in the new version |
| `CommonBlocks.PositionsOf` | Realm/ObjectStore/src/impl/collection_change_builder.cpp:414-430 | all positions of a key in the window, in order; the lookup never fails |
| `CommonBlocks.Better` | Realm/ObjectStore/src/impl/collection_change_builder.cpp:445-454 | a longer block wins, and among equally long ones the one with fewer modified rows, if the number for the best block was counted over its own rows |
| `CommonBlocks.LazyCountIsOff` | Realm/ObjectStore/src/impl/collection_change_builder.cpp:449-450 | the number counted lazily for the best block is of other rows |
| `CommonBlocks.ScanRow` | Realm/ObjectStore/src/impl/collection_change_builder.cpp:433-460 | one row of the table of block lengths |
| `CommonBlocks.FindLongestMatch` | Realm/ObjectStore/src/impl/collection_change_builder.cpp:392-461 | a common block of the window, and none is longer |
| `CommonBlocks.FindLongestMatches` | Realm/ObjectStore/src/impl/collection_change_builder.cpp:464-479 | a chain of common blocks that holds a longest one and to which no row could be added, except rows further back in the first sequence than in the second |
| `CommonBlocks.RowMissed` | Realm/ObjectStore/src/impl/collection_change_builder.cpp:477-478 | such a row that could have been kept and is not |
| `KeptRuns.RunsKept` | Realm/ObjectStore/src/impl/collection_change_builder.cpp:482-530 | without repeated objects no run common to both versions is longer than what is kept |
| `RowAlignment.AlignMatches` | Realm/ObjectStore/src/impl/collection_change_builder.cpp:520-530 | everything outside the blocks is deleted and inserted; what is kept has the same keys in the same order, and all of every block |
| `Calculation.CalculateMovesSorted` | Realm/ObjectStore/src/impl/collection_change_builder.cpp:482-530 | the rows present in both versions, aligned; nothing is moved if they keep their order, and no common run is longer than what is kept |
| `Calculation.CalculateSorted` | Realm/ObjectStore/src/impl/collection_change_builder.cpp:559-606 | the same objects in the same order are kept and the changed ones marked, whichever way the rows were sorted by key |
| `Calculation.CalculatedDescribes` | Realm/ObjectStore/src/impl/collection_change_builder.cpp:533-557 | such a change set is a true account of any two versions with these keys |
| `Calculation.Calculate` | Realm/ObjectStore/src/impl/collection_change_builder.cpp:610-651 | true for all key sequences, repeated objects included; exactly the changed rows are marked; nothing is reported for equal keys; without repeated objects at least a longest common run is kept, and exactly the gone and new objects are reported if none moved |
| `VersionedStores.InvNext` | Realm/ObjectStore/src/shared_realm.cpp:617-709 | every step keeps one writer on the latest version and every pinned version in the file |
| `VersionedStores.InvRun` | Realm/RLMRealm.h:313-333 | over every run at most one writer is open |
| `VersionedStores.HistoryAppendOnly` | Realm/RLMRealm.h:313-333 | committed versions are never changed or removed |
| `VersionedStores.Isolation` | Realm/RLMRealm.h:313-333 | no step of another instance changes what an instance sees |
| `VersionedStores.IsolationRun` | Realm/RLMRealm.h:313-333 | nor does any run of such steps |
| `VersionedStores.FrozenForever` | Realm/RLMRealm.h:203-214 | a frozen view never changes until it is closed |
| `VersionedStores.CancelRestores` | Realm/RLMRealm.h:411-440 | cancelling restores what the instance saw at the beginning |
| `VersionedStores.Serialisable` | Realm/RLMRealm.h:313-333 | the history of every interleaving is that of its committed transactions run alone in commit order |
| `VersionedStores.PerformInOrder` | RealmSwift/Realm.swift:226-237 | the writes of a transaction take effect in order |
| `VersionedStores.LastWriteDecides` | RealmSwift/Realm.swift:226-237 | the last write to an object decides whether it is there and what it holds |
| `VersionedStores.UnwrittenStay` | RealmSwift/Realm.swift:226-237 | objects that are not written stay as they were |
| `VersionedStores.OpenShows` | Realm/ObjectStore/src/shared_realm.cpp:128-140 | a new instance sees nothing until it begins to read |
| `VersionedStores.BeginReadShows` | Realm/ObjectStore/src/shared_realm.cpp:133-140 | a read transaction begins at the latest version |
| `VersionedStores.AdvanceShows` | Realm/ObjectStore/src/shared_realm.cpp:818-863 | an instance can move on to exactly the versions from its own to the latest, and shows the one it moved to |
| `VersionedStores.BeginShows` | Realm/ObjectStore/src/shared_realm.cpp:617-655 | a write transaction can begin exactly when the lock is free, and begins on the latest version |
| `VersionedStores.WriteShows` | Realm/RLMRealm.h:313-333 | a write is seen by the writer at once |
| `VersionedStores.FreezeShows` | Realm/ObjectStore/src/shared_realm.cpp:904-910 | a frozen instance shows what its source shows |
| `VersionedStores.InvalidateReleases` | Realm/ObjectStore/src/shared_realm.cpp:692-709 | invalidating gives up the version and, when writing, the writes and the lock |
| `VersionedStores.ReclaimFrees` | Realm/RLMRealm.h:543-553 | exactly the versions older than all in use can be reclaimed |
| `VersionedStores.ReferencePins` | Realm/RLMRealm.h:568-587 | a reference pins the version its maker sees |
| `VersionedStores.ResolveShows` | Realm/ObjectStore/src/thread_safe_reference.cpp:53-67 | what a target shows after resolving, in every case: behind, ahead, level, without a read transaction, sending notifications |
| `RealmWrites.Realm.BeginWrite` | Realm/ObjectStore/src/shared_realm.cpp:617-655 | raises exactly inside a transaction or when frozen |
| `RealmWrites.Realm.CommitWrite` | Realm/ObjectStore/src/shared_realm.cpp:657-677 | raises exactly outside a transaction; else what the writer saw is the new latest version, the lock is free and nobody sees anything change |
| `RealmWrites.Realm.CancelWrite` | Realm/ObjectStore/src/shared_realm.cpp:679-690 | raises exactly outside a transaction; else the history is unchanged, the writer sees the latest version, the lock is free and nobody else sees anything change |
| `RealmWrites.Realm.Write` | RealmSwift/Realm.swift:226-237 | for every block: it raises exactly if some step of it is illegal where it comes, how far it ran, how it ended, and that the instance is outside a transaction unless an exception passed through |
| `RealmWrites.Realm.RunBlock` | RealmSwift/Realm.swift:229-234 | runs the block up to the first step of its own that raises |
| `RealmWrites.RaisesIff` | Realm/ObjectStore/src/shared_realm.cpp:617-690 | among the steps of its own instance exactly those raise that cannot be taken |
| `RealmWrites.RaisesUnlessLegal` | RealmSwift/Realm.swift:226-237 | a block runs through exactly if every step can be taken where it comes |
| `RealmWrites.WriteCommits` | RealmSwift/Realm.swift:226-237 | history grows by the block's commits, plus one exactly on normal return in an open transaction |
| `RealmWrites.LockExcludesCommits` | Realm/RLMRealm.h:313-333 | while a transaction is open nobody else commits and its log is exactly its own writes |
| `RealmWrites.WriteIsAtomic` | RealmSwift/Realm.swift:226-237 | a block that only writes adds all of its writes as one version, or nothing on error |
| `Handovers.PackageRoundTrip` | RealmSwift/Combine.swift:1118-1139 | packaging and unpackaging exchanges the value and nothing else |
| `Handovers.HeadSettles` | RealmSwift/Combine.swift:852-869 | the head of the queue arrives as the store has it then: dropped exactly when its realm cannot be opened or its object is not there |
| `Handovers.FrozenOpenOnArrival` | RealmSwift/Combine.swift:131-167 | when a frozen value arrives its realm is still open at the emitted version and shows it |
| `Handovers.StepKeeps` | RealmSwift/Combine.swift:1361-1400 | every step keeps the queue, the references and the settlements in agreement |
| `Handovers.HandoverRun` | RealmSwift/Combine.swift:1118-1139 | over every run, deliveries are the emissions in order minus exactly the unresolvable ones |
| `Handovers.DrainedPinsNothing` | RealmSwift/Combine.swift:786-794 | a drained pipeline has settled everything and holds no reference |
| `Handovers.ArrivedInOrder` | RealmSwift/Combine.swift:1118-1139 | each delivered value arrives after everything delivered before it |
| `Handovers.ArrivesIff` | Realm/ObjectStore/src/thread_safe_reference.cpp:53-67 | a resolved value arrives exactly if it is a collection of results or its object is there |
| `Handovers.NothingConfinedCrosses` | RealmSwift/Combine.swift:1361-1400 | a live value that arrives belongs to the realm it was resolved in |
| `Handovers.NothingConfinedWaits` | RealmSwift/Combine.swift:1361-1400 | no live value waits in the queue itself |
| `Handovers.HeadCanBeSettled` | RealmSwift/Combine.swift:852-869 | delivery is never stuck |
| `Handovers.WaitingIsPinned` | Realm/RLMRealm.h:568-587 | a waiting value's version cannot be reclaimed |
| `Handovers.FreezeThenEmit` | RealmSwift/Combine.swift:131-167 | freezing keeps the version and the indices of what is emitted |
| `Handovers.FrozenUpdateMatches` | RealmSwift/Combine.swift:131-167 | a frozen change set is never dropped and its indices describe what its collection shows on arrival |
| `Handovers.LiveUpdateArrives` | RealmSwift/Combine.swift:1364-1398 | a live one keeps its indices and shows the emitted version or a later one, earlier only in a target that is sending notifications |
| `Handovers.ResolvedAtEmission` | Realm/ObjectStore/src/thread_safe_reference.cpp:53-67 | exactly when a live value is resolved at the version it was emitted at, and exactly when at an earlier one |
| `Handovers.LiveUpdateMayMismatch` | RealmSwift/Combine.swift:1364-1398 | a run in which the indices do not describe what the collection shows on arrival |
| `Handovers.TruthfulStays` | RealmSwift/Combine.swift:1364-1398 | what an update said truly when emitted stays true as the history grows |
| `Handovers.RunOnlyAdds` | RealmSwift/Combine.swift:1361-1400 | runs only add versions, emissions and settlements |
| `Notifiers.StepKeeps` | Realm/ObjectStore/src/impl/collection_notifier.cpp:208-435 | every step keeps the delivery invariant, deliveries that stop short or are dropped included |
| `Notifiers.RemovedOrder` | Realm/ObjectStore/src/impl/collection_notifier.cpp:222-245 | removal keeps the loop variable in front of the unreached callbacks and accounts for the counter |
| `Notifiers.OnlySuppressedIsSpared` | Realm/ObjectStore/src/impl/collection_notifier.cpp:248-262 | of the callbacks that are up to date exactly the suppressed one is not called about the next change |
| `Notifiers.EveryCallbackHearsAll` | Realm/ObjectStore/src/impl/collection_notifier.cpp:341-356 | over every run, each callback hears everything packaged for it and not lost, once and in order, and every packaged change is true |
| `CallbackTrails.ChangedInformed` | Realm/ObjectStore/src/impl/collection_notifier.cpp:419-434 | what accumulates for a callback describes everything since its last packaging |
| `CallbackTrails.PackedWaits` | Realm/ObjectStore/src/impl/collection_notifier.cpp:383-392 | packaging makes exactly that pending |
| `CallbackTrails.CalledHears` | Realm/ObjectStore/src/impl/collection_notifier.cpp:341-356 | a call delivers what is pending, unless it is an empty change after the first call |
| `CallbackTrails.PassedInformed` | Realm/ObjectStore/src/impl/collection_notifier.cpp:383-392 | a delivery that does not reach a callback loses exactly what was due to it |
| `CallbackTrails.CallsAccountForHistory` | Realm/ObjectStore/src/impl/collection_notifier.cpp:341-434 | composing what a callback heard accounts for everything since its registration |
| `Notifiers.LoopTestWrongIff` | Realm/ObjectStore/src/impl/collection_notifier.cpp:394-406 | exactly when the delivery loop stops short and when it overruns, wrap-around included |
| `Notifiers.LostIff` | Realm/ObjectStore/src/impl/collection_notifier.cpp:394-406 | the end of a delivery loses something for exactly the callbacks not reached that had something due |
| `Notifiers.LostForGood` | Realm/ObjectStore/src/impl/collection_notifier.cpp:383-392 | what was lost is overwritten by the next packaging |
| `Notifiers.LateRemovalStopsShort` | Realm/ObjectStore/src/impl/collection_notifier.cpp:222-245 | registering and removing a callback during the last but one call always stops the delivery short |
| `Notifiers.LateRemovalMisses` | Realm/ObjectStore/src/impl/collection_notifier.cpp:222-245 | a run in which a registered callback loses its initial call |
| `Notifiers.PoliteLosesNothing` | Realm/ObjectStore/src/impl/collection_notifier.hpp:235-242 | if only packaged callbacks are removed during a delivery and no package is dropped, nothing is ever lost |
| `CollectionNotifiers.CollectionNotifier.AddCallback` | Realm/ObjectStore/src/impl/collection_notifier.cpp:208-220 | is the registration step |
| `CollectionNotifiers.CollectionNotifier.FindCallback` | Realm/ObjectStore/src/impl/collection_notifier.cpp:264-273 | the first callback with the token |
| `CollectionNotifiers.CollectionNotifier.RemoveCallback` | Realm/ObjectStore/src/impl/collection_notifier.cpp:222-245 | is the removal step |
| `CollectionNotifiers.CollectionNotifier.SuppressNextNotification` | Realm/ObjectStore/src/impl/collection_notifier.cpp:248-262 | is the suppression step |
| `CollectionNotifiers.CollectionNotifier.AddChanges` | Realm/ObjectStore/src/impl/collection_notifier.cpp:419-434 | the loop merges the change into every callback that does not skip it |
| `CollectionNotifiers.CollectionNotifier.PackageForDelivery` | Realm/ObjectStore/src/impl/collection_notifier.cpp:383-392 | the loop finalizes the accumulated changes, makes them pending and starts a delivery |
| `CollectionNotifiers.CollectionNotifier.DeliverNext` | Realm/ObjectStore/src/impl/collection_notifier.cpp:341-406 | one turn of the delivery loop: which call is made, if any |
| `ObserveBlocks.ObserveBlock.Invoke` | RealmSwift/RealmCollection.swift:1128-1147 | the captured wrapper is made once and kept |
| `ObserveBlocks.Observe` | Realm/RLMCollection.mm:359-386 | over every run of calls, from the change sets of the notifier to the notices of the Swift block: nothing traps, at most one wrapper is made and all notices carry it |
| `ObserveBlocks.OnlyFirstMayBeEmpty` | Realm/ObjectStore/src/impl/collection_notifier.cpp:341-356 | after the first call no empty change is delivered |
| `ObserveBlocks.ObserverProtocol` | RealmSwift/RealmCollection.swift:119-130 | initial first exactly when the first change is skipped or empty, then only updates, at most one error and last |
| `ObserveBlocks.ListStartsWithUpdate` | Realm/RLMCollection.mm:420-436 | for every change committed between registration and first call there is a run in which a list observer starts with an update |
| `ObserveBlocks.ListMayStartWithUpdate` | Realm/RLMCollection.mm:420-436 | a row put into an empty list before the first call: the run, what is heard, and the update that comes first |
| `ObserverChains.ForEach` | Realm/RLMObservation.hpp:115-130 | from any node: predecessors in reverse, then the node and its successors |
| `ObserverChains.VisitsEachOnce` | Realm/RLMObservation.hpp:115-130 | every node exactly once |
| `ObserverChains.PrepareForInvalidation` | Realm/RLMObservation.mm:133-138 | marks the whole chain, which stays a chain |
| `ObserverChains.ClassInfo.FindRow` | Realm/RLMObservation.mm:144-153 | finds the row's entry if and only if it is observed |
| `ObserverChains.ClassInfo.SetRow` | Realm/RLMObservation.mm:140-155 | joins the row's chain behind its head or starts one; all other chains are kept |
| `ObserverChains.ClassInfo.Destroy` | Realm/RLMObservation.mm:66-93 | leaves its chain; a head is replaced by its successor or its entry dropped; all other chains are kept |
| `Bridging.OnlyNilIsNull` | RealmSwift/Util.swift:185-191 | a value bridges to NSNull exactly if it is nil under any number of optionals |
| `Bridging.BridgeRoundTrip` | RealmSwift/Util.swift:88-109 | Swift to Objective-C to Swift gives the value with nested nils collapsed |
| `Bridging.BridgeIsIdentity` | RealmSwift/Util.swift:88-109 | and is the identity exactly when no nil lies under a some |
| `Bridging.BridgeForgetsOnlyDepth` | RealmSwift/Util.swift:101-109 | two values bridge to the same object exactly if they collapse to the same value |
| `Bridging.Wrap` | RealmSwift/Util.swift:135-137 | the one value in range congruent to the number |
| `Bridging.Widths` | RealmSwift/Util.swift:132-185 | the ranges of the fixed-width integers |
| `Bridging.NumbersCrossTypes` | RealmSwift/Util.swift:88-109 | numbers keep their value when stored as one type and read as another |
| `Bridging.ReadThenWrite` | RealmSwift/Util.swift:88-109 | Objective-C to Swift is typed and proper, and writing back restores the object exactly if nothing was wrapped or truncated |
| `Bridging.ReadIsStable` | RealmSwift/Util.swift:88-109 | reading again after writing back gives the same value in every case |
| `Iteration.RlmIterator.Next` | RealmSwift/RealmCollection.swift:34-46 | the end, a null and an element are told apart, and elements are what subscripting gives |
| `Iteration.Iterate` | RealmSwift/List.swift:485-487 | full iteration yields exactly the subscripted elements, and crashes only at the first that subscripting crashes on |
| `Iteration.EncodeList` | RealmSwift/List.swift:654-661 | encodes the elements in order up to the first that fails, and says how it ended |
| `Iteration.DecodeList` | RealmSwift/List.swift:643-651 | consumes the container and stores the decoded elements, or throws exactly if an item does not decode |
| `Iteration.CodingRoundTrip` | RealmSwift/List.swift:643-661 | decoding an encoded list gives the same elements for every list and codec |
| `Iteration.DecodedElements` | RealmSwift/List.swift:643-651 | a decoded list shows the decoded values with nested nils collapsed |

## Left out

- The storage engine, queries, sorting, schema, sync, users and permissions.
- CommonBlocks.FindLongestMatch: does not promise which of several longest blocks is taken, beyond what `CommonBlocks.Better` states of one comparison.
- RowPairing.BuildRowInfo: sorts by insertion where the source calls the library's sort; the calculation is proved for every order sorted by key.
- The chunked range storage of `IndexSet`: sets are strictly ascending sequences of indices, so its loops run over indices instead of ranges.
- ChangeBuilders.CollectionChangeBuilder.Modify: does not model the per-column modification sets, nor do the other operations.
- `before_advance` as a delivery of its own: its callbacks' effects on the notifier are covered, because any registration or removal may happen between packaging and delivery.
- `deliver_error` inside the notifier: `ObserveBlocks` takes a failure as the last call.
- `prepare_to_deliver` refusing a delivery, and the waiting of `package_and_wait`.
- Notifiers.EveryCallbackHearsAll: does not cover what the source asserts not to happen (suppressing a callback while changes wait to be packaged, removing an unknown token), the exhaustion of 64-bit tokens, or what follows once the delivery loop has overrun.
- Double rounding: dates and floating-point numbers are exact reals; integer reads of fractional numbers truncate towards zero before they wrap.
- `newElements` that alias the list itself; key-value notifications around each array change; managed lists' checks of thread and transaction.
- RealmWrites.Realm.Write: does not model commits that fail for reasons of input and output, nor freezing or resolving inside a transaction.
- Lifetimes: observers destroyed while `forEach` walks, and reference counting in general.
- `DynamicObject` casts, subclass casts of objects, and mutation during enumeration.
- Configuration, error bridging, progress, key-value coding and JSON wrappers, which would only add easy members.

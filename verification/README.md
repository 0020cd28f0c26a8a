# Umbra storage and index structures: a verified model

PostgreSQL with the Umbra storage manager keeps each relation's logical blocks
apart from the physical blocks that hold them, and replaces full-page images in
the log by moving a page to a fresh physical block at its first change after a
checkpoint. This project models that protocol together with the most intricate
index code of the contrib directory, and proves what each of them is for.

* **Umbra** (`Umbra*.dfy`): the write-ahead log with birth, change and remap
  records, shared buffers, the MAP and its superblock, a checkpoint that runs
  beside page changes, a crash that may lose or tear any unsynced block and bring
  back older MAP entries, and redo. Every run whose remaps find a clean buffer
  recovers every page, also after crashes during recovery and over any number of
  such lives, and each page then holds the changes made to it and no others. That
  condition is exact: a remap of a dirty or checkpoint-marked buffer, which the
  code does not prevent, leaves a state from which a change can be lost.
* **GiST keys** (`GistTree`, `GistBuild`, `GistVar*`, `GistNum`, `HalfSplit`,
  `Cube*`): keys that summarise subtrees, as truncated byte strings, number ranges
  or boxes of mixed dimension. Pruned search equals a full filter, on every tree
  that insertions and page splits build; boxes are also sets of points (`CubePoints`).
* **Bloom** (`Bloom*`): generator, signatures, pages, and a state machine of
  lock-delimited steps for insertion, bulk deletion and scans. No interleaving
  loses a live tuple or gives a false negative, and every insertion that ends has
  stored its tuple; the single-backend methods are runs of the state machine.
* **amcheck** (`Nbtree*`, `GinPostingTree`, `Heap*`): the streaming checkers
  accept exactly what plain definitions accept and end exactly when no ring of
  pages is met, and acceptance gives order of the whole leaf level, correct
  descent, update chains that never meet, complete toast values and exact
  transaction bounds.
* **Encodings and queries** (`Hstore*`, `BtreeGinScan`): round trips and
  scan-equals-filter theorems.

Code that works step by step is a class or a method with loops, proved against a
function or predicate of its inputs; the lemmas are about those. Where such a
predicate follows the code check by check, a lemma named `...Iff` or `...Is` says
what it means without it. Comparators are total orders on integers, byte strings
or reals; hashes, heap visibility and transaction statuses are inputs.

Where a property turned out false of the code the code is modelled as it is, with
a lemma that names an input and a lemma with the exact condition:
`UmbraExact.SafeIffClean`, `GistVarSplit.SplitCoversIff`, `CubeBox.OrdersAllIff`,
`CubeSearch.ContainedByKeptIff`, `BloomRandom.OutputsInRangeIff`,
`NbtreeWalk.NeverEndsIff`, `NbtreeCalls.LevelHangsIff`,
`NbtreeDescent.AllReachedIff`, `GinPostingTree.KeysBoundIff` and
`HeapToast.CompleteAddsUp`. doc/umbra/WAL_AND_REDO.md describes compact remap
headers; src/include/access/xlogrecord.h always writes the full header with old
and new block, and the model follows the header file.

## Model

| member | source | states |
|---|---|---|
| UmbraLog.LsnTellsTouched | src/backend/access/transam/xloginsert.c:1260-1450 | comparing a page's LSN with a redo point tells, both ways, whether any record since that point changed the page |
| UmbraLog.OwnersDiffer | src/backend/storage/map/map.c:612-700 | two logical blocks never map to one physical block, at any two moments of a log whose physical blocks were reserved afresh |
| UmbraLog.NeverReturns | src/backend/storage/map/map.c:1434-1486 | a logical block never maps again to a physical block it has left |
| UmbraLog.AppendKeepsWellFormed | src/backend/access/transam/xloginsert.c:238-285 | a record that fits the present mapping and names an unused physical block keeps the log well-formed |
| UmbraSafety.CleanRemapIsGoodFirst | src/backend/access/transam/xloginsert.c:1260-1450 | a remap that finds its buffer clean leaves a whole, synced page behind in the old block, from which redo can start |
| UmbraSafety.RemapKeeps | src/backend/access/transam/xloginsert.c:238-285 | publishing such a remap keeps the invariant of every block |
| UmbraSafety.DeltaKeeps | src/backend/access/transam/xloginsert.c:720-780 | a change without remap keeps it |
| UmbraSafety.BirthKeeps | src/backend/access/transam/xloginsert.c:205-236 | so does the birth of a block, and the frontier passes every block handed out |
| UmbraSafety.FlushKeeps | src/backend/storage/buffer/bufmgr.c:4543-4713 | writing a buffer, to the current block or first to the block saved for the checkpoint, spoils no other block's baseline |
| UmbraSafety.WriteMapEntryKeeps | src/backend/storage/map/mapflush.c:100-128 | writing a MAP entry after its WAL leaves, in every version a crash may bring back, a MAP that redo can start from |
| UmbraSafety.WriteMapKeeps | src/backend/storage/map/mapflush.c:238-248 | so does the checkpoint's write of the whole MAP and superblock |
| UmbraSafety.CheckpointKeeps | src/backend/access/transam/xlog.c:8051-8084 | redo point, MAP, marking, sync and control file, in that order and with anything in between, keep the invariant |
| UmbraSafety.StepKeeps | src/backend/storage/buffer/bufmgr.c:4778-4842 | every step of backends, buffer manager, MAP and checkpointer keeps the invariant, provided a remap finds its buffer neither dirty nor marked for the checkpoint |
| UmbraRecovery.BeginHolds | src/backend/access/transam/xlogutils.c:702-914 | whatever unsynced blocks a crash loses or tears, and whichever unsynced versions of MAP entries and superblock it brings back, every block has its baseline when recovery begins |
| UmbraRecovery.RedoKeeps | src/backend/access/transam/xlogutils.c:884-913 | replaying the next record always finds its page and keeps the recovery invariant |
| UmbraRecovery.WriteKeeps | src/backend/storage/buffer/bufmgr.c:5779-5794 | buffer writes and evictions during recovery keep it |
| UmbraRecovery.DoneIsRestored | src/backend/access/transam/xlogutils.c:702-914 | at the end of the log every page holds exactly the changes logged for it, under its last mapping, and the frontier is past all of them |
| UmbraRecovery.CrashRecovers | src/backend/access/transam/xlogutils.c:702-914 | from any state of the invariant, any crash image and any schedule of recovery ends in the restored state and never fails to find a page |
| UmbraRecovery.CleanRunsRecover | src/backend/access/transam/xlogutils.c:702-914 | so for every crash at any point of every run whose remaps are clean |
| UmbraLife.AttemptsKeep | src/backend/access/transam/xlogutils.c:702-914 | a crash during recovery, any number of times, leaves an image from which recovery begins again with every baseline in place |
| UmbraLife.ResumeHolds | src/backend/access/transam/xlog.c:8051-8084 | a recovered system, with the checkpoint that ends recovery, satisfies the invariant of running systems |
| UmbraLife.LivesKeep | src/backend/access/transam/xlogutils.c:702-914 | so any number of runs, crashes, broken-off and finished recoveries keep it |
| UmbraLife.EveryLifeRecovers | src/backend/access/transam/xlogutils.c:702-914 | after any such history a crash during a clean run, and any crashes during recovery, still end in the restored state |
| UmbraChanges.ChangeIsLogged | src/backend/access/transam/xloginsert.c:720-780 | a birth or change adds exactly one record, on its own block, and that record's LSN to its buffer; the record moves the block exactly when there was no change since the redo point; all else stays |
| UmbraChanges.OthersLogNothing | src/backend/access/transam/xloginsert.c:720-780 | no other step touches the log |
| UmbraChanges.RunLogsChanges | src/backend/access/transam/xloginsert.c:720-780 | the log of a run is the log before and one record for each of its births and changes, in turn |
| UmbraChanges.RunCountsChanges | src/backend/access/transam/xloginsert.c:720-780 | a page's logged history grows by the number of the run's births and changes on it |
| UmbraChanges.HistIsHistory | src/backend/access/transam/xlogutils.c:702-914 | what a page holds after a log is the ascending list of the LSNs of the records on it, and no others |
| UmbraChanges.ChangesComeBack | src/backend/access/transam/xlogutils.c:702-914 | after a crash anywhere in a clean run every page holds exactly the changes the run made to it up to a point at or past the flushed log |
| UmbraChanges.EveryChangeComesBack | src/backend/access/transam/xlogutils.c:702-914 | the same after any number of lives, and through crashes during recovery |
| UmbraChanges.RecoveryEnds | src/backend/access/transam/xlogrecovery.c:1612-1880 | redo advances record by record and can always be driven to the end of the log |
| UmbraChanges.WrittenReadsBack | src/backend/storage/buffer/bufmgr.c:5779-5794 | a page that recovery writes back and drops reads as before |
| UmbraChanges.FlushWrites | src/backend/storage/buffer/bufmgr.c:4543-4713 | a written buffer is on its physical block, behind its log, and clean; nothing but that block and that buffer differ |
| UmbraChanges.RunLogsFirst | src/backend/storage/buffer/bufmgr.c:4543-4713 | over any clean run no block on disk holds a change that the flushed log lacks |
| UmbraChanges.NothingUnlogged | src/backend/storage/buffer/bufmgr.c:4543-4713 | so after a crash no synced block holds a change that the log has lost |
| UmbraChanges.EvictedReadsBack | src/backend/storage/buffer/bufmgr.c:2484-2564 | a dropped buffer can be read again and is then as it was |
| UmbraChanges.CheckpointWaits | src/backend/storage/buffer/bufmgr.c:3580-3657 | whatever happens after marking, the checkpoint does not sync before each buffer then dirty or touched has been written |
| UmbraChanges.ReservedIsUnused | src/backend/storage/map/map.c:612-700 | a reserved physical block is in no record, no mapping and no other reservation |
| UmbraChanges.EntryWritten | src/backend/storage/map/mapflush.c:100-128 | a written MAP entry is the present one, and the record that made it is flushed |
| UmbraExact.ExactRun | src/backend/storage/buffer/bufmgr.c:4543-4713 | in clean runs a dirty buffer is ahead of its block and no block holds the future |
| UmbraExact.Complete | src/backend/storage/buffer/bufmgr.c:3604-3657 | from any marked state the checkpoint can be driven to its end without touching watched blocks |
| UmbraExact.BadBaselineLoses | src/backend/access/transam/xlogutils.c:884-913 | a remap whose old block is stale, or already holds the change while the new block is empty, has a recovery schedule that loses it |
| UmbraExact.StaleLoses | src/backend/storage/buffer/bufmgr.c:4778-4813 | a remap of a dirty buffer after the redo point and before capture begins can lose the earlier change |
| UmbraExact.CapturedLoses | src/backend/storage/buffer/bufmgr.c:4543-4713 | a remap of a buffer marked for the checkpoint can lose its own change |
| UmbraExact.SafeIffClean | src/backend/storage/buffer/bufmgr.c:4778-4842 | exact condition: after any clean run a step is one after which nothing can ever be lost if and only if it is not a remap of a dirty or marked buffer |
| UmbraExact.UncleanRemapReachable | src/backend/storage/buffer/bufmgr.c:3604-3657 | such a remap is reachable: a page born before the redo point and changed after it |
| GistVarKey.CommonPrefixLength | contrib/btree_gist/btree_utils_var.c:122-172 | the loop finds the longest common prefix of the two bounds |
| GistVarKey.VarUnion | contrib/btree_gist/btree_utils_var.c:331-367 | the loop over entries and the truncation give the union key |
| GistVarKey.BinUnionBounds | contrib/btree_gist/btree_utils_var.c:242-287 | a binary union's bounds are the outermost of the two keys', and no others |
| GistVarKey.BoundsAreBounds | contrib/btree_gist/btree_utils_var.c:331-367 | the running union encloses every key it has seen |
| GistVarKey.WidenedBoundsCover | contrib/btree_gist/btree_utils_var.c:213-238 | bounds moved outward and cut two bytes past their common prefix still cover what the inner bounds covered, up to the upper bound or by prefix |
| GistVarKey.UnionCovers | contrib/btree_gist/btree_utils_var.c:331-367 | whatever any of the keys covers their union covers, so truncation is sound at every depth |
| GistVarExact.UnionKeyIs | contrib/btree_gist/btree_utils_var.c:331-367 | the union key is the least lower and the greatest upper bound of its keys, both cut to two bytes more than they share |
| GistVarSearch.LeafTestIsExact | contrib/btree_gist/btree_utils_var.c:563-622 | on a leaf entry the consistent test is the operator, for all six |
| GistVarSearch.InnerTestKeepsMatches | contrib/btree_gist/btree_utils_var.c:563-622 | an inner key that covers a matching value is never pruned, for all six |
| GistVarExact.FollowedBelow | contrib/btree_gist/btree_utils_var.c:563-622 | for less-than and at-most an inner key is followed if and only if some value it may hold is at most the query |
| GistVarSearch.VarSearchIsFilter | contrib/btree_gist/btree_utils_var.c:563-622 | pruned search over any tree of any depth with covering keys returns exactly the matching rows, in order |
| GistVarSearch.UnionKeysAnswerExactly | contrib/btree_gist/btree_utils_var.c:331-367 | keys made by the union function are covering, so every query is answered exactly |
| GistVarSplit.PickSplit | contrib/btree_gist/btree_utils_var.c:467-557 | sort-and-halve: every offset on exactly one side, neither side empty, and each side's key its bounds cut at the shared length |
| GistVarSplit.SideKeysAre | contrib/btree_gist/btree_utils_var.c:545-557 | the keys of the two sides: least lower and greatest upper bound of each, all cut to two bytes more than the bounds of one side share at most |
| GistVarSplit.LeafSideCovers | contrib/btree_gist/btree_utils_var.c:467-557 | over leaf entries both keys cover all their entries |
| GistVarSplit.SideCoversIff | contrib/btree_gist/btree_utils_var.c:545-557 | over any keys a side cut at any length covers what its entries cover if and only if no entry is cut short: an entry that may hold extensions of its upper bound, of which the side's greatest upper bound is one with a byte below 255 inside the cut |
| GistVarSplit.SplitCoversIff | contrib/btree_gist/btree_utils_var.c:467-557 | the same for both sides of a split and the length they share |
| GistVarBuild.BuiltAnswersExactly | contrib/btree_gist/btree_utils_var.c:242-622 | a tree built from nothing by insertions and by splits whose keys cut nothing short answers all six operators exactly and holds exactly the rows inserted |
| GistVarBuild.SplitLosesRow | contrib/btree_gist/btree_utils_var.c:467-557 | a sound page with union keys and four entries, divided as the code divides it, after which equality search misses a stored row |
| GistTree.SearchIsFilter | contrib/btree_gist/btree_utils_var.c:563-622 | for any kind of key: covering keys, an exact leaf test and a safe inner test make pruned search equal a full filter |
| GistTree.FilterIs | contrib/btree_gist/btree_utils_var.c:563-622 | the filter lists exactly the matching items, each once and in order |
| GistTree.UnionKeysAreSound | contrib/btree_gist/btree_utils_num.c:172-208 | for any kind of key: a union that covers what its arguments cover makes every inner key covering |
| GistBuild.InsertKeepsSound | contrib/btree_gist/btree_utils_num.c:228-258 | for any kind of key: widening along the path of an insertion keeps every key covering |
| GistBuild.InsertAdds | contrib/btree_gist/btree_utils_num.c:228-258 | and the rows are then those from before and the new one, with multiplicity |
| GistBuild.SplitKeepsItems | contrib/btree_gist/btree_utils_num.c:339-384 | splitting any page by any division of its offsets keeps the rows, with multiplicity |
| GistBuild.SplitKeepsSound | contrib/btree_gist/btree_utils_num.c:339-384 | and keeps every key covering if the two new keys cover their sides |
| GistBuild.BuiltIsSound | contrib/btree_gist/btree_utils_num.c:228-384 | so any mixture of insertions and splits from any sound tree ends in a sound tree with exactly the rows inserted |
| GistNum.NumUnion | contrib/btree_gist/btree_utils_num.c:172-208 | the loop computes the union of all keys |
| GistNum.UnionIsLeast | contrib/btree_gist/btree_utils_num.c:172-208 | the union's bounds are the least lower and the greatest upper bound among its keys |
| GistNum.FollowedIff | contrib/btree_gist/btree_utils_num.c:263-312 | an inner key is followed if and only if some value in its range satisfies the operator, equality allowed |
| GistNum.NumSearchIsFilter | contrib/btree_gist/btree_utils_num.c:263-312 | trees keyed by the union answer all six operators exactly |
| GistNum.DistanceBounds | contrib/btree_gist/btree_utils_num.c:316-335 | an inner key's distance never exceeds that of a value below, is zero exactly when the query lies within, and is exact on leaves |
| GistNum.DistanceAttained | contrib/btree_gist/btree_utils_num.c:316-335 | and some value of the range is at that distance |
| GistNum.PickSplit | contrib/btree_gist/btree_utils_num.c:339-384 | every offset on exactly one side, neither empty, each key the union of its side and covering it |
| GistNum.BuiltAnswersExactly | contrib/btree_gist/btree_utils_num.c:228-384 | a tree built from nothing by insertions and splits answers all six operators exactly and holds exactly the rows inserted |
| HalfSplit.Halve | contrib/btree_gist/btree_utils_num.c:356-380 | the split loop deals the sorted order into its two halves and folds each half's key |
| BloomRandom.Generator.Srand | contrib/bloom/blutils.c:255-260 | the seed is reduced by C's signed remainder |
| BloomRandom.TruncatedDivision | contrib/bloom/blutils.c:228-252 | the quotient and remainder the generator uses are those of C: their recombination, size and signs |
| BloomRandom.Generator.Rand | contrib/bloom/blutils.c:228-252 | one step of the generator, every intermediate inside int32 |
| BloomRandom.Split | contrib/bloom/blutils.c:228-252 | Schrage's split computes 16807 x mod 2^31 - 1 without leaving int32, for negative states too |
| BloomRandom.NeverZero | contrib/bloom/blutils.c:228-252 | no state but zero steps to zero |
| BloomRandom.AfterIsPower | contrib/bloom/blutils.c:228-252 | n steps multiply by 16807 to the n |
| BloomRandom.SeededRange | contrib/bloom/blutils.c:255-260 | the seeded state is zero for exactly two 32-bit seeds |
| BloomRandom.OutputsInRangeIff | contrib/bloom/blutils.c:228-260 | every later output lies in the documented range if and only if the seed is not 0xFFFFFFFF or 0x80000001; for those it is -1 forever |
| BloomSignature.PassesIffSubset | contrib/bloom/blscan.c:162-170 | the word-by-word mask test is the subset test on bits |
| BloomSignature.AddBitsHas | contrib/bloom/blutils.c:266-293 | a value adds exactly the bits its generator draws |
| BloomSignature.ValueSeedBits | contrib/bloom/blutils.c:266-293 | a value's seed has the bits of its hash, flipped where 16807 (column + 1) - 1 has one |
| BloomSignature.SeedsDiffer | contrib/bloom/blutils.c:266-293 | two hashes in one column are signed from different seeds |
| BloomSignature.BitNoIs | contrib/bloom/blutils.c:266-293 | the n-th bit of a value is 16807^n times its seeded state, modulo 2^31 - 1, less one, modulo the signature's bits |
| BitWords.BitXor | contrib/bloom/blutils.c:285-286 | exclusive or, bit by bit |
| BloomSignature.SignValue | contrib/bloom/blutils.c:266-293 | the loop over the generator sets those bits, each inside the signature, unless the mixed seed is one of the two bad ones |
| BloomSignature.SignatureHas | contrib/bloom/blutils.c:299-317 | a signature's bits are exactly those its values set |
| BloomSignature.NoFalseNegatives | contrib/bloom/blscan.c:88-170 | a tuple that has every value a scan asks for passes its test |
| BloomSignature.FormTuple | contrib/bloom/blutils.c:299-317 | the tuple's signature is that of its non-null columns |
| BloomSignature.ScanSignature | contrib/bloom/blscan.c:88-115 | the scan's signature is that of its keys, and there is none exactly when some key is null |
| BloomSignature.Matches | contrib/bloom/blscan.c:162-170 | the word loop with early exit decides the mask test |
| BloomPage.RoomIsExact | contrib/bloom/bloom.h:149-152 | on a page within capacity the unsigned free-space arithmetic tells exactly whether one more tuple fits |
| BloomPage.RoomInBytes | contrib/bloom/bloom.h:149-152 | in bytes: one more tuple fits if and only if header, tuples and special space stay within the block |
| BloomPage.PageBuffer.Init | contrib/bloom/blutils.c:405-414 | an initialised page is empty and not deleted |
| BloomPage.PageBuffer.AddItem | contrib/bloom/blutils.c:324-351 | the tuple is appended exactly when there is room, and maxoff and pd_lower follow |
| BloomPage.Slide | contrib/bloom/blvacuum.c:102-123 | the two-pointer pass leaves exactly the survivors, in order, and counts the removed |
| BloomPage.SurvivorsSplit | contrib/bloom/blvacuum.c:102-123 | survivors and removed tuples together are the old tuples, with multiplicity, split by the callback |
| BloomPage.SurvivorsAre | contrib/bloom/blvacuum.c:102-123 | survivors are the tuples at the positions not condemned, each once and in page order |
| BloomPage.EmptiedIff | contrib/bloom/blvacuum.c:133-148 | a page in use goes out of use if and only if it held tuples and all of them are condemned |
| BloomPage.PageBuffer.Compact | contrib/bloom/blvacuum.c:76-148 | one page of bulk deletion: survivors, pd_lower, removed count, whether the page is listed, and the deleted flag set exactly when all of some tuples were condemned |
| BloomSafety.FastKeeps | contrib/bloom/blinsert.c:207-246 | the lock-free first try keeps the invariant whatever happened since the metapage was read |
| BloomSafety.SlowKeeps | contrib/bloom/blinsert.c:257-310 | so does each try under the metapage lock |
| BloomSafety.NewPageKeeps | contrib/bloom/blinsert.c:316-333 | so does the page taken from the free space map or the end of the file |
| BloomSafety.EmptyTakes | contrib/bloom/blinsert.c:324-330 | the tuple always fits a fresh page, so the error for an empty page without room cannot occur |
| BloomSafety.VacuumPageKeeps | contrib/bloom/blvacuum.c:76-148 | compacting one page beside everything else keeps the invariant |
| BloomSafety.RelistKeeps | contrib/bloom/blvacuum.c:165-177 | replacing the metapage's list keeps it in bounds, non-meta and in range |
| BloomSafety.StepKeeps | contrib/bloom/blinsert.c:174-342 | every step of every interleaving of inserts, bulk deletes and scans keeps capacity, list and lock invariants |
| BloomSafety.StepConserves | contrib/bloom/blinsert.c:174-342 | each step stores exactly what it adds and loses exactly what it removes, per tuple |
| BloomRuns.RunConserves | contrib/bloom/blinsert.c:174-342 | over any run: what is stored at the end plus what was removed is what was stored plus what was added, per tuple |
| BloomRuns.InsertionStep | contrib/bloom/blinsert.c:174-342 | each step of an insertion either goes on with its tuple or ends with the tuple stored once more; no other process ends it |
| BloomRuns.InsertionStores | contrib/bloom/blinsert.c:174-342 | so in every run an insertion that is over has put its tuple in |
| BloomRuns.RemovedAreCondemned | contrib/bloom/blvacuum.c:102-123 | only bulk deletion removes, and only tuples its callback condemns |
| BloomRuns.OnOnePage | contrib/bloom/blvacuum.c:76-148 | a tuple stored once is on exactly one live page |
| BloomRuns.ScanFinds | contrib/bloom/blscan.c:142-179 | a scan beside any other steps returns every tuple stored at its start and not removed since, if the tuple has the values asked for |
| BloomRuns.BulkDeleteIsComplete | contrib/bloom/blvacuum.c:76-177 | once bulk deletion has passed all pages, a condemned tuple that is still stored came in during the pass |
| BloomIndex.BuildPages | contrib/bloom/blinsert.c:74-116 | the build puts the tuples on pages in heap order, none empty and all but the last full |
| BloomIndex.Index.Build | contrib/bloom/blinsert.c:121-159 | the built index stores exactly the given tuples and lists no page |
| BloomIndex.Index.Insert | contrib/bloom/blinsert.c:174-342 | alone: the tuple goes to the first listed page with room, where the list then starts, else to a page of its own that becomes the list; all other tuples stay |
| BloomIndex.InsertedFirst | contrib/bloom/blinsert.c:207-333 | after an insertion the list starts with the page that took the tuple, as its last one, and all other pages are as they were |
| BloomIndex.Index.TrySlots | contrib/bloom/blinsert.c:257-310 | the loop under the metapage lock finds the first slot whose page takes the tuple |
| BloomIndex.Index.AddPage | contrib/bloom/blinsert.c:316-333 | a recycled or new page takes the tuple and is the whole list |
| BloomIndex.Index.BulkDelete | contrib/bloom/blvacuum.c:31-181 | alone: every page compacted, the list rebuilt, the removed count right, and a page out of use exactly when all of some tuples on it were condemned |
| BloomIndex.MayRecycle | contrib/bloom/blvacuum.c:133-148 | after it a page that was in use may be given to an insertion if and only if all its tuples were removed |
| BloomIndex.Index.GetBitmap | contrib/bloom/blscan.c:77-190 | the page, tuple and word loops return exactly the TIDs of live matching tuples and count them with multiplicity |
| BloomRefine.ScanIsRun | contrib/bloom/blscan.c:143-179 | what the scan loops return is what a run of the protocol finds |
| BloomIndex.ListIsGood | contrib/bloom/blvacuum.c:133-136 | the rebuilt list names data blocks with tuples and room, in increasing order |
| BloomIndex.ListIsComplete | contrib/bloom/blvacuum.c:133-148 | a page with tuples and space for one more is listed, unless the list is full of earlier ones, and no other is |
| BloomRefine.InsertIsRun | contrib/bloom/blinsert.c:174-342 | what insertion does alone is a run of the concurrent protocol |
| BloomRefine.DeleteIsRun | contrib/bloom/blvacuum.c:76-177 | what bulk deletion does alone is a run of the concurrent protocol |
| NbtreeKey.BtCompare | src/backend/access/nbtree/nbtsearch.c:688-860 | the attribute loop and the tie-breaks on truncation and heap TID |
| NbtreeKey.LessIffLt | contrib/amcheck/verify_nbtree.c:3106-3156 | the strict check holds exactly when the keys, with heap TID last, are in strict order |
| NbtreeKey.LeqIffLe | contrib/amcheck/verify_nbtree.c:3169-3179 | the non-strict check against a high key holds exactly when the last heap TID is at or below it |
| NbtreeKey.GreaterIffLt | contrib/amcheck/verify_nbtree.c:3192-3213 | the check against the right sibling's first key is strict order, past the whole posting list |
| LexOrder.LtIff | src/backend/access/nbtree/nbtsearch.c:688-860 | the key order: before its extensions, and otherwise by the first difference |
| NbtreePage.PostingInOrder | contrib/amcheck/verify_nbtree.c:1400-1430 | the posting list loop decides strict order of heap TIDs |
| NbtreePage.CheckItems | contrib/amcheck/verify_nbtree.c:1239-1845 | the item loop reports nothing exactly when every item is well-formed, under the high key, before the next item and before the right page |
| NbtreePage.PageGoodIff | contrib/amcheck/verify_nbtree.c:1239-1845 | exactly which pages that are: high key and items well made, and every item but minus infinity under the high key, before the next and before the first to the right, in key order |
| NbtreePage.GoodPageSorted | contrib/amcheck/verify_nbtree.c:1595-1640 | then any two items of the page are in strict order |
| NbtreePage.OverlapPasses | contrib/amcheck/verify_nbtree.c:1595-1640 | an accepted leaf whose two posting lists overlap, so the order is that of first heap TIDs only |
| NbtreePage.GoodUnderHikey | contrib/amcheck/verify_nbtree.c:1565-1593 | and every item is at or below (leaf) or below (internal) the high key |
| NbtreeWalk.LeftmostIgnoringHalfDead | contrib/amcheck/verify_nbtree.c:1010-1061 | the walk left ends and answers exactly whether only half-dead pages lie to the left |
| NbtreeWalk.FindRight | contrib/amcheck/verify_nbtree.c:1865-2069 | the search for a right sibling's first key ends at the first page that is not to be ignored |
| NbtreeWalk.SkipsForeverIff | contrib/amcheck/verify_nbtree.c:1865-2069 | exact condition: that search never ends if and only if the ignorable pages to the right run into a ring |
| NbtreeWalk.CheckPage | contrib/amcheck/verify_nbtree.c:1239-1845 | the page check with that search reports nothing exactly when the page is good and its items lie before the right sibling's first key, if there is one |
| NbtreeWalk.RightKeyFrom | contrib/amcheck/verify_nbtree.c:1865-2069 | the key to the right is the first item, on internal pages the second, of the first page over right links that is not to be ignored or ends the level |
| NbtreeWalk.CheckRound | contrib/amcheck/verify_nbtree.c:650-835 | one round on any kind of page, half-dead and deleted ones included: it reports nothing exactly when links, level and page are right |
| NbtreeWalk.NeverEndsIff | contrib/amcheck/verify_nbtree.c:624-848 | exact condition: the walk of a level never ends if and only if its rounds, all passing, run into a ring, or reach a page whose search to the right does |
| NbtreeWalk.RingHasHalfDead | contrib/amcheck/verify_nbtree.c:650-835 | every ring of passing rounds contains a half-dead page: rings without one are caught by the left link |
| NbtreeWalk.EndsWithoutRing | contrib/amcheck/verify_nbtree.c:624-848 | if no ring of right links from the leftmost page contains a page to be ignored, the walk ends |
| NbtreeLevel.CheckLevel | contrib/amcheck/verify_nbtree.c:624-848 | the level walk reports nothing exactly when the pages from leftmost to rightmost form an acceptable level, and hands on the next level's leftmost |
| NbtreeLevel.LevelIs | contrib/amcheck/verify_nbtree.c:650-835 | exactly which levels that are: every block loadable, linked to the next and in its place, live pages on the level and pointing back, the first of them leftmost but for half-dead ones |
| NbtreeLevel.RootFlagDecides | contrib/amcheck/verify_nbtree.c:705-725 | on the true root level the one thing more is that the first live page has its root or incomplete-split flag set; without it the level is reported |
| NbtreeLevel.WalkIsBounded | contrib/amcheck/verify_nbtree.c:650-835 | an accepted walk visits no block twice and ends within the block count |
| NbtreeLevel.LeafLevelSorted | contrib/amcheck/verify_nbtree.c:1711-1752 | if every live leaf has an item, all keys of the accepted leaf level, half-dead pages skipped, are strictly increasing across pages |
| NbtreeLevel.LeafItemsSorted | contrib/amcheck/verify_nbtree.c:1711-1752 | item by item: of two items on live leaves the one further left has the smaller key |
| NbtreeLevel.MixedRing | contrib/amcheck/verify_nbtree.c:650-835 | a ring of a live and a half-dead leaf on which the walk never ends |
| NbtreeLevel.DeletedRing | contrib/amcheck/verify_nbtree.c:1865-2069 | a ring of deleted pages, none half-dead, to the right of a live leaf on which it never ends either |
| NbtreeChild.MissingCheck | contrib/amcheck/verify_nbtree.c:2557-2722 | the missing-downlink test passes exactly for a root, a right half of an incomplete split, or the top of an interrupted multi-level deletion |
| NbtreeChild.ChildWalk.HighkeyCheck | contrib/amcheck/verify_nbtree.c:2145-2376 | one call follows right links to its downlink, or to the end of the level, reports nothing exactly when it gets there and every page on the way passes, and leaves the state for the next call |
| NbtreeChild.CallHangsIff | contrib/amcheck/verify_nbtree.c:2185-2376 | exact condition: a call never ends if and only if the pages it passes run into a ring; a ring through the page it began with is reported |
| NbtreeChild.ChildWalk.Visit | contrib/amcheck/verify_nbtree.c:2230-2358 | the checks on one child: loadable, leftmost, level, no self link and no return to the start, downlink or excuse, high key equal to the pivot |
| NbtreeParent.CallIsWalk | contrib/amcheck/verify_nbtree.c:2145-2376 | call after call, with the state carried over, is one walk over the child level |
| NbtreeCalls.CheckChildLevel | contrib/amcheck/verify_nbtree.c:796-830 | all calls of a level, the last without downlink, report nothing exactly when the child level is a finite chain over which the one walk succeeds, and hand out that chain |
| NbtreeCalls.LevelHangsIff | contrib/amcheck/verify_nbtree.c:2145-2376 | exact condition: the calls of a level never end if and only if, after some that report nothing, one runs into a ring |
| NbtreeCalls.ChainEnds | contrib/amcheck/verify_nbtree.c:2145-2376 | on a finite chain every call ends |
| NbtreeCalls.SplitRing | contrib/amcheck/verify_nbtree.c:2145-2376 | children with incomplete splits in a ring on which the calls never end |
| NbtreeParent.ChildLevelCovered | contrib/amcheck/verify_nbtree.c:2145-2376 | the walk succeeds exactly when every downlink meets its own child, in order, and every child between two met ones passes as skipped |
| NbtreeCover.WalkIff | contrib/amcheck/verify_nbtree.c:2145-2376 | exactly which child levels that are, child by child: level, left link, leftmost, downlink or excuse, and the high key equal to the next pivot of the last downlink met |
| NbtreeCover.ExcusedIff | contrib/amcheck/verify_nbtree.c:2557-2722 | a page without downlink is excused if and only if it is a root, a right half of a split, or the top of a path of first downlinks to a half-dead leaf that names it |
| NbtreeParent.LevelSlotsJoined | contrib/amcheck/verify_nbtree.c:1565-1593 | along an accepted level neighbouring downlinks share the pivot between them |
| NbtreeParent.LevelSlotsOK | contrib/amcheck/verify_nbtree.c:796-830 | downlinks of an accepted level fit the chain of an accepted level below |
| NbtreeDescent.CheckBound | contrib/amcheck/verify_nbtree.c:2392-2541 | the child loop reports nothing exactly when every item is strictly above the downlink's pivot |
| NbtreeDescent.BoundGoodIff | contrib/amcheck/verify_nbtree.c:2392-2541 | on a good child: not deleted, and every item strictly above the pivot in key order |
| NbtreeDescent.AllMet | contrib/amcheck/verify_nbtree.c:2259-2358 | without incomplete splits and half-dead pages, and with every child flagged as root linked, downlinks and children match one to one and each child's high key is its next pivot |
| NbtreeDescent.OneToOneIff | contrib/amcheck/verify_nbtree.c:2557-2722 | exact condition: in a quiet accepted level downlinks and children match one to one if and only if every child flagged as root has a downlink |
| NbtreeDescent.UnderNextPivot | contrib/amcheck/verify_nbtree.c:2259-2358 | each item is at or below (leaf) or below (internal) the parent's next pivot |
| NbtreeDescent.AboveOwnPivot | contrib/amcheck/verify_nbtree.c:2392-2541 | and strictly above its own pivot unless that is minus infinity |
| NbtreeDescent.BinarySearch | src/backend/access/nbtree/nbtsearch.c:344-450 | the loop finds the last item the key passes |
| NbtreeDescent.StoredBetween | contrib/amcheck/verify_nbtree.c:2392-2541 | in an accepted root-plus-leaves tree every stored heap TID's key lies between its leaf's pivots |
| NbtreeDescent.SearchReaches | contrib/amcheck/verify_nbtree.c:2259-2541 | so descent by separators reaches the leaf that holds it |
| NbtreeDescent.AllReachedIff | contrib/amcheck/verify_nbtree.c:2259-2541 | exact condition: in a quiet accepted tree every stored heap TID is reached if and only if every leaf flagged as root has a downlink |
| NbtreeDescent.RootFlagHides | contrib/amcheck/verify_nbtree.c:2557-2600 | a quiet accepted tree whose middle leaf, flagged as root, is not reached |
| NbtreeUnique.EntryCheck | contrib/amcheck/verify_nbtree.c:911-1001 | one entry: reported exactly when a second visible heap TID appears |
| NbtreeUnique.UniqueCheck | contrib/amcheck/verify_nbtree.c:1642-1692 | the streaming check reports exactly when two visible heap TIDs on the page share an equal key without nulls |
| GinPostingTree.CheckNode | contrib/amcheck/verify_gin.c:233-370 | the item loop accepts exactly the pages with consistent pd_lower, high key and key order |
| GinPostingTree.CheckTree | contrib/amcheck/verify_gin.c:134-381 | the explicit-stack walk ends and accepts exactly the trees that the recursive definition accepts |
| GinPostingTree.TreeGoodIff | contrib/amcheck/verify_gin.c:134-381 | exactly which trees that is: every page that downlinks lead to has a fitting pd_lower, its downlink's key as bound, ascending keys up to it or (0,0) at the end, and the leaves at one depth under their keys |
| GinPostingTree.BoundsAscend | contrib/amcheck/verify_gin.c:281-298 | right bounds of linked siblings ascend, and each bounds the items of its page |
| GinPostingTree.LeIsNumeric | contrib/amcheck/verify_gin.c:134-381 | item pointers in the order of the 48-bit numbers they are |
| GinPostingTree.KeysBoundIff | contrib/amcheck/verify_gin.c:134-381 | exact condition: an accepted tree bounds every leaf by every valid key above it, whatever acceptable TIDs its leaves hold, if and only if each leaf's own downlink key is valid and at or below those keys |
| GinPostingTree.GoodKeysBound | contrib/amcheck/verify_gin.c:134-381 | so it does in an accepted tree whose unlinked pages lie on the right spine |
| GinPostingTree.UnlinkedPageEscapes | contrib/amcheck/verify_gin.c:233-370 | without that hypothesis an accepted tree can have a leaf above an ancestor's key |
| HeapChains.RecordSuccessors | contrib/amcheck/verify_heapam.c:504-633 | pass one fills both arrays and reports exactly the bad line pointers |
| HeapChains.CheckEdge | contrib/amcheck/verify_heapam.c:635-804 | pass two on one line pointer: reported exactly when its edge joins another chain or its flags and statuses disagree |
| HeapChains.CheckEdges | contrib/amcheck/verify_heapam.c:635-804 | all of pass two |
| HeapChains.CheckRoots | contrib/amcheck/verify_heapam.c:806-834 | pass three reports exactly the live heap-only tuples without predecessor |
| HeapChains.CheckChains | contrib/amcheck/verify_heapam.c:504-836 | the three passes report nothing exactly when the page is good; then predecessor is the inverse of the qualifying edges |
| HeapChains.ChainsNeverMeet | contrib/amcheck/verify_heapam.c:635-700 | on a good page chains of any length that end in one tuple are one chain |
| HeapChains.GoodPage | contrib/amcheck/verify_heapam.c:635-836 | redirects reach only heap-only tuples, HOT flags agree along every edge, every live heap-only tuple has exactly one predecessor |
| HeapChains.PageGoodIff | contrib/amcheck/verify_heapam.c:504-836 | exactly which pages are good: line pointers sound, the flags and commit states at both ends of each edge in agreement, no two edges into one tuple, and one into each heap-only tuple whose inserter committed or is at work |
| HeapChains.FollowIff | contrib/amcheck/verify_heapam.c:635-700 | a chain of k edges leads to a tuple if and only if there is a way of k edges |
| HeapToast.CheckChunk | contrib/amcheck/verify_heapam.c:1556-1639 | a chunk is passed exactly when number, data and size are the expected ones |
| HeapToast.CheckToasted | contrib/amcheck/verify_heapam.c:1862-1910 | nothing is reported exactly when the chunks are the complete sequence |
| HeapToast.CompleteIff | contrib/amcheck/verify_heapam.c:1556-1639 | which sequence that is: as many chunks as the size takes, numbered from 0, of 1996 bytes each but the last, which has the rest |
| HeapToast.CompleteAddsUp | contrib/amcheck/verify_heapam.c:1556-1639 | then sizes add up to the external size if and only if that is positive; for zero the unsigned arithmetic asks for 2^32 bytes |
| HeapXid.WidenRecoversIff | contrib/amcheck/verify_heapam.c:1979-2016 | widening gives back an id exactly when it lies within 2^31 of next, the converse while next + 2^31 fits 64 bits |
| HeapXid.WidenIsNearest | contrib/amcheck/verify_heapam.c:1979-2016 | special ids stay; if some id from 3 on lies within 2^31 of next and has those low bits, widening gives that id modulo 2^64; if none does, 3 |
| HeapXid.Context.XidBounds | contrib/amcheck/verify_heapam.c:2113-2160 | each verdict exactly when the widened id stands so in the range, refreshed only when it fell outside |
| CubeBox.UnionV0 | contrib/cube/cube.c:752-810 | the loops over common and excess dimensions compute the union, missing dimensions read as zero; the same box given twice comes back as it is |
| CubeBox.UnionIsLeast | contrib/cube/cube.c:752-810 | the union is the least box around both, of any dimension |
| CubePoints.EnclosesIff | contrib/cube/cube.c:425-455 | a key encloses a box if and only if it has its dimensions and all its points |
| CubeBox.ContainsV0 | contrib/cube/cube.c:1128-1164 | the loops decide containment in the second box's dimensions, and zero in its excess ones |
| CubePoints.ContainsIff | contrib/cube/cube.c:1128-1164 | a box contains another if and only if it has all its points as far as the other's dimensions go |
| CubeBox.OverlapV0 | contrib/cube/cube.c:1196-1234 | the loops, with swap, decide overlap in all dimensions of both |
| CubePoints.OverlapIff | contrib/cube/cube.c:1196-1234 | boxes overlap if and only if they share a point |
| CubeBox.CmpV0 | contrib/cube/cube.c:941-1019 | the four scans compute the comparison |
| CubeBox.CmpIs | contrib/cube/cube.c:941-1019 | which box comes first: by lower, then upper bounds in the common dimensions, then in the excess ones against zero, then the one with fewer dimensions |
| CubeBox.CmpZeroIffSame | contrib/cube/cube.c:941-1019 | comparison is zero exactly for the same box |
| CubeBox.CmpFlips | contrib/cube/cube.c:941-1019 | comparison is antisymmetric across all dimensions |
| CubeBox.CmpTransitive | contrib/cube/cube.c:941-1019 | and transitive among boxes of one dimension and boxes without dimensions |
| CubeBox.MixedDimsFail | contrib/cube/cube.c:941-1019 | for any two positive dimensions p < q three boxes of dimensions q, q and p break transitivity |
| CubeBox.OrdersAllIff | contrib/cube/cube.c:941-1019 | exact condition: comparison orders all boxes of a set of dimensions if and only if the set has at most one positive member |
| CubeBox.CmpCycles | contrib/cube/cube.c:941-1019 | but three boxes of mixed dimension lie each below the next, in a ring |
| CubeSearch.ContainedByKeptIff | contrib/cube/cube.c:713-738 | an entry within the query is reached under every key around it if and only if the query's excess dimensions contain zero |
| CubeSearch.CubeSearchIsFilter | contrib/cube/cube.c:684-738 | pruned search is a full filter for every operator on such entries |
| CubeSearch.OtherOperatorsExact | contrib/cube/cube.c:684-738 | and for overlap, same and contains on all entries |
| CubePoints.FollowedIff | contrib/cube/cube.c:684-738 | for overlap and contains an inner key is followed if and only if some box it could hold matches |
| CubePoints.FollowedForSame | contrib/cube/cube.c:684-738 | for same if and only if it contains the query, for contained-by if and only if it shares a point with it |
| CubeSearch.ContainedByLoses | contrib/cube/cube.c:713-738 | a contained entry that the pruned scan does not return |
| CubeSearch.UnionKeysEnclose | contrib/cube/cube.c:425-455 | keys made by the union enclose everything below |
| CubeDistance.DistanceV0 | contrib/cube/cube.c:1257-1398 | the loops compute the three distances over common and excess dimensions |
| CubeDistance.GapIs | contrib/cube/cube.c:1505-1520 | the one-dimensional distance is the gap between the intervals, whichever comes first |
| CubePoints.DistanceIs | contrib/cube/cube.c:1257-1398 | taxicab distance is the sum of the gaps, Chebyshev the largest, and the Euclidean square the sum of squares |
| CubePoints.NearestPoints | contrib/cube/cube.c:1505-1520 | some points of the two boxes are that far apart in every dimension |
| CubePoints.NoneNearer | contrib/cube/cube.c:1505-1520 | and no two of their points are closer in any |
| CubeDistance.DistanceLowerBound | contrib/cube/cube.c:1403-1503 | the distance to a key never exceeds that to a box within it, in all three metrics |
| CubeDistance.CoordinateLowerBound | contrib/cube/cube.c:1415-1475 | the same for ordering by a coordinate, ascending or descending |
| CubePoints.LeafCoordinate | contrib/cube/cube.c:1415-1475 | entries are ordered by lower bound for odd, upper bound for even coordinates, negated for negative ones |
| CubePoints.InnerCoordinateTight | contrib/cube/cube.c:1415-1475 | a key's value is attained by some box it encloses |
| CubeDistance.OrderingsAreLowerBounds | contrib/cube/cube.c:1403-1503 | so on every inner page of any index with enclosing keys, for every row below |
| CubeSplit.PickSeeds | contrib/cube/cube.c:549-584 | the seeds waste most space together among all pairs but those with the last entry |
| CubeSplit.Distribute | contrib/cube/cube.c:586-650 | each other entry goes left exactly when that enlarges the left key less |
| CubeSplit.PickSplit | contrib/cube/cube.c:516-657 | every offset on exactly one side and in order, neither side empty, each key the least box around its side, entries dealt by least growth from the most wasteful seeds |
| CubeBuild.BuiltEncloses | contrib/cube/cube.c:425-657 | a tree built from nothing by insertions and splits has enclosing keys and exactly the boxes inserted |
| CubeBuild.BuiltAnswersExactly | contrib/cube/cube.c:684-738 | and answers overlap, same and contains exactly, and contained-by where the query's excess dimensions contain zero |
| BtreeGinScan.Scan | contrib/btree_gin/btree_gin.c:147-233 | scanning from the entry and obeying the verdicts returns exactly the keys the operator selects, if the entry skips none of them |
| BtreeGinScan.FilterIs | contrib/btree_gin/btree_gin.c:147-233 | the selected keys are those that satisfy the operator, in order |
| BtreeGinScan.VerdictIs | contrib/btree_gin/btree_gin.c:147-233 | a key matches if and only if it satisfies the operator; the scan stops if and only if no later key can, for equality at any other key |
| BtreeGinScan.NoneAfter | contrib/btree_gin/btree_gin.c:147-233 | a verdict to stop is right: no later key matches |
| BtreeGinScan.ClampServes | contrib/btree_gin/btree_gin.c:295-388 | clamping to the indexed type's range gives such an entry, for every query of every width |
| BtreeGinScan.ClampIsNearest | contrib/btree_gin/btree_gin.c:295-388 | clamping gives the nearest value of the type |
| BtreeGinScan.RoundingServes | contrib/btree_gin/btree_gin.c:66-145 | so does every conversion that skips no key at or above the query and keeps indexed queries as they are |
| BtreeGinScan.IntegerQuery | contrib/btree_gin/btree_gin.c:66-233 | extraction, clamping and scan together return exactly the matching integer keys, same-type and cross-type |
| HstorePack.Builder.AddItem | contrib/hstore/hstore.h:112-126 | the macro appends the pair's bytes and its two entries |
| HstorePack.Builder.CopyItem | contrib/hstore/hstore.h:99-110 | the same from a key and value that lie together |
| HstorePack.Builder.Finalize | contrib/hstore/hstore.h:129-140 | the first entry is marked and the strings moved down if fewer pairs came than were reserved; the result is the packed form |
| HstoreRead.Decode | contrib/hstore/hstore.h:23-35 | flags and end position come apart again |
| HstoreRead.EntriesAre | contrib/hstore/hstore.h:23-35 | the entries in numbers: end positions, bit 31 on the first, bit 30 on null values |
| HstoreRead.KeyBack | contrib/hstore/hstore.h:79-82 | reading key i gives the packed key |
| HstoreRead.ValueBack | contrib/hstore/hstore.h:79-83 | reading value i gives the packed value |
| HstoreRead.RoundTrip | contrib/hstore/hstore.h:23-140 | reading back gives the same keys, values and nulls for every pair, within the 30-bit positions |
| HstoreGin.Extract | contrib/hstore/hstore_gin.c:43-77 | the items are a key item and a value or null item for each pair, in place |
| HstoreGin.ExtractQuery | contrib/hstore/hstore_gin.c:81-146 | each operator asks for its items, and for all rows exactly when containment or exists-all asks for none |
| HstoreGin.Consistent | contrib/hstore/hstore_gin.c:150-212 | the answer over the check array, with recheck exactly for containment |
| HstoreGin.KeyOperatorsExact | contrib/hstore/hstore_gin.c:150-212 | the three key operators return exactly the matching rows without recheck |
| HstoreGin.ContainmentNeverLoses | contrib/hstore/hstore_gin.c:150-212 | containment loses no row |
| HstoreGin.ContainmentNeedsRecheck | contrib/hstore/hstore_gin.c:150-212 | and returns rows that do not match, so the recheck is needed |

## Left out

- UmbraSafety.StepKeeps: one mapped fork; relation extension beyond birth, truncation, drop and the visibility and free space forks are not modelled, nor is a checkpoint that fails after moving the redo pointer.
- UmbraSafety.FlushKeeps: a write that carries only hints leaves its block out of the unsynced ones, so the model never tears it; old and new sectors then differ in hints only.
- UmbraSafety.WriteMapKeeps: the checkpoint writes all changed MAP entries and the superblock in one step; until the sync a crash may bring back any earlier version of each.
- UmbraRecovery.CleanRunsRecover: records carry no page images; the paths that force an image or run with full_page_writes off are ordinary PostgreSQL recovery.
- UmbraLife.ResumeHolds: the checkpoint at the end of recovery is complete before new changes begin.
- UmbraExact.SafeIffClean: marking all buffers for the checkpoint is one step, an insertion and the publication of its remap are one step under the locks the code holds, and a log position is a record number.
- Umbra's reclaim of old physical blocks, its compactor and its MAP background writer's pacing: they only add writes the model already allows or are not reached by redo.
- GistVarKey.CommonPrefixLength: single-byte encodings; the branch that steps by whole multibyte characters is not modelled.
- GistVarKey.VarUnion: bounds are two byte strings; how they lie in one varlena and the penalty that guides placement do not change which rows a key covers.
- GistVarSearch.VarSearchIsFilter: the bytea instance; collated text and the bit type rest on comparators outside these files.
- GistNum.NumSearchIsFilter: values are reals, without NaN and infinities.
- BloomSignature.SignValue: for the two bad seeds the code addresses bit -1 of the signature; the method stops there and says so.
- BloomRuns.RunConserves: write-ahead logging, the statistics of vacuum cleanup and the contents of the free space map are not modelled; any unused page may be offered for recycling.
- NbtreeKey.BtCompare: the comparison amcheck makes; the tie-break of forward scans and the forced result on an internal page's first item, which amcheck steps over, are not modelled.
- NbtreePage.CheckItems: line pointers, tuple sizes and older index versions are not modelled.
- NbtreeLevel.CheckLevel: read-only mode, under which no page changes during the walk.
- NbtreeParent.LevelSlotsOK: parents that are not half-dead.
- NbtreeDescent.AllMet: children without incomplete splits and half-dead pages; OneToOneIff and AllReachedIff show that the condition on root flags is needed.
- NbtreeDescent.UnderNextPivot: as AllMet.
- NbtreeDescent.StoredBetween: as AllMet.
- NbtreeDescent.SearchReaches: as AllMet, for a root and its leaves; below two levels acceptance does not exclude the cousin-leaf gap the source itself describes.
- NbtreeUnique.UniqueCheck: one page; the continuation onto the right sibling is not modelled.
- bt_rootdescend, heapallindexed and checks without the parent lock.
- GinPostingTree.CheckTree: the posting tree as the finite tree that its downlinks unfold to; the entry tree check is left out.
- HeapChains.CheckChains: tuple headers, visibility, attributes and multixacts are checked elsewhere in the file; commit status per tuple is an input.
- HeapXid.WidenRecoversIff: the converse is stated while next is at least 2^31 below the 64-bit limit, above which the code's subtraction wraps.
- CubeBox.UnionV0: coordinates are reals, and whether a box is stored as a point is not modelled.
- CubeDistance.DistanceV0: Euclid as the square, since only its order matters.
- CubeSplit.PickSplit: how a box is sized and intersected is a parameter.
- HstorePack.Builder.AddItem: an entry word is one mark and three filler cells, its bytes are not modelled; the upgrade of old formats is left out.
- BtreeGinScan.IntegerQuery: keys are integers; numeric, enum, text and timestamp types are left out, their conversions falling under RoundingServes.

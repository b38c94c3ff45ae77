# A verified model of mini-graph-db

A Dafny 4.11 model of the storage engine, the transaction manager, the value
encoding and parts of the query language of mini-graph-db, with proofs about
every run and every input. `dafny verify dfyconfig.toml` checks all of it.

**Commit and crash recovery.** `Recovery` says what a log commits and what replay
does to the heap file. `CrashMachine` is a step machine of commit, checkpoint,
abort, I/O failure, crash, process kill and recovery, with synced and unsynced
pages and a durable part of the log. Every step keeps one invariant
(`CrashStarts`, `CrashSteps`): whatever checkpoint a crash may leave in the
header, wherever the log is cut past its durable end and wherever the recovery
after it is cut short again, each page that may be wrong is rewritten by replay.
`CrashRuns` draws the conclusions for whole runs. Two steps of the code are not
safe in every state; `CrashUnsynced` shows that the machine leaves out exactly
the unsafe ones.

**Write-ahead log.** `WalRecords` (with the checksum in `Crc`) holds records as
bytes, `Wal` the segmented log with buffering, rotation, archive retries,
truncation and reopening. `Wal.CrashSafe` is what the crash machine takes for
granted: a crash keeps a prefix of the records that includes all durable ones,
and what Open leaves behind is such a log again.

**B+tree.** `BTree` is the tree over pages, with splits, merges, borrowing,
separator refresh and root collapse, proved against a map. A ghost tree
(`BTreeShape`) says which pages a node owns, which half-open range its keys have
and how leaves are linked; `BTreePages` and `BTreeBalance` hold the lemmas about
replacing nodes in place, `BTreeStores` those about the stores of each operation,
`BTreeSize` the page arithmetic and `SlottedPages` the bytes of leaf and internal
pages. `BTreeChange` says as functions of that ghost tree when an insertion or a
deletion fails and what a deletion leaves, `BTreeRoom` when neither can fail,
`BTreeExact` when separators stay exact, and `BTreeFails` holds two trees on
which an update does fail. `BTreeCursor` adds lookup and cursors.

**Snapshots.** `Snapshots` gives every disk transaction the map of the generation
it began with, from undo records; `MergedCursor` walks the tree, the undo records
and buffered writes in both directions.

**Multi-version transactions.** `Versions` relates heads and version chains to
the history of committed maps; `Mvcc` is the manager and its transactions,
`TxCalls` what the calls of a transaction say about its write set, `MvccCursor`
their cursors, `VersionKeys` the layout of the chain keys.

**Values.** `Float64` treats binary64 numbers (section 3.4 of IEEE 754-2008) as
bit patterns with exact scaled values, `NumberKey` the common key of ints and
floats, `Values` the 14 kinds with their order and encoding, `ValueOrder` that
order as its documentation gives it, `ValueDecode` the decoders, `ValueStrict`
what they accept, `ValueLoops` the loops. `KeyPrefixes` says which encodings are
prefixes of which, and `IndexScan` which entries a lookup in a declared index
finds.

**Query language.** `Expressions` is the printer and the Pratt parser over
tokens, `ExpressionGrammar` the grammar that the parser accepts, `ExpressionEbnf`
its relation to the documented productions, `ExpressionRoundTrip` their round
trip, `ExpressionReads` what the parser makes of any tokens and so the converse,
`ExpressionParser` the parser as it runs. `ShortestPaths` is the breadth-first
path functions and `Calendar` the date arithmetic.

Where code and documentation disagree the model follows the code:

- `internal/value/key.go:62-64` says that no encoding is a prefix of another.
  `KeyPrefixes.PrefixIff` says exactly which ones are; the order needs the
  condition on what follows an encoding that `Values.ValuesAgree` carries.
- `internal/storage/disk/btree_verify.go` demands that a separator be the smallest
  key to its right. Insertions keep that, deletions only if no internal page
  takes a stale separator down: `BTreeExact.DeleteExact` has the exact condition
  and `BTreeExact.StaleExample` a deletion that breaks it.
- `checkKey` admits keys that a split by count cannot handle
  (`BTreeFails.PutFails`). `BTree.Tree.Put` says exactly when that happens, and
  that it does not while all keys are short.
- Refreshing a separator can overflow a full page (`BTreeFails.DeleteFails`).
  `BTree.Tree.Delete` says exactly when that happens, and gives conditions on key
  lengths and free bytes under which it does not.
- A lookup in an index finds too much, and a range too much or too little, when
  the index holds a text that continues the looked-up one with a NUL byte
  (`IndexScan.NulDefeatsEqual`, `IndexScan.NulDefeatsRange`).
  `IndexScan.ScanExact` is the exact condition.
- Some expressions that the parser produces do not read back once printed: a list
  that starts like a comprehension, a call named by a taken keyword, a first
  argument that starts with DISTINCT (`ExpressionRoundTrip.ListProduced`,
  `ExpressionRoundTrip.CallProduced`). `ExpressionReads.RoundTripIff` is the exact
  condition.
- `docs/spec/query-language.md:226-250` has no production for a test on the left of
  an arithmetic operator, nor for NOT behind anything tighter; the parser accepts
  both (`ExpressionEbnf.BeyondProductions`). `ExpressionEbnf.DocumentedIff` says
  that it goes no further.
- `internal/storage/disk/engine.go:386-388` returns the error of a failed header
  sync and lets the engine go on, so that commits may begin while the header is
  not synced. `CrashUnsynced.CommitSafeIff` is the exact condition under which
  such a commit endangers nothing; `CrashUnsynced.FailedSyncLosesCommit` is a
  run in which it does. `CrashRuns.CrashRecovery` holds for all runs whose
  commits meet the condition, and so for all in which each commit begins with
  a synced header.
- `internal/wal/log.go:569-593` takes the end of the last segment for synced. If
  the process was killed between writing a commit record and syncing it, the
  reopened engine shows that commit and a crash may take it back:
  `CrashUnsynced.KillSafeIff`.

## Model

| member | source | states |
|---|---|---|
| Recovery.Recover | internal/storage/disk/engine_recover.go:15-77 | one pass over the log from the checkpoint: fails exactly when the log ends before it; otherwise the heap is the old one with the installs of `Replay` applied in order, and the next transaction id is the largest of any record behind the checkpoint, 0 if there is none |
| Recovery.Install | internal/storage/disk/engine_recover.go:61-71 | the images of one committed transaction reach the file in log order |
| Recovery.ReplayIsCommitted | internal/storage/disk/engine_recover.go:28-76 | replay installs exactly the images of the transactions whose TxnCommit is in the log, in commit order, and nothing of torn ones |
| CrashSteps.InvNext | internal/storage/disk/engine_tx.go:83-164 | every step of commit, abort, flush, checkpoint, I/O failure, crash, kill and recovery keeps the invariant; an abort or a checkpoint may give up at any point and let the engine go on. A commit that begins while a checkpoint header is not synced must be careful, and a kill must not fall between writing a commit record and syncing it |
| CrashSteps.KeepsLogRecord | internal/storage/disk/engine_tx.go:270-297 | logging one more record keeps recovery possible from every checkpoint that may be on disk, and from every checkpoint that such a recovery may leave behind |
| CrashSteps.KeepsPublishPage | internal/storage/disk/engine_tx.go:299-325 | a data page of a durable transaction may be written in any state of the other pages |
| CrashSteps.KeepsSyncHeader | internal/storage/disk/engine_tx.go:299-325 | after the header sync the file is the database after the transaction and it is acknowledged |
| CrashSteps.KeepsWriteCheckpoint | internal/storage/disk/engine.go:364-390 | while the new checkpoint header is unsynced, recovery works from the old and from the new one |
| CrashSteps.KeepsRelabel | internal/storage/disk/engine.go:373-390 | a checkpoint that fails at its log record, its log sync, its header write, its header sync or its truncation leaves an engine that may go on |
| CrashSteps.KeepsKill | internal/storage/disk/engine.go:392-399 | when the process ends and the system does not, recovery may start from the pages that reads see, synced or not, and be cut short by a crash |
| CrashSteps.KeepsInstallImage | internal/storage/disk/engine_recover.go:61-71 | each image that recovery installs, also a header with a newer checkpoint, leaves a file from which the next recovery works |
| CrashSteps.KeepsFinishRecovery | internal/storage/disk/engine.go:173-182 | replay followed by the sync of Open leaves the database of the log in the file |
| CrashRuns.CrashRecovery | internal/storage/disk/engine_recover.go:15-77 | in every run and for every crash point, log cut and surviving subset of page writes, replay rebuilds exactly the database of the surviving committed transactions: all acknowledged ones and at most one more |
| CrashRuns.Reopen | internal/storage/disk/engine.go:163-182 | the recovery loop run after such a crash succeeds and returns that database |
| CrashRuns.IdleIsDatabase | internal/storage/disk/engine_tx.go:83-164 | between operations the file equals the committed transactions applied to the created file |
| CrashRuns.Durability | internal/storage/disk/engine_tx.go:83-164 | an acknowledged commit stays committed, at the same position, for the rest of every run |
| CrashRuns.Atomicity | internal/storage/disk/engine_tx.go:270-297 | what a log commits are always whole transactions that were begun |
| CrashRuns.AckedIsCommitted | internal/storage/disk/engine_tx.go:145-156 | a commit is acknowledged only when it is the last one in the log and its pages are synced |
| CrashUnsynced.CommitSafeIff | internal/storage/disk/engine.go:383-388 | a commit that begins can be followed by anything without loss if and only if it is careful: no page outside it has an image behind the synced checkpoint that differs from the page as it is now, or the header is synced; otherwise some continuation and crash leave a file from which replay gives a wrong database |
| CrashUnsynced.CarelessLoses | internal/storage/disk/engine.go:383-388 | that continuation: the commit is synced to the log, a crash leaves the old header, recovery installs everything and a second crash keeps the newer header and the older image, which replay then does not repair |
| CrashUnsynced.FailedSyncLosesCommit | internal/storage/disk/engine.go:383-388 | a run from a new file in which two commits write page 1 and a checkpoint header is not synced, and a third commit after which page 1 may come back with the bytes of the first |
| CrashUnsynced.KillSafeIff | internal/wal/log.go:569-593 | a process may be killed without loss if and only if what its log commits has been synced: otherwise the reopened engine shows a commit that the next crash may take back |
| CrashUnsynced.KilledTooEarly | internal/wal/log.go:569-593 | a run from a new file in which the process is killed when the first commit is in the log and not synced |
| WalRecords.ScanPrefix | internal/wal/log.go:772-822 | scanning the first k bytes of a log, for any k, finds exactly the records that are complete in them, reports the rest as torn and never reports corruption |
| WalRecords.CutRecord | internal/wal/log.go:772-822 | a record cut at any byte is torn, not corrupt |
| WalRecords.Fields | internal/wal/record.go:76-87 | every field of an appended record reads back |
| WalRecords.DamageFound | internal/wal/log.go:772-822 | a record whose bytes are all there and whose checksum, LSN or type is wrong makes the scan fail, whatever comes before and after it |
| Wal.Log.constructor | internal/wal/log.go:108-187 | a new log is empty and starts at LSN 1 |
| Wal.Log.Append | internal/wal/log.go:207-227 | the LSN of a record is the number of bytes before it plus one; refused records change nothing |
| Wal.Log.Sync | internal/wal/log.go:389-426 | success makes every appended record durable; a failure that does not break the log leaves a prefix of the stream in the files and the rest in the buffer, and a broken or closed log refuses; every segment stays within the segment size unless it holds a single record |
| Wal.Log.Rotate | internal/wal/log.go:435-471 | sealing keeps segments contiguous; a failed archive or create leaves a pending segment and no active one |
| Wal.Log.FinishPending | internal/wal/log.go:473-490 | a retry opens the next segment where the sealed one ends |
| Wal.Log.WriteFull | internal/wal/log.go:492-515 | a short write leaves a prefix of the record and marks the log broken |
| Wal.Log.SyncFile | internal/wal/log.go:517-536 | a successful sync covers every byte of the active segment |
| Wal.Log.Truncate | internal/wal/log.go:344-365 | removes a leading run of sealed segments that end at or before the LSN, never one that waits for the archiver |
| Wal.Reopen | internal/wal/log.go:141-170 | segments must be contiguous and only the last may be torn |
| Wal.DamageFails | internal/wal/log.go:679-718 | a log with a damaged record in any segment does not open |
| Wal.OpensWhole | internal/wal/log.go:141-170 | a log that opens has no gap between segments, and all of them but the last hold whole records only |
| Wal.CrashSafe | internal/wal/log.go:679-718 | after a crash that cuts the active segment anywhere past its synced part, or falls while the next segment is being created, reopening succeeds and reads back the appended records in order up to a record at or past Durable |
| Wal.ReopenedLog | internal/wal/log.go:569-593 | the cut and reopened log is again a valid log of exactly those records, all of them durable, so that it can be appended to and crash again |
| Wal.Log.Recovered | internal/wal/log.go:569-593 | the log object that stands for it |
| BTree.Tree.constructor | internal/storage/disk/btree.go:32-46 | an empty tree stands for the empty map |
| BTree.Tree.Loaded | internal/storage/disk/btree.go:32-46 | a tree opened on stored pages stands for their content |
| BTree.Tree.Put | internal/storage/disk/btree.go:72-93 | succeeds exactly if checkKey admits the key and every page that has to split has two halves that fit; then it is map update and keeps order, bounds, uniform depth, sibling links, full leaves, exact separators and pages of other trees; it always succeeds while all keys are short |
| BTree.Tree.CreateRoot | internal/storage/disk/btree.go:107-129 | the first key becomes a one-leaf tree |
| BTree.Tree.GrowRoot | internal/storage/disk/btree.go:131-146 | two halves of a split root under a new root hold the same cells |
| BTree.Tree.Insert | internal/storage/disk/btree.go:148-178 | the returned nodes replace the subtree and hold its cells with the key put; it fails exactly when `InsertOf` finds no room |
| BTree.Tree.InsertLeaf | internal/storage/disk/btree.go:180-216 | a leaf gets the cell in place, splitting when it no longer fits |
| BTree.Tree.SplitLeaf | internal/storage/disk/btree.go:218-254 | succeeds exactly if both halves fit; the separator is the first key of the right one, and the new leaf is linked in |
| BTree.Tree.SplitInternal | internal/storage/disk/btree.go:256-282 | succeeds exactly if both halves of the split by count fit; the middle separator moves up |
| BTree.SplitLeafCells | internal/storage/disk/btree.go:706-735 | for cells of at most a third of the page both halves fit and are not empty |
| BTree.BinSearch | internal/storage/disk/btree.go:693-704 | the first index that satisfies a monotone test |
| BTree.ChildIndex | internal/storage/disk/btree.go:677-681 | the child whose half-open range holds the key |
| BTree.LeafSearch | internal/storage/disk/btree.go:683-691 | the first cell at or above the key, and whether it is the key |
| BTree.Tree.Delete | internal/storage/disk/btree.go:96-105 | succeeds exactly if no page on the way overflows, in the sense of `RemoveOf`, and then is map removal, keeps every invariant and leaves the tree that `RemoveOf` says; it succeeds for an absent key, when all keys have one length, and when every page on the way has room for two separators longer by the spread of the key lengths; exact separators stay exact if and only if no stale one is pulled down |
| BTree.Tree.Remove | internal/storage/disk/btree.go:284-305 | the subtree without the key, with the same bounds, even while separators are stale; up to the height limit it fails exactly when `RemoveOf` does |
| BTree.Tree.RemoveLeaf | internal/storage/disk/btree.go:307-333 | the leaf loses the cell; an empty root leaf is freed |
| BTree.Tree.Repair | internal/storage/disk/btree_balance.go:9-39 | rebalancing, refreshing separators and collapsing the root keep the cells of the parent; it fails exactly when a moved or refreshed separator overflows the page |
| BTree.Tree.Rebalance | internal/storage/disk/btree_balance.go:41-97 | merges left, else right, else borrows until half full; afterwards no child is empty; it fails exactly when a borrow overflows the parent page |
| BTree.Tree.MergeLeaves | internal/storage/disk/btree_balance.go:126-165 | two leaves that fit one page become one, the link to the right is repaired and the page is freed |
| BTree.Tree.MergeInternal | internal/storage/disk/btree_balance.go:167-200 | two internal pages join around the possibly stale separator without losing a child |
| BTree.Tree.BorrowLeaf | internal/storage/disk/btree_balance.go:222-266 | one cell moves to the underfull leaf and the separator follows; it fails exactly when the parent page with that separator does not fit |
| BTree.Tree.BorrowInternal | internal/storage/disk/btree_balance.go:268-320 | one child moves through the parent separator; it fails exactly when the parent page with the new separator does not fit |
| BTree.Tree.SyncSeparator | internal/storage/disk/btree_balance.go:322-339 | below the height limit succeeds exactly if the page fits with the smallest key of the right child as separator, and writes that |
| BTree.Tree.LeftmostKey | internal/storage/disk/btree.go:402-428 | the smallest key of a subtree |
| BTreeStores.HeightBound | internal/storage/disk/btree.go:373-400 | with 64-bit page ids no tree reaches the height limit of the descent |
| BTreeSize.InternalHalvesFit | internal/storage/disk/btree.go:256-282 | if every internal cell with its slot is m bytes and m*m <= 14*(payload-12), both halves fit after any insert that overflows the page |
| BTreeSize.AdmittedFits | internal/storage/disk/btree.go:355-364 | checkKey admits a key if and only if a leaf can hold it with some overflowing value |
| BTreeSize.CellFits | internal/storage/disk/btree.go:335-353 | makeCell admits a cell if and only if a leaf can hold it alone |
| SlottedPages.EncodeLeaf | internal/storage/disk/btree_page.go:82-119 | fails exactly when the cells do not fit or a length does not fit its field; otherwise the page is the header, the cells, zeros and the slots, written in place |
| SlottedPages.DecodeLeaf | internal/storage/disk/btree_page.go:121-142 | the loop over the slots computes the leaf that the round trip is about |
| SlottedPages.LeafRoundTrip | internal/storage/disk/btree_page.go:82-172 | every leaf that fits decodes to itself, overflow pointers included |
| SlottedPages.LeafRoom | internal/storage/disk/btree_page.go:54-60 | the byte accounting of the tree is what its leaves take on the page |
| SlottedPages.EncodeInternal | internal/storage/disk/btree_page.go:179-206 | fails exactly when the counts do not match, the keys do not fit or a key is too long; otherwise the page holds every separator with the child to its left and the last child in the header |
| SlottedPages.DecodeInternal | internal/storage/disk/btree_page.go:208-244 | the loop over the slots computes the page that the round trip is about |
| SlottedPages.InnerRoundTrip | internal/storage/disk/btree_page.go:174-244 | every internal page that fits decodes to itself |
| SlottedPages.InnerRoom | internal/storage/disk/btree_page.go:70-76 | the byte accounting of the tree is what its internal pages take |
| BTreeRoom.ShortKeysFit | internal/storage/disk/btree.go:148-178 | while all keys are short in that sense, no insertion fails |
| BTreeRoom.LongPairSplitsEmpty | internal/storage/disk/btree.go:256-282 | two admitted keys above the bound that Put asks for make a page that splits into one without separators |
| BTreeFails.PutFails | internal/storage/disk/btree.go:355-364 | a valid tree and an admitted key of 1300 bytes for which Put fails: half of the root page does not fit |
| BTreeFails.DeleteFails | internal/storage/disk/btree_balance.go:322-339 | a valid tree of short keys and a key for which Delete fails: the refreshed separator overflows the root page |
| BTreeRoom.RemoveFits | internal/storage/disk/btree.go:284-305 | a deletion never fails if every page on its way holds every list of keys of the tree that differs from its separators only next to the child on the way, perhaps after a merge |
| BTreeRoom.RoomyPathHolds | internal/storage/disk/btree_page.go:78-80 | they do when the key lengths differ by at most d and each page on the way has 2 d bytes to spare |
| BTreeExact.DeleteExact | internal/storage/disk/btree_verify.go:43-125 | a deletion keeps every separator equal to the smallest key to its right if and only if it pulls no stale one down: the key is the separator left of an internal page that becomes underfull and merges to the left, or cannot merge and borrows from the left |
| BTreeExact.NoSeparatorPulled | internal/storage/disk/btree_verify.go:43-125 | so a deletion of a key that is no separator on its way keeps them exact |
| BTreeExact.StaleExample | internal/storage/disk/btree_balance.go:167-200 | a tree with exact separators, and the tree with a stale one that a deletion makes of it |
| BTreeShape.MapPut | internal/storage/disk/btree.go:737-742 | putting a cell in the ordered cells is map update |
| BTreeShape.MapDel | internal/storage/disk/btree_balance.go:373-375 | deleting a cell from the ordered cells is map removal |
| BTreeCursor.Descend | internal/storage/disk/btree.go:373-400 | the leaf whose cells surround the key |
| BTreeCursor.Get | internal/storage/disk/btree.go:49-67 | map lookup |
| BTreeCursor.EdgeLeaf | internal/storage/disk/btree_cursor.go:292-318 | the first or the last leaf |
| BTreeCursor.Cursor.SeekFirst | internal/storage/disk/btree_cursor.go:192-202 | without a target, the first cell |
| BTreeCursor.Cursor.SeekLast | internal/storage/disk/btree_cursor.go:204-214 | without a target, the last cell |
| BTreeCursor.Cursor.Seek | internal/storage/disk/btree_cursor.go:216-239 | the first cell at or above the target, across leaves |
| BTreeCursor.Cursor.SeekReverse | internal/storage/disk/btree_cursor.go:241-273 | the last cell at or below the target |
| BTreeCursor.Cursor.Next | internal/storage/disk/btree_cursor.go:74-108 | the next cell in key order, across leaves |
| BTreeCursor.Cursor.Prev | internal/storage/disk/btree_cursor.go:111-145 | the previous cell in key order, across leaves |
| Snapshots.ReadIsHistory | internal/storage/disk/engine_tx.go:31-50 | the oldest undo record after a generation, or else the tree, gives the map of that generation |
| Snapshots.CommitKeeps | internal/storage/disk/engine_tx.go:224-252 | noting what each write replaces keeps all older readable generations |
| Snapshots.CollectKeeps | internal/storage/disk/engine.go:528-548 | dropping records up to the oldest open generation loses nothing that an open transaction needs |
| Snapshots.KeptMember | internal/storage/disk/engine.go:528-548 | what collection keeps are exactly the records above that generation |
| Snapshots.OldestUndo | internal/storage/disk/engine.go:550-564 | the record with the least generation above the given one, if there is one |
| Snapshots.ApplyAll | internal/storage/disk/engine_tx.go:224-247 | the tree gets the write set, each written key one undo record, and the key count follows |
| Snapshots.Engine.Begin | internal/storage/disk/engine.go:233-253 | a transaction starts at the current generation |
| Snapshots.Engine.GcUndo | internal/storage/disk/engine.go:528-548 | the readable generations become those from the oldest open one on |
| Snapshots.DiskTx.Get | internal/storage/disk/engine_tx.go:12-29 | the map of the transaction generation under its own writes, however many commits followed |
| Snapshots.DiskTx.Stage | internal/storage/disk/engine_tx.go:60-81 | a buffered put or delete changes only what this transaction sees |
| Snapshots.DiskTx.Commit | internal/storage/disk/engine_tx.go:83-164 | the next generation is the current map under the write set |
| Snapshots.DiskTx.Rollback | internal/storage/disk/engine_tx.go:166-177 | no generation changes |
| Snapshots.DiskTx.RollbackTo | internal/storage/disk/engine_tx.go:193-209 | the write set of the mark is back; that mark and later ones are gone |
| MergedCursor.ShowsView | internal/storage/disk/engine_cursor.go:337-372 | tree cells under overlay items are exactly what the transaction sees |
| MergedCursor.Overlay | internal/storage/disk/engine_cursor.go:337-372 | one item per written or later changed key, in key order |
| MergedCursor.EngineCursor.AdvanceForward | internal/storage/disk/engine_cursor.go:229-264 | the least key shown in the range where both positions start, and positions just behind it |
| MergedCursor.EngineCursor.AdvanceBackward | internal/storage/disk/engine_cursor.go:266-301 | the mirror image |
| MergedCursor.EngineCursor.Seek | internal/storage/disk/engine_cursor.go:53-70 | the first key of the view at or above the target |
| MergedCursor.EngineCursor.SeekReverse | internal/storage/disk/engine_cursor.go:72-89 | the last key of the view at or below the target |
| MergedCursor.EngineCursor.Next | internal/storage/disk/engine_cursor.go:91-102 | the following key of the view, also right after a move backward |
| MergedCursor.EngineCursor.Prev | internal/storage/disk/engine_cursor.go:104-115 | the preceding key of the view, also right after a move forward |
| MergedCursor.EngineCursor.RepositionAfter | internal/storage/disk/engine_cursor.go:303-315 | both positions just above the key |
| MergedCursor.EngineCursor.RepositionBefore | internal/storage/disk/engine_cursor.go:317-335 | both positions just below the key; the last test of the source never applies |
| Versions.ResolveIsHistory | internal/txn/tx.go:431-444 | for every key and every snapshot from the oldest readable one to commitTS, head and chain resolve to the committed map of that snapshot |
| Versions.PublishKeeps | internal/txn/tx.go:474-510 | publishing a validated write set appends one map to the history and keeps every earlier snapshot, the evidence for validation and first-committer-wins |
| Versions.VacuumKeeps | internal/txn/manager.go:282-375 | vacuum keeps what snapshots from the oldest open one on read, and the evidence that validation needs |
| Versions.VacuumExact | internal/txn/manager.go:282-375 | vacuum removes a version of a user keyspace if and only if no snapshot from the oldest open one on can see it |
| Versions.HeadTells | internal/txn/tx.go:446-472 | a key changed after a readable snapshot exactly when its head says so |
| Versions.NoLostUpdate | internal/txn/tx.go:446-510 | in every history a committed transaction read an earlier snapshot and overwrote only values that this snapshot showed |
| Mvcc.LoadChain | internal/txn/store.go:141-167 | all archived versions of the key and no other |
| Mvcc.NewestVisible | internal/txn/store.go:169-190 | the visible version with the greatest create timestamp, if there is one |
| Mvcc.Resolve | internal/txn/tx.go:431-444 | head, tombstone shortcut or chain |
| Mvcc.Validate | internal/txn/tx.go:446-472 | ConstraintViolation exactly if a unique write collides, else Conflict exactly if a written key changed after the snapshot |
| Mvcc.ClashClaims | internal/txn/tx.go:446-472 | a write collides exactly if the transaction wrote the key as unique without deleting it later, and a commit changed the key after the snapshot or it is there and this transaction never deleted it |
| TxCalls.CallRecorded | internal/txn/tx.go:150-183 | after each Put, InsertUnique or Delete the write set is what all successful calls say: which keys, their values, whether the last call deletes, whether the key is claimed as unique and whether it was ever deleted |
| Mvcc.Publish | internal/txn/tx.go:474-510 | new heads, archived heads, and the change in the number of live keys |
| Mvcc.DropDead | internal/txn/manager.go:308-370 | exactly the dead heads of known keyspaces and the dead chain records go, and they are counted |
| Mvcc.Manager.constructor | internal/txn/manager.go:96-129 | opening a database of raw values gives each the create timestamp 1 |
| Mvcc.Manager.Begin | internal/txn/manager.go:142-164 | the snapshot is the last commit; closed and full managers refuse |
| Mvcc.Manager.ReadAt | internal/txn/tx.go:411-429 | the committed map of a readable snapshot |
| Mvcc.Manager.Crash | internal/txn/manager.go:223-248 | open transactions end; committed versions stay |
| Mvcc.Manager.Vacuum | internal/txn/manager.go:282-375 | removes the versions that no open snapshot can read and keeps the whole history readable from the oldest open snapshot |
| Mvcc.Tx.Get | internal/txn/tx.go:51-75 | the snapshot under the own writes |
| Mvcc.Tx.Put | internal/txn/tx.go:150-183 | the view gets the key; uniqueness and shadowing flags accumulate |
| Mvcc.Tx.Delete | internal/txn/tx.go:128-148 | the view loses the key |
| Mvcc.Tx.InsertUnique | internal/txn/tx.go:85-119 | refused exactly when the transaction can see the key |
| Mvcc.Tx.Judge | internal/txn/tx.go:446-473 | if nobody changed the keys, ConstraintViolation exactly if some key was written as unique, is in the snapshot and was never deleted here; never if every unique write found its key absent, as InsertUnique makes sure |
| Mvcc.Tx.Mark | internal/txn/tx.go:332-343 | the write set is remembered |
| Mvcc.Tx.RollbackTo | internal/txn/tx.go:347-365 | the remembered write set is back; that mark and later ones are gone |
| Mvcc.Tx.Rollback | internal/txn/tx.go:312-329 | nothing committed changes |
| Mvcc.Tx.Commit | internal/txn/tx.go:216-308 | outcome in terms of the history and the calls alone, and on success the history grows by the current map under the write set; a failed commit leaves the transaction open |
| VersionKeys.HeadRoundTrip | internal/txn/version.go:49-67 | an encoded head decodes to itself |
| VersionKeys.PrefixIsName | internal/txn/version.go:86-101 | a chain key starts with the prefix of a name exactly when it belongs to that name |
| VersionKeys.ChainKeyDistinct | internal/txn/version.go:95-101 | chain keys of different versions differ, and those of one name sort by create timestamp |
| VersionKeys.LoadChain | internal/txn/store.go:141-167 | the prefix scan meets exactly the versions of the key, oldest first |
| MvccCursor.Materialize | internal/txn/tx.go:520-589 | exactly the keys and values of the view of one keyspace, in key order |
| MvccCursor.MergeKV | internal/txn/tx.go:596-611 | one ordered sequence with the pairs of both |
| MvccCursor.Cursor.Seek | internal/txn/cursor.go:20-44 | the first key of the view at or above the target |
| MvccCursor.Cursor.SeekReverse | internal/txn/cursor.go:46-75 | the last key of the view at or below the target |
| MvccCursor.Cursor.Next | internal/txn/cursor.go:77-88 | the following key of the view of the last seek |
| MvccCursor.Cursor.Prev | internal/txn/cursor.go:90-101 | the preceding key of the view of the last seek |
| Values.ValuesAgree | internal/value/key.go:87-157 | for all values and all tails that are empty or start below 0xFF, byte order of encoding plus tail is the order of values; equal values have the same encoding |
| Values.KeyOrder | internal/value/key.go:41-43 | byte order of whole keys is exactly the order of values, in all three directions |
| Values.CompareIsOrder | internal/value/compare.go:25-76 | Compare is a total order on values of any nesting |
| ValueOrder.KindsInOrder | internal/value/compare.go:186-217 | Null, booleans, numbers, strings, bytes, dates, instants, durations, lists, maps, nodes, edges and paths come in this order, in Compare and in the keys |
| ValueOrder.CompareMeans | internal/value/compare.go:25-76 | for all values, Compare is negative exactly if the kind is an earlier one or, inside a kind, the first difference says so: false before true, numbers by exact value with NaN on top, instants and then no offset before any, months, days and nanoseconds, lists, maps and paths with a proper prefix first |
| Values.CompositeOrder | internal/value/key.go:65-71 | composite keys order lexicographically by their values |
| Values.PrefixKey | internal/value/key.go:62-64 | the key of "a" is a proper prefix of the key of "a\0": encodings are not prefix-free |
| KeyPrefixes.PrefixIff | internal/value/key.go:62-64 | an encoding is a prefix of another if and only if they are equal or both are texts of one kind and the longer one continues with a NUL byte |
| KeyPrefixes.EncodePrefix | internal/value/key.go:87-157 | the same in front of any bytes, which may also complete a longer text |
| KeyPrefixes.EscapePrefix | internal/value/key.go:169-178 | which escaped strings are prefixes of an escaped string and any bytes |
| Values.EscapeLess | internal/value/key.go:169-178 | escaped strings keep byte order in front of any tail below 0xFF |
| Values.PathAgrees | internal/value/compare.go:248-272 | path encodings order like paths |
| Values.MapsAgree | internal/value/compare.go:232-246 | map encodings order like maps |
| NumberKey.CodeOrder | internal/value/number.go:9-20 | float code and gap offset, compared lexicographically, order all ints and floats exactly, across NaN, infinities and both zeros |
| NumberKey.SplitIntSplits | internal/value/number.go:115-135 | for every int64 the float is the greatest at or below it and the offset is the exact rest, in 16 bits |
| NumberKey.OrderedOrder | internal/value/number.go:149-159 | unsigned order of the codes is the numeric order with every NaN on top |
| NumberKey.UnorderedOrdered | internal/value/number.go:161-168 | decoding a code gives the canonical float |
| NumberKey.DecodeCode | internal/value/key.go:279-301 | decoding a number gives its canonical representative, which compares equal to it |
| Float64.CompareIntFloatExact | internal/value/number.go:44-89 | an int64 and a float compare by their exact values |
| Float64.ExactInt64Correct | internal/value/number.go:93-109 | succeeds on exactly the floats that are int64 values |
| Float64.RoundExact | internal/value/number.go:115-119 | conversion of an integer to float64 is exact whenever some float equals it |
| ValueDecode.ValueRoundTrip | internal/value/key.go:211-277 | decoding an encoding in front of any tail below 0xFF gives the canonical value and leaves the tail |
| ValueDecode.KeyRoundTrip | internal/value/key.go:51-60 | the decoded value equals the original, and two values are equal exactly when they decode alike |
| ValueStrict.DecodedFormed | internal/value/key.go:211-277 | whatever bytes decode, the value is one that the constructors could have made |
| ValueStrict.DecodeStrict | internal/value/key.go:211-277 | a value without numbers and maps decodes from its own encoding only |
| ValueDecode.DecodeComposite | internal/value/key.go:74-85 | one value after another until the bytes end |
| ValueDecode.CompositeRoundTrip | internal/value/key.go:74-85 | undoes EncodeComposite up to canonical values |
| ValueDecode.PathRoundTrip | internal/value/key.go:435-478 | undoes the path encoding |
| ValueDecode.MapRoundTrip | internal/value/key.go:403-433 | undoes the map encoding |
| ValueLoops.CompareBytes | internal/value/compare.go:334-348 | the loop computes byte order |
| ValueLoops.CompareListsLoop | internal/value/compare.go:219-230 | the loop computes list order |
| ValueLoops.CompareMapsLoop | internal/value/compare.go:232-246 | the loop computes map order |
| ValueLoops.ComparePathsLoop | internal/value/compare.go:248-272 | the loop computes path order |
| ValueLoops.AppendEscaped | internal/value/key.go:169-178 | the loop appends the escaped string |
| ValueLoops.DecodeEscaped | internal/value/key.go:303-320 | the loop reads an escaped string |
| ValueLoops.SortEntries | internal/value/key.go:480-489 | sorts in place: ordered and a permutation |
| KeyPrefixes.BodyPrefix | internal/index/index.go:47-53 | a string without its terminator meets exactly the strings that begin with it, NUL bytes or not, unless the bytes behind complete it |
| IndexScan.LeadingPrefix | internal/index/index.go:29-35 | an entry starts with the encoding of some values exactly when its leading values equal them, or agree before the last one and continue that text with a NUL byte, or the entity id completes it |
| IndexScan.BoundCompare | internal/index/index.go:166-171 | has the sign of the order of leading values, except that a row which continues the bound with a NUL byte counts as equal |
| IndexScan.StartsPrefixMeets | internal/index/index.go:47-53 | meets exactly the strings that begin with s, NUL bytes or not, unless an entity id from 0xFF00000000000000 on completes the string |
| IndexScan.RowExact | internal/index/index.go:103-177 | on any stored row the byte test of a scan is right if and only if the row is not one of those |
| IndexScan.ScanExact | internal/index/index.go:103-177 | a scan finds exactly the entries that satisfy its query if and only if no such row is stored |
| IndexScan.PicksInOrder | internal/index/index.go:208-229 | hits and wanted entries keep the order of the keyspace |
| IndexScan.EntitiesOf | internal/index/index.go:192-205 | the ids of entries are the entities they were written for |
| IndexScan.IndexableIff | internal/index/index.go:74-84 | an index takes values exactly if there is at least one, none of them is Null and no path occurs in them at any depth |
| IndexScan.WhenRight | internal/index/index.go:123-164 | an included low bound and an excluded high bound never mislead, STARTS WITH and lookups only with such entity ids or rows that continue the value with a NUL byte |
| IndexScan.Walk | internal/index/index.go:208-229 | exactly the keys from start on that share a prefix of start |
| IndexScan.CollectPrefix | internal/index/index.go:192-205 | the entity ids behind a prefix, in key order |
| IndexScan.Equal | internal/index/index.go:103-108 | the entity ids of the entries that pass the prefix test, in key order; these are exactly the entries with those leading values if and only if none is misread |
| IndexScan.PrefixScan | internal/index/index.go:111-119 | the same, and all entries for no values |
| IndexScan.Range | internal/index/index.go:123-164 | the entity ids of the entries that pass the bound tests, in key order; exactly those between the bounds if and only if none is misread |
| IndexScan.StartsWith | internal/index/index.go:174-176 | the entity ids of the entries that start with the string bytes, in key order; exactly those whose first value begins with it if and only if none is misread |
| IndexScan.NulDefeatsEqual | internal/index/index.go:103-108 | a lookup of any text also meets the entries that continue it with a NUL byte |
| IndexScan.NulDefeatsRange | internal/index/index.go:123-164 | a range above a text, that text excluded, drops the entries that continue it with a NUL byte |
| ShortestPaths.FnShortest | internal/exec/expr/graphfn.go:225-254 | missing nodes have no path, a node has the empty path to itself, and otherwise all shortest paths once each in the order of value.Compare, or one of them |
| ShortestPaths.OneShortest | internal/exec/expr/graphfn.go:263-283 | a path with the fewest edges, or nothing exactly when no walk exists |
| ShortestPaths.AllShortest | internal/exec/expr/graphfn.go:285-331 | every path with the fewest edges exactly once and nothing else, in ascending order of value.Compare, in any multigraph |
| ShortestPaths.SortsPaths | internal/exec/expr/graphfn.go:329 | sorting different paths by value.Compare gives a strictly ascending list of the same paths |
| ShortestPaths.Measure | internal/exec/expr/graphfn.go:286-308 | distances up to the target are exact |
| ShortestPaths.Dfs | internal/exec/expr/graphfn.go:311-328 | every completion along nodes at their distance, once |
| ShortestPaths.CompletionsAreShortest | internal/exec/expr/graphfn.go:309-330 | these completions are exactly the shortest paths |
| Calendar.CivilOfDays | internal/value/temporal.go:52-90 | civilFromDays undoes daysFromCivil on every date |
| Calendar.DaysOfCivil | internal/value/temporal.go:52-90 | daysFromCivil undoes civilFromDays on every day number, and the date is real |
| Calendar.NextDayIsNext | internal/value/temporal.go:52-72 | the next calendar day is the next integer |
| Calendar.DaysCount | internal/value/temporal.go:52-72 | 1970-01-01 has number 0 and the date n days later a number larger by n |
| Calendar.DaysFit | internal/value/temporal.go:67-70 | the range check never fails for a date that validDate admits |
| ExpressionGrammar.ParsesIff | internal/lang/parser/expr.go:31-50 | the parser accepts exactly the texts of a grammar with the levels written out, and gives them the grouping and the meaning of the grammar: OR, XOR, AND, NOT, comparisons that do not chain, + and -, * / %, signs, ^ to the right and the others to the left |
| ExpressionGrammar.PrattDerives | internal/lang/parser/expr.go:31-50 | what the parser takes from the front of any text, from any level on, is derived from that level on |
| ExpressionGrammar.OneMeaning | internal/lang/parser/expr.go:31-50 | no text of the grammar has two meanings |
| ExpressionEbnf.DocumentedIff | docs/spec/query-language.md:226-250 | the productions of the language description give exactly those texts of the parser that have no test on the left of an arithmetic operator and no NOT behind a comparison, an arithmetic operator or a sign |
| ExpressionEbnf.DocumentedParses | docs/spec/query-language.md:226-279 | a text of the productions parses to the expression that they describe |
| ExpressionEbnf.BeyondProductions | internal/lang/parser/expr.go:31-64 | two texts that the parser accepts and the productions do not |
| ExpressionReads.RoundTripIff | internal/lang/ast/format.go:532-659 | for every expression, parsing its printed tokens gives the same tree and leaves nothing if and only if it is writable |
| ExpressionReads.PrattReads | internal/lang/parser/expr.go:31-50 | in any text that the parser accepts, it keeps every token but parentheses, and behind the tokens of lists and calls it saw no comprehension, DISTINCT or taken keyword |
| ExpressionReads.PrintSeen | internal/lang/ast/format.go:532-659 | an expression whose printed text passes those tests is writable |
| ExpressionRoundTrip.RoundTrip | internal/lang/ast/format.go:532-659 | parsing the printed tokens of any writable expression gives the same tree and leaves nothing |
| ExpressionRoundTrip.Printed | internal/lang/parser/expr.go:31-50 | after an unparenthesized operand the parser stands in its loop with that operand on the left |
| ExpressionRoundTrip.Termed | internal/lang/ast/format.go:776-794 | parentheses are printed wherever the parser needs them |
| ExpressionRoundTrip.ListProduced | internal/lang/parser/expr.go:307-324 | the parser makes a list with one element of [(x IN y)] |
| ExpressionRoundTrip.ListBecomesComp | internal/lang/parser/expr.go:326-343 | and that list, printed, reads back as a comprehension |
| ExpressionRoundTrip.CallProduced | internal/lang/parser/expr.go:203-257 | the parser makes a call named NOT of a quoted name |
| ExpressionRoundTrip.CallBecomesNot | internal/lang/parser/expr.go:52-64 | and that call, printed, reads back as a negation |
| ExpressionParser.Parser.ParsePratt | internal/lang/parser/expr.go:31-50 | the precedence loop computes the parse that grammar and round trip are about, and what it returns is derived from the floor on |
| ExpressionParser.Parser.ParsePrefix | internal/lang/parser/expr.go:52-64 | NOT, signs and postfix expressions |
| ExpressionParser.Parser.ParseLed | internal/lang/parser/expr.go:91-165 | binary operators, comparisons and IS |
| ExpressionParser.Parser.ParsePostfix | internal/lang/parser/expr.go:167-184 | properties, indexes and slices |
| ExpressionParser.Parser.ParseIndex | internal/lang/parser/expr.go:186-201 | an index or a slice |
| ExpressionParser.Parser.ParsePrimary | internal/lang/parser/expr.go:203-257 | literals, names, calls, lists and parentheses |
| ExpressionParser.Parser.ParseCallExpr | internal/lang/parser/expr.go:281-305 | DISTINCT, * and arguments |
| ExpressionParser.Parser.ParseListOrComp | internal/lang/parser/expr.go:307-324 | a list or a comprehension |

## Left out

- BTree.Tree.Put: asks that two cells of the key's size fit an internal page, if checkKey admits it. Above that bound the page of two such separators splits into one without separators (`BTreeRoom.LongPairSplitsEmpty`), and what later operations make of it is not modelled.
- BTree.Tree.Delete: nothing is said about the pages after a delete or put that fails; the engine drops them and refuses further work.
- BTreeSize.InternalHalvesFit: the bound on key sizes is sufficient; it is not claimed to be necessary.
- CrashSteps.InvNext: LSNs are record positions, page writes are atomic, a page image is a list of numbers, and the page LSN stamp that logPages writes is not modelled. A page write that fails leaves the page as it was, and a sync that fails leaves every write waiting for the next one. Sync is a step between operations only, not on an engine that broke: the buffer pool is not modelled.
- CrashRuns.CrashRecovery: equality of pages is up to the checkpoint field of the header, which a checkpoint rewrites outside any transaction.
- Wal.Log.Append: LSNs and transaction ids are below 2^64; wrap-around is not modelled.
- Wal.Log.Sync: group commit, its delay and its waiters are one flush; NoFsync is not modelled.
- Wal.CrashSafe: the bytes of a segment header and a removal of old segments that a crash interrupts are not modelled; a segment whose header is torn counts as one without records, which Open creates anew.
- Mvcc.Manager.constructor: opening an already versioned store, raw values that start with 0xA5, and raw values outside the user keyspaces are not modelled.
- Mvcc.Tx.Commit: engine errors, hooks, idle timeouts and the oracle record are not modelled; the engine is an atomic map.
- Snapshots.DiskTx.Commit: the trees are a map here, as `BTree` justifies; a commit that breaks the engine is not modelled.
- MergedCursor.EngineCursor.Seek: the tree cursor is a position in the ordered cells, as `BTreeCursor` justifies.
- MvccCursor.Materialize: the order of an engine cursor and of sort.Slice is one ordered enumeration of a set of keys.
- IndexScan.Equal: looked-up values are not more than the index has properties.
- IndexScan.PrefixScan: looked-up values are not more than the index has properties.
- IndexScan.Range: a bound has no more values than the index has properties.
- ValueDecode.MapRoundTrip: the Go map and the final sort of decodeMap are a sequence that grows in key order.
- Values.ValuesAgree: a date is a 32-bit day number, which its constructor guarantees; a record of a damaged file could hold a larger one.
- ShortestPaths.AllShortest: the library sort is an insertion sort on sequences.
- ExpressionRoundTrip.RoundTrip: works on tokens; the lexer, number formatting and quoting are not modelled, and map literals, quantifiers, REDUCE and CASE are not parsed.
- Overflow page chains: a large value is stored in its cell, whose size counts the eight-byte pointer.
- ValueStrict.DecodeStrict: says nothing on numbers, which have spare codes, and on maps, where a repeated key overwrites.
- The page header and its checksum, the buffer pool, the free list inside pages, and page-file growth and truncation.
- Failed allocation, a full disk and other I/O errors inside a tree operation.
- The planner, the executor, the graph store, the servers and the command line.
- The record encoding, hashing, three-valued predicates, durations and time parsing.

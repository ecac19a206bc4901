# A relational engine, modelled in Dafny

This project models `dbcore`, a small relational engine, and proves what its layers promise. The
methods follow the loops and branches of the C++ code; the functions and predicates beside them say
what the loops compute and what it means.

| layer | files |
|---|---|
| locks, recovery, transactions, file lengths | `Locks`, `ConcurrencyMgr`, `Recovery`, `Tx*` |
| pages, log, buffers | `PageBytes`, `LogMgr`, `LogRoundTrip`, `LogRecords`, `BufferMgr` |
| B-tree | `Bt*` |
| record pages, heap files, hash index, index upkeep, index scans | `RecordPage`, `RecordFile`, `HeapFile`, `HashIndex`, `Index*` |
| sort, joins, products, grouping | `SortPlan`, `SortScan`, `MergeJoin`, `Product`, `Multibuffer`, `GroupBy` |
| constants, predicates, plans, planner | `Constants`, `Predicate`, `Plans`, `PlanScans`, `Planner`, `HeuristicPlanner` |
| lexer, parser, printer | `Lexer`, `Parser`, `Grammar`, `QueryText` |

The transaction layer is one step machine. Any number of transactions begin, lock in two steps, read,
write with logging, flush frame by frame, commit and roll back in any interleaving; pages and log records reach
the disk at any time, and a crash may strike between any two steps, also inside recovery. The log
record, the page change and the mark of a write are three steps. A page that gets out between its
change and its mark can defeat recovery; the exact condition is proved, with a run that meets it,
and the runs considered are those in which no page is written too early in this sense. In every
state they reach, recovery restores the last committed values, the committed transactions are
serializable in commit order, and interrupted recoveries add up to one. `TxEngine` composes a transaction's
calls, the ends of transactions and recovery from the machine's steps. `TxLengths` adds the operations on file lengths,
which are neither logged nor undone: the turns of all transactions are a serial order for them, and
leaving out those that did not commit is harmless exactly under a condition that is proved.

The B-tree is proved against a multimap, on the page files themselves: arrays of slots, shifting,
splits that do not cut groups of equal keys, overflow chains, directory splits and a growing root.
The query operators are proved against nested loops over rows, also where reading behind the end of
an empty input returns something or throws, and the planner against the product of all tables under
the full predicate. The parser is proved to accept exactly the token sequences of queries, and
printing a query and parsing it again to give the query back exactly for the constants that survive printing.

## Where the model follows the intent of a line

- Log records: the operation code is stored as it is (`tx/log_ops.h:16-19` rounds it); the bytes
  filled are the record's own (`tx/recovery/set_int_record.cpp:49-59` fills a copy).
- Log manager: an empty log file gets its first block (`log/log_mgr.h:53` has the branches the other way
  round); `flush` compares with the last saved number (`log/log_mgr.h:65`).
- Buffers: `set_modified` tests the new number (`buffer/buffer.h:85`); writes go to the frame itself
  (`tx/transaction.cpp:66-67`).
- B-tree: `find_slot_before` compares with `<` (`index/btree/bt_page.h:142`); looking at the next slot is
  bounded (`index/btree/bt_dir.h:35`); "no split" is -1 (`index/btree/bt_dir.h:90`,
  `index/btree/btree_index.cpp:50`); the root page is created (`index/btree/btree_index.cpp:5-16`).
- Sorting and joining: the comparator says "not less" as its callers use it
  (`materialize/record_comparator.h:20-28`); there is no join value before the first match
  (`materialize/merge_join_scan.hpp:16`); a saved position includes the current side and what is left of both
  (`materialize/sort_scan.h:98-112`); a single run leaves the second side empty (`materialize/sort_scan.h:33-37`).
- Layout: the slot size is where the offsets end (`record/layout.h:29-38`).
- Planner: a term's constant is found whatever it is (`query/predicate.h:93-101` uses 0 and "" for
  none); a table without a join plan is passed over (`query/planner/heuristic_query_planner.h:59`); the
  current plan is still there when a product is made of it (`query/planner/heuristic_query_planner.h:110-114`).

Kept as written, with the exact condition under which the promise holds: the shared lock that a
failed fresh upgrade leaves in the table; the mark of a write, set only after its page has changed; the mark of a frame that flushing lowers by one; giving back
a buffer nobody has pinned; deleting from a leaf with an overflow chain; appends of transactions
that do not commit; file names and strings of lengths that are no multiple of 4; inserting without
a value for an indexed field; products and index joins without a left row; constants that do not
survive printing.

## Model

| member | source | states |
|---|---|---|
| `Locks.StepKeepsInv` | src/libs/dbcore/tx/concurrency/lock_table.h:46-86 | every step of the lock protocol, including each half of an exclusive request and its failure, keeps the table value of every block equal to what is held on it |
| `Locks.RunKeepsInv` | src/libs/dbcore/tx/concurrency/concurrency_mgr.h:24-54 | over every interleaving of the transactions' lock calls, value -1 means one exclusive owner and nobody else, and n >= 0 counts shared holders, upgrades in progress and stranded locks |
| `Locks.Exclusion` | src/libs/dbcore/tx/concurrency/lock_table.h:60-72 | an exclusive lock excludes every other holder and every half-done upgrade on its block |
| `Locks.EmptyIffNothingStranded` | src/libs/dbcore/tx/concurrency/lock_table.h:74-86 | when all have released, the table is empty if and only if no fresh upgrade was ever aborted in the run |
| `Locks.StrandedBlocksForever` | src/libs/dbcore/tx/concurrency/concurrency_mgr.h:34-45 | a lock stranded by an aborted fresh upgrade stays for good: its block is never locked exclusively again, whatever run follows |
| `Concurrency.LockTable.SLock` | src/libs/dbcore/tx/concurrency/lock_table.h:46-58 | a shared lock is granted exactly when nobody holds the block exclusively, as a step of the lock machine, and refused without a change otherwise |
| `Concurrency.LockTable.XLock` | src/libs/dbcore/tx/concurrency/lock_table.h:60-72 | an upgrade is granted exactly when the requester's shared lock is the only one that counts on the block, as a step of the lock machine |
| `Concurrency.LockTable.Unlock` | src/libs/dbcore/tx/concurrency/lock_table.h:74-86 | giving a held lock back is the machine's unlock step, so the table still counts what is held |
| `Concurrency.ConcurrencyMgr.SLock` | src/libs/dbcore/tx/concurrency/concurrency_mgr.h:24-32 | is refused exactly when another transaction holds the block exclusively; a fresh lock is recorded as shared, a held block is not asked for again, and nothing else changes |
| `Concurrency.ConcurrencyMgr.XLock` | src/libs/dbcore/tx/concurrency/concurrency_mgr.h:34-45 | succeeds exactly when no other transaction holds the block or is half-way on it and no lock is stranded there, and then records the exclusive lock and nothing else; a failure strands one shared lock exactly when the block was not held before and its value was not negative |
| `Concurrency.ConcurrencyMgr.Release` | src/libs/dbcore/tx/concurrency/concurrency_mgr.h:47-54 | every lock of this transaction goes and no other |
| `Concurrency.ExclusiveIffNegative` | src/libs/dbcore/tx/concurrency/lock_table.h:29-37 | a negative value means exactly that some transaction holds the block exclusively |
| `Recovery.RecoveryMgr.DoRollback` | src/libs/dbcore/tx/recovery/recovery_,mgr.cpp:14-28 | the loop over the log iterator undoes this transaction's writes newest first and stops at its start record |
| `Recovery.RecoveryMgr.DoRecover` | src/libs/dbcore/tx/recovery/recovery_,mgr.cpp:30-46 | the loop that grows the list of finished transactions computes the backward walk over the whole log, up to a checkpoint |
| `Recovery.RecoverWalkAt` | src/libs/dbcore/tx/recovery/recovery_,mgr.cpp:30-46 | the backward walk sets each location to the oldest old value that is still to be undone, or leaves it alone |
| `Recovery.OldestUndone` | src/libs/dbcore/tx/recovery/recovery_,mgr.cpp:30-46 | which record that is: the oldest one at the location with no finish record of its transaction and no checkpoint behind it |
| `Recovery.RollbackWalkAt` | src/libs/dbcore/tx/recovery/recovery_,mgr.cpp:14-28 | rolling back sets each location to the transaction's first logged old value there |
| `TxTheorems.StepKeeps` | src/libs/dbcore/tx/transaction.cpp:13-81 | every step of the machine (begin, lock, read, the three steps of a logged write, page steal, log flush, flush_all frame by frame, commit, rollback, crash, recovery) that does not write a half-done write's page too early keeps the invariants |
| `TxTheorems.CrashRecovery` | src/libs/dbcore/tx/recovery/recovery_,mgr.cpp:30-52 | from every reachable state, a crash that loses all buffers and the unflushed log followed by recovery leaves in every location the value of its last committed write |
| `TxTheorems.RightUnlessEarly` | src/libs/dbcore/tx/transaction.cpp:59-69 | after a step that writes a page recovery still does so if and only if the page was not too early: out between its change and its mark, with the old value neither the committed one nor durable in the log |
| `TxTheorems.EarlyIsWrong` | src/libs/dbcore/tx/transaction.cpp:59-69 | where it was, recovery leaves the uncommitted value there |
| `TxEarlyRun.UncommittedSurvives` | src/libs/dbcore/buffer/buffer.h:107-115 | a run that comes to it: a frame with a mark left over from another transaction is flushed by that transaction's commit |
| `TxTheorems.MarksDoNotBlock` | src/libs/dbcore/buffer/buffer_mgr.cpp:19-25 | a page that gets this transaction's mark only after its flush_all has passed does not hold up the commit or rollback record |
| `TxTheorems.RecoveredDisk` | src/libs/dbcore/tx/recovery/recovery_,mgr.cpp:69-75 | when the checkpoint has been written, the disk holds those values |
| `TxTheorems.InterruptedRecovery` | src/libs/dbcore/tx/recovery/recovery_,mgr.cpp:69-75 | recovery interrupted any number of times by further crashes, with transaction numbers used again, gives what one uninterrupted recovery gives |
| `TxTheorems.RollbackRestores` | src/libs/dbcore/tx/recovery/recovery_,mgr.cpp:61-67 | at any time a rollback would give every block the transaction writes its committed values back |
| `TxTheorems.RolledBackLeavesNoTrace` | src/libs/dbcore/tx/transaction.cpp:21-27 | a rollback that ran step by step between the steps of others has done so |
| `TxTheorems.Serializable` | src/libs/dbcore/tx/transaction.cpp:13-81 | replaying the committed transactions one after another in commit order returns every value they read in the run and leaves the last committed values; nobody commits twice |
| `TxTheorems.ConflictSerializable` | src/libs/dbcore/tx/transaction.cpp:45-81 | of two conflicting operations on blocks the earlier one's transaction let go of the block in between, and committed first if both commit |
| `TxTheorems.ReadsAreClean` | src/libs/dbcore/tx/transaction.cpp:45-57 | a read sees the transaction's own last write or else the last committed one |
| `TxLengths.LenStepKeeps` | src/libs/dbcore/tx/transaction.cpp:83-95 | the steps that read or extend a file under a lock on its dummy block -1, and all other steps, keep the invariants of the machine with file lengths |
| `TxLengths.LengthConflicts` | src/libs/dbcore/tx/transaction.cpp:83-95 | of two conflicting operations on a file's length the earlier one's transaction let go of the length in between, and has the earlier turn in the serial order |
| `TxLengths.LengthsSerializable` | src/libs/dbcore/tx/transaction.cpp:83-95 | every length that was read is what the transactions with earlier turns, committed or not, and its own earlier appends add up to; the committed ones have the commit order |
| `TxLengths.BothSerializable` | src/libs/dbcore/tx/transaction.cpp:13-95 | one order of the committed transactions serves data and lengths |
| `TxLengths.CommittedSizes` | src/libs/dbcore/tx/transaction.cpp:83-95 | replaying the committed transactions alone gives a length that was read if and only if nobody with an earlier turn who did not commit has extended the file |
| `TxLengthRun.RolledBackAppendSeen` | src/libs/dbcore/tx/transaction.cpp:90-95 | a run in which it does not: a transaction appends and rolls back, and the next one reads and commits the longer length |
| `TxEngine.Engine.Commit` | src/libs/dbcore/tx/recovery/recovery_,mgr.cpp:54-59 | flush, commit record, log flush, release: no value changes, the values in the blocks locked exclusively are on the disk and the last committed ones, the run goes on with the releases only, others commit only if their records were waiting, and the others' locks and state stay |
| `TxEngine.Engine.SLock` | src/libs/dbcore/tx/transaction.cpp:45-57 | in the machine, a shared lock is granted exactly when nobody else holds the block exclusively |
| `TxEngine.Engine.XLock` | src/libs/dbcore/tx/transaction.cpp:59-81 | in the machine, the two steps of an exclusive request succeed exactly when there is nobody else on the block |
| `TxEngine.Engine.Get` | src/libs/dbcore/tx/transaction.cpp:45-57 | a read under a lock gives the transaction's own last write or else the last committed value, and is recorded; no value changes |
| `TxEngine.Engine.Replace` | src/libs/dbcore/buffer/buffer.h:99-115 | taking a page's frame away changes no value and leaves the page on the disk, behind its log records |
| `TxEngine.Engine.RollBack` | src/libs/dbcore/tx/recovery/recovery_,mgr.cpp:61-67 | the blocks locked exclusively end, in the pages and on the disk, at the values that were committed before the call; no other value changes, the transaction does not commit, and others stay as they were |
| `TxEngine.Engine.Recover` | src/libs/dbcore/tx/recovery/recovery_,mgr.cpp:69-75 | a whole boot, from any reachable crashed state, ends with the disk and the pages at the values committed before it, commits nobody, and leaves one new transaction without locks |
| `TxEngine.Engine.CrashAndBoot` | src/libs/dbcore/tx/recovery/recovery_,mgr.cpp:69-75 | a crash at any time and the next boot end at the values committed before the crash |
| `TxEngine.Engine.Set` | src/libs/dbcore/tx/transaction.cpp:59-69 | record, page and mark, in turn: the old value is logged, the location has the new value and no other changes |
| `PageBytes.IntRoundTrip` | src/libs/dbcore/file/page/page.cpp:16-52 | a 32-bit integer of either sign is read back as it was written |
| `PageBytes.BytesRoundTrip` | src/libs/dbcore/file/page/page.cpp:26-61 | a length-prefixed byte string is read back, and the bytes around it stay |
| `PageBytes.BytePage.SetBytes` | src/libs/dbcore/file/page/page.cpp:54-61 | fails exactly on a misaligned or too long write, and then changes nothing |
| `Logs.PackFront` | src/libs/dbcore/log/log_mgr.h:76-103 | writing a record in front of the others and moving the boundary keeps the block a packed list, newest first |
| `Logs.LogMgr.Append` | src/libs/dbcore/log/log_mgr.h:76-103 | the record becomes the newest one whatever block it goes to, under the next number; a record of a length that is no multiple of 4 is refused |
| `Logs.LogMgr.Flush` | src/libs/dbcore/log/log_mgr.h:62-67 | every record up to the given number is durable afterwards |
| `Logs.LogIterator.Next` | src/libs/dbcore/log/log_iterator.h:50-61 | gives the newest record not given yet, crossing block boundaries |
| `LogRoundTrip.AppendThenIterate` | src/libs/dbcore/log/log_iterator.h:23-61 | records appended to a new log are iterated newest first, all of them, and the i-th got number i; the loop terminates |
| `LogRoundTrip.Reopen` | src/libs/dbcore/log/log_mgr.h:42-60 | a log manager opened after a crash finds exactly the records that had reached the disk |
| `LogRecords.RecordRoundTrip` | src/libs/dbcore/tx/recovery/log_record.cpp:12-32 | every record that can be encoded is decoded to itself |
| `LogRecords.SetLayout` | src/libs/dbcore/tx/recovery/set_int_record.cpp:5-22 | where code, transaction, file name, block, offset and value of a logged write lie |
| `LogRecords.EncodableIff` | src/libs/dbcore/tx/recovery/set_int_record.cpp:40-60 | a logged write can be encoded if and only if its file name's length is a multiple of 4 |
| `LogRecords.AppendableIff` | src/libs/dbcore/tx/recovery/set_str_record.cpp:40-60 | the log takes an encoded record if and only if it is no string of a length that is no multiple of 4 |
| `Buffers.Buffer.Flush` | src/libs/dbcore/buffer/buffer.h:107-115 | a marked page goes to disk directly after the log has been flushed up to its record, and in all that has been written no page ever came before its log records |
| `Buffers.BufferMgr.TryPin` | src/libs/dbcore/buffer/buffer_mgr.cpp:62-100 | waits in vain exactly when the block has no frame and all frames are pinned; otherwise the block is in one pinned frame, other pinned frames stay, no block's content changes and the available count is exact |
| `Buffers.BufferMgr.Unpin` | src/libs/dbcore/buffer/buffer_mgr.cpp:27-36 | the available count still equals the unpinned frames if and only if the buffer was pinned |
| `Buffers.BufferMgr.Modify` | src/libs/dbcore/buffer/buffer.h:82-87 | changes what its block holds and no other block's content, and leaves the transaction's mark and, if there is one, the new log number |
| `Buffers.BufferMgr.ChangeAndFlush` | src/libs/dbcore/tx/transaction.cpp:59-69 | after a change and the transaction's flush_all, whatever calls come in between that do not change the block again, the disk holds the change, the log is durable up to its record, and the block never went out before that |
| `Buffers.BufferMgr.FlushAll` | src/libs/dbcore/buffer/buffer_mgr.cpp:19-25 | all that the transaction has changed is on disk, behind its log records; its marks are lowered by one, no other mark and no block's content changes |
| `BtPages.FullAtIsLeast` | src/libs/dbcore/index/btree/bt_page.h:156-159 | a page counts as full from exactly this record count on, and up to it, full included, stays within its block |
| `BtPages.BtreePage.Insert` | src/libs/dbcore/index/btree/bt_page.h:68-80 | shifting in place puts the record at its slot and keeps the order of the others |
| `BtPages.BtreePage.Split` | src/libs/dbcore/index/btree/bt_page.h:82-95 | moving records one by one leaves the front in this page and the rest, in order, in the new one |
| `BtPages.BtreePage.FindSlotBefore` | src/libs/dbcore/index/btree/bt_page.h:139-145 | ends in front of the first record whose key is not below the one searched for |
| `BtPages.BtreePage.DeleteRecord` | src/libs/dbcore/index/btree/bt_page.h:228-233 | shifting in place removes the record at the slot; the first slot of a page emptied by it still holds what was deleted |
| `BtPages.SplitPage` | src/libs/dbcore/index/btree/bt_page.h:82-95 | on the bytes of a block: both pages stay within their blocks |
| `BtTrees.SearchFinds` | src/libs/dbcore/index/btree/bt_dir.h:32-66 | searching down the pages ends at the leaf with the largest separator that does not exceed the key |
| `BtTrees.OneDepth` | src/libs/dbcore/index/btree/bt_dir.h:56-66 | every search passes the same number of pages: all leaves are at one depth |
| `BtTreeInsert.InsertTreeOk` | src/libs/dbcore/index/btree/bt_dir.h:79-91 | inserting with page splits keeps the shape, and the separators of the leaves grow by exactly the one inserted, in order |
| `BtBlocks.InsertTreeBlocks` | src/libs/dbcore/index/btree/bt_dir.h:17-30 | no block becomes part of two pages of the directory |
| `BtDirs.Directory.Search` | src/libs/dbcore/index/btree/bt_dir.h:56-66 | the loop over the pages of the file finds that leaf |
| `BtDirs.Directory.InsertEntry` | src/libs/dbcore/index/btree/bt_dir.h:17-30 | no page is written past its block, also when it is full before the split |
| `BtDirs.EntryPlace` | src/libs/dbcore/index/btree/bt_dir.h:17-30 | the entry goes in front of all keys not below its own, and a full page is cut in the middle |
| `BtDirs.Directory.Insert` | src/libs/dbcore/index/btree/bt_dir.h:68-91 | a separator goes in through splits and a growing root; the file still forms one search tree within its blocks |
| `BtLeaves.SplitPosOk` | src/libs/dbcore/index/btree/bt_leaf.h:100-126 | a full page with two keys can be cut between two different keys |
| `BtLeaves.SplitPosNear` | src/libs/dbcore/index/btree/bt_leaf.h:108-126 | the cut is the one in front of the middle record's group, or behind it if that is the first group |
| `BtLeafInsert.LeafInsertOk` | src/libs/dbcore/index/btree/bt_leaf.h:82-129 | in each of its four cases an insertion leaves one or two leaves in order, and every key finds one more record id if it is the key inserted, else what it found |
| `BtLeafDelete.DeletedOk` | src/libs/dbcore/index/btree/bt_leaf.h:70-80 | a deletion leaves the leaf in order if and only if it is harmless: no overflow chain, another key, or another record of the key on the same page |
| `BtLeafSearch.SearchIs` | src/libs/dbcore/index/btree/bt_leaf.h:21-63 | on a leaf in order the cursor shows exactly the record ids stored under the key, page by page |
| `BtLeafSearch.CutOff` | src/libs/dbcore/index/btree/bt_leaf.h:70-80 | where a deletion is not harmless and leaves other records on the leaf's page, a search for the key finds nothing more, and a search for the key now first shows a record id that is not its own |
| `BtLeafSearch.StillShown` | src/libs/dbcore/index/btree/bt_leaf.h:70-80 | where it empties an overflow page, every search shows what it showed, the deleted record id included |
| `BtLeafSearch.StillReached` | src/libs/dbcore/index/btree/bt_leaf.h:70-80 | where it empties the leaf's own page, every search shows what it should, since slot 0 still holds the deleted key |
| `BtCovers.KeyInHome` | src/libs/dbcore/index/btree/bt_leaf.h:82-129 | no key is in two leaves, and an overflow page holds only its leaf's first key |
| `BtCovers.GrownCovered` | src/libs/dbcore/index/btree/btree_index.cpp:38-54 | an insertion anywhere keeps all leaves, chains and separators in order |
| `BtCovers.GrownLookup` | src/libs/dbcore/index/btree/btree_index.cpp:38-54 | afterwards a lookup of any key finds what it found before, and the new record id under its own key |
| `BtMultimap.ShrunkCovered` | src/libs/dbcore/index/btree/btree_index.cpp:56-62 | a deletion keeps the whole file of leaves in order if and only if it is harmless |
| `BtMultimap.RunAgrees` | src/libs/dbcore/index/btree/btree_index.cpp:18-62 | after any run of insertions and harmless deletions every key finds exactly the record ids inserted and not deleted for it |
| `BtMultimap.SearchesRight` | src/libs/dbcore/index/btree/btree_index.cpp:18-62 | after any deletion all searches find one record id less under its key and the same elsewhere if and only if it was harmless or emptied the leaf's own page |
| `BtMultimap.DeletionLosesChain` | src/libs/dbcore/index/btree/bt_leaf.h:70-80 | an index in which after deleting one record id of a key a search for the key finds nothing, though there is another, and a search for a different key shows that other one |
| `BtIndexes.BtreeIndex.Insert` | src/libs/dbcore/index/btree/btree_index.cpp:38-54 | the leaf loop, the splits and the directory together add the pair to the multimap and nothing else |
| `BtIndexes.BtreeIndex.DeleteRecord` | src/libs/dbcore/index/btree/btree_index.cpp:56-62 | removes the first match; the index stays valid if and only if that was harmless, and then the multimap loses just this pair |
| `BtIndexes.BtreeIndex.ReadAll` | src/libs/dbcore/index/btree/bt_leaf.h:54-63 | the cursor, with its steps to overflow pages, reads off exactly the record ids stored under the key |
| `BtIndexes.RunAndRead` | src/libs/dbcore/index/btree/btree_index.cpp:18-62 | a run on the object followed by a search gives what the multimap holds |
| `BtKeys.RankKeepsOrder` | src/libs/dbcore/query/constant.h:54-62 | the ranks of any finite set of keys compare as the keys do, whatever their type |
| `BtKeys.AnyKeys` | src/libs/dbcore/index/btree/btree_index.cpp:18-62 | so a run over keys of any ordered type finds under each key what the run leaves under it |
| `Constants.ConstantsOrdered` | src/libs/dbcore/query/constant.h:54-57 | integers and strings together are such a type |
| `Constants.LessIs` | src/libs/dbcore/query/constant.h:54-57 | integers compare by size and come before strings, strings by their first difference |
| `RecordPages.OffsetsAligned` | src/libs/dbcore/record/layout.h:29-38 | all fields of a slot lie at multiples of 4 if and only if all declared string lengths are multiples of 4 |
| `RecordPages.RecordPage.SetField` | src/libs/dbcore/record/record_page.h:69-79 | writing one field of one slot into the bytes changes no other field, flag or slot |
| `RecordPages.RecordPage.GetField` | src/libs/dbcore/record/record_page.h:57-67 | reads what the slot holds, of either type, if and only if the stored length is not beyond the declared one; otherwise it reads past the field, or fails |
| `RecordPages.BehindTheEnd` | src/libs/dbcore/file/page/page.cpp:16-24 | with the slot number -1 of a scan that has ended, a field can be read if and only if it is an integer and last in its slot |
| `RecordPages.RecordPage.InsertAfter` | src/libs/dbcore/record/record_page.h:110-116 | takes the first free slot behind the given one, and says -1 exactly when there is none |
| `RecordPages.RecordPage.Format` | src/libs/dbcore/record/record_page.h:86-103 | every slot is free afterwards, with zeros and empty strings |
| `RecordFiles.FieldInFile` | src/libs/dbcore/record/record_page.h:69-79 | seen as a file of slots, a field written into a block's bytes is the one-slot change the table scan makes |
| `RecordFiles.FlagInFile` | src/libs/dbcore/record/record_page.h:28-31 | a flag written into a block's bytes frees or takes that one slot of the file |
| `RecordFiles.ViewOk` | src/libs/dbcore/record/record_page.h:33-36 | blocks of one size are a file of equally many slots each |
| `HeapFiles.ReadAll` | src/libs/dbcore/record/table_scan.cpp:16-32 | a scan shows the record of every used slot once, in order, and ends |
| `HeapFiles.TableScan.Insert` | src/libs/dbcore/record/table_scan.cpp:85-96 | takes the first free slot, in a new block if there is none, with what was left in it, and changes nothing else |
| `HeapFiles.TableScan.Set` | src/libs/dbcore/record/table_scan.cpp:67-83 | the current record is replaced and nothing else changes |
| `HeapFiles.TableScan.DeleteRecord` | src/libs/dbcore/record/table_scan.cpp:98-101 | the current record is gone from the scan and nothing else changes |
| `HashIndexes.HashIndex.Insert` | src/libs/dbcore/index/hash/hash_index.cpp:35-42 | one entry more in the bucket of its value, and no other bucket changes |
| `HashIndexes.HashIndex.DeleteRecord` | src/libs/dbcore/index/hash/hash_index.cpp:44-55 | one such entry less, if there is one, and no other bucket changes |
| `HashIndexes.HashIndex.ReadAll` | src/libs/dbcore/index/hash/hash_index.cpp:9-33 | a search shows exactly the record ids stored under the key |
| `IndexAgreement.RowAdded` | src/libs/dbcore/index/planners/index_update_planner.h:23-51 | after an insertion the index agrees with the table if and only if its field was given exactly once |
| `IndexUpdates.IndexedTable.ExecuteInsert` | src/libs/dbcore/index/planners/index_update_planner.h:23-51 | a free slot gets the row, each field its last given value or what the slot held; all indexes agree afterwards if and only if every indexed field is given exactly once |
| `IndexUpdates.IndexedTable.ExecuteDelete` | src/libs/dbcore/index/planners/index_update_planner.h:53-81 | exactly the matching rows go, with their entries, and are counted |
| `IndexUpdates.IndexedTable.ExecuteModify` | src/libs/dbcore/index/planners/index_update_planner.h:83-120 | exactly the matching rows get the new value of the field, their entries follow, and they are counted |
| `IndexUpdates.DeletedIs` | src/libs/dbcore/index/planners/index_update_planner.h:53-81 | a deletion is over exactly if the rows that do not match are left, as they were |
| `IndexUpdates.ModifiedIs` | src/libs/dbcore/index/planners/index_update_planner.h:83-120 | a modification is over exactly if all rows are left and those that match have the new value |
| `IndexUpdates.Run` | src/libs/dbcore/index/planners/index_update_planner.h:23-120 | over any run of statements whose insertions set the indexed fields, the table goes from state to state as the statements say, and every index holds exactly the pairs of field value and record id of the live rows, also where slots are used again |
| `IndexScans.SelectionIsFilter` | src/libs/dbcore/index/scan/index_select_scan.h:30-44 | with the index in agreement its record ids stand for the rows a filtered table scan shows |
| `IndexScans.IndexSelectScan.Next` | src/libs/dbcore/index/scan/index_select_scan.h:35-44 | shows one such row after the other, until all have been shown |
| `IndexScans.IndexJoinIsJoin` | src/libs/dbcore/index/scan/index_join_scan.h:33-53 | with the index in agreement the pairs are those of the nested-loop equi-join |
| `IndexScans.IndexJoinScan.Next` | src/libs/dbcore/index/scan/index_join_scan.h:33-53 | shows the join of the right table with the left rows it takes, up to the first whose join field cannot be read, where it throws; without a left row it takes what reading behind the end gives |
| `IndexScans.TakenIsJoin` | src/libs/dbcore/index/scan/index_join_scan.h:33-38 | it ends with the join if and only if there is a left row, or what is behind the end can be read and matches no right row |
| `Sorting.SplitIntoRuns` | src/libs/dbcore/materialize/sort_plan.h:61-85 | cuts the input into sorted runs, and only where the order breaks |
| `Sorting.MergeTwoRuns` | src/libs/dbcore/materialize/sort_plan.h:30-59 | the loops compute the merge |
| `Sorting.MergeSorts` | src/libs/dbcore/materialize/sort_plan.h:30-59 | the merge of two sorted runs is sorted, for any total preorder |
| `Sorting.MergeRuns` | src/libs/dbcore/materialize/sort_plan.h:117-126 | at most two sorted runs are left that together permute the input, after exactly the least number of passes that can do it |
| `SortScans.OpenSorted` | src/libs/dbcore/materialize/sort_plan.h:117-126 | the scan over a non-empty input shows an ordered permutation of it |
| `SortScans.ReadSorted` | src/libs/dbcore/materialize/sort_scan.h:49-69 | which is what reading it to its end gives |
| `SortScans.SortScan.Next` | src/libs/dbcore/materialize/sort_scan.h:49-69 | moves to the next record of the merge of the two runs |
| `SortScans.SortScan.RestorePosition` | src/libs/dbcore/materialize/sort_scan.h:105-112 | goes back to the saved record and everything that follows it |
| `MergeJoins.JoinCount` | src/libs/dbcore/materialize/merge_join_scan.hpp:32-62 | the join holds each pair of equal keys as often as its two records occur, and no other pair |
| `MergeJoins.MergeJoinScan.Next` | src/libs/dbcore/materialize/merge_join_scan.hpp:32-62 | emits the next pair of the join, going back in the right input for every further left record of a group |
| `MergeJoins.RunJoin` | src/libs/dbcore/materialize/merge_join_scan.hpp:26-62 | run to its end, on inputs sorted by their join fields, it gives the nested-loop join, whatever the groups of duplicates |
| `MergeJoins.SortMergeJoin` | src/libs/dbcore/materialize/merge_join_scan.hpp:26-62 | over two inputs in any order, each sorted first, it gives the pairs of the nested-loop join |
| `Constants.CompareOrders` | src/libs/dbcore/query/constant.h:64-71 | constants compare as that asks |
| `Constants.CompareIs` | src/libs/dbcore/query/constant.h:64-71 | compare_to is negative, zero or positive exactly as its first argument is smaller, equal or larger |
| `GroupBys.RunGroups` | src/libs/dbcore/materialize/group_by_scan.h:28-55 | cuts the input into stretches of one key and folds the aggregates over each |
| `GroupBys.KeysDistinct` | src/libs/dbcore/materialize/group_by_scan.h:34-55 | on an input with equal keys together no two groups have one key |
| `GroupBys.SortedIsGrouped` | src/libs/dbcore/materialize/group_by_scan.h:28-55 | a sorted input is such an input |
| `GroupBys.CountsAddUp` | src/libs/dbcore/materialize/group_by_scan.h:34-55 | the counts of the groups sum to the size of the input |
| `GroupBys.EveryRecord` | src/libs/dbcore/materialize/group_by_scan.h:34-55 | every record is in the stretch of a group with its key |
| `GroupBys.SortAndGroup` | src/libs/dbcore/materialize/group_by_scan.h:28-55 | over any non-empty input, sorted first: one group for each key, with the aggregates of the records that have it |
| `GroupBys.FoldCounts` | src/libs/dbcore/materialize/fn/count_fn.h:19-37 | a count is the size of its group |
| `GroupBys.FoldIsBest` | src/libs/dbcore/materialize/fn/cmp_fn.h:33-43 | a minimum or maximum is a value of its group that none of the group beats |
| `Products.ProductScan.Next` | src/libs/dbcore/scan/product_scan.h:17-33 | shows the pairs of the product of the left rows it takes with the right rows, in order; without a left row it takes what reading behind the end gives |
| `Products.TakenIsProduct` | src/libs/dbcore/scan/product_scan.h:17-33 | that is the product if and only if there is a left row or no right row |
| `Products.ProductCount` | src/libs/dbcore/scan/product_scan.h:24-33 | the product holds each pair as often as its two rows occur |
| `Multibuffer.BestFactor` | src/libs/dbcore/multibuffer/buffer_needs.h:28-42 | a chunk size within the usable frames that makes exactly the least number of chunks |
| `Multibuffer.ChunksMakeProduct` | src/libs/dbcore/multibuffer/multibuffer_product_scan.h:28-45 | however the right input is cut, the pairs are those of the product |
| `Multibuffer.MultibufferProductScan.Next` | src/libs/dbcore/multibuffer/multibuffer_product_scan.h:70-78 | emits one more pair, or finds those of the whole product emitted |
| `Multibuffer.RunProduct` | src/libs/dbcore/multibuffer/multibuffer_product_scan.h:28-78 | run to its end, which it reaches, it emits each pair of the product exactly once, whatever the chunk size |
| `Products.ChunkScan.Next` | src/libs/dbcore/multibuffer/chunk_scan.h:63-75 | shows the records of a range of blocks in order |
| `Predicates.TermsCover` | src/libs/dbcore/query/predicate.h:49-91 | over the union of two schemas exactly the terms over either and the joining ones apply |
| `Predicates.SelectSubPred` | src/libs/dbcore/query/predicate.h:49-65 | the terms over one schema, or none |
| `Predicates.JoinSubPred` | src/libs/dbcore/query/predicate.h:67-91 | the terms that join two schemas, or none |
| `Predicates.ConstantDemanded` | src/libs/dbcore/query/predicate.h:93-101 | what an index selection looks up is what the terms over its table demand |
| `Predicates.FieldDemanded` | src/libs/dbcore/query/predicate.h:103-111 | what an index join looks up is what the joining terms demand |
| `Predicates.IsSatisfied` | src/libs/dbcore/query/predicate.h:32-41 | a row that has the fields is accepted if and only if in every term both sides are the same value |
| `Predicates.TestedStops` | src/libs/dbcore/query/term.h:21-26 | testing throws exactly if a term in front of the first unmet one reads a field the row does not have |
| `Plans.FilterIsSelection` | src/libs/dbcore/query/term.h:21-26 | a selection by field and constant keeps exactly the rows an index on the field would give |
| `Plans.JoinIsSelection` | src/libs/dbcore/query/term.h:21-26 | the equi-join is the product under the term that equates the two fields |
| `Plans.AnyOrder` | src/libs/dbcore/query/planner/heuristic_query_planner.h:98-118 | the product of the tables counts every row alike in any order |
| `Planners.SelectPlanRight` | src/libs/dbcore/query/planner/table_planner.h:91-97 | the plan for the first table, by index or not, stands for its rows that meet the terms over it |
| `Planners.JoinPlanRight` | src/libs/dbcore/query/planner/table_planner.h:43-111 | a join plan, by index or not, adds exactly the terms that have become applicable |
| `Planners.ProductPlanRight` | src/libs/dbcore/query/planner/table_planner.h:113-117 | where no term joins the table, the product adds exactly the applicable terms |
| `Planners.IndexSelected` | src/libs/dbcore/query/planner/table_planner.h:29-41 | the first table is read by an index if and only if a term equates an indexed field with a constant |
| `Planners.IndexJoined` | src/libs/dbcore/query/planner/table_planner.h:43-56 | a table is joined by an index if and only if the first field that some indexed field is equated with is there already |
| `HeuristicPlanners.HeuristicPlanner.GetJoinPlan` | src/libs/dbcore/query/planner/heuristic_query_planner.h:52-72 | among the join plans, one with the least estimate, and none only if no table has one |
| `HeuristicPlanners.HeuristicPlanner.CreatePlan` | src/libs/dbcore/query/planner/heuristic_query_planner.h:52-118 | whatever the estimates, the plan stands for the projection of the full predicate on the product of all tables; each of its scans shows its part if and only if the plan is clean; the answer read is right if and only if there is one or no row gets through the outermost operator |
| `PlanScans.FaithfulIffClean` | src/libs/dbcore/scan/product_scan.h:17-33 | every scan in a plan ends and shows what its part of the plan stands for if and only if nowhere an empty left input of a product meets right rows, or one of an index join cannot be read behind its end or has a partner there |
| `PlanScans.AnswersAreClean` | src/libs/dbcore/scan/product_scan.h:17-33 | a plan that stands for any row at all is such a plan |
| `PlanScans.StoppedShowsNothing` | src/libs/dbcore/scan/product_scan.h:17-33 | a scan shows nothing and ends if and only if no row gets through its outermost operator |
| `PlanScans.SelectScan.Next` | src/libs/dbcore/scan/select_scan.h:28-36 | the loop shows the rows that meet the predicate, up to the first that cannot be tested |
| `HeuristicPlanners.EmptyTableFirst` | src/libs/dbcore/query/planner/heuristic_query_planner.h:73-91 | with an empty table taken first, a query without an answer is given one |
| `HeuristicPlanners.EmptyTableThrows` | src/libs/dbcore/index/scan/index_join_scan.h:17-38 | with an empty table first whose join field cannot be read behind its end, and an index join next, a query without an answer throws |
| `Lexing.Lexer.Advance` | src/libs/dbcore/parse/lexer.cpp:102-165 | the character loops find the next token of the text that is left, or fail where it has none |
| `Parsing.ParseQuery` | src/libs/dbcore/parse/parser.cpp:145-158 | the recursive descent over the lexer reads what the grammar says |
| `Grammar.ParseExact` | src/libs/dbcore/parse/parser.cpp:16-158 | a query is read from a text if and only if the text starts with the query's tokens, its names are no keywords and its integers not negative, and the next token could not go on with it |
| `QueryTexts.StringConstantRead` | src/libs/dbcore/parse/lexer.cpp:127-139 | a quote, any text without one and a quote are read as the string constant between them |
| `QueryTexts.AnyCase` | src/libs/dbcore/parse/lexer.cpp:151-159 | words are read in any case, as lower-case words |
| `QueryTexts.AnySpace` | src/libs/dbcore/parse/lexer.cpp:161-165 | white space of any kind is passed over |
| `QueryTexts.AnyDigits` | src/libs/dbcore/parse/lexer.cpp:141-149 | digits are a number, whose value zeros in front do not change |
| `QueryTexts.OpenQuote` | src/libs/dbcore/parse/lexer.cpp:127-139 | an unterminated string is an error |
| `QueryTexts.QuotedRoundTrip` | src/libs/dbcore/parse/parser.cpp:105-158 | a query written with its strings in quotes is read back if and only if no integer is negative and no string holds a quote |
| `QueryTexts.NamesRead` | src/libs/dbcore/parse/parser.cpp:16-40 | a printed list of names is read back, up to where the rest of the text starts |
| `QueryTexts.PredicateRead` | src/libs/dbcore/parse/parser.cpp:105-143 | a printed conjunction of fields and non-negative integers is read back |
| `QueryTexts.PredicateLost` | src/libs/dbcore/query/constant.h:73-82 | one with any other constant is never read back as it was |
| `QueryTexts.ToString` | src/libs/dbcore/parse/ops_data/query_data.h:40-61 | the loops that build the text and cut off the last separator print the query |
| `QueryTexts.PrintedQuery` | src/libs/dbcore/parse/ops_data/query_data.h:40-61 | fields, tables and the predicate, if there is one, behind their keywords |
| `QueryTexts.PrintedLists` | src/libs/dbcore/query/predicate.h:113-121 | names with commas and terms with "and" between them |
| `QueryTexts.PrintedTerm` | src/libs/dbcore/query/constant.h:73-82 | strings as they are, without quotes, and negative integers with a sign |
| `QueryTexts.RoundTrip` | src/libs/dbcore/parse/ops_data/query_data.h:40-61 | printing and parsing gives the query back if and only if all its constants are non-negative integers |

## Left out

- `TxTheorems.StepKeeps`: says nothing behind a page that was written too early, since recovery is then wrong (`TxTheorems.EarlyIsWrong`); a write that throws between its log record and its page is not a step.
- `BtIndexes.BtreeIndex.DeleteRecord`: says what every search finds after a deletion that is not harmless (`BtMultimap.SearchesRight`), but nothing of insertions and deletions behind it.
- `BtKeys.AnyKeys`: the index itself has integer keys with a least one; other types come in by their ranks among the keys of a run.
- `Concurrency.ConcurrencyMgr.XLock`: a request that would wait succeeds or aborts; wall-clock timeouts and fairness are not modelled.
- `Buffers.BufferMgr.TryPin`: one attempt of `pin`; waiting for a frame is not modelled.
- `Multibuffer.MultibufferProductScan.Next`: the right file must have a block, since the source has no product scan otherwise.
- `SortScans.OpenSorted`: the input must not be empty, since the source takes the first of no runs otherwise.
- `Lexing.Lexer.Advance`: numbers are unbounded, while the source reads them with `std::stod` (`parse/lexer.cpp:147`) and casts to `int` (`parse/lexer.cpp:54`), so that one past the range of `int` has no defined value; characters are ASCII.
- `Parsing.ParseQuery`: text behind a query is not looked at, as in the source; updates, deletions, insertions and definitions are not parsed.
- `HeuristicPlanners.HeuristicPlanner.CreatePlan`: table names without a table, views and fields shared by tables are not modelled; the estimates are a parameter.
- `IndexScans.SelectionIsFilter`: over hash indexes; scans over B-trees are not composed with the planner.
- `Products.ProductScan.Next`, `IndexScans.IndexJoinScan.Next`: an input scan that throws by itself is not an input here; `PlanScans.Shown` passes such a throw on.
- Buffer lists: pins are counted per frame; the copy and the lost pins of `tx/buffer_list.h:37-47` are not modelled.
- The file manager, catalog managers, cost estimates, `best_root`, hash codes and the SSH, Kerberos and configuration parts: input and output, parameters or members that would add little.
- Pointer-ownership faults: objects are passed as values or by reference as intended.

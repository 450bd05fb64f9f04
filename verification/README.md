# Verification of the storage engine, the transaction layer and the query executor

A Dafny model of a small multi-version database system written in C++, with proofs. It covers the version chains of a
heap file at READ COMMITTED, the slotted page below them down to its bytes, the buffer pool, the two query rewriters,
the compilation and execution of joins and outer joins, and the catalog file. `dafny verify dfyconfig.toml` checks everything.

## How it is put together

| file | what it holds |
|---|---|
| `Model`, `Bags` | values, records, RIDs; sequences as bags |
| `Versions` | headers, chains, visibility, and the independent definition of the version a reader must see (`Current`) |
| `Machine`, `MachineProofs`, `Isolation`, `Reads`, `Statements` | interleaved transactions as a machine of micro-steps; its invariant; what holds over every run; an UPDATE statement among other transactions |
| `Transactions`, `HeapFiles`, `Scans`, `Updates`, `Vacuum` | the classes: lock and transaction manager, heap file, scan, UPDATE statement, `full_vacuum` |
| `Pages`, `Bytes`, `Frames`, `PageBytes`, `HeapFilePages` | page values; the bytes of a slotted page and the operations on them |
| `Buffers` | files and the buffer pool |
| `Plans`, `RowCounts`, `Links`, `BuildJoins`, `PushSelection` | logical plans over typed tables, the rows they denote; columns that equalities link, and tables that tell the others apart; the two rewriters |
| `Operators`, `Optimizer`, `CompiledJoins`, `Execution`, `OuterJoins` | nested-loop operators; the left-deep compilation of a join; when it returns the rows of the plan; a compiled chain built and drained; the compilation of outer joins |
| `Catalogs` | the catalog file |

The heap is described on three levels. The machine's steps are the atomic pieces of the code: one header fetch, one
look at the transaction states, one access to the lock table, one page insert, one header link, one move of the
cursor of an UPDATE. Any transaction may
run between any two steps of another; what is proved there holds for every run from every database at rest. The class
`HeapFile` works on page values (a list of slots and the free space field); its methods run without interference. The
class `HeapFilePage` works on the 4096 bytes of a frame and is proved against the same page values
(`PageBytes.Represents`). Threads, sockets and latches are not modelled beyond the interleaving of the steps.

## What was found

The proofs follow the code. Where the code does less than its names or callers suggest, the exact condition is proved:

* A query can see a version that its own writer has replaced before committing: the header of a version is read first
  and the states of its writers afterwards (`Reads.IntermediateRead`). Every other answer of a visibility test is
  right for some moment between the two (`Reads.FoundIsTimely`).
* `full_vacuum` undoes itself when no record survives: the emptied pages are dropped from the buffer and the file is
  not truncated (`Vacuum.FullVacuum`, with such a file in `Vacuum.UndoneVacuum`). When the last page keeps a record, a
  page of zeros is left behind it, which the next `full_vacuum` must not meet (`Vacuum.CutLeavesZeros`).
* `full_vacuum` vacuums a page before it deletes versions there that belong to tuples which start on later pages. The
  space of these stays lost: a page is neat afterwards exactly when there are none (`Vacuum.FullVacuum`). A plain
  `vacuum` leaves every page neat (`Vacuum.VacuumPages`).
* `vacuum` of a page without a directory publishes one directory entry that was never written
  (`HeapFilePages.EmptyDirectoryVacuum`).
* Page offsets are 32-bit products: they are right below page 2^19 only (`Buffers.OffsetExact`).
* BuildJoins drops an equality between two columns of a relation that no other equality links to a second relation,
  and every equality of two columns over a FROM clause that is one outer join. The second does no harm exactly when
  both columns are on the right of a left join and a chain of ON equalities links them: the stand-ins of one type are
  equal, so padded rows meet the equality too (`BuildJoins.BuildJoinsExact`, `BuildJoins.DroppedButImplied`).
* The compilation of a join applies no equality inside one relation (`CompiledJoins.InsideEqualityDropped`). The chain
  has the rows of the plan exactly when the columns of each such equality are linked by equalities between relations
  (`CompiledJoins.CompiledJoinExact`), and the same condition decides for rewriting and compilation together
  (`CompiledJoins.QueryExact`).
* The compilation of an outer join looks for the columns of ON by name and type. An equality between the two tables is
  compared as written (`OuterJoins.CrossingCompared`), but A.x == A.y becomes A.x == B.y when B has such a column y, and
  is dropped otherwise (`OuterJoins.InsideOnCompared`). The rows are those of the ON that was written exactly when the
  equalities that are compared link the same columns (`OuterJoins.CompiledOuterExact`).
* PushSelection moves tests below the padded side of outer joins (`PushSelection.OuterPushExact`).
* The stand-ins of an outer join can be read exactly when the kept columns come first and none is a RID
  (`Operators.PadExact`). SELECT * over an outer join keeps the RIDs and reads behind the end of the list
  (`Operators.StarOverOuterJoin`).
* A record of more than 4052 bytes finds room on no page (`Pages.PlacedIff`); the insert searches for ever.
* A relation lists pruned columns but hands out whole records; positions are right only when the used columns come
  first (`Optimizer.PrunedRelationExact`).
* Resetting a product or an inner join in the middle repeats the rows of the current left record
  (`Operators.ResetInTheMiddle`).

## Model

| member | source | states |
|---|---|---|
| Versions.VisibleIffCurrent | src/storage/heap_file/heap_file.cc:279-316 | A version passes the READ COMMITTED test exactly when it is the one the reader must see: the newest of its own or of transactions no longer active, unless such a one deleted the tuple. So at most one version of a chain is visible. |
| Versions.TrustedLengthIsNewest | src/storage/heap_file/heap_file.cc:279-316 | The part of a chain a reader may trust ends with a trusted version and nothing behind it is trusted. |
| Isolation.StepInv | src/storage/heap_file/heap_file.cc:19-82 | Every micro-step of every transaction keeps the invariant of the machine. |
| Isolation.ChainsInEveryRun | src/storage/heap_file/heap_file.cc:61-82 | In every reachable state each chain is finite and without repetition, links t_max to the next t_min, shares one first RID, and its writers are ended ones followed by at most one active one, although inserts take no lock. |
| Isolation.RunExtends | src/storage/heap_file/heap_file.cc:19-82 | Over any run chains only grow at their end and no stored record is rewritten. |
| Isolation.NoLostUpdates | src/query/executor/update_iter.h:49-77 | In every run each version added to a tuple was computed by the SET clauses from its immediate predecessor, for every relation between old and new records. |
| Isolation.UpdateBuildsOnLast | src/storage/heap_file/heap_file.cc:38-58 | Whenever an update has found where to append, the version its new record came from is that last version. |
| Isolation.LocksInEveryRun | src/system/lock_manager.cc:9-61 | In every reachable state each lock is held by a listed transaction and noted in its write set, and versions of active writers lie under the lock of their tuple. |
| Isolation.LockIsKept | src/system/lock_manager.cc:49-61 | A granted lock keeps its holder until that transaction releases all its locks after its end. |
| Isolation.LockIsGranted | src/system/lock_manager.cc:27-42 | The step that takes a lock is possible exactly when the tuple is free or already ours; then the lock is ours and noted, and nothing else changes. |
| Isolation.OnlyLocksBlock | src/storage/heap_file/heap_file.cc:19-93 | In every reachable state every transaction can take the next step of its code; nothing but a lock that another transaction holds can keep one waiting. |
| Reads.FoundIsTimely | src/storage/heap_file/heap_file.cc:254-316 | A version that a reader accepts was visible to it at some moment between its two looks, unless its own writer had replaced it. |
| Reads.NothingIsTimely | src/storage/heap_file/heap_file.cc:254-277 | A reader that gives up on a tuple was right at some moment between its two looks. |
| Reads.IntermediateNeverVisible | src/storage/heap_file/heap_file.cc:284-297 | A version replaced by its own writer is visible to no other transaction at any moment of any run. |
| Reads.IntermediateRead | src/storage/heap_file/heap_file.cc:254-297 | A run of three transactions in which a reader accepts a version that was at no moment visible to it. |
| Transactions.LockManager.TryAcquireLock | src/system/lock_manager.cc:9-46 | Granted exactly when the tuple is free or already ours; then the lock is in the table and in the write set, and nothing else changes. |
| Transactions.LockManager.ReleaseAllLocks | src/system/lock_manager.cc:49-61 | Exactly the locks of the write set that the transaction holds are released. |
| Transactions.TransactionManager.StartTransaction | src/system/transaction_manager.cc:24-77 | A fresh id, one entry more, no lock. |
| Transactions.TransactionManager.CommitTransaction | src/system/transaction_manager.cc:88-131 | A listed active transaction commits exactly when there is no clash of table names and is aborted exactly when there is one; either way it is not listed afterwards and holds no lock. |
| Transactions.TransactionManager.AbortTransaction | src/system/transaction_manager.cc:133-158 | Afterwards the transaction is not listed and holds no lock; all others keep theirs. |
| HeapFiles.HeapFile.InsertRecord | src/storage/heap_file/heap_file.cc:19-36 | Ends for every payload of at most 4052 bytes. The version goes into the first free slot of the first page with room from the last insert page on, which was free; no other version changes, at most one page is added, and the RID is noted in the write set when it starts a tuple. |
| HeapFiles.HeapFile.GetLastVersion | src/storage/heap_file/heap_file.cc:38-59 | The end of the chain, or that the tuple is not there. |
| HeapFiles.HeapFile.Read | src/storage/heap_file/heap_file.cc:254-277 | Ends with exactly the version the transaction must see; `valid` is false exactly when there is none, and the RID tells the reason. |
| HeapFiles.HeapFile.Update | src/storage/heap_file/heap_file.cc:61-93 | Under the lock of the tuple a new last version is appended to its chain; a deleted or missing tuple and a lock held by another change no version. |
| HeapFiles.UpdateExtendsChain | src/storage/heap_file/heap_file.cc:74-82 | Insert and link together extend one chain by one version and keep all others. |
| Scans.HeapFileIter.Next | src/storage/heap_file/heap_file_iter.cc:22-58 | The first row behind the cursor in RID order, with its first RID appended; the empty record exactly when there is none. |
| Scans.Drain | src/storage/heap_file/heap_file_iter.cc:22-64 | A drained scan lists in RID order exactly one row for each tuple with a visible version. |
| Scans.ListingIsUnique | src/storage/heap_file/heap_file_iter.cc:60-64 | Two listings of the same heap are equal: a scan after a reset yields the same rows. |
| Updates.Assign | src/query/executor/update_iter.h:63-72 | The result ends a sequence of records that starts with the row; each differs from the one before in one assigned column, which holds the value computed from the one before. None exactly where a value has another type than its column. |
| Updates.AssignedIs | src/query/executor/update_iter.h:63-72 | There is exactly one such end, with or without an error. |
| Updates.ColumnsAfter | src/query/executor/update_iter.h:63-72 | A column outside of SET keeps its value; one in it holds the value of its last assignment, computed from the record before that one. |
| Updates.UpdateRow | src/query/executor/update_iter.h:49-77 | Lock, re-read, re-check and write: the row is updated once, or passed over, or refused because another transaction holds its lock or an assignment fails; locks of others stay. |
| Updates.Next | src/query/executor/update_iter.h:36-83 | A returned row is the assigned row of the target at the cursor, with all tuples up to there processed. The scan ends, or stops at a target that is locked by another transaction or whose assignments fail, with all before it processed and it untouched. |
| Updates.Run | src/query/executor/update_iter.h:36-83 | The statement ends although its new versions go into the heap it scans, and normally exactly when no target is locked by others and all their assignments have the right types. Then each target has exactly one version more, they are counted, and all other tuples are as they were. |
| Updates.RowsAfterwards | src/query/executor/update_iter.h:36-83 | What the transaction then reads at each tuple: the row with its columns assigned one after the other where the condition held, the old row elsewhere. |
| Statements.AtMostOnce | src/query/executor/update_iter.h:36-83 | In every run, among any steps of other transactions, an UPDATE adds at most one version to each tuple, exactly where it wrote. |
| Statements.ScanOfStatement | src/storage/heap_file/heap_file_iter.cc:7-58 | In every run, however the heap grows meanwhile, the scan of an UPDATE stops at tuples in RID order, at no more than the pages counted at its start have slots, and passes none that was there when it started. |
| Vacuum.CollapseChain | src/storage/heap_file/heap_file.cc:200-221 | The loop over one chain leaves its last version alone with `first` pointing at itself, or nothing for a tombstone. |
| Vacuum.FullVacuum | src/storage/heap_file/heap_file.cc:172-239 | Ends; when a record survives, the heap is the last versions of the live tuples, each a tuple of its own, and otherwise what the file held on disk. Also says exactly when the file is ready for another full vacuum, and exactly on which pages no space is lost. |
| Vacuum.VacuumPages | src/storage/heap_file/heap_file.cc:162-170 | No version changes, no space is lost on any page, and inserts start at the first page again. |
| Vacuum.UndoneVacuum | src/storage/heap_file/heap_file.cc:224-236 | A file without a surviving record that is not empty when it comes back from the disk. |
| Vacuum.ScanUnchanged | src/storage/heap_file/heap_file.cc:172-239 | A transaction that runs alone lists the same multiset of records before and after. |
| Vacuum.CompactSurvivors | src/storage/heap_file/heap_file.cc:172-239 | A second full vacuum changes no version. |
| Vacuum.CutEmptyPages | src/storage/heap_file/heap_file.cc:224-238 | Which pages the last loop leaves. |
| Vacuum.CutLeavesZeros | src/storage/heap_file/heap_file.cc:224-238 | A page of zeros stays behind exactly when the last page kept a record or no page did. |
| Pages.InsertedFits | src/storage/heap_file/heap_file_page.cc:231-252 | An insert that finds room keeps directory, records and gap within the page. |
| Pages.InsertExact | src/storage/heap_file/heap_file_page.cc:208-252 | An insert succeeds exactly when the gap takes payload, header and, without a dead slot, a directory entry; it fills the first free slot, pays exactly that, and touches no other slot. |
| Pages.PlacedIff | src/storage/heap_file/heap_file_page.cc:229-243 | Some page takes a record exactly when its payload is at most 4052 bytes. |
| PageBytes.PageIsUnique | src/storage/heap_file/heap_file_page.cc:87-152 | The bytes of a page stand for one page value: everything stored can be read back. |
| PageBytes.InsertLayout | src/storage/heap_file/heap_file_page.cc:231-281 | The writes of an insert overwrite no live record and no other directory entry. |
| PageBytes.RewriteLayout | src/storage/heap_file/heap_file_page.cc:284-310 | New bytes for one version of the same size change that version only. |
| PageBytes.DeleteLayout | src/storage/heap_file/heap_file_page.cc:197-200 | A directory entry of -2 kills one slot and changes nothing else. |
| PageBytes.VacuumLayout | src/storage/heap_file/heap_file_page.cc:312-377 | The packed buffer with its two counters represents the vacuumed page: every live slot keeps number, header and record. |
| PageBytes.TrimmedAt | src/storage/heap_file/heap_file_page.cc:340-369 | Only dead slots at the end are dropped, and one slot always stays. |
| Vacuum.VacuumedPage | src/storage/heap_file/heap_file_page.cc:312-377 | Vacuum leaves free what directory and live records do not need, never less than before. |
| HeapFilePages.HeapFilePage.constructor | src/storage/heap_file/heap_file_page.cc:12-21 | A page of zeros becomes an empty page, any other stays as it is. |
| HeapFilePages.ZerosRepresent | src/storage/heap_file/heap_file_page.cc:15-19 | New pages are valid pages. |
| HeapFilePages.HeapFilePage.TryInsertRecord | src/storage/heap_file/heap_file_page.cc:208-282 | The bytes represent the page value with the new version in the first free slot, or nothing changed when there is no room. |
| HeapFilePages.HeapFilePage.GetRecord | src/storage/heap_file/heap_file_page.cc:110-152 | Exactly the values that were stored; the empty record for a dead slot. |
| HeapFilePages.HeapFilePage.GetRecordHeader | src/storage/heap_file/heap_file_page.cc:87-108 | Exactly the header that was stored; none for a dead slot. |
| HeapFilePages.HeapFilePage.UpdateRecordHeader | src/storage/heap_file/heap_file_page.cc:295-299 | One version gets t_max and next; nothing else changes. |
| HeapFilePages.HeapFilePage.ResetFirst | src/storage/heap_file/heap_file_page.cc:307-310 | One version gets its own RID as first; nothing else changes. |
| HeapFilePages.HeapFilePage.DeleteRecordPhysically | src/storage/heap_file/heap_file_page.cc:197-200 | One slot is dead; nothing else changes. |
| HeapFilePages.HeapFilePage.IsPageEmpty | src/storage/heap_file/heap_file_page.cc:78-85 | True exactly when no slot is live. |
| HeapFilePages.HeapFilePage.Vacuum | src/storage/heap_file/heap_file_page.cc:312-377 | The bytes represent the vacuumed page; without a directory they are the scratch memory with one entry. |
| HeapFilePages.DirFacts | src/storage/heap_file/heap_file_page.cc:87-93 | No directory entry is 0, so the tests for negative and for not positive entries agree. |
| HeapFilePages.EmptyDirectoryVacuum | src/storage/heap_file/heap_file_page.cc:325-372 | What vacuum leaves of a page without a directory is a valid page exactly when the stray entry is negative. |
| HeapFilePages.StrayEntry | src/storage/heap_file/heap_file_page.cc:325-372 | That entry can be any 32-bit integer. |
| Bytes.FromSignedOfSigned | src/storage/page.cc:15-63 | Integers survive being written and read as two's complement. |
| Bytes.SignedOfFromSigned | src/storage/page.cc:15-63 | Every byte pattern is the image of the integer it is read as. |
| Frames.Page.WriteBytes | src/storage/page.cc:31-36 | The bytes of the window are replaced, all others stay, and the frame is dirty. |
| Buffers.OffsetExact | src/system/file_manager.cc:24-58 | The 32-bit page offset is exact precisely below page 2^19. |
| Buffers.FileManager.ReadPage | src/system/file_manager.cc:34-58 | The page of the file, or zeros and a longer file behind its end. |
| Buffers.BufferManager.GetUnusedPage | src/system/buffer_manager.cc:93-106 | With an unpinned frame the clock stops within two turns, at the first frame from its old place on that is unpinned without second chance, or, if there is none, at the first unpinned one. Exactly the unpinned frames passed lose their chance. |
| Buffers.BufferManager.GetPage | src/system/buffer_manager.cc:108-133 | The requested page, pinned and with a second chance; every page's content is as before, pinned frames are left alone, and the map stays the inverse of the assignment. A page that was not cached takes over the frame that the clock chooses, and only the page that frame had leaves the map. |
| Buffers.BufferManager.Replace | src/system/buffer_manager.cc:115-127 | Write-back, reuse and load; the asserts of `reassign` hold. |
| Buffers.EvictionIsSafe | src/system/buffer_manager.cc:115-123 | Eviction loses nothing: the file then has what the frame had. |
| Buffers.LoadIsSafe | src/system/buffer_manager.cc:123-127 | Loading a page changes the content of none. |
| Buffers.BufferManager.AppendPage | src/system/buffer_manager.cc:135-137 | A pinned page of zeros behind the end of the file, which is then one page longer; all contents are as before. |
| Buffers.BufferManager.DeletePage | src/system/buffer_manager.cc:80-91 | The page falls back to its file; all others stay. |
| Buffers.BufferManager.Flush | src/system/buffer_manager.cc:48-58 | Afterwards the files hold every page's content. |
| Buffers.ReleasePage | src/storage/page.h:42-45 | A page let go has one pin less; no content, no other pin and no assignment changes. |
| Buffers.TruncateBelow | src/system/file_manager.cc:91-97 | With no cached page behind the cut, a truncation below the pool leaves it valid: the cut pages read as zeros, all others as before. |
| Buffers.TruncationIsSafe | src/system/file_manager.cc:91-97 | Truncation cuts exactly the pages behind the end when none of them is cached. |
| PushSelection.PushSelection.VisitSelection | src/query/parser/query_rewriter/push_selection.h:34-56 | The visitor builds the plan with every one-column test at its relation and the others on top. |
| PushSelection.SimpleIsOneColumn | src/query/parser/query_rewriter/push_selection.h:37-47 | The test for a pushable condition is that it has exactly one column. |
| PushSelection.LandsOnce | src/query/parser/query_rewriter/push_selection.h:88-95 | A pushed condition lands on exactly the relation with the alias and table of its column. |
| PushSelection.PushedRows | src/query/parser/query_rewriter/push_selection.h:16-95 | Below products, joins and preserved sides the pushed plan has the rows that meet the conditions, in the same order. |
| PushSelection.SelectionKeepsRows | src/query/parser/query_rewriter/push_selection.h:34-95 | The rewritten query has the same rows in the same order when no test concerns a padded relation. |
| PushSelection.OuterPushExact | src/query/parser/query_rewriter/push_selection.h:68-86 | Pushing any list of tests below an outer join of two relations is right, for all tables of the given schemas and all meanings of the tests, exactly when each test on one column concerns the left side of a left join. |
| BuildJoins.ConnectedAliases | src/query/parser/query_rewriter/build_joins.h:48-72 | The breadth-first search finds the least set of aliases around the first that no equality leaves. |
| BuildJoins.BuildJoins.VisitProduct | src/query/parser/query_rewriter/build_joins.h:23-114 | The product becomes groups that are exactly the connected components; every linked equality is in exactly one join. |
| BuildJoins.BuildJoins.VisitSelection | src/query/parser/query_rewriter/build_joins.h:123-146 | Column equalities go to the joins, the other conditions stay on top. |
| BuildJoins.RewrittenBag | src/query/parser/query_rewriter/build_joins.h:23-146 | The rewritten query denotes, with multiplicities, the rows that meet the surviving conditions. |
| BuildJoins.BuildJoinsExact | src/query/parser/query_rewriter/build_joins.h:74-98 | For every FROM clause the rewriter accepts, outer joins included, it denotes the rows of the query, for all tables of the given schemas and all meanings of the tests, exactly when no equality of two columns is lost: left alone in its relation, or over an outer join, unless ON links the two columns on the right of a left join. |
| BuildJoins.DroppedButImplied | src/query/parser/query_rewriter/build_joins.h:123-146 | Over (A OUTER JOIN B ON A.x == B.y AND A.x == B.z) AS j, BuildJoins drops j.y == j.z; the rows are the right ones for all tables when the join is a left join, and not when it is a full join. |
| RowCounts.RowsCount | src/query/parser/logical_plan/join_plan.h:7-20 | A row occurs in a plan of products, joins and selections as often as its tuples do, if it meets all conditions, and else never. |
| Operators.CartesianProduct.Next | src/query/executor/cartesian_product.h:26-54 | Hands out the rows of the product one by one and then the empty record. |
| Operators.CartesianProduct.Reset | src/query/executor/cartesian_product.h:56-59 | Starts over, but first serves the current left record again if there is one. |
| Operators.Join.Next | src/query/executor/join.h:31-69 | Hands out the compatible pairs in order and then the empty record. |
| Operators.ResetInTheMiddle | src/query/executor/join.h:71-74 | A reset in the middle starts over exactly when the current left record has no partner. |
| Operators.LeftOuterJoin.Next | src/query/executor/left_outer_join.h:33-83 | The matches of each left record or its padded record, in order. |
| Operators.LeftOuterJoin.Reset | src/query/executor/left_outer_join.h:85-89 | Always starts over. |
| Operators.PadExact | src/query/executor/left_outer_join.h:151-165 | The stand-ins can be read exactly when the kept columns come first in the child and none is a RID; then each is that of its own column. |
| Operators.StarOverOuterJoin | src/query/parser/query_preprocessor/query_preprocessor.cc:267-280 | With the RID of a table among the kept columns the last stand-in is read behind the end of the list. |
| Operators.FullOuterJoin.Begin | src/query/executor/full_outer_join.h:27-34 | Ready to hand out the whole output, with one cleared mark for each right record. |
| Operators.FullOuterJoin.Next | src/query/executor/full_outer_join.h:36-112 | As the left outer join, then each right record without a match once; the index stays in step with the right child. |
| Operators.FullOuterJoin.Reset | src/query/executor/full_outer_join.h:114-121 | Always starts over. |
| Operators.DrainProduct | src/query/executor/cartesian_product.h:18-54 | Draining yields exactly the output of the product. |
| Operators.DrainJoin | src/query/executor/join.h:24-69 | Draining yields exactly the output of the join. |
| Operators.DrainLeftOuterJoin | src/query/executor/left_outer_join.h:27-83 | Draining yields exactly the output of the left outer join. |
| Operators.DrainFullOuterJoin | src/query/executor/full_outer_join.h:27-112 | Draining yields exactly the output of the full outer join. |
| Optimizer.Optimizer.VisitJoin | src/query/optimizer/optimizer.cc:166-253 | For every order, the left-deep chain hands out the rows of the product that meet the equalities between two children, reduced to the used columns; the usage counts are as before. |
| Optimizer.LoopReads | src/query/optimizer/optimizer.cc:187-247 | One nested loop hands out, in order, the product rows that meet the equalities its positions stand for, with every column in use. |
| Optimizer.PairsStand | src/query/optimizer/optimizer.cc:209-235 | The positions of a step stand for exactly the equalities between the children so far and the next one. |
| Optimizer.CompatibleIff | src/query/optimizer/optimizer.cc:209-235 | Two records agree at the compared positions exactly when the combined row meets the equalities these stand for. |
| Optimizer.AppliedOnce | src/query/optimizer/optimizer.cc:209-235 | An equality of two children is applied at exactly one step, when the later one joins; an equality inside one child at none. |
| Optimizer.NextStep | src/query/optimizer/optimizer.cc:187-247 | Filtering at each step is filtering at the end. |
| CompiledJoins.CompiledJoin | src/query/optimizer/optimizer.cc:166-253 | Whatever the order, the chain yields the rows of the join under the equalities between two relations, with their multiplicities. |
| CompiledJoins.CompiledJoinExact | src/query/optimizer/optimizer.cc:209-235 | For every order, these are the rows of the join plan, for all tables of the given schemas and all meanings of the tests, exactly when a chain of equalities between relations links the columns of each equality inside one relation. |
| CompiledJoins.InsideEqualityDropped | src/query/optimizer/optimizer.cc:209-235 | FROM A a, B b WHERE a.x == b.y AND a.x == a.z returns a row with a.x == 1 and a.z == 2. |
| CompiledJoins.QueryExact | src/query/parser/query_rewriter/build_joins.h:74-98 | BuildJoins and compilation together return the rows of a query over relations, for all tables of the given schemas and all meanings of the tests, exactly under the same condition on all its column equalities. |
| Execution.Build | src/query/optimizer/optimizer.cc:237-246 | The operators of a compiled chain, nested to any depth, hand out the rows that the chain denotes. |
| Execution.Drain | src/query/executor/join.h:24-74 | An iterator, a list or a nested loop, hands out exactly its records and can then start over. |
| Execution.Execute | src/query/optimizer/optimizer.cc:166-253 | A join compiled, built and drained returns, in order, the product rows that meet the equalities between two children, reduced to the used columns. |
| OuterJoins.LeftReads | src/query/executor/left_outer_join.h:33-83 | The records of the left join operator are the rows of the left join plan, in order, reduced to the columns in use, with the stand-ins of the plan. |
| OuterJoins.UnmatchedRead | src/query/executor/full_outer_join.h:89-112 | The records that a full join adds are the plan's right rows without a partner, behind the stand-ins. |
| OuterJoins.PadReads | src/query/executor/left_outer_join.h:151-165 | When the stand-ins can be read, each kept column gets that of its own type, as in the plan. |
| OuterJoins.OuterPairsStand | src/query/optimizer/optimizer.cc:281-309 | The search by name and type finds, of each ON equality, the left table's column of the one name and the right table's column of the other, and drops it if one is missing. |
| OuterJoins.VisitLeftOuterJoin | src/query/optimizer/optimizer.cc:255-320 | The compiled left join hands out the rows of the left join under the equalities that are compared, reduced to the columns in use; the usage counts are as before. |
| OuterJoins.VisitFullOuterJoin | src/query/optimizer/optimizer.cc:322-387 | The same for the full join. |
| OuterJoins.OuterOnExact | src/query/parser/logical_plan/left_outer_join_plan.h:12-28 | Two ONs give an outer join the same rows, for all tables of the given schemas, exactly when they link the same columns. |
| OuterJoins.CompiledOuterExact | src/query/optimizer/optimizer.cc:281-309 | An outer join is executed under the ON that was written, for all tables of the given schemas, exactly when the equalities that are compared link the same columns as it. |
| OuterJoins.CrossingCompared | src/query/optimizer/optimizer.cc:281-309 | So it is when every equality of ON is between the two tables. |
| OuterJoins.InsideOnCompared | src/query/optimizer/optimizer.cc:281-309 | A LEFT OUTER JOIN B ON A.x == A.y is executed as ON A.x == B.y when B has a column y: on one tuple each, both results for all values. |
| Optimizer.PrunedRelationExact | src/query/optimizer/optimizer.cc:140-164 | Positions in the pruned list are right for every used column exactly when the used columns come first. |
| Catalogs.Normalize | src/system/catalog.cc:13-25 | Each byte stays, but a capital letter becomes the small one; the error exactly when some byte is neither a letter nor an underscore. |
| Catalogs.NormalizeAgain | src/system/catalog.cc:13-25 | Exactly the names of small letters and underscores are left as they are; to normalize again changes nothing. |
| Catalogs.NamesMeet | src/system/catalog.cc:13-25 | Two names name one table exactly when they agree letter by letter up to case. |
| Catalogs.Encode | src/system/catalog.cc:121-127 | Shifting and masking give the two's complement, for negative numbers too. |
| Catalogs.Decode | src/system/catalog.cc:96-110 | Eight bytes give the signed integer they encode. |
| Catalogs.Catalog.Save | src/system/catalog.cc:75-94 | The file starts with the counters and the tables in the order of their ids, whatever lay behind. |
| Catalogs.Catalog.Load | src/system/catalog.cc:27-73 | A file that starts with a catalog yields its counters, tables and schemas; a new file leaves the defaults. |
| Catalogs.SaveAndLoad | src/system/catalog.cc:27-94 | What one run saves over any older file, the next run loads. |

## Left out

- READ COMMITTED delete, Snapshot Isolation, `undo`, LIKE matching and the beam search are stubs in the source; LIKE counts as any test, the join order as any permutation.
- Aborts of transactions that wrote: `undo` does nothing, so no claim is made that their versions disappear; only the bookkeeping of locks and states is modelled.
- No modelled step creates a tombstone; chains that end in one are accepted by reading, the search for the last version and full vacuum.
- HeapFiles.HeapFile: works on page values; that its page operations are those of the bytes is proved in HeapFilePages, but the two are not composed through the buffer pool.
- HeapFiles.HeapFile.InsertRecord: demands a payload of at most 4052 bytes, because a larger one is never placed and the source searches for ever.
- Transactions.LockManager.TryAcquireLock: one attempt of the retry loop; the wait, its time limit and the abort that follows are not modelled. Updates.Run ends where that abort would begin.
- Transactions.TransactionManager.CommitTransaction: whether the catalog refuses a table name is a parameter.
- Updates.Run: no other transaction runs between the steps of the statement; what holds when others do is in Statements, where the time spent waiting for locks is not bounded.
- Vacuum.FullVacuum: what the disk holds of an emptied page when it is dropped is a parameter; pages without a directory are excluded.
- HeapFilePages.HeapFilePage.TryInsertRecord: sizes are unbounded numbers; a record of more than 2^31 bytes would wrap in the source.
- Buffers.BufferManager.GetPage: page numbers are below 2^19 and some frame is unpinned if the page is not cached; otherwise the source writes at a wrong offset or probes for ever.
- `fake_flush`, `delete_file`, failing system calls and the latches of pages and pool.
- PushSelection.SelectionKeepsRows: selections occur on top only, as the parser builds them.
- BuildJoins.BuildJoins.VisitProduct: products of plain relations under different aliases only; the source asserts the former and the parser the latter.
- BuildJoins.BuildJoinsExact: an outer join of a table with itself, whose two sides have the same columns; an ON about a third table, which the source accepts; equalities of RID columns.
- CompiledJoins.CompiledJoinExact: below a join stand relations and tests on one column, as the rewriters leave them.
- PushSelection.OuterPushExact: conditions are tests, because BuildJoins has taken the equalities of columns out.
- Columns carry alias and table; the source compares alias and name, which agrees under different aliases. Where it matters for the two tables of an outer join, the model follows the source: usage counts go by alias and name, ON by name and type. Elsewhere a name means the table the preprocessor chose for it.
- Optimizer.Optimizer.VisitJoin: children are streams of one relation each that offer the compared columns; that the visits of the children restore the usage counts is taken for granted.
- OuterJoins.VisitLeftOuterJoin: children are streams that list the columns in use; some equality must be compared, as the operator asserts, and the stand-ins must be readable (see Operators.PadExact).
- OuterJoins.VisitFullOuterJoin: the same demands, for the stand-ins of both sides.
- OuterJoins.CompiledOuterExact: ON is about the two tables only; the executed ON is given for any ON in OuterJoins.OuterPairsStand.
- The compilation of products, projections and single conditions, and exceptions thrown while a condition is evaluated.
- Operators.Join.Reset: both children must be between two left records themselves; lists always are.
- Operators.RowIter: a list, a product or a join; outer joins do not occur below other operators.
- Operators.LeftOuterJoin.constructor: the list of stand-ins must reach the positions at which it is read; a RID among the kept columns can make the source read behind its end.
- Catalogs.Catalog.Load: of files that do not start with a catalog only the kinds of failure are modelled; opening the heap files is not.
- DISTINCT, column ranges, cost estimates, cardinality deltas, the lexer, the parser, printing and sessions.

# tadis: storage engine, rows and queries, JSON and SQL text

tadis is a small relational database. This project models its storage engine, its row format and
query pipeline, and its two text formats, and proves what they promise.

**Storage.** A page file is read and written in pages of 1024 bytes. A buffer pool keeps some of them in
frames: a directory maps page ids to frames, a free list and an LRU replacer say which frames may be
reused, clients pin the pages they use. Page 0 holds two counters and an allocation bitmap. Every other
page is a slotted page: a header and a slot directory growing upward, records growing downward. A table
heap inserts into its newest page and adds pages as needed; a record scanner walks the allocated pages
through the pool.

Each layer has a specification on values (`SlottedPage`, `PoolSpec`, `HeapSpec`, `ScanSpec`), a class
whose methods are proved to compute it on fields and buffers (`RecordPages`, `BufferPools`, `TableHeaps`,
`RecordScanners`), and lemmas about the specification. The layers are proved separately and composed:

- `SlottedPage`: page bytes behave as a list of slots, over any run of inserts and removes.
- `PoolProofs`, `PoolRuns`: the pool is a cache of plain storage that never evicts a pinned page; its
  frames are always partitioned into free, evictable and pinned.
- `Allocation`: page ids handed out are fresh, and the counters agree with the bitmap.
- `HeapProofs`, `ScanProofs`: insert and scan over the pool are append and traversal of a list of pages.
- `HeapRuns`, `FailedInserts`, `MixedRuns`, `Durability`: what is inserted into a new file is what is
  scanned, before and after the file is closed and reopened, and exactly when some of it is missed.
- `FinishedScans`, `EmptyHeaps`, `BlockedScans`, `BrokenHeaps`: when a heap is no longer in order, and
  reachable heaps that are not.

**Rows and queries.** `Tuples` encodes a row and reads one column of it, past columns of variable length.
`Expressions` compares values, `Queries` says what a SELECT means on a list of rows, `Executers` pulls
rows through scan, filter and projection, and `Statements` runs a SELECT over a table heap; `Relational`
takes rows of values from a new file to the answer of a SELECT. `FloatValues` reads the four bytes of a
float; `Floats` is rounding to a bounded significand, for floats and, in `Doubles`, for doubles.

**Text.** `JsonText` and `JsonParser` give the JSON printer and parser as functions on text, `JsonWriters`
and `JsonReaders` the code that appends to a buffer and moves a cursor; `JsonNumbers` says what becomes of a
double that is printed and read, `JsonRoundTrip` relates printer and parser, and `Schemas` takes a schema
through a file. `SqlLexer` and `SqlSyntax` give the SQL lexer and parser as
functions on text, `SqlLexers` and `SqlParsers` the code with its cursor; `SqlSpelling`, `SqlTokens`,
`SqlRoundTrip`, `SqlGrammar` and `SqlAborts` relate a statement to its text.

## Where the code does not do what it seems to promise

For each of these there is an exact condition: the property holds if and only if it does. Where it helps,
a run of calls that fails is given as well.

- The space test of a record page wraps for records not smaller than the end of free space
  (`SlottedPage.EnoughExact`).
- A scan ends at a page without slots other than page 1, still holding its pin, and at a page whose last
  slot is deleted, although a further `next` would go on from there (`ScanModel.DrainCompleteIff`,
  `ScanModel.HoldsIffBlocked`); two inserts and a remove are enough (`BlockedScans.ScanMissesRecord`), or
  two refused inserts and one more (`FailedInserts.RunThenScanIff`, `FailedInserts.RunMissesRecord`).
- An insert for which there is neither room nor a page leaves the id counter past an id that no page has,
  and the next insert writes to that page (`HeapProofs.InsertKeepsHeapIff`, `BrokenHeaps.LostInsert`,
  `BrokenHeaps.InsertLosesRecord`).
- Scanning a heap without pages makes page 1 resident, and the next new page then has two frames
  (`EmptyHeaps.EmptyScanBreaksIff`, `PoolProofs.NewPagePartitionIff`).
- A second `unpin` wraps the pin count while the frame stays evictable (`PoolProofs.UnpinPartitionIff`); the
  destructor of a scanner that reached the end makes one (`FinishedScans.AfterScanIff`), and so every SELECT
  does whose scan is not blocked, unless another client has the last page pinned
  (`Statements.SelectAgainIff`).
- `delete_page` of an unpinned resident page leaves its frame both free and evictable
  (`Deletion.DeletePartitionIff`, `BrokenHeaps.DeleteBreaks`), and reopening after deletions may lose bitmap
  bytes (`Durability.HeaderReadBackIff`, `Durability.ReopenKeepsLiveIff`, `Durability.DeletionLosesBits`).
- `LruReplacer::touch` leaves its index pointing elsewhere (`Replacers.TouchConsistentIff`).
- Integer comparison narrows a difference to 32 bits; float comparison truncates it, and has no result where
  it is no `int` (`Expressions.OperatorsRightIff`, `Expressions.FloatOperatorsRightIff`,
  `FloatValues.NoDifference`).
- In JSON strings a backslash is read as two and the character after it skipped, so escapes are never
  decoded (`JsonPieces.StringRoundTripIff`); numbers are printed with six decimals, which loses a double
  that is not the nearest to such a number (`JsonNumbers.RereadIff`); a column size that is no double is
  lost (`Schemas.ColumnRoundTripIff`, `Schemas.SizeLost`).
- A float literal in SQL loses its last digit (`SqlSpelling.FloatLosesDigitIff`); `DELETE FROM t;` is
  rejected (`SqlGrammar.PlainDeleteIff`); a wrong word after DROP or DROP TABLE is reported as a success
  (`SqlGrammar.UnreadIff`); a wrong lexeme where a value should be aborts (`SqlAborts.AbortsIff`), as IS NOT
  does (`SqlGrammar.IsNotAborts`).

## Model

| member | source | states |
|---|---|---|
| HeapRuns.InsertThenScan | src/storage/table_heap/table_heap.hpp:19-44 | From a new file, for every pool size of at least one frame and every non-empty run of successful inserts, a full scan returns exactly the inserted byte strings in insertion order, ends with OUT_OF_RANGE and gives every pin back, whatever was evicted |
| HeapRuns.InsertCloseReopenScan | src/storage/bufferpool/buffer_pool.hpp:161-174 | The same list is scanned after the pool is closed, its pages written in any order, and the file reopened with a pool of any other size |
| HeapRuns.ShortRunThenScan | src/storage/table_heap/table_heap.hpp:19-44 | From a new file, for every pool size, any run of 1 to 8064 records of at most 32 bytes is stored in full and comes back from a scan in order |
| FailedInserts.RunThenScanIff | src/storage/table_heap/table_heap.hpp:19-44 | For any run in which the space test never wraps: exactly the records of at most 990 bytes are stored, and a scan returns all of them if and only if none of them comes after two records in a row of more than 990 bytes |
| FailedInserts.RunMissesRecord | src/storage/table_heap/table_heap.hpp:30-43 | A run that shows it: two long records and a short one, from a new file, for every pool size; the short one is stored and not scanned |
| MixedRuns.MixedRunRefines | src/storage/table_heap/table_heap.hpp:19-59 | Any run of inserts and removes on pool, bitmap and page bytes does to the list of pages what the same run does on the list, gives the same answers, and has every pin back |
| MixedRuns.RemoveTakes | src/storage/table_heap/table_heap.hpp:46-59 | A remove takes its record, if live, out of the live records and leaves all others in their places |
| Relational.TableSelects | src/bin/command.cc:70-104 | Rows of values, encoded and inserted into a new file, then selected: for every pool size the SELECT gives, encoded, the chosen columns of exactly the rows on which all conditions hold, in order |
| HeapRuns.RunAppends | src/storage/table_heap/table_heap.hpp:19-44 | A run of inserts appends exactly the records it reports as stored to the live records of the heap, keeps the heap in order and every pin count as it was |
| HeapRuns.ShortRecordsStored | src/storage/table_heap/table_heap.hpp:30-43 | A record of at most 32 bytes, or of at most 990 bytes that cannot make the space test wrap on the last page, is stored whenever a frame is unpinned and the page limit is not reached |
| HeapRuns.RoomInNewPage | src/storage/table_heap/table_heap.hpp:30-43 | An empty page takes a record exactly when it has at most 990 bytes |
| HeapProofs.InsertRefines | src/storage/table_heap/table_heap.hpp:19-44 | One heap insert on pool, bitmap and page bytes is one append to the list of pages of slots: same answer, same pages, heap invariant kept, all pins returned; also while every frame is pinned, if the newest page is resident and has room |
| HeapProofs.InsertKeepsHeapIff | src/storage/table_heap/table_heap.hpp:19-44 | An insert leaves the heap in order if and only if the newest page has room, or an id and a frame are left for a new one; otherwise it answers no and the counter passes an id no page has, so that the newest page by the counter is not allocated |
| BrokenHeaps.LostInsert | src/storage/table_heap/table_heap.hpp:19-30 | When the newest page by the counter is empty and not allocated, and a frame is unpinned, an insert of up to 990 bytes answers true and puts its record on that page, which no scan comes to |
| BrokenHeaps.InsertLosesRecord | src/storage/table_heap/table_heap.hpp:19-44 | With one frame: fill page 1, open a scanner, insert a short record, let the scanner go, insert it again; the first try fails and breaks the heap, the second answers true and its record is on a page that is not allocated |
| HeapProofs.HeaderFitsIff | src/storage/bufferpool/buffer_pool.hpp:446-453 | The bitmap of a heap fits in the header page exactly while the next id is at most 8064 |
| HeapRemoval.RemoveRefines | src/storage/table_heap/table_heap.hpp:46-59 | A heap remove in a page that is resident or can be brought in answers whether the slot exists, marks that slot and no other, keeps the heap invariant and returns its pin |
| TableHeaps.TableHeap.Open | src/storage/table_heap/table_heap.hpp:8 | Opening a heap file gives the state of the opened pool, in which the heap is in order and nothing is pinned |
| TableHeaps.TableHeap.Insert | src/storage/table_heap/table_heap.hpp:19-44 | The method computes the specified insert: answer and whole pool state |
| TableHeaps.TableHeap.Remove | src/storage/table_heap/table_heap.hpp:46-59 | The method computes the specified remove: answer and whole pool state |
| TableHeaps.TableHeap.Append | src/storage/table_heap/table_heap.hpp:19-44 | On a heap in order, an insert appends its record to the live records or leaves them alone, as it answers, and restores every pin count |
| EmptyHeaps.EmptyScanBreaksIff | src/storage/bufferpool/record.hpp:264-278 | Scanning a heap without pages makes page 1 resident, and the next new page gets id 1: the frames are still in order exactly when the pool has a single frame |
| ScanProofs.NextRefines | src/storage/bufferpool/record.hpp:309-327 | One `next` that finds its page resident or a frame for it does one step of the scan of the page list: same record, same RID, or the end, with exactly one pin held on the current page until then |
| ScanProofs.NextStarves | src/storage/bufferpool/record.hpp:309-327 | Otherwise `next` reports INTERNAL_ERROR, having given its own pin back and changed no page |
| ScanProofs.InternalErrorIff | src/storage/bufferpool/record.hpp:309-327 | `next` reports INTERNAL_ERROR if and only if the page to move to is absent and other clients pin every frame |
| ScanProofs.DrainRefines | src/storage/bufferpool/record.hpp:309-327 | A drain that never lacks a frame terminates on (pages left, slots left), yields what the scan of the page list yields, changes no page, and has every pin count back if and only if it was not blocked; blocked, it still holds its one pin |
| ScanProofs.ScanAllIs | src/storage/bufferpool/record.hpp:264-327 | A full scan of a heap with pages yields the live records of the pages up to the first that blocks it; it yields all live records if and only if none lies beyond; every pin count is back if and only if the last page looked at does not block |
| BlockedScans.ScanMissesRecord | src/storage/bufferpool/record.hpp:283-304 | In a pool of any size: fill page 1 with one record, insert a short one, remove the first; a scan then returns nothing although the second record is live, and keeps a pin |
| ScanModel.DrainIs | src/storage/bufferpool/record.hpp:227-245 | A scan of the page list yields the live records up to the blocking page, in order, each once |
| ScanModel.DrainCompleteIff | src/storage/bufferpool/record.hpp:280-307 | The scan is complete exactly when no live record lies beyond the first page without slots (page 1 excepted) or with its last slot deleted |
| ScanModel.HoldsIffBlocked | src/storage/bufferpool/record.hpp:283-304 | After the end is reported the scanner still holds a pin exactly when the scan was blocked |
| ScanModel.DrainComplete | src/storage/bufferpool/record.hpp:280-307 | With no blocking page the scan returns every live record |
| ScanProofs.NextYields | src/storage/bufferpool/record.hpp:309-327 | With rows still to come `next` gives the first of them, with none the end, in the state the whole scan leaves |
| ScanProofs.OpenedRemaining | src/storage/bufferpool/record.hpp:264-278 | A scanner just opened has everything a full scan reaches still to come |
| RecordScanners.RecordScanner.Init | src/storage/bufferpool/record.hpp:264-278 | The method opens page 1 as specified |
| RecordScanners.RecordScanner.HasNext | src/storage/bufferpool/record.hpp:280-307 | The method computes the specified `has_next`: answer, pool and cursor |
| RecordScanners.RecordScanner.PageNext | src/storage/bufferpool/record.hpp:227-245 | The page scanner loop skips deleted slots and returns the specified record or end |
| RecordScanners.RecordScanner.Next | src/storage/bufferpool/record.hpp:309-327 | The method computes the specified `next`: outcome, pool and cursor |
| RecordScanners.RecordScanner.Destroy | src/storage/bufferpool/record.hpp:259-262 | The destructor unpins the page of the cursor, once |
| FinishedScans.AfterScanIff | src/storage/bufferpool/record.hpp:259-262 | After a whole scan and the destructor of its scanner the frames are partitioned, and the heap is in order, if and only if the scan was blocked or another client has the last page pinned, whose pin is then the one taken |
| FinishedScans.UnpinnedScanBreaks | src/storage/bufferpool/record.hpp:259-262 | So with no page pinned by others every scan that is not blocked leaves the pool broken |
| Durability.HeaderReadBackIff | src/storage/bufferpool/buffer_pool.hpp:414-453 | A header is read back from its page unchanged exactly when its bitmap has the length that is recomputed from the page counts |
| Durability.DeletionLosesBits | src/storage/bufferpool/buffer_pool.hpp:433-441 | Seventeen pages of which page 5 was deleted: reopening drops the last byte of the bitmap, and page 16, live before, is not live any more |
| Durability.ReopenKeepsLiveIff | src/storage/bufferpool/buffer_pool.hpp:433-441 | Every live page is live after reopening if and only if every live id lies below the length recomputed for the bitmap |
| Durability.SaveHeaderStep | src/storage/bufferpool/buffer_pool.hpp:161-174 | Writing the header page changes no data page, keeps the heap in order and returns the pin |
| Durability.ClosedFile | src/storage/bufferpool/buffer_pool.hpp:161-174 | Any disk left by writing exactly the dirty pages of the saved pool holds the header and, page by page, what the pool denoted |
| Durability.ReopenedHeap | src/storage/bufferpool/buffer_pool.hpp:353-370 | Reopening such a file with any number of frames restores page count, physical count, bitmap, next page id and every page of the heap |
| Durability.FlushedInAnyOrder | src/storage/bufferpool/buffer_pool.hpp:342-349 | The flush loop, along any walk of the directory, leaves such a disk |
| Durability.FlushedSame | src/storage/bufferpool/buffer_pool.hpp:342-349 | Two disks left by the flush loop along different walks denote the same pages |
| Durability.CloseAndReopen | src/storage/bufferpool/buffer_pool.hpp:161-174 | `close`, walking the directory in any order, and a reopening with any number of frames give back the heap: header, next page id and every page |
| HeapOpening.OpenIs | src/storage/bufferpool/buffer_pool.hpp:353-370 | The state the constructor leaves: header page in the last frame, unpinned, the rest free, the next id taken from the header |
| HeapOpening.OpenedHeap | src/storage/bufferpool/buffer_pool.hpp:353-370 | Opening a heap file with any number of frames gives a heap in order holding the slots in the file |
| HeapOpening.FreshHeap | src/storage/bufferpool/buffer_pool.hpp:421-431 | A new file opens as a heap without pages |
| PoolProofs.ExactlyOnePlace | src/storage/bufferpool/buffer_pool.hpp:276-287 | Each frame is in exactly one of the free list, the replacer and the pinned frames |
| PoolProofs.DirInjective | src/storage/bufferpool/buffer_pool.hpp:386-399 | Two page ids are never bound to one frame |
| PoolProofs.ReplacerHasRoom | src/storage/bufferpool/replacer.hpp:18-33 | By pigeonhole the replacer is never full when the pool puts a frame, so its branch that drops the oldest frame is not taken |
| PoolProofs.VictimPicks | src/storage/bufferpool/buffer_pool.hpp:372-384 | A frame can be claimed exactly when some frame is unpinned, and the one claimed is unpinned |
| PoolProofs.FetchKeeps | src/storage/bufferpool/buffer_pool.hpp:206-230 | `fetch` keeps partition and cache coherence and the contents of every page id; it fails, changing nothing, exactly when the page is absent and every frame is pinned |
| PoolProofs.NewPageSucceedsIff | src/storage/bufferpool/buffer_pool.hpp:232-251 | `new_page` succeeds exactly when an id is within the limit and some frame is unpinned; a failed call still moves the id counter |
| PoolProofs.NewPageKeeps | src/storage/bufferpool/buffer_pool.hpp:232-274 | `new_page` keeps the invariants, hands out a zeroed page pinned once and leaves what every other id denotes alone, if the id is not resident |
| PoolProofs.NewPagePartitionIff | src/storage/bufferpool/buffer_pool.hpp:232-274 | `new_page` keeps the frame partition exactly when the id it picks is not already resident in another frame |
| PoolProofs.UnpinKeeps | src/storage/bufferpool/buffer_pool.hpp:276-287 | An `unpin` of a pinned page keeps the invariants and every page's contents |
| PoolProofs.UnpinPartitionIff | src/storage/bufferpool/buffer_pool.hpp:276-287 | An `unpin` of a resident page keeps the partition exactly when the page is pinned; otherwise the counter wraps |
| PoolProofs.StoreKeeps | src/storage/bufferpool/buffer_pool.hpp:103-106 | A client write to a pinned page changes what that page id denotes and nothing else |
| PoolRuns.StepGood | src/storage/bufferpool/buffer_pool.hpp:206-295 | Every call of a well-behaved client keeps partition, coherence, allocation counts and the order of releases |
| PoolRuns.RunIsTransparent | src/storage/bufferpool/buffer_pool.hpp:206-295 | After any run of calls a page id denotes what plain storage under the same calls would hold |
| NewPools.NewRunIsTransparent | src/storage/bufferpool/buffer_pool.hpp:206-295 | From a new file, for every pool size: after any run of a well-behaved client a page id denotes what its stores put there, or zeros |
| PoolRuns.VictimIsOldest | src/storage/bufferpool/buffer_pool.hpp:372-384 | With the free list empty, the victim is the unpinned frame whose last release is oldest |
| PoolRuns.PinnedStays | src/storage/bufferpool/buffer_pool.hpp:206-287 | No call evicts a pinned page or lowers its pin count, except its own release |
| Deletion.DeletePartitionIff | src/storage/bufferpool/buffer_pool.hpp:297-340 | `delete_page` keeps the frame partition if and only if the page has no frame, or its frame is pinned, or is the only free one and taken straight back for the header page |
| BrokenHeaps.DeleteBreaks | src/storage/bufferpool/buffer_pool.hpp:297-340 | With two frames or more: insert one record into a new file and delete its page; the frames are then not partitioned |
| Allocation.ChosenIdFresh | src/storage/bufferpool/buffer_pool.hpp:236-244 | `new_page` never picks a live page id |
| Allocation.NewPageCounted | src/storage/bufferpool/buffer_pool.hpp:232-274 | The page count stays the number of set bits and every set bit stays below the next id, whether the call succeeds or not |
| Allocation.DeleteCountedIff | src/storage/bufferpool/buffer_pool.hpp:297-329 | `delete_page` keeps the count right exactly when the page is live |
| Allocation.AllocStepGood | src/storage/bufferpool/buffer_pool.hpp:232-340 | One new_page, or one delete of a live page other than the header, keeps counts, bitmap and counter in agreement, and makes no id live but the one new_page picked, which was not live |
| Allocation.AllocRun | src/storage/bufferpool/buffer_pool.hpp:232-340 | So does any run of such calls: afterwards the page count is the number of set bits and no set bit reaches the id counter |
| BufferPools.Page.constructor | src/storage/bufferpool/buffer_pool.hpp:58-58 | A page object starts cleared |
| BufferPools.Page.ClearAll | src/storage/bufferpool/buffer_pool.hpp:118-124 | The page is the cleared frame |
| BufferPools.BFPHeaderPage.Init | src/storage/bufferpool/buffer_pool.hpp:414-444 | The header is loaded from the bytes, or a first header is made and written |
| BufferPools.BFPHeaderPage.WriteToPage | src/storage/bufferpool/buffer_pool.hpp:446-453 | The page holds the encoded header and is dirty |
| BufferPools.BufferPool.Unopened | src/storage/bufferpool/buffer_pool.hpp:141-147 | The pool before `init`: all frames cleared and free |
| BufferPools.BufferPool.Open | src/storage/bufferpool/buffer_pool.hpp:141-149 | The pool after the constructor |
| BufferPools.BufferPool.Victim | src/storage/bufferpool/buffer_pool.hpp:372-384 | The method computes the specified victim: answer and whole state |
| BufferPools.BufferPool.ChangeCorrespondence | src/storage/bufferpool/buffer_pool.hpp:386-399 | The method writes the old page back if dirty and rebinds the frame, as specified |
| BufferPools.BufferPool.Fetch | src/storage/bufferpool/buffer_pool.hpp:206-230 | The method computes the specified `fetch`: page and whole state |
| BufferPools.BufferPool.NewPage | src/storage/bufferpool/buffer_pool.hpp:232-274 | The method computes the specified `new_page`: page, id and whole state |
| BufferPools.BufferPool.Unpin | src/storage/bufferpool/buffer_pool.hpp:276-287 | The method computes the specified `unpin` |
| BufferPools.BufferPool.FlushPage | src/storage/bufferpool/buffer_pool.hpp:289-295 | A resident page is written to disk, nothing else changes |
| BufferPools.BufferPool.DeletePage | src/storage/bufferpool/buffer_pool.hpp:297-340 | The method computes the specified `delete_page` |
| BufferPools.BufferPool.FlushAllPage | src/storage/bufferpool/buffer_pool.hpp:342-349 | Exactly the dirty resident pages are written, whatever order the directory is walked in |
| BufferPools.BufferPool.Close | src/storage/bufferpool/buffer_pool.hpp:161-174 | The header is saved and all dirty pages written, unless the header page cannot be fetched |
| BufferPools.BufferPool.Init | src/storage/bufferpool/buffer_pool.hpp:353-370 | The method computes the specified `init` |
| BufferPools.BufferPool.BufferWritten | src/storage/bufferpool/buffer_pool.hpp:103-106 | A store through the pointer a client holds is the specified store, and keeps the pool well formed |
| Disks.DiskManager.ReadPage | src/storage/bufferpool/disk_manager.hpp:62-78 | The buffer gets the page's bytes, and keeps its own beyond the end of the file |
| Disks.DiskManager.WritePage | src/storage/bufferpool/disk_manager.hpp:80-91 | The page is written, other pages denote what they did |
| Replacers.SameSet | src/storage/bufferpool/replacer.hpp:67-71 | While list and index are consistent they hold the same values without repetition |
| Replacers.LruReplacer.Put | src/storage/bufferpool/replacer.hpp:18-33 | The value becomes the most recent; an older occurrence, or the oldest value of a full list, goes |
| Replacers.LruReplacer.Remove | src/storage/bufferpool/replacer.hpp:48-54 | The value is taken out, the order of the others stays |
| Replacers.LruReplacer.Victim | src/storage/bufferpool/replacer.hpp:56-65 | The oldest value is taken out, if there is one |
| Replacers.TouchConsistentIff | src/storage/bufferpool/replacer.hpp:36-46 | `touch` leaves list and index consistent exactly when it finds nothing to touch |
| BitMaps.BitAfterSet | src/common/bitmap.hpp:62-74 | `set` changes one bit and no other, also within its byte |
| BitMaps.CountAfterSet | src/common/bitmap.hpp:62-74 | Setting a bit moves the number of set bits by exactly what changed |
| BitMaps.FirstFromIff | src/common/bitmap.hpp:28-52 | The search answers an index if and only if it matches and no earlier one does, and nothing if and only if no index matches |
| BitMaps.GrownCount | src/storage/bufferpool/buffer_pool.hpp:253-256 | Growing the bitmap adds no set bit |
| BitMaps.BitMap.Get | src/common/bitmap.hpp:54-60 | Reads the bit |
| BitMaps.BitMap.Set | src/common/bitmap.hpp:62-74 | The bitmap with that bit set |
| BitMaps.BitMap.First | src/common/bitmap.hpp:28-37 | The least index with that bit, if any |
| BitMaps.BitMap.FirstAfter | src/common/bitmap.hpp:40-52 | The least later index with that bit, if any |
| SlottedPage.EnoughExact | src/storage/bufferpool/record.hpp:103-108 | The 64-bit space test agrees with the test over natural numbers exactly when the record is smaller than the end of free space |
| SlottedPage.SmallNeverWraps | src/storage/bufferpool/record.hpp:103-108 | Records of up to 32 bytes never make the test wrap |
| SlottedPage.FreshPageAccepts | src/storage/bufferpool/record.hpp:103-108 | A fresh page accepts a record of up to 990 bytes, refuses one of 991 to 1023, and accepts any of 1024 or more because the test wraps |
| SlottedPage.OpenAgrees | src/storage/bufferpool/record.hpp:33-57 | Opening page bytes gives a header and directory that agree with the bytes, and opens a zeroed page as empty without disturbing others |
| SlottedPage.InsertAgrees | src/storage/bufferpool/record.hpp:335-361 | After an insert, which writes three header words and one slot, re-reading the bytes rebuilds exactly the header in memory |
| SlottedPage.InsertAppends | src/storage/bufferpool/record.hpp:335-361 | An insert adds one live slot with exactly the given bytes and disturbs no other slot |
| SlottedPage.RemoveMarks | src/storage/bufferpool/record.hpp:363-373 | A remove marks its own slot, keeps every other answer and the header |
| SlottedPage.FreeEnd | src/storage/bufferpool/record.hpp:115-118 | The end of free space is the page size less the sum of the record lengths plus one each |
| SlottedPage.RunRefines | src/storage/bufferpool/record.hpp:335-412 | Any run of inserts and removes on the bytes does to the slots what it does to a plain list, and the bytes re-read give those slots |
| RecordPages.RecordPage.Init | src/storage/bufferpool/record.hpp:33-57 | The method opens the page as specified |
| RecordPages.RecordPage.HasRoom | src/storage/bufferpool/record.hpp:103-108 | The method computes the space test with its wrap-around |
| RecordPages.RecordPage.Insert | src/storage/bufferpool/record.hpp:335-361 | The method stores the record and updates header and bytes as specified, or answers no |
| RecordPages.RecordPage.Remove | src/storage/bufferpool/record.hpp:363-373 | The method sets the mark of an existing slot |
| RecordPages.RecordPage.Contain | src/storage/bufferpool/record.hpp:375-390 | Says beyond the end, deleted or present |
| RecordPages.RecordPage.Get | src/storage/bufferpool/record.hpp:392-412 | Gives the bytes of a live slot |
| Bytes.DecodeEncode | src/storage/bufferpool/record.hpp:37-39 | A word copied into bytes and back is the word modulo its width |
| Bytes.ReadOtherWord | src/storage/bufferpool/record.hpp:77-81 | Writing one word of a page leaves the other words alone |
| Tuples.RowRoundTripIff | src/catalog/tuple.hpp:54-101 | Every value of a row is read back exactly when all are storable: INT within 32 bits, CHAR of the declared length, VARCHAR length an int |
| Tuples.ColumnIff | src/catalog/tuple.hpp:54-101 | With the columns before it storable, a column is read back exactly when its value is storable |
| Tuples.StartIs | src/catalog/tuple.hpp:76-98 | Skipping columns reaches the encoded column, and the offset assertion holds, past any number of variable-length values |
| Tuples.IntRoundTrip | src/catalog/tuple.hpp:163-167 | An INT is narrowed to 32 bits on its way through a row |
| Tuples.CreateTuple | src/catalog/tuple.hpp:139-191 | The loop builds the specified row bytes |
| Tuples.ReadColumn | src/catalog/tuple.hpp:54-101 | The loop reads the specified value, or fails as specified |
| Expressions.CompareBytesIs | src/sql/parser/ast.hpp:120-122 | The string comparison is negative, zero or positive exactly as the strings are in dictionary order |
| Expressions.OperatorsRightIff | src/sql/parser/ast.hpp:108-128 | All four operators are right if and only if the operands are in range: for 32-bit integers their difference fits in 32 signed bits, for floats they are equal or at least 1 apart once their difference is rounded, for strings always |
| Expressions.FloatOperatorsRightIff | src/sql/parser/ast.hpp:117-119 | On finite floats, given by their bytes, all four operators are right if and only if the operands are equal, or their difference, rounded to a float, is at least 1 in magnitude and, cut to an integer, an `int` |
| FloatValues.NoDifference | src/sql/parser/ast.hpp:117-119 | The difference of 3000000000 and 0 is no `int`, so the conversion has no result |
| Expressions.VerdictWhenInRange | src/expression/comparsion_expression.hpp:43-84 | In range, each operator answers 1 or -1 as the relation holds or not |
| Expressions.EvaluateFilter | src/expression/filter_expression.hpp:12-28 | The loop answers 1 exactly when every condition does, else -1 |
| Queries.SelectedIsKept | src/execution/filter_executer.hpp:14-30 | The rows the filter passes are the rows on which all conditions hold, in order |
| Queries.ProjectionDecodes | src/execution/projection_executer.hpp:8-21 | Each output row decodes under the output schema to the chosen columns of its input row |
| Queries.SelectMeaning | src/execution/projection_executer.hpp:8-21 | Scan, filter and projection compute the projection of the rows on which all conditions hold, in row order |
| Queries.SelectedAll | src/execution/filter_executer.hpp:14-30 | Without conditions every row passes |
| Executers.SeqScanExecuter.Next | src/execution/seqscan_executer.hpp:11-23 | Gives the rows still to come one by one, then the end, with pool and cursor as the whole scan leaves them |
| Executers.FilterExecuter.Next | src/execution/filter_executer.hpp:14-30 | Gives the selected rows one by one, then the end |
| Executers.ProjectionExecuter.Next | src/execution/projection_executer.hpp:8-21 | Gives the projected rows one by one, then the end |
| Executers.ExecuteSelect | src/bin/command.cc:86-94 | The drain loop collects exactly the rows still to come |
| Statements.RunSelect | src/bin/command.cc:70-104 | Planning, draining and letting go of a SELECT over a heap gives the meaning of the SELECT on the scanned records, and leaves the pool as the scan and the destructor of its scanner do |
| Statements.SelectAgainIff | src/bin/command.cc:70-104 | A SELECT leaves the heap in order if and only if its scan was blocked or another client has the last page pinned; a second SELECT then scans the same records |
| JsonRoundTrip.ValueBack | src/json/json_parser.hpp:446-451 | Parsing the printed form of any value with plain strings, followed by any text, gives the value with each number rounded to six decimals and then to the nearest double, and leaves that text; whatever blanks the printer puts in |
| JsonRoundTrip.RoundTripIff | src/json/json_parser.hpp:254-451 | A value comes back from its text if and only if its strings are plain and each of its numbers is the double nearest to some number of six decimals |
| JsonRoundTrip.SecondRoundTrip | src/json/json_parser.hpp:254-451 | What came back once comes back unchanged from then on |
| JsonNumbers.RereadIff | src/json/json_writer.hpp:73-75 | A double is read as it was printed if and only if it is the double nearest to some number of six decimals |
| JsonNumbers.RereadTwice | src/json/json_writer.hpp:73-75 | Printing and reading a double a second time changes nothing |
| JsonNumbers.RoundedInRange | src/json/json_parser.hpp:196-204 | No printed number is refused as too large or too small |
| JsonRoundTrip.ParsedIsPlain | src/json/json_parser.hpp:254-416 | Whatever is parsed holds plain strings only and objects with ascending keys |
| JsonPieces.StringRoundTripIff | src/json/json_parser.hpp:254-320 | A string comes back from its quotes exactly when it has no quote or NUL and its backslashes come in pairs |
| JsonPieces.NumberRoundTrip | src/json/json_parser.hpp:164-207 | A printed number is parsed to the double nearest to the number of six decimals that was printed |
| JsonText.RoundedExactIff | src/json/json_writer.hpp:73-75 | Printing loses nothing exactly when the number has at most six decimals |
| JsonPieces.EmplaceAscending | src/json/json_value.hpp:347-350 | Inserting a member keeps the keys in order |
| JsonPieces.EmplaceLast | src/json/json_value.hpp:347-350 | A key above all others goes to the end |
| JsonWriters.Writer.PrintValue | src/json/json_writer.hpp:60-90 | The recursive writer appends the specified text |
| JsonWriters.Writer.PrintArray | src/json/json_writer.hpp:11-30 | The loop appends the specified text of an array |
| JsonWriters.Writer.PrintObject | src/json/json_writer.hpp:32-58 | The loop appends the specified text of an object |
| JsonReaders.Parser.SkipBlank | src/json/json_parser.hpp:104-115 | The cursor is past the blanks |
| JsonReaders.Parser.ParseNumber | src/json/json_parser.hpp:164-207 | The method accepts the specified number and leaves the cursor behind it |
| JsonReaders.Parser.ParseStringRow | src/json/json_parser.hpp:254-320 | The loop reads the specified string, backslashes doubled |
| JsonReaders.Parser.ParseArray | src/json/json_parser.hpp:333-367 | The loop reads the specified array |
| JsonReaders.Parser.ParseMember | src/json/json_parser.hpp:389-405 | Reads the specified key and value |
| JsonReaders.Parser.ParseObject | src/json/json_parser.hpp:369-416 | The loop reads the specified object, commas between members not being demanded |
| JsonReaders.Parser.ParseValue | src/json/json_parser.hpp:418-444 | The method reads the specified value |
| JsonReaders.Parser.Parse | src/json/json_parser.hpp:446-451 | The method reads the specified value after blanks; an empty text is null |
| JsonFiles.ReadFile | src/common/json.hpp:21-25 | The text without white space, and one junk character |
| JsonFiles.Read | src/common/json.hpp:14-31 | What is parsed from that text |
| JsonFiles.Write | src/common/json.hpp:33-48 | The file holds the printed value |
| JsonFiles.StripPrint | src/common/json.hpp:21-25 | Without its white space the printed text is what a writer without blanks prints for the value without white space in its strings |
| JsonFiles.ReadBackRounds | src/common/json.hpp:14-48 | An object is read back from its file with numbers rounded as above and white space taken out of its strings, whatever the junk character |
| Schemas.SchemaRoundTripIff | src/catalog/schema.hpp:63-84 | `from_json` of `to_json` is the schema if and only if every size is a double: below 2^53, or that times a power of two |
| Schemas.SchemaFileIff | src/catalog/schema.hpp:63-84 | A schema survives the way through a file if and only if its column names are plain and hold no white space and its sizes are doubles |
| Schemas.ColumnRoundTripIff | src/catalog/column.hpp:75-105 | `from_json` of `to_json` is the column if and only if its size is a double |
| Schemas.SizeLost | src/catalog/column.hpp:75-105 | A column of size 2^53 + 1 does not come back |
| Schemas.Schema.ToJson | src/catalog/schema.hpp:63-72 | The loop builds the specified JSON |
| Schemas.Schema.FromJson | src/catalog/schema.hpp:74-84 | The loop appends the columns read, or fails where the source asserts |
| SqlSpelling.SpellIff | src/sql/parser/lexer.hpp:236-375 | A lexeme comes back from its text exactly when it can be spelled: a name that is no keyword, a non-empty string without quote, a 64-bit integer, a keyword or a mark |
| SqlSpelling.SpellAllBack | src/sql/parser/lexer.hpp:236-375 | A list of such lexemes comes back from its text |
| SqlSpelling.FoundSpellable | src/sql/parser/lexer.hpp:236-375 | Whatever the lexer finds, floats apart, can be spelled |
| SqlSpelling.FloatLosesDigitIff | src/sql/parser/lexer.hpp:177-193 | Every float literal, of either sign, is handed to `std::stof` without its last digit; the number in the text is the same if and only if that digit is 0 |
| SqlTokens.AttrsBack | src/sql/parser/parser.hpp:120-179 | The lexemes of a select list are parsed to that list |
| SqlTokens.NamesBack | src/sql/parser/parser.hpp:182-197 | The lexemes of a name list are parsed to that list |
| SqlTokens.ConditionsBack | src/sql/parser/parser.hpp:246-291 | The lexemes of a condition list are parsed to that list |
| SqlTokens.ValuesBack | src/sql/parser/parser.hpp:200-218 | The lexemes of a value list are parsed to that list |
| SqlTokens.ColAttrsBack | src/sql/parser/parser.hpp:505-565 | The lexemes of column definitions are parsed to those definitions |
| SqlRoundTrip.StatementBack | src/sql/parser/parser.hpp:66-93 | Any text, however spaced, whose lexemes are those of a statement of the grammar is parsed to that statement |
| SqlRoundTrip.RenderBack | src/sql/parser/parser.hpp:66-93 | A statement of the grammar, written out, is parsed to itself |
| SqlGrammar.RenderIff | src/sql/parser/parser.hpp:66-93 | A statement without floats comes back from its text exactly when it is one of the grammar |
| SqlGrammar.ParsedIsGood | src/sql/parser/parser.hpp:66-93 | Whatever is parsed without floats is a statement of the grammar, or the empty SELECT an ill-formed DROP leaves |
| SqlGrammar.ParseRenderParse | src/sql/parser/parser.hpp:66-93 | Parsing, writing and parsing again gives the same statement |
| SqlGrammar.PlainDeleteIff | src/sql/parser/parser.hpp:346-374 | A DELETE without conditions is accepted exactly when a second semicolon follows |
| SqlGrammar.UnreadIff | src/sql/parser/parser.hpp:568-603 | Success is reported without a statement if and only if the text begins with DROP and a lexeme other than TABLE, or with DROP TABLE and a lexeme other than a name |
| SqlGrammar.DropIff | src/sql/parser/parser.hpp:568-603 | A DROP statement is parsed if and only if DROP, TABLE, its name and a semicolon come |
| SqlAborts.AbortsIff | src/sql/parser/parser.hpp:294-340 | The parser runs into an assertion if and only if the text begins as a SELECT, DELETE or INSERT up to a place for a value, and goes on with a lexeme no value starts with |
| SqlGrammar.IsNotAborts | src/sql/parser/parser.hpp:294-340 | One such text: IS NOT in a condition |
| SqlSyntax.ParseAttrs | src/sql/parser/parser.hpp:120-179 | Each round of the loop consumes text; the call never aborts |
| SqlSyntax.ParseNames | src/sql/parser/parser.hpp:182-197 | Each round of the loop consumes text; the call never aborts |
| SqlSyntax.ParseConditions | src/sql/parser/parser.hpp:258-289 | Each round of the loop consumes text |
| SqlSyntax.ParseValues | src/sql/parser/parser.hpp:200-218 | Each round of the loop consumes text |
| SqlSyntax.ParseColAttrs | src/sql/parser/parser.hpp:505-525 | Each round of the loop consumes text; the call never aborts |
| SqlLexers.Lexer.ParseNum | src/sql/parser/lexer.hpp:168-199 | The loops read the specified number, in wrapping 64-bit arithmetic |
| SqlLexers.Lexer.InternalNext | src/sql/parser/lexer.hpp:236-375 | The method makes the specified step: code, token, kept value and cursor |
| SqlLexers.Lexer.Next | src/sql/parser/lexer.hpp:221-226 | The method makes the specified step |
| SqlLexers.Lexer.NextIf | src/sql/parser/lexer.hpp:208-219 | Takes the token asked for, or fails and leaves the cursor where it was |
| SqlLexers.Lexer.Peek | src/sql/parser/lexer.hpp:228-234 | Gives the next token and leaves the cursor where it was, though the kept value changes |
| SqlParsers.Parser.ParseAttrs | src/sql/parser/parser.hpp:120-179 | The loop reads the specified select list |
| SqlParsers.Parser.ParseNames | src/sql/parser/parser.hpp:182-197 | The loop reads the specified names |
| SqlParsers.Parser.ParseFrom | src/sql/parser/parser.hpp:221-243 | Reads the specified tables |
| SqlParsers.Parser.ParseValue | src/sql/parser/parser.hpp:294-340 | Reads the specified value, or aborts |
| SqlParsers.Parser.ParseConds | src/sql/parser/parser.hpp:246-291 | The loop reads the specified conditions |
| SqlParsers.Parser.ParseValues | src/sql/parser/parser.hpp:200-218 | The loop reads the specified values |
| SqlParsers.Parser.ParseDataType | src/sql/parser/parser.hpp:528-565 | Reads the specified column type and size |
| SqlParsers.Parser.ParseColAttrs | src/sql/parser/parser.hpp:505-525 | The loop reads the specified columns |
| SqlParsers.Parser.ParseSelect | src/sql/parser/parser.hpp:96-117 | Code and statement as specified |
| SqlParsers.Parser.ParseInsert | src/sql/parser/parser.hpp:379-447 | Code and statement as specified |
| SqlParsers.Parser.ParseCreate | src/sql/parser/parser.hpp:450-502 | Code and statement as specified |
| SqlParsers.Parser.ParseDelete | src/sql/parser/parser.hpp:346-374 | Code and statement as specified |
| SqlParsers.Parser.ParseDrop | src/sql/parser/parser.hpp:568-603 | Code and statement as specified |
| SqlParsers.Parser.DoParse | src/sql/parser/parser.hpp:66-93 | Code and statement as specified, for every text |

## Left out

- File I/O, the mutex of the disk manager, logging, and errors of the file system: the page file is a
  sequence of pages, of which those beyond the end count as zeros.
- Object ownership: moves, copies, `std::any` and the union inside a JSON value become plain values.
- RecordPages.RecordPage.Insert: asks for a record smaller than the end of free space, because beyond
  it the space test wraps and the copy leaves the page; `SlottedPage.EnoughExact` says exactly when.
- TableHeaps.TableHeap.Insert: the same condition on the current page, and the frame found by `fetch`,
  because the source builds a record page on a null pointer otherwise.
- RecordScanners.RecordScanner.Next: asks for an open page and that the pages it moves to hold record
  pages, because the source follows a null pointer or a wild offset otherwise.
- HeapRuns.InsertThenScan: the run consists of inserts whose record is smaller than the free end of the
  page they are tried on, the wrap-around being excluded as above, and of which every one succeeds; runs
  with failures are covered by `FailedInserts.RunThenScanIff`.
- BufferPools.BufferPool.Close: the order in which dirty pages are written is left open, since the
  directory is an unordered map; what is on disk afterwards does not depend on it.
- The pin count is unbounded upward; downward it wraps as `size_t` does.
- The bitmap view and the vector it looks into are one object (`BitMaps.BitMap`), and the page scanner is
  part of the record scanner.
- The constructor of the pool is split into the frames (`Unopened`) and `init`.
- Float comparison: where the difference is no `int`, an infinity or no number, the conversion is undefined;
  such a comparison has no result, and a condition that makes one cannot be evaluated.
- Queries.SelectMeaning: names of columns and tables are resolved already; binder, catalog and the
  printing of results are not part of this model. A SELECT without WHERE is a filter without conditions.
- Executers.SeqScanExecuter.Next: nothing is promised about calls after the end was reported, where the
  scanner unpins once more.
- JSON numbers: the two zeros are one number. `strtod` is taken to report ERANGE for a number that is too
  large, and for one below the normal doubles that is not a double. Hexadecimal digits after a leading `0x`,
  and the escape cases that the code never reaches, are not modelled.
- A size read from JSON that is no `size_t` is refused, where the cast of the source is undefined.
- A JSON type code that is no enumerator of the column types is refused, where the cast of the source
  keeps the number.
- SqlSpelling.FloatLosesDigitIff: `std::stof` and its rounding are not modelled, a float is the text handed
  to it; two texts of different value may round to one float.
- SQL integers beyond 64 bits wrap in the model, where signed overflow is undefined in the source.
- Reading one character past the input after an unterminated SQL string: the cursor is treated as at the end.
- `column_idx`, `to_string` of values, tuples and RIDs, the terminal loop and table printing would only add
  easy members.

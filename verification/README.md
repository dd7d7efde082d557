# Lissandra, verified

Lissandra is a small key/value store made of three kinds of processes. A *filesystem* keeps tables: INSERTs
go to a memtable, the memtable is dumped to temporary archives, and compaction merges those into partitions,
all of it stored in fixed-size blocks owned through a bitmap. A *memory* caches records in fixed-size frames,
evicts clean pages and journals dirty ones. A *kernel* schedules scripts over several EXEC slots and picks a
memory by consistency criterion. Memories gossip about each other, and the processes talk in packets.

This project models the logic of the three processes in Dafny and proves what they promise. Archives are
sequences of block texts, a volume is a bitmap and its block files, the cache is a character array with
segments and pages over it, and the scheduler is a state machine whose threads interleave. Code that works in
place is a class or a loop with a specification; each specification is a function or relation with lemmas
about it.

The files, from the bottom up:

| file | models |
|---|---|
| `Options.dfy` | missing values, lists without repetition |
| `Records.dfy` | the text `timestamp;key;value`, printing and splitting it, its size |
| `BlockCodec.dfy` | writing texts into blocks with cuts, and the reader that glues them |
| `Lookups.dfy`, `ArchiveSearch.dfy` | the newest record of a key; the search through an archive |
| `Shelves.dfy` | one table at the level of records: lookups, merge, compaction, recovery, dump |
| `Volumes.dfy`, `Store.dfy`, `StoreSteps.dfy` | bitmap and block files, tables and their archives, block ownership |
| `FileSystem.dfy` | the storage engine's operations |
| `Pages.dfy`, `MainMemory.dfy`, `Memoria.dfy` | the cache: pages, the character buffer, the operations |
| `EndToEnd.dfy`, `LostJournal.dfy` | one cache over one engine: the state machine of their steps, and the runs that lose records |
| `Journal.dfy`, `Lissandra.dfy` | a journal on its way through the network, and the operations that run the state machine |
| `Pids.dfy`, `Scheduling.dfy`, `SchedulingSafety.dfy`, `SchedulingProgress.dfy`, `SchedulingOrder.dfy`, `Scheduler.dfy` | the kernel's scheduler |
| `Gossip.dfy`, `Criteria.dfy` | the table of memories and the kernel's criteria |
| `Bytes.dfy`, `Wire.dfy`, `WireLayout.dfy`, `Network.dfy` | fields, messages, packets and their buffers |

The main results:

* In every run of INSERT, SELECT, eviction, journal (acknowledged, lost on the way out or on the way back), dump,
  compaction, interrupted compaction and recovery in which the engine misreads no journal, a SELECT answers the last
  acknowledged INSERT of its key (`EndToEnd.SelectsSeeLastInsert`). Until a journal is acknowledged every dirty record stays
  cached or is superseded (`EndToEnd.DirtyUntilAcked`). The class `Lissandra.System` joins a cache of at most 31 frames and
  the engine, with journals going through the packet format; each of its operations is shown to be such a run. An INSERT is acknowledged if and only if its value is not too long and
  the key is cached, a frame is free, a page is clean or the journal gets through (`Lissandra.System.Insert`); a page is
  evicted only if no frame is free (`Memorias.Memory.PutPage`).
* The engine misreads journals because `recv2` takes the element count from one signed byte. A journal of 32 records has a
  negative count: the process dies, and with it the memtable. One of 64 records, or of any multiple of 64, arrives empty and
  is answered with 0, and the cache forgets its records. `Journals.AcknowledgedIff` gives the exact row counts,
  `LostJournals.OneIsLost` and `LostJournals.SixtyFourAreLost` runs that lose acknowledged INSERTs, and
  `LostJournals.SafeIff` the exact limit: every SELECT of every run is right if and only if the cache has at most 31 frames.
* What is written to blocks is read back, for every record list and every block size from 2 on
  (`BlockCodec.RoundTrip`, `BlockCodec.CreateTkvList`).
* The archive search overwrites its candidate in a block that ends in a cut record without updating the timestamp
  it compares with. `ArchiveSearch.SearchIsRightIff` says for every archive exactly when it is still right;
  `OrderedSearch` shows that timestamp order suffices; `LayoutCanHideTheNewest` gives the family of inputs on which it answers
  an older record, and `Shelves.DumpTimestamps` and `Shelves.CompactionNeverAges` say exactly when a dump or a compaction
  changes a lookup's timestamp because of it.
* A bit of the bitmap is set exactly if one partition or temporary archive owns the block (`Store.OneOwner`), as long as no
  block has leaked. No operation leaks a block except a dump, which leaks none, and survives, if and only if every table of
  the memtable still exists (`FileSystems.FileSystem.Dump`); `FileSystems.DropThenDump` is the run that loses blocks.
* The scheduler loses no PCB, no flag and no wake-up, and every script ends: each step but a submission lowers a measure
  (`SchedulingProgress.RunsEnd`), a state in which nobody can move has no PCB left (`RestMeansDone`), and every other state has a
  step (`RestOrStep`). NEW, READY and EXIT are first come, first served in every run
  (`SchedulingOrder.FirstComeFirstServed`), and turns go round (`SchedulingOrder.RoundRobin`).
* A message arrives exactly if it has at most 127 elements (`Wire.MessageArrives`), so a journal of 32 records or a gossip
  message of 26 memories does not (`Wire.ListLimits`).

## Model

| member | source | states |
|---|---|---|
| `Records.DecodeEncode` | filesystem/src/filesystem/filesystem.c:360-372 | a record survives printing, splitting and parsing if and only if its value is non-empty and has no `;` |
| `Records.ParsePrint` | filesystem/src/filesystem/filesystem.c:360-372 | a printed number is parsed back |
| `Records.EncodeProperties` | filesystem/src/filesystem/filesystem.c:360-372 | the text of a storable record has exactly its three fields and none of the block codec's marks |
| `Records.EncodeFits` | memoria/src/memory_utils.c:279-295 | value within the maximum, uint16 key, timestamp with no more digits than the clock: the text and its NUL fit a frame |
| `Records.EncodeFills` | memoria/src/memory_utils.c:279-280 | the longest value under a five-digit key, at a time with as many digits as the clock, fills the frame exactly |
| `Records.DigitsInANumber` | lib/utils/numbers.c:3-15 | counts exactly the characters of the printed number |
| `BlockCodec.RoundTrip` | filesystem/src/compactor/compactor.c:217-307 | the writer's blocks glue back to the same texts in order and every cut is continued in the next block; every block but the last is full up to one character, and exactly full if its last text was cut |
| `BlockCodec.PutShape` | filesystem/src/compactor/compactor.c:487-574 | storing one text, cut as often as needed, keeps the shape that the readers rely on |
| `BlockCodec.GluePieces` | filesystem/src/compactor/compactor.c:217-307 | the pieces of a cut text glue to the text |
| `BlockCodec.CellsOfFile` | filesystem/src/directorys.c:207-210 | the texts of a block file are those written to it |
| `BlockCodec.DecodeConcat` | filesystem/src/compactor/compactor.c:408-441 | decoding concatenated block lists gives the concatenation of what each holds |
| `BlockCodec.GroupsMeaning` | filesystem/src/tkvs_utils.c:104-149 | following fragments block by block yields the same texts as gluing the whole archive |
| `BlockCodec.OpenBlock` | filesystem/src/compactor/compactor.c:358-406 | skips exactly the cell that the previous block's fragment has consumed |
| `BlockCodec.AddRecordsFromBlock` | filesystem/src/compactor/compactor.c:358-406 | appends the block's whole texts and hands back its final fragment, despite the stale bytes of the read buffer |
| `BlockCodec.ReadFirstTkvInBlock` | filesystem/src/filesystem/key_searching.c:139-147 | returns the first text of a block |
| `BlockCodec.FollowFragment` | filesystem/src/tkvs_utils.c:104-149 | follows a fragment through any number of blocks and returns the whole text and the position after it |
| `BlockCodec.DecodeRound` | filesystem/src/tkvs_utils.c:104-149 | one round of the decoder moves exactly one group of texts from what remains to what is read |
| `BlockCodec.CreateTkvList` | filesystem/src/tkvs_utils.c:104-149 | decodes a whole archive to the records of its glued texts |
| `Lookups.PickFirstGreatest` | filesystem/src/filesystem/filesystem.c:168-195 | the scan answers the first record of the key with the greatest timestamp |
| `Lookups.PickConcat` | filesystem/src/filesystem/filesystem.c:217-257 | the answer for a concatenation is the earlier answer unless the later is strictly newer |
| `ArchiveSearch.RunClosedForm` | filesystem/src/filesystem/key_searching.c:29-123 | the timestamp of the search's answer, without running it |
| `ArchiveSearch.SearchIsRightIff` | filesystem/src/filesystem/key_searching.c:29-123 | for every archive and key, exactly when the search answers the greatest timestamp; if no match escapes the comparison, it answers the first record of greatest timestamp |
| `ArchiveSearch.FoundClosedForm` | filesystem/src/filesystem/key_searching.c:29-123 | the record that the search answers for every archive and key, without running it: the first greatest of the compared records, unless a match that escapes the comparison came later |
| `ArchiveSearch.GuardedIsPick` | filesystem/src/filesystem/key_searching.c:48-56 | the timestamp to exceed is the greatest among the compared records |
| `ArchiveSearch.OrderedSearch` | filesystem/src/filesystem/key_searching.c:29-123 | in timestamp order, with a timestamp settling a record, the search answers the newest record of the decoded archive |
| `ArchiveSearch.FoundMember` | filesystem/src/filesystem/key_searching.c:29-123 | the search only answers a record of the key that the archive holds |
| `ArchiveSearch.LayoutCanHideTheNewest` | filesystem/src/filesystem/key_searching.c:29-123 | written by the real layout, such records make the search answer the older one |
| `ArchiveSearch.SomeRecordsAreHidden` | filesystem/src/filesystem/key_searching.c:29-123 | a concrete instance of that family, with blocks of ten characters |
| `ArchiveSearch.SearchKeyInBlock` | filesystem/src/filesystem/key_searching.c:149-215 | the best whole text of the block by timestamp, and the fragment at its end |
| `ArchiveSearch.SearchRound` | filesystem/src/filesystem/key_searching.c:29-123 | one round of the loop is one step of the specified search, including the candidate that is overwritten without its timestamp |
| `ArchiveSearch.SearchKeyInFsArchive` | filesystem/src/filesystem/key_searching.c:29-123 | the loop over blocks computes the specified search |
| `ArchiveSearch.RoundsMeaning` | filesystem/src/filesystem/key_searching.c:29-123 | the search and the decoder see the same records |
| `Shelves.MergeAllMeaning` | filesystem/src/compactor/compactor.c:320-356 | merging keeps at most one record per key, in partition `key % n`, and for each key the first record of greatest timestamp |
| `Shelves.CompactionRepairsLookups` | filesystem/src/compactor/compactor.c:92-126 | after a compaction every lookup answers the newest record |
| `Shelves.CompactionKeepsLookups` | filesystem/src/compactor/compactor.c:57-126 | where the archive searches are right, a compaction keeps every timestamp, and the record if and only if the greatest timestamp is not shared by different memtable and temporary records above the partition's |
| `Shelves.CompactionNeverAges` | filesystem/src/compactor/compactor.c:57-126 | for every table: no lookup gets older, and the timestamp changes exactly if the temporary archives hold it and their search misses it |
| `Shelves.RecoveryIsIdempotent` | filesystem/src/compactor/compactor.c:66-78 | recovery followed by a compaction leaves the same record per key as one uninterrupted compaction |
| `Shelves.RecoveryAfterDump` | filesystem/src/compactor/compactor.c:14-17 | the same with the dump of an orderly shutdown between the interruption and the recovery |
| `Shelves.InterruptionKeepsLookups` | filesystem/src/filesystem/filesystem.c:197-215 | while A1.tmpc duplicates the temporary archives, lookups do not change |
| `Shelves.DumpKeepsLookups` | filesystem/src/compactor/compactor.c:460-485 | an ordered memtable is dumped without changing timestamps, nor records where equal timestamps mean equal records |
| `Shelves.DumpTimestamps` | filesystem/src/compactor/compactor.c:460-485 | for every memtable and block size: exactly when a dump changes the timestamp of a lookup, in terms of what is known before it |
| `Shelves.DumpCanHideTheNewest` | filesystem/src/compactor/compactor.c:487-574 | a memtable whose timestamps go back, after whose dump, in its real layout, the lookup answers the older record |
| `Volumes.FindFreeBlock` | filesystem/src/filesystem/filesystem.c:100-111 | takes the first free block, or answers -1 if and only if there is none |
| `Volumes.WrittenArchive` | filesystem/src/compactor/compactor.c:487-574 | blocks that hold a layout are a well-formed archive with exactly the written records, searched in the rounds of that layout |
| `Volumes.ArchiveConcat` | filesystem/src/compactor/compactor.c:408-441 | the concatenation of two archives is an archive with the records of both |
| `Store.OneOwner` | filesystem/src/filesystem/filesystem.c:302-358 | a partition or temporary archive holds a block if and only if its bit is set and it has not leaked, and then only one does; without leaks, a bit is set if and only if exactly one archive holds the block |
| `Store.AddTmp` | filesystem/src/directorys.c:212-269 | the first free number keeps the temporary archives numbered from 1 without gaps |
| `StoreSteps.StepKeepsOwnership` | filesystem/src/filesystem/filesystem.c:77-111 | releasing a table's blocks and taking free ones keeps ownership |
| `StoreSteps.StepKeepsLeaks` | filesystem/src/filesystem/filesystem.c:302-358 | such a step neither leaks a block nor recovers one |
| `StoreSteps.TakenForNothing` | filesystem/src/compactor/compactor.c:487-574 | blocks taken for an archive that is not created: every table reads as before and exactly those blocks have leaked |
| `StoreSteps.StepKeepsStore` | filesystem/src/filesystem/filesystem.c:302-358 | such a step keeps every table in order and every other table readable as before |
| `FileSystems.AddRecordToPartitionList` | filesystem/src/compactor/compactor.c:333-356 | replaces an older record of the key or appends, as the specified merge |
| `FileSystems.GetTkvsToInsert` | filesystem/src/compactor/compactor.c:320-331 | the loop computes the specified merge of all records |
| `FileSystems.AssignFreeBlocks` | filesystem/src/filesystem/filesystem.c:77-98 | takes the number of blocks asked for if and only if that many are free |
| `FileSystems.FileSystem.constructor` | filesystem/src/filesystem/filesystem.c:100-111 | a volume without tables is in order |
| `FileSystems.FileSystem.WriteTkv` | filesystem/src/directorys.c:207-210 | a block that holds some texts holds exactly one more, and reading its cells gives them all |
| `FileSystems.FileSystem.PutText` | filesystem/src/compactor/compactor.c:217-307 | writes one text into freshly taken blocks as the specified writer does, and terminates |
| `FileSystems.FileSystem.WriteTexts` | filesystem/src/compactor/compactor.c:487-574 | the blocks taken hold exactly the layout of the texts |
| `FileSystems.FileSystem.FreeBlocksOfFsArchive` | filesystem/src/filesystem/filesystem.c:314-341 | clears exactly the archive's bits and files |
| `FileSystems.FileSystem.FreeTable` | filesystem/src/filesystem/filesystem.c:302-358 | releases exactly the blocks of the partitions, and of the temporary archives if they are to go |
| `FileSystems.FileSystem.ReadPartitions` | filesystem/src/tkvs_utils.c:65-80 | the decoded records of every partition |
| `FileSystems.FileSystem.SearchInAllTmps` | filesystem/src/filesystem/filesystem.c:217-257 | counting up while `A<n>.tmp` exists searches every temporary archive; the first greatest timestamp wins |
| `FileSystems.FileSystem.SearchKeyInMemtable` | filesystem/src/filesystem/filesystem.c:168-195 | the first record of greatest timestamp in the table's part of the memtable |
| `FileSystems.FileSystem.SearchKey` | filesystem/src/filesystem/filesystem.c:113-155 | answers the specified lookup of the table, and only records that fit a frame |
| `FileSystems.FileSystem.CreateNewPartitions` | filesystem/src/compactor/compactor.c:309-318 | new archives hold exactly the given records, in blocks that were free, and take exactly as many as their layout needs |
| `FileSystems.FileSystem.GetAllBlocksFromAllTmps` | filesystem/src/compactor/compactor.c:408-441 | the blocks of all temporary archives in order |
| `FileSystems.FileSystem.StartCompaction` | filesystem/src/compactor/compactor.c:92-126 | the partitions become the merge with the given archive, other tables read as before, ownership is kept, nothing leaks, and the free blocks add up |
| `FileSystems.FileSystem.WriteTmpc` | filesystem/src/compactor/compactor.c:57-90 | writing A1.tmpc changes no ownership and repeats the temporary records |
| `FileSystems.FileSystem.Compaction` | filesystem/src/compactor/compactor.c:57-126 | recovers if A1.tmpc exists, compacts if temporary archives exist, otherwise changes nothing; a missing table is left alone |
| `FileSystems.FileSystem.DumpTable` | filesystem/src/compactor/compactor.c:487-574 | the table's texts become one more temporary archive in their layout; if the table was dropped, the blocks are taken and leak, and the process dies |
| `FileSystems.FileSystem.Dump` | filesystem/src/compactor/compactor.c:460-485 | the tables of the memtable are dumped up to the first that was dropped; from there on what the memtable held is lost; the process lives and no block leaks if and only if none was dropped |
| `FileSystems.FileSystem.Create` | filesystem/src/core/operations.c:124-179 | a status for each case; a failed CREATE leaves the bitmap unchanged; a new table is empty |
| `FileSystems.FileSystem.Drop` | filesystem/src/core/operations.c:244-286 | frees exactly the table's blocks and leaves the others readable; the memtable keeps to existing tables if and only if it holds nothing of this one |
| `FileSystems.FileSystem.Insert` | filesystem/src/core/operations.c:55-103 | a status for each case; an accepted record is appended to its table and to no other; the engine stays in order if and only if the record can be read back |
| `FileSystems.FileSystem.MultiInsert` | filesystem/src/core/operations.c:105-122 | tries every row: 0 if and only if all were taken; each table gets exactly the rows that it takes, in order; the engine stays in order if and only if those can be read back |
| `FileSystems.DropThenDump` | filesystem/src/core/operations.c:244-286 | CREATE, INSERT, DROP, dump: whatever the record, blocks have leaked afterwards |
| `FileSystems.GrewRecords` | filesystem/src/core/operations.c:105-122 | rows that can be read back are added to their tables as records |
| `Pages.LookupAt` | memoria/src/memory_tables.c:38-63 | every page is found by its table and key |
| `Pages.ModifyKeeps` | memoria/src/core/operations.c:105-107 | a hit changes one line and keeps the frame bijection |
| `Pages.AddKeeps` | memoria/src/core/operations.c:110-152 | a new page, in its segment or in a new one, adds one line and keeps the frame bijection |
| `Pages.EvictKeeps` | memoria/src/memory_utils.c:103-121 | eliminating a page frees one frame, forgets one line and leaves no empty segment but the one about to be filled |
| `Pages.DropSegmentKeeps` | memoria/src/memory_tables.c:158-173 | removing a segment frees exactly its frames and forgets exactly its lines |
| `MainMemories.MainMemory.constructor` | memoria/src/memory_utils.c:290-295 | all frames fit in the memory |
| `MainMemories.MainMemory.Init` | memoria/src/memory_utils.c:290-295 | every frame holds "null" |
| `MainMemories.MainMemory.Write` | memoria/src/memory_utils.c:73-87 | a text that fits changes its own frame and no neighbour |
| `MainMemories.MainMemory.Read` | memoria/src/memory_utils.c:46-71 | reads back the text of the frame |
| `Memorias.Memory.constructor` | memoria/src/memory_utils.c:279-295 | an empty cache is in order |
| `Memorias.Memory.FindSegment` | memoria/src/memory_tables.c:11-23 | the first segment of that name |
| `Memorias.Memory.FindPage` | memoria/src/memory_tables.c:38-63 | comparing printed keys finds the page of the key |
| `Memorias.Memory.Select` | memoria/src/core/operations.c:3-49 | a hit answers the cached record |
| `Memorias.Memory.MemoryFull` | memoria/src/memory_utils.c:35-43 | true if and only if no frame is "null" |
| `Memorias.Memory.MemoryInsert` | memoria/src/memory_utils.c:9-33 | fills a "null" frame, or answers -1 if and only if there is none |
| `Memorias.Memory.GetPagesByModified` | memoria/src/memory_tables.c:108-126 | exactly the pages with that bit, each once |
| `Memorias.Memory.Oldest` | memoria/src/memory_utils.c:89-101 | a page of least timestamp |
| `Memorias.Memory.EliminatePage` | memoria/src/memory_utils.c:103-121 | computes the specified eviction |
| `Memorias.Memory.MakeRoom` | memoria/src/memory_utils.c:181-236 | evicts a clean page of least timestamp if and only if there is a clean page; otherwise changes nothing |
| `Memorias.Memory.PutPage` | memoria/src/core/operations.c:110-152 | the record gets a free frame if there is one, with no victim; only without one is a clean page evicted, and only without both is a journal needed and nothing changed; the cache stays in order if and only if the frame's text splits into the record again |
| `Memorias.Memory.Insert` | memoria/src/core/operations.c:81-163 | refused if and only if the value is too long; otherwise one dirty line is written if and only if the key is cached, a frame is free or a page is clean, and a page is evicted only for a key that is not cached in a memory that is full; else a journal is needed and nothing changes; the cache stays in order if and only if the frame's text splits into the record again |
| `Memorias.Memory.Fill` | memoria/src/core/operations.c:234-331 | caches the fetched record as a clean line if and only if a frame is free or a page is clean, evicting only if no frame is free |
| `Memorias.Memory.RemoveSegment` | memoria/src/memory_tables.c:158-173 | computes the specified removal |
| `Memorias.Memory.Drop` | memoria/src/core/operations.c:197-224 | forgets exactly the lines of one table |
| `Memorias.Memory.DeleteAllSegments` | memoria/src/memory_tables.c:237-242 | no line is left and every frame is "null" |
| `Memorias.Memory.JournalRows` | memoria/src/memory_utils.c:123-163 | the request holds exactly the dirty lines, each once, and no more than there are frames |
| `Memorias.JournalBound` | memoria/src/memory_utils.c:123-144 | by the frame bijection a journal has no more rows than the cache has frames |
| `Memorias.Memory.JournalCallback` | memoria/src/core/operations.c:461-544 | a failed journal changes no frame; a successful one leaves only the record that was waiting |
| `EndToEnd.SearchIsNewest` | filesystem/src/filesystem/filesystem.c:113-155 | in a settled table the lookup answers the newest record of partitions, temporary archives and memtable |
| `EndToEnd.CompactionKeeps` | filesystem/src/compactor/compactor.c:92-126 | compaction and recovery keep a table settled and its newest records |
| `EndToEnd.DumpKeeps` | filesystem/src/compactor/compactor.c:460-485 | a dump keeps a table settled and its records |
| `EndToEnd.RowsKeep` | filesystem/src/core/operations.c:105-122 | a journal's rows keep a table settled and win for their keys |
| `EndToEnd.StepAnswers` | memoria/src/core/operations.c:3-163 | every step but a misread journal keeps the invariant (clean lines equal the engine's answer, dirty lines are at least as new), and only an acknowledged INSERT changes an answer, only its own |
| `EndToEnd.EmptyJournalLoses` | memoria/src/core/operations.c:461-481 | an acknowledged journal that arrived empty loses a dirty record if and only if the engine did not hold it |
| `EndToEnd.CrashLoses` | lib/utils/network.c:46-60 | a journal whose count is negative loses an answer if and only if it is not cached and only the memtable holds it |
| `EndToEnd.SelectsSeeLastInsert` | memoria/src/core/operations.c:3-163 | in every run in which no journal is misread a SELECT answers the last acknowledged INSERT of its key |
| `EndToEnd.AnswersGrow` | memoria/src/core/operations.c:81-163 | the timestamp of an answer never decreases along a run in which no journal is misread |
| `EndToEnd.DirtyRecordsSurvive` | memoria/src/core/operations.c:461-544 | as long as the engine's own answer is older than a dirty record, the cache holds a dirty line that is no older |
| `EndToEnd.DirtyUntilAcked` | memoria/src/core/operations.c:461-544 | until a journal is acknowledged a dirty record stays cached and dirty, or is superseded by a newer one of its key, even if the engine dies meanwhile |
| `EndToEnd.FewPagesAreRead` | memoria/src/memory_utils.c:279-280 | with at most 31 frames no journal of any run is misread |
| `LostJournals.OneIsLost` | lib/utils/network.c:46-60 | with 32 frames or more there is a run that loses an INSERT whose journal was acknowledged |
| `LostJournals.SixtyFourAreLost` | memoria/src/core/operations.c:461-481 | with 64 frames or more there is a run of 64 acknowledged INSERTs and an acknowledged journal after which none is found |
| `LostJournals.SafeIff` | memoria/src/memory_utils.c:279-280 | every SELECT of every run answers the last acknowledged INSERT if and only if the cache has at most 31 frames |
| `Journals.RequestFits` | memoria/src/memory_utils.c:123-163 | what the C variables hold fits the fields of the request |
| `Journals.ReceivedByCount` | lib/utils/network.c:20-75 | what the engine receives of a journal of n records, for every n |
| `Journals.AcknowledgedIff` | filesystem/src/core/operations.c:105-122 | a journal is answered with 0 if and only if it has at most 31 records or a multiple of 64, and is then lost if and only if it has 64 or more |
| `Lissandra.System.constructor` | memoria/src/memory_utils.c:290-295 | an empty engine and an empty cache, with as many frames as the memory holds, agree |
| `Lissandra.System.Create` | filesystem/src/core/operations.c:124-179 | a CREATE keeps the agreement and every other table; the new one has the partitions asked for and no record |
| `Lissandra.System.Send` | memoria/src/memory_utils.c:146-163 | a journal, sent through the packet format, is a step of the machine: none if the request is lost, otherwise a Journal step with exactly the rows sent, acknowledged if and only if the answer arrives; delivered, it always succeeds, since it has no more than 31 records, and leaves only the record that waited |
| `Lissandra.System.Journal` | memoria/src/core/operations.c:226-232 | a JOURNAL is one step of the machine: delivered, it empties the cache; if it fails the cache is unchanged |
| `Lissandra.System.Insert` | memoria/src/core/operations.c:81-163 | an INSERT is a run of the machine that ends in its Insert step if and only if it is acknowledged; it is acknowledged if and only if the value is not too long and the key is cached, a frame is free, a page is clean or the journal gets through; then the record is cached and dirty, otherwise the cache is unchanged, and no journal is sent unless it is needed |
| `Lissandra.System.InsertAfterJournal` | memoria/src/memory_utils.c:181-236 | with every page dirty, an INSERT is acknowledged if and only if the journal is delivered; then the record is cached and dirty |
| `Lissandra.System.CacheFound` | memoria/src/core/operations.c:234-331 | caching a fetched record, after a journal if and only if there is no room, is a run of the machine; it succeeds if and only if there is room or the journal gets through, and then the record is cached and clean |
| `Lissandra.System.Select` | memoria/src/core/operations.c:3-79 | a successful SELECT answers what the state before it answers, and has cached it; it fails if and only if the key is not cached and the engine is out of reach, or has a record for which there is no room without a journal that gets through |
| `Lissandra.System.Dump` | filesystem/src/compactor/compactor.c:460-485 | a dump is a Dump step: the memtable is empty after it, and what a table had in it is its newest temporary archive |
| `Lissandra.System.Compact` | filesystem/src/compactor/compactor.c:57-126 | a compaction is a Compact step |
| `Lissandra.System.Interrupt` | filesystem/src/compactor/compactor.c:57-90 | a compaction that stops after A1.tmpc is an Interrupt step |
| `Pids.ProcessIds.Generate` | kernel/src/core/utils/pid_utils.c:7-23 | hands out the least unused number and keeps the list strictly increasing |
| `Pids.ProcessIds.Remove` | kernel/src/core/utils/pid_utils.c:25-36 | removes exactly that number |
| `Pids.FirstGap` | kernel/src/core/utils/pid_utils.c:7-23 | the first position that differs from its number is the least unused number |
| `SchedulingSafety.StepKeeps` | kernel/src/core/scheduler/short_term_scheduler.c:18-106 | every step of the schedulers, the workers and the callbacks keeps the invariant |
| `SchedulingSafety.RunKeeps` | kernel/src/core/scheduler/short_term_scheduler.c:18-106 | the invariant holds throughout every run and the EXEC list keeps its length |
| `SchedulingSafety.InitialInv` | kernel/src/core/scheduler/scheduler.c:18-52 | the initial queues satisfy the invariant |
| `SchedulingSafety.HandshakeKept` | kernel/src/core/scheduler/short_term_scheduler.c:18-106 | a PCB stays flagged if and only if it sits in exactly one to-ready slot, and a started slot's to-ready slot is empty |
| `SchedulingSafety.ConservedKept` | kernel/src/core/scheduler/short_term_scheduler.c:22-105 | every live PCB stays in the one queue that its state names |
| `SchedulingSafety.IdentifiedKept` | kernel/src/core/utils/pid_utils.c:7-36 | the identifiers in use stay those of the live PCBs, all distinct |
| `SchedulingSafety.ExecutingKept` | kernel/src/core/scheduler/short_term_scheduler.c:62-106 | a worker's semaphores, its pending request and its PCB stay in one of three consistent stages |
| `SchedulingSafety.AwakeKept` | kernel/src/core/scheduler/short_term_scheduler.c:18-114 | the long-term scheduler has one signal per PCB to move, and the short-term one is signalled unless all it has visited is calm |
| `SchedulingSafety.RetireClearsNothing` | kernel/src/core/scheduler/long_term_scheduler.c:39-45 | deleting a PCB never clears a to-ready slot |
| `SchedulingProgress.ExactlyOneQueue` | kernel/src/core/scheduler/long_term_scheduler.c:14-47 | a live PCB occurs exactly once in NEW, READY, EXEC and EXIT together, any other never |
| `SchedulingProgress.TurnFindsEmptySlot` | kernel/src/core/scheduler/short_term_scheduler.c:76-98 | a worker that ends a turn overwrites or clears no flagged PCB |
| `SchedulingProgress.OnlyVisitsRelease` | kernel/src/core/scheduler/short_term_scheduler.c:50-57 | a flagged PCB keeps its flag and its slot until the scheduler visits that slot |
| `SchedulingProgress.PassReleases` | kernel/src/core/scheduler/short_term_scheduler.c:18-59 | one pass releases every PCB that was flagged before it began, in every interleaving |
| `SchedulingProgress.TurnLength` | kernel/src/core/scheduler/short_term_scheduler.c:24-106 | a turn issues exactly the lesser of the quantum and the statements left, unless one fails |
| `SchedulingProgress.StatementsInOrder` | kernel/src/core/scheduler/short_term_scheduler.c:116-134 | statements are issued in order, once each, only during a turn and none after a failure |
| `SchedulingProgress.CallbackTakesOne` | kernel/src/core/scheduler/short_term_scheduler.c:460-470 | a callback takes exactly one of the statements left, and all of them if and only if the statement failed, which the PCB then records |
| `SchedulingProgress.OnlyFailuresFail` | kernel/src/core/scheduler/short_term_scheduler.c:460-470 | in every step, a PCB is marked as failed if and only if it was or a statement of its own fails |
| `SchedulingProgress.StepDescends` | kernel/src/core/scheduler/short_term_scheduler.c:18-106 | every step but a submission lowers the measure |
| `SchedulingProgress.RunsEnd` | kernel/src/core/scheduler/short_term_scheduler.c:18-106 | no run without submissions is longer than the measure of its first state |
| `SchedulingProgress.RestOrStep` | kernel/src/core/scheduler/short_term_scheduler.c:18-106 | a state that is not at rest has a step |
| `SchedulingProgress.NoLostWakeUp` | kernel/src/core/scheduler/short_term_scheduler.c:18-59 | the short-term scheduler sleeps unsignalled only if no flag is set, no PCB waits to be started and no slot is free while a PCB is ready |
| `SchedulingProgress.RestMeansDone` | kernel/src/core/scheduler/long_term_scheduler.c:10-47 | with at least one EXEC slot, a state at rest has no PCB left |
| `SchedulingProgress.RetiredIsDone` | kernel/src/core/scheduler/long_term_scheduler.c:32-46 | a PCB is deleted only by the long-term scheduler, after all its statements or a failed one |
| `SchedulingProgress.EveryScriptEnds` | kernel/src/core/scheduler/short_term_scheduler.c:18-106 | in a run that comes to rest every script is deleted at some step, having issued its statements in order up to the end or a failure |
| `SchedulingProgress.EveryStatementIsIssued` | kernel/src/core/scheduler/short_term_scheduler.c:18-106 | if none of its statements fails, a script has issued all of them, in order and each once, when it is deleted |
| `SchedulingOrder.StepIsFifo` | kernel/src/core/scheduler/short_term_scheduler.c:22-105 | in every step each of NEW, READY and EXIT keeps its order, loses at most its head, which goes where the queue leads, and gains at most one PCB, at the end |
| `SchedulingOrder.PlaceInQueue` | kernel/src/core/scheduler/short_term_scheduler.c:22-105 | a PCB moves up one place exactly when the head of its queue is taken |
| `SchedulingOrder.NoOvertaking` | kernel/src/core/scheduler/long_term_scheduler.c:10-47 | in every run, as long as a PCB waits in a queue no other that was not in front of it leaves the queue |
| `SchedulingOrder.FirstComeFirstServed` | kernel/src/core/scheduler/long_term_scheduler.c:10-47 | in every run, a PCB is admitted, put on an EXEC slot or deleted only after every PCB that stood before it |
| `SchedulingOrder.RoundRobin` | kernel/src/core/scheduler/short_term_scheduler.c:76-98 | a PCB whose quantum is used up gets no other turn before each PCB that was ready had one |
| `SchedulingOrder.TakenFromHead` | kernel/src/core/scheduler/short_term_scheduler.c:22-48 | whoever leaves NEW, READY or EXIT was its head, and left by the step that serves that queue |
| `Schedulers.Scheduler.constructor` | kernel/src/core/scheduler/scheduler.c:18-52 | builds the initial state |
| `Schedulers.Scheduler.Submit` | kernel/src/core/scheduler/scheduler.c:54-66 | a new PCB at the end of NEW with the least unused identifier and the statements of the script, none of them issued |
| `Schedulers.Scheduler.LongTermSchedule` | kernel/src/core/scheduler/long_term_scheduler.c:10-47 | one round admits the first of NEW, or else deletes the first of EXIT; there is always one |
| `Schedulers.Scheduler.VisitExecSlot` | kernel/src/core/scheduler/short_term_scheduler.c:22-48 | fills a free slot, starts a filled one, or leaves it |
| `Schedulers.Scheduler.VisitReadySlot` | kernel/src/core/scheduler/short_term_scheduler.c:50-57 | releases the flagged PCB of a to-ready slot |
| `Schedulers.Scheduler.WakeUp` | kernel/src/core/scheduler/short_term_scheduler.c:18-20 | a signalled short-term scheduler begins a pass |
| `Schedulers.Scheduler.ExecNextStatement` | kernel/src/core/scheduler/short_term_scheduler.c:116-134 | issues the statement at the counter of the PCB on the slot, which exists |
| `Schedulers.Scheduler.PostExecStatement` | kernel/src/core/scheduler/short_term_scheduler.c:460-470 | advances the PCB or ends it, and signals the worker that issued the request |
| `Schedulers.Scheduler.PlanifierExecute` | kernel/src/core/scheduler/short_term_scheduler.c:70-106 | finishes, preempts or goes on with the PCB on the slot, which exists: exactly the machine's step, which `SchedulingOrder.RoundRobin` and `SchedulingProgress.TurnLength` are about |
| `Gossip.NewestMeaning` | memoria/src/gossiping/gossiping.c:122-156 | the specification: an entry of the memory that no other exceeds |
| `Gossip.UpdateJoins` | memoria/src/gossiping/gossiping.c:122-156 | an update joins one memory's entry, keeps ids unique and adds no nameless entry |
| `Gossip.MergeIsJoin` | memoria/src/gossiping/gossiping.c:72-77 | folding received entries computes, for every id, the entry of greatest timestamp |
| `Gossip.MergeGrows` | memoria/src/gossiping/gossiping.c:122-156 | no entry is lost or gets older |
| `Gossip.OrderDoesNotMatter` | memoria/src/gossiping/gossiping.c:91-96 | the order and repetition of the received entries do not matter when equal id and timestamp mean equal data |
| `Gossip.MergeTwice` | memoria/src/gossiping/gossiping.c:91-96 | merging the same entries again changes nothing |
| `Gossip.ExchangeAgreesOn` | memoria/src/gossiping/gossiping.c:55-109 | after a request and its reply both agree on a memory if and only if they held no clashing entries of it |
| `Gossip.ExchangeEqualises` | memoria/src/gossiping/gossiping.c:55-109 | both tables hold the same entries if and only if nothing clashed |
| `Gossip.GossipTable.UpdateMemory` | memoria/src/gossiping/gossiping.c:122-156 | the loop computes the specified update |
| `Gossip.GossipTable.OnGossip` | memoria/src/gossiping/gossiping.c:91-120 | merges the request, whatever it holds, and answers with the whole table, in which every memory has a name |
| `Gossip.GossipTable.PostGossip` | memoria/src/gossiping/gossiping.c:55-77 | merges the answer, or marks the first memory at that address and port as dead, up to the case of letters, and changes no other; for an address without letters that is the first with exactly that address |
| `Gossip.CaseMeaning` | memoria/src/gossiping/gossiping.c:63 | two addresses are the same if and only if they have the same characters up to the case of letters |
| `Gossip.CaseIsEquivalence` | memoria/src/gossiping/gossiping.c:63 | comparing without case is an equivalence |
| `Gossip.CaseOfNumbers` | memoria/src/gossiping/gossiping.c:63 | an address without letters is the same as itself only |
| `Gossip.ChangedCharacter` | memoria/src/gossiping/gossiping.c:63 | changing one character keeps an address the same if and only if it changes the case of a letter, or nothing |
| `Gossip.Exchange` | memoria/src/gossiping/gossiping.c:55-109 | the two classes' tables are equal after an exchange if and only if nothing clashed |
| `Gossip.DeadOrAlive` | memoria/src/gossiping/gossiping.c:59-71 | a clash: marked dead by one memory in the same millisecond, and an exchange does not settle it |
| `Criteria.PicksVisitEachOnce` | kernel/src/core/memories/memories.c:60-75 | n picks from an unchanged list of n memories visit each exactly once |
| `Criteria.StepsWrap` | kernel/src/core/memories/memories.c:60-75 | the cursor counts up and wraps, always in range after a pick |
| `Criteria.Memories.PickEach` | kernel/src/core/memories/memories.c:60-75 | as many calls as the list has memories return each of them exactly once |
| `Criteria.KernelUpdateOrder` | kernel/src/core/gossiping/gossiping.c:86-121 | exactly when an update leaves the nameless entry in first place |
| `Criteria.UpdateServes` | kernel/src/core/gossiping/gossiping.c:86-121 | after an update every listed memory is known and alive, without duplicates |
| `Criteria.Memories.constructor` | kernel/src/core/gossiping/gossiping.c:3-21 | one nameless memory and empty lists |
| `Criteria.Memories.AddSc` | kernel/src/core/memories/memories.c:77-102 | adds a known live memory if and only if the list is empty |
| `Criteria.Memories.AddShc` | kernel/src/core/memories/memories.c:104-129 | adds a known live memory once; a journal is forced exactly from the second on |
| `Criteria.Memories.AddEc` | kernel/src/core/memories/memories.c:131-151 | adds a known live memory once |
| `Criteria.Memories.RemoveMemory` | kernel/src/core/memories/memories.c:153-190 | removes it from all lists; a journal is forced if and only if a strong-hash memory went |
| `Criteria.Memories.RequestFailed` | kernel/src/core/scheduler/short_term_scheduler.c:281-294 | a memory that fails is dead and serves no criterion |
| `Criteria.Memories.UpdateMemory` | kernel/src/core/gossiping/gossiping.c:86-121 | updates the table, removes the memory from the lists exactly if it is newly reported dead, and keeps the invariant if and only if it adds no nameless memory after others |
| `Criteria.Memories.PostGossip` | kernel/src/core/gossiping/gossiping.c:50-76 | drops the nameless memory after the first answer and merges the answer; each list loses exactly the memories that the answer reports dead, or the one that did not answer |
| `Criteria.ThinMeaning` | kernel/src/core/gossiping/gossiping.c:70-121 | while entries are taken in, a list loses exactly the memories for which some entry is news of their death, and keeps the order of the others |
| `Criteria.Memories.Gossip` | kernel/src/core/gossiping/gossiping.c:31-83 | an exchange with a memory keeps the invariant, since memories only tell of named ones, and says what becomes of the table and of each list |
| `Criteria.Memories.GetAnySc` | kernel/src/core/memories/memories.c:34-44 | the only memory of the criterion |
| `Criteria.Memories.GetAnyShc` | kernel/src/core/memories/memories.c:46-58 | the key decides; the memory is known and alive |
| `Criteria.Memories.GetAnyEc` | kernel/src/core/memories/memories.c:60-75 | the next memory in turn; the cursor is in range afterwards, even if the list has shrunk |
| `Criteria.Memories.GetListWithAConsistency` | kernel/src/core/memories/memories.c:299-328 | every memory that serves some criterion, once |
| `Bytes.LittleEndianRoundTrip` | lib/utils/serializer.c:261-472 | a number in range is read back from its bytes |
| `Bytes.FieldRoundTrip` | lib/utils/serializer.c:474-676 | a field takes exactly its declared size and is read back from the front of a buffer |
| `Bytes.RowsRoundTrip` | lib/utils/serializer.c:474-676 | rows take exactly the sum of their sizes and are read back |
| `Wire.RowsOfMessage` | lib/utils/serializer.c:261-676 | writing and reading agree on the fields of every operation and their order |
| `Wire.ContentRoundTrip` | lib/utils/serializer.c:261-676 | for every message the content has the declared size and is deserialized to the same message |
| `WireLayout.ContentIsLayout` | lib/utils/serializer.c:261-472 | the content of every message, byte by byte: its fields in order, strings with their NUL, numbers in two's complement, the lowest byte first |
| `Wire.PacketRoundTrip` | lib/utils/network.c:20-110 | `recv2` recovers what `send2` sent, and leaves what follows, if and only if there are at most 127 elements |
| `Wire.FewerArrive` | lib/utils/network.c:20-75 | a larger packet arrives, if at all, with fewer elements under the same operation code |
| `Wire.MessageArrives` | lib/utils/network.c:20-133 | a message, deserialized by the operation code in the received header, gets through if and only if it has at most 127 elements |
| `Wire.CodeRoundTrip` | lib/utils/network_types.h:8-30 | codes and operations correspond one to one, by the position in the enumeration |
| `Wire.AnswerCode` | lib/generic_server.c:105-124 | the code of a request plus one is that of its answer, for every request, and requests are the even codes |
| `Wire.ListLimits` | lib/utils/serializer.c:56-224 | that is 31 records of a multi-insert, 31 tables of a describe, 25 memories of a gossip message |
| `Wire.NegativeCount` | lib/utils/network.c:38-53 | from 128 to 255 elements, and again in every further 256, the count is negative and no packet is recovered (what becomes of the receiver is `EndToEnd.CrashLoses`) |
| `Wire.ZeroCount` | lib/utils/network.c:38-63 | at every multiple of 256 elements an empty packet is read |
| `Wire.PartialCount` | lib/utils/network.c:41-72 | otherwise the first sizes are read, and the sizes after them are taken for the content |
| `Wire.MultiInsertArrival` | lib/utils/serializer.c:545-567 | what arrives of a multi-insert of n records, for every n |
| `Network.ElementsInfo` | lib/utils/serializer.c:3-224 | the declared sizes, which add up to the content |
| `Network.SerializeContent` | lib/utils/serializer.c:261-472 | fills a buffer of the declared size with exactly the content |
| `Network.DeserializeContent` | lib/utils/serializer.c:474-676 | the loop with its advancing offset computes the specified reading |
| `Network.Send2` | lib/utils/network.c:77-110 | the buffer for the socket holds the specified packet |

## Left out

- Threads, sockets, semaphores as operating-system objects, clocks, configuration reloading, logging and consoles: only the steps between their waits are modelled; the clock, the network's behaviour and statement outcomes are parameters.
- Finer interleavings: each operation, callback or scheduler step is atomic, a SELECT miss and its callback are one step, and a dump of a table does not fall between the snapshot of its temporary archives and their destruction.
- A volume without enough free blocks: dump and compaction do not handle the -1 of `find_free_block`; the operations that take blocks require enough of them.
- Block sizes below 2, tables without partitions and negative timestamps other than the -1 that asks for the clock. Values that are empty or contain `;`, a line feed or NUL are taken by the INSERTs but not followed any further, since they cannot be read back.
- DROP in the end-to-end runs: the filesystem's DROP leaves the memtable alone.
- Wire.NegativeCount: no packet is recovered; that the process dies in its out-of-bounds copy is the step `Crash` of the end-to-end runs. Bytes of an oversized packet that stay in the socket are not read as a further packet.
- Storing the misread rows of a journal of 65 records or more whose number is no multiple of 64: only that its answer is not 0.
- Changing the maximum value size at run time, which re-sizes frames without re-initialising the memory.
- 64-bit overflow of timestamps, and timestamps with more digits than the one that sized the pages.
- Upper-casing of table names, and the case-insensitive comparison of commands.
- The second reading of the clock inside `modify_memory_by_index` and the order of equal timestamps after sorting; a hit's INSERT takes one timestamp.
- The `size` field of archives and the estimates `necessary_blocks_for_tkvs` and `size_of_all_tkvs`, on which no reader depends.
- Crashes after compaction has begun to free blocks, and nested RUN scripts.
- The journal barrier of the kernel, its metrics, its table descriptions and the random choices of a memory.
- malloc and free, aliasing of PCB and memory pointers: PCBs live at addresses of a map, and criteria hold ids, which are unique.
- Schedulers.Scheduler.Submit: the address of a new PCB and its parsed statements are parameters; a script without lines never becomes a PCB.
- SchedulingSafety.StepKeeps: assumes a fixed quantum of at least 1.
- BlockCodec.FollowFragment: requires a continuation after every fragment, which every written archive has; the code reads past the block list otherwise.

# RespOS, verified in Dafny

RespOS is a Rust kernel. This project models the stateful parts of it whose correctness is hard to
see from the code, and proves what they are for. Objects the kernel updates in place are classes
with loops and frames; protocols whose steps interleave are state machines; both are tied to simple
reference meanings.

- **Page cache** (`Bytes`, `PageStore`, `Accounting`, `Reclaim`, `PageCache`, `PageCacheRuns`,
  `OpenFiles`). Pages loaded on demand over a lower file, with read-ahead, dirty pages, batched
  writeback, truncate, hole punching, LRU reclaim and open file descriptions. The reference is one flat byte
  sequence per file: the byte at `i` is the resident page's, else the lower file's, else zero. Every
  run of operations on any number of files, with failures at every lower call and allocation, is a
  run on flat files; if nothing below fails, every operation succeeds but a write past the address
  space. The page and dirty counters and the LRU queue stay exact, and it is known exactly which
  pages reclaim can take.
- **Writeback under interleaving** (`Writeback`, `WritebackLength`, `ErrorCursors`). Snapshot, lower
  write and commit are separate steps with writers, loads and evictions in between, and in
  `WritebackLength` truncates too. No update is lost, the lower length is restored, and each
  description is told of an error once.
- **SleepMutex** (`SleepMutex`). A lock with direct hand-off and futures that may be dropped at any
  moment; `poll` is two steps. One token, FIFO hand-off, no lost wake-up, no stranded lock, over all
  runs.
- **Namespace and dentry cache** (`Paths`, `Namespace`, `DentryCache`, `Resolve`, `PathMeanings`,
  `SymlinkChains`, `Namei`, `NamespaceRuns`, `NamespaceLaws`). A global map from path strings to dentries beside the lower tree. Every
  run of finds, creations, links, removals, subtree renames and evictions gives the answers, errnos and
  trees of a kernel that has no dentry cache, and what those answers are is stated on the tree.
- **Pipes** (`Pipe`). Stream conservation, record atomicity, resizing, closing and polling.
- **Disk adapter** (`Disk`). Batched block requests with read-modify-write edges refine byte reads
  and writes of a partition, also on a failing device.
- **Heap** (`BuddyBlocks`, `BuddyHeap`, `Magazines`). The buddy heap with splitting, coalescing and
  its membership bitmap, and the per-hart magazines in front of it. An allocation fails exactly if
  the blocks users own leave no aligned room; a heap given back whole is the heap as new.
- **Frames** (`Frames`) and **listen table** (`Listen`). Ownership and conservation of physical
  frames and of listening sockets.

`Common` holds what several of them use. A component whose lower calls can fail carries a constant
`healthy`: failures are free choices when it is false and do not happen when it is true.

Block number `i` of order `k` in the heap stands for the address `i * 2^k`. Versions, generations,
inode numbers and addresses are unbounded; the word size is modelled where the code depends on it
(file offsets, the error sequence, seek targets).

## What the proofs found

- Making a file, a symlink or a hard link at a path of nothing but slashes brings the kernel down:
  the test for a trailing slash looks up the last of no names (`NamespaceRuns.PanicsExactly` gives
  the exact inputs, `NamespaceRuns.PanicAtRoot` one of them).
- A page that is loaded again while a stale LRU entry still names it has two entries and is then
  never reclaimed. `Reclaim.ReclaimableExactly` says that this is the only way to get stuck, and
  `PageCacheRuns.AdviceThenReload` gets there by loading, advice and loading again.
- The count returned by a lower read is not looked at, so a short read publishes zeros
  (`PageCaches.ShortLoadView` gives the exact condition, `PageCaches.ShortLoadLosesByte` a file).
- A cache write of no bytes past the end of a file extends it (`PageCaches.PageCacheSystem.WriteAt`,
  `Bytes.EmptyWrite`). The system calls return before that for an empty buffer
  (`os/src/syscall/fs.rs` lines 496 and 736), so no user can ask for it.
- `File::truncate` resizes the cache once more after `Ext4Inode::truncate` has given the writeback
  lock back. If another description writes and syncs in between, that resize cuts what it wrote. If
  the sync is still running, its commit comes to the compensating truncate and waits for the lock it
  holds itself, for ever (`WritebackLength.LateResizeStrandsSync`, `WritebackLength.StuckForever`);
  if it has ended, the lower file stays too long (`WritebackLength.LateResizeLeavesTail`).
  `WritebackLength.Ext4Step` and `WritebackLength.PastEndExactly` say that nothing else leads there.
- Over a lower file whose truncate does not take the lock, a lower write that fails or stops short
  after the file was truncated can leave the lower file too long
  (`WritebackLength.ShortWriteLeavesTail`; `WritebackLength.StepKeepsLength` gives the exact steps).
- After exactly a multiple of 2^64 errors a description is told nothing
  (`ErrorCursors.CheckReportsOnce`).
- A rename onto an existing name sets the old target aside under a longer name. It fails with ENOENT
  if that name is over 255 characters (`Namei.LongTargetStays`) and with EEXIST if it is taken
  (`Namei.TakenBackupStays`), although nothing else speaks against it. `Namei.Rename` gives the exact
  condition.
- The string test against renaming a directory into itself never catches the root
  (`Paths.BelowItself`). The lower filesystem then enters the new name before it finds that there is
  no old one, answers ENOENT and relies on its journal to take the new entry back.
- An empty symlink target followed by nothing but a slash resolves to the root
  (`Resolve.JoinedTarget`); the kernel's own symlink call refuses such targets.
- Looking a path up follows 39 symlinks, and walking to a parent 40 (`SymlinkChains.ChainResolves`,
  `SymlinkChains.ChainLeads`, and `SymlinkChains.LimitsDiffer` for a tree on which they differ).
- Promotion of listeners drops a connection whose peer has already closed its side, because only
  the established state is queued (`ListenTables.DroppedExactly`, `ListenTables.ClosedEarlyIsLost`).

## Model

| member | source | states |
|---|---|---|
| `PageCacheRuns.Run` | os/src/fs/page_cache.rs:309-957 | Every run of opening, closing, reads, writes, truncates, hole punches, syncs, mappings, evictions and reclaims on any number of caches gives the callers' results and the contents of the same run on flat byte files, with every synced byte in the lower file; if lower files and frames never fail, every operation succeeds but a write past the address space; a page that the queue names twice stays resident and named twice through the whole run, unless an operation takes it away on purpose. |
| `PageCacheRuns.Apply` | os/src/fs/page_cache.rs:309-957 | One operation on the caches is the same operation on flat files and touches no other file; pages named twice stay except where the operation cuts, punches, advises or closes. |
| `PageCacheRuns.ApplyToOpen` | os/src/fs/page_cache.rs:475-957 | On an open file: a read that succeeds returns the flat bytes, a write that succeeds lands whole, a failed write leaves some prefix, a failed truncate is done or not, any other failure changes no visible byte, and on a healthy system only a write past the address space fails. A sync brings its range to the lower file, a mapped page is resident, exactly the advised free pages go, and reclaim pops until it may stop. |
| `PageCacheRuns.AdviceThenReload` | os/src/fs/page_cache.rs:919-957 | A reachable run after which the queue names a resident page twice: load, advice to drop, load again. |
| `PageStore.EvictionKeepsView` | os/src/fs/page_cache.rs:435-467 | Dropping clean, unmapped, unheld pages keeps the content invariant and every page as readers see it. |
| `PageStore.LoadIsTransparent` | os/src/fs/page_cache.rs:690-705 | Publishing a clean copy of the lower page where no page is resident changes nothing readers see. |
| `PageStore.GrowView` | os/src/fs/page_cache.rs:798-806 | Raising the length alone makes the file longer by zeros, never by stale bytes. |
| `PageStore.ChunkLands` | os/src/fs/page_cache.rs:841-842 | Copying a chunk into a resident page changes exactly those bytes of the file. |
| `PageStore.ChunksAreWrite` | os/src/fs/page_cache.rs:792-860 | A file grown first and then written chunk by chunk is the flat file after one write. |
| `PageStore.ZeroBaseIsGood` | os/src/fs/page_cache.rs:816-829 | When a write needs no old data, a zeroed page is as good a base as the lower page. |
| `PageStore.TruncateView` | os/src/fs/page_cache.rs:475-527 | Cutting the lower file and trimming the cached pages is truncating the flat file, also when the file is shrunk and grown again. |
| `PageStore.PunchView` | os/src/fs/page_cache.rs:532-578 | Punching the lower file and the cached pages is zeroing the range of the flat file. |
| `PageStore.BatchGrows` | os/src/fs/page_cache.rs:1051-1072 | Adding one more page to a batch keeps the batch equal to the file from its first page on. |
| `PageStore.LowerWriteIsInvisible` | os/src/fs/page_cache.rs:1081-1091 | A batch that lands in the lower file, wholly or in part, changes nothing readers see. |
| `PageStore.BatchReachesLower` | os/src/fs/page_cache.rs:1109-1124 | After a full batch write the lower pages equal the resident pages of the batch. |
| `PageStore.RetagKeepsView` | os/src/fs/page_cache.rs:1066-1068 | Writeback tags change nothing readers see. |
| `PageStore.CleanKeepsView` | os/src/fs/page_cache.rs:1116-1122 | A page that the lower file already holds may be marked clean without changing the file. |
| `PageCaches.LoadCandidates` | os/src/fs/page_cache.rs:645-683 | A run read from the lower file yields, page by page, the zero-padded pages of the lower file. |
| `PageCaches.CandidateIsLowerPage` | os/src/fs/page_cache.rs:674-683 | Page i cut out of the read buffer is page p+i of the lower file. |
| `PageCaches.ShortFill` | os/src/fs/page_cache.rs:657-667 | If the lower read stops early, the pages cut from the buffer are the lower pages exactly if every byte it left out is zero. |
| `PageCaches.ShortLoadView` | os/src/fs/page_cache.rs:657-712 | Publishing a run that the lower read filled only in part leaves the file as readers see it exactly if every byte left out is zero. |
| `PageCaches.ShortLoadLosesByte` | os/src/fs/page_cache.rs:657-712 | A one-byte file that reads as zero after a lower read of no bytes. |
| `Bytes.EmptyWrite` | os/src/fs/page_cache.rs:798-806 | A write of no bytes keeps the file exactly if it is not placed past the end. |
| `Bytes.WriteThenRead` | os/src/fs/page_cache.rs:792-860 | On flat files, what was written is read back, other bytes stay, and a gap reads as zeros. |
| `Bytes.TruncateThenRead` | os/src/fs/page_cache.rs:475-527 | Cutting and growing again keeps what is before both ends and shows zeros after it. |
| `Bytes.PunchThenRead` | os/src/fs/page_cache.rs:532-578 | A hole reads as zeros and nothing else changes. |
| `Accounting.SumUpdate` | os/src/fs/page_cache.rs:1136-1154 | The sum of a counter over all live caches moves by the change in the one cache that changed. |
| `Accounting.CountedUpdate` | os/src/fs/page_cache.rs:829-854 | Replacing one cache moves both global counters by exactly its change. |
| `Accounting.TouchTracks` | os/src/fs/page_cache.rs:390-404 | After a touch every resident page still has a queue entry and is at least as recent as every entry naming it, stale entries included. |
| `Accounting.PopTracks` | os/src/fs/page_cache.rs:414-417 | Popping the oldest entry leaves at most the page it names without one. |
| `Accounting.PopStale` | os/src/fs/page_cache.rs:418-424 | An entry that names no live page can be dropped. |
| `Accounting.PopAndKeep` | os/src/fs/page_cache.rs:445-463 | A page that must stay goes to the back of the queue with nothing lost from any counter. |
| `Accounting.PopAndDrop` | os/src/fs/page_cache.rs:425-431 | Evicting a page takes it off exactly the counters it was on. |
| `Accounting.InsertKeeps` | os/src/fs/page_cache.rs:690-718 | Publishing a loaded page keeps the page count equal to the resident pages. |
| `Accounting.StoreKeeps` | os/src/fs/page_cache.rs:843-855 | Storing into a page counts it dirty once, in the cache and globally. |
| `Accounting.RemoveCounts` | os/src/fs/page_cache.rs:483-515 | Removing a page, dirty or not, takes it off exactly the counters it was on, so no counter underflows. |
| `Accounting.CleanBooked` | os/src/fs/page_cache.rs:1116-1122 | Cleaning a dirty page takes one off both dirty counters, which are positive. |
| `Accounting.FewerPagesBooked` | os/src/fs/page_cache.rs:475-578 | A cache that loses pages keeps all others tracked in the queue, with stale entries left behind. |
| `Accounting.DropCacheBooked` | os/src/fs/page_cache.rs:1136-1154 | Dropping a cache takes all its pages off both counters and all its entries off the queue. |
| `Accounting.NewCacheBooked` | os/src/fs/page_cache.rs:309-328 | A new cache changes no counter. |
| `Reclaim.ReloadNamesTwice` | os/src/fs/page_cache.rs:390-404 | A page queued again while an old entry still names it is named twice in the queue. |
| `Reclaim.PopKeeps` | os/src/fs/page_cache.rs:414-432 | A pop keeps the books and evicts nothing that is dirty, mapped or held. |
| `Reclaim.PopTakes` | os/src/fs/page_cache.rs:414-432 | A pop takes a page exactly if its entry is the oldest and current and the page is clean, unmapped and unheld; no page comes. |
| `Reclaim.PopKeepsPinned` | os/src/fs/page_cache.rs:414-432 | A page named twice survives a pop and stays named twice. |
| `Reclaim.NamedOnceGoes` | os/src/fs/page_cache.rs:406-433 | A clean, unmapped, unheld page named once goes at the first pop of its entry if it was not used since, and at the second otherwise. |
| `Reclaim.NamedTwiceStays` | os/src/fs/page_cache.rs:406-433 | A page named twice stays however many entries are popped. |
| `Reclaim.ReclaimableExactly` | os/src/fs/page_cache.rs:406-433 | Enough pops take a clean, unmapped, unheld page exactly if the queue does not name it twice, and two rounds of the queue are enough. |
| `Reclaim.UsedSurvivesRound` | os/src/fs/page_cache.rs:390-432 | A page that is used survives a whole round of the queue. |
| `Reclaim.AdviceMeans` | os/src/fs/page_cache.rs:919-940 | A page is advised away exactly if it has a byte in the file and all of those are in the advised range. |
| `Reclaim.DropKeepsPinned` | os/src/fs/page_cache.rs:1136-1154 | Dropping a cache and its queue entries leaves every page of another cache that was named twice resident and named twice. |
| `Reclaim.CutKeepsPinned` | os/src/fs/page_cache.rs:475-578 | A cache that loses only pages it was meant to lose keeps all others that were named twice. |
| `Reclaim.MoreIsPinned` | os/src/fs/page_cache.rs:390-404 | Loading and touching pages only adds pages and entries, so pages named twice stay. |
| `PageCaches.PageCacheSystem.TouchPage` | os/src/fs/page_cache.rs:390-404 | A touched page has the newest generation, gets a queue entry exactly if it had none, and every page stays tracked. |
| `PageCaches.PageCacheSystem.ReclaimFront` | os/src/fs/page_cache.rs:414-432 | The code for one entry is one pop: queue, pages and page count afterwards are what the pop says, and the books stay right. |
| `PageCaches.PageCacheSystem.ReclaimGlobal` | os/src/fs/page_cache.rs:406-433 | A pressure pass pops entries from the front one by one while there are too many pages and stops when there are no longer, or after as many as were queued at its start; every page named twice stays. |
| `PageCaches.PageCacheSystem.PublishRun` | os/src/fs/page_cache.rs:690-712 | A loaded run is published without replacing any resident page and counted page by page. |
| `PageCaches.PageCacheSystem.TouchRun` | os/src/fs/page_cache.rs:712-718 | All pages of a freshly published run end up queued. |
| `PageCaches.PageCacheSystem.LoadWindow` | os/src/fs/page_cache.rs:622-643 | The read-ahead window is at most what was asked for and at most 32 pages, lies in the file, meets no cached page, and stops only at one of these. |
| `PageCaches.PageCacheSystem.GetOrLoad` | os/src/fs/page_cache.rs:609-724 | Afterwards the page is resident, the most recent one if the access counts, and no view has changed; a failing load changes no view either, and loading succeeds if nothing below fails. A page loaded beside an old entry is named twice. |
| `PageCaches.PageCacheSystem.ReadAtAdvised` | os/src/fs/page_cache.rs:765-789 | A read returns what the flat file would, clipped at its end, and changes no file; it succeeds if nothing below fails. |
| `PageCaches.PageCacheSystem.WriteChunk` | os/src/fs/page_cache.rs:808-858 | One page-sized part of a write changes exactly its bytes of the file, whether the old page is resident, loaded or replaced by zeros; a failure changes none. |
| `PageCaches.PageCacheSystem.GrowTo` | os/src/fs/page_cache.rs:798-806 | Raising the length extends the file by zeros. |
| `PageCaches.PageCacheSystem.WriteAt` | os/src/fs/page_cache.rs:792-860 | A write is the flat write; if it fails midway, the length has been raised and exactly a prefix has landed; it fails only for an offset past the address space or if something below fails. A write of nothing changes the file exactly if it is past the end. |
| `PageCaches.PageCacheSystem.AssembleBatch` | os/src/fs/page_cache.rs:1042-1071 | A batch is a run of at most 32 consecutive dirty pages whose data is exactly the file from the first page on. |
| `PageCaches.PageCacheSystem.LowerWriteAt` | os/src/fs/page_cache.rs:1073-1091 | A lower write, full or failing after any prefix, is invisible to readers. |
| `PageCaches.PageCacheSystem.FinishBatch` | os/src/fs/page_cache.rs:959-971 | The pages of a failed batch lose the tag of that batch and nothing else changes. |
| `PageCaches.PageCacheSystem.CommitPage` | os/src/fs/page_cache.rs:1109-1124 | A page tagged by the batch loses the tag and is cleaned exactly if its version is the recorded one; any other page is left alone. |
| `PageCaches.PageCacheSystem.CommitBatch` | os/src/fs/page_cache.rs:1109-1124 | After a full batch write the unchanged pages of the batch are clean and equal to the lower file. |
| `PageCaches.PageCacheSystem.SyncBatch` | os/src/fs/page_cache.rs:1042-1124 | One successful batch leaves its pages clean; no batch changes a view, and it succeeds if nothing below fails. |
| `PageCaches.PageCacheSystem.SyncInner` | os/src/fs/page_cache.rs:1013-1135 | A successful sync leaves every byte of the range in the lower file as readers see it and no dirty page that holds one; a page without a byte of the range stays as dirty as it was; any sync leaves every view unchanged, and it succeeds if nothing below fails. |
| `PageCaches.PageCacheSystem.SyncBatches` | os/src/fs/page_cache.rs:1042-1124 | The listed pages are written back in ascending batches and no other page is cleaned. |
| `PageCaches.SyncedBytes` | os/src/fs/page_cache.rs:1013-1026 | If every page that meets the range is in the lower file, so is every byte of the range. |
| `PageCaches.TakenExactly` | os/src/fs/page_cache.rs:1019-1026 | A page is taken into a sync exactly if the range has a byte in it, or is empty and lies inside it. |
| `PageCaches.PageCacheSystem.Resize` | os/src/fs/page_cache.rs:475-527 | Setting the length drops pages past it, zeroes the tail of the boundary page and counts what went. |
| `PageCaches.PageCacheSystem.Truncate` | os/src/fs/file.rs:653-704 | Truncating is flat truncation, or nothing if the lower truncate fails; a lower file that is already gone is tolerated, a failing flush afterwards undoes nothing, and after a shrink that succeeds the lower file holds all that is left. |
| `PageCaches.PageCacheSystem.ZeroPartials` | os/src/fs/page_cache.rs:546-575 | Pages the hole meets are zeroed where it meets them, and no counter moves. |
| `PageCaches.PageCacheSystem.PublishHole` | os/src/fs/page_cache.rs:532-578 | Covered pages go, met pages are zeroed in the hole, and the books stay right. |
| `PageCaches.PageCacheSystem.PunchHole` | os/src/fs/file.rs:711-757 | Punching is zeroing the range of the flat file clipped at its end, in the lower file too; a failure changes nothing visible, and there is none if nothing below fails. |
| `PageCaches.PageCacheSystem.EvictCleanRange` | os/src/fs/page_cache.rs:919-957 | Advice drops exactly the clean, unheld, unmapped pages of the range and changes no view. |
| `PageCaches.PageCacheSystem.DropCache` | os/src/fs/page_cache.rs:1136-1154 | The last reference takes pages and entries with it, leaves the books right and takes nothing from other caches. |
| `PageCaches.PageCacheSystem.NewCache` | os/src/fs/page_cache.rs:309-328 | A new cache has no pages and shows the lower file. |
| `PageCaches.PageCacheSystem.SetMapped` | os/src/fs/page_cache.rs:435-467 | Mapping or releasing a frame sets that flag of that page, and no view and no counter changes. |
| `OpenFiles.AppendIsConcat` | os/src/fs/file.rs:1051-1068 | Writing at the end is concatenation. |
| `OpenFiles.AppendAll` | os/src/fs/file.rs:1051-1068 | Appends through any descriptions of a file, in any order and with any failures, land one after the other and overwrite nothing. |
| `OpenFiles.AppendedWhole` | os/src/fs/file.rs:1051-1068 | If every append arrived whole, the file is what it was followed by the records in order. |
| `OpenFiles.ReadsJoin` | os/src/fs/file.rs:1027-1049 | Successive reads of a description are one longer read. |
| `OpenFiles.OpenFile.Read` | os/src/fs/file.rs:1027-1049 | A read returns the flat bytes at the offset and moves it by their number; a failed one, which needs a failure below, moves nothing. |
| `OpenFiles.OpenFile.Truncate` | os/src/fs/file.rs:653-704 | A truncate that succeeds is flat truncation and pulls the offset back to the new end; one that fails leaves the offset. A failing flush has truncated and is published to every description, a failing lower truncate has not and is not. |
| `OpenFiles.OpenFile.Punch` | os/src/fs/file.rs:711-757 | A punch is flat punching or changes nothing; a failure of writing back what meets the hole is published, a later one is not. |
| `OpenFiles.OpenFile.Flush` | os/src/fs/file.rs:592-604 | A flush of data and metadata changes no view; success leaves no dirty page, every byte in the lower file and no new error, failure adds one to what every description is owed. |
| `OpenFiles.OpenFile.WriteLocked` | os/src/fs/file.rs:864-915 | The file becomes the flat file with what landed; updating the times, flushing and the barrier may still fail it after the bytes landed, and a failing flush is published. A synchronous write that succeeds leaves every byte in the lower file. |
| `OpenFiles.OpenFile.WriteAtOffset` | os/src/fs/file.rs:917-931 | A positioned write leaves the offset alone and goes to the end of the file all the same if the description appends. |
| `OpenFiles.OpenFile.Write` | os/src/fs/file.rs:1051-1068 | The file becomes the flat file with what landed at the offset or the end; the offset moves only past a write reported as done. |
| `OpenFiles.OpenFile.Fsync` | os/src/fs/file.rs:1180-1196 | Success means every byte is in the lower file, nothing is dirty and the errors this description was owed are none, or a multiple of 2^64; afterwards it is owed none. On a healthy system it succeeds exactly if it was owed none. |
| `Writeback.StepKeepsInv` | os/src/fs/page_cache.rs:1013-1135 | With stores, extending writes, loads and evictions between snapshot, lower write and commit, and truncates and punches between syncs, every step keeps the invariant and has exactly its effect on the flat file. |
| `Writeback.StepChangesFile` | os/src/fs/page_cache.rs:1013-1135 | Only growing, storing, truncating and punching change the file, each as on a flat file; loads, evictions and every step of a sync do not. |
| `Writeback.NoUpdateIsLost` | os/src/fs/page_cache.rs:1042-1124 | In every reachable state, a resident page that is not dirty agrees with the lower file: no update is lost. |
| `Writeback.CommittedPageIsLower` | os/src/fs/page_cache.rs:1097-1124 | While the length generation stands, a page at its recorded version is in the lower file. |
| `Writeback.CommitCleansExactly` | os/src/fs/page_cache.rs:1097-1124 | A commit cleans exactly the batch pages nobody rewrote, and none if the length changed. |
| `WritebackLength.StepKeepsLength` | os/src/fs/page_cache.rs:1081-1107 | A step keeps the lower file within the current length, except exactly a failed write that landed past the end unreported, a commit that has to cut and cannot, and a late resize below what has landed. |
| `WritebackLength.RunKeepsLength` | os/src/fs/page_cache.rs:1081-1107 | So does every run without those steps. |
| `WritebackLength.CommitRestoresLength` | os/src/fs/page_cache.rs:1097-1107 | Whatever size changes land while a batch is in flight, after its commit the lower file is no longer than the file, unless the inode is an ext4 one and the commit has to cut: then it waits for its own lock. |
| `WritebackLength.Ext4Step` | os/src/fs/ext4/inode.rs:1146-1203 | On ext4 every step, failures included, keeps the lower file within the length and no batch past the end, except exactly a resize after the lock that cuts below what has reached the lower file or may reach it in the running sync. |
| `WritebackLength.LockedRunKeepsLength` | os/src/fs/ext4/inode.rs:1183-1203 | So no ext4 run without such a late resize, with any failures, leaves the lower file longer than the file, and no commit comes to the compensating truncate. |
| `WritebackLength.PromptResize` | os/src/fs/file.rs:665-675 | A late resize that finds the length of its own truncate is not one of those. |
| `WritebackLength.LandsInside` | os/src/fs/ext4/inode.rs:1171-1176 | A batch that lands on ext4 raises the cached length to its end. |
| `WritebackLength.PastEndExactly` | os/src/fs/page_cache.rs:1097-1107 | From then on the commit will come to the compensating truncate exactly if a late resize has cut below the end of the batch and nothing has raised the length since. |
| `WritebackLength.StuckForever` | os/src/fs/page_cache.rs:1097-1103 | A commit that comes to it on ext4 never ends, and no later truncate begins. |
| `WritebackLength.LateResizeStrandsSync` | os/src/fs/file.rs:665-675 | A concrete run that ends there: a truncate, another write and sync before its second resize. |
| `WritebackLength.LateResizeLeavesTail` | os/src/fs/file.rs:665-675 | The same run with the sync finished first leaves a byte in the lower file behind the end. |
| `WritebackLength.ShortWriteLeavesTail` | os/src/fs/page_cache.rs:1081-1091 | A concrete run without that lock in which a short write after a truncate leaves a byte behind the end. |
| `ErrorCursors.ReplayMeaning` | os/src/fs/page_cache.rs:363-384 | Sequence, error and cursors after a history are the counts and the latest error of the history. |
| `ErrorCursors.CheckReportsOnce` | os/src/fs/page_cache.rs:371-378 | A check fails with the latest error exactly if the errors recorded since the previous check are not a multiple of 2^64 in number. |
| `ErrorCursors.SecondCheckIsFine` | os/src/fs/page_cache.rs:371-378 | A second check in a row reports nothing. |
| `ErrorCursors.OtherCursorsDoNotMatter` | os/src/fs/page_cache.rs:363-384 | What a description is owed does not depend on the others. |
| `ErrorCursors.WritebackErrors.RecordError` | os/src/fs/page_cache.rs:380-384 | Recording adds one to what every open description is owed, and a later report will name this error; the two fields stay a summary of the whole history. |
| `ErrorCursors.WritebackErrors.SampleCursor` | os/src/fs/page_cache.rs:363-368 | A new description is owed nothing, and the others what they were. |
| `ErrorCursors.WritebackErrors.CheckCursor` | os/src/fs/page_cache.rs:371-378 | A check reports the latest error exactly if the errors owed are not a multiple of 2^64; afterwards nothing is owed, and the others are owed what they were. |
| `SleepMutex.StepKeepsInv` | os/src/mutex/sleep.rs:37-198 | Every step of every future and guard, cancellation included, keeps the invariant. |
| `SleepMutex.MutualExclusion` | os/src/mutex/sleep.rs:37-198 | In every reachable state the mutex is locked exactly if one token exists, and never two. |
| `SleepMutex.FifoAndNoLostWake` | os/src/mutex/sleep.rs:37-49 | Hand-offs follow the enqueue order minus cancellations, an unlocked mutex has no queue, and every granted future is woken. |
| `SleepMutex.NoOvertaking` | os/src/mutex/sleep.rs:111-139 | No step puts a future ahead of one already waiting. |
| `SleepMutex.LockedCanMove` | os/src/mutex/sleep.rs:37-49 | A locked mutex is never stranded: a guard lives, or a woken future is one or two polls from holding it. |
| `SleepMutex.ReleaseRestores` | os/src/mutex/sleep.rs:37-49 | Releasing the only token hands it to the first waiter or unlocks. |
| `SleepMutex.FreeMeansNeverQueued` | os/src/mutex/sleep.rs:120-138 | A poll that finds the mutex free belongs to a future that was never queued. |
| `SleepMutex.RunKeepsInv` | os/src/mutex/sleep.rs:37-198 | The invariant holds over every run. |
| `SleepMutex.ReadyMakesGuard` | os/src/mutex/sleep.rs:111-127 | A poll answers ready exactly if it makes a guard, which is then the only one, with the mutex locked and the future completed; only dropping a guard takes one away. |
| `SleepMutex.PendingWaits` | os/src/mutex/sleep.rs:128-138 | A poll that is not answered leaves its future in the queue with a waker, at the end if it is new, unless it was handed the lock. |
| `SleepMutex.ReleaseServesFirst` | os/src/mutex/sleep.rs:37-49 | A release gives the lock to the future that has waited longest and wakes it; the others move up. |
| `SleepMutex.Drive` | os/src/mutex/sleep.rs:37-198 | In every run of the mutex the ready answers are as many as the guards dropped and left, and no two come without a drop between them. |
| `SleepMutex.Mutex.NewFuture` | os/src/mutex/sleep.rs:95-106 | A new future is neither queued nor granted. |
| `SleepMutex.Mutex.WakeNext` | os/src/mutex/sleep.rs:37-49 | The code for releasing is the release step. |
| `SleepMutex.Mutex.PollFirst` | os/src/mutex/sleep.rs:111-119 | The unlocked grant check is its step; ready means one guard more and a locked mutex. |
| `SleepMutex.Mutex.PollSecond` | os/src/mutex/sleep.rs:120-139 | The locked half of a poll is its step; ready means one guard more and a locked mutex, not ready that the future waits or has been granted the lock. |
| `SleepMutex.Mutex.DropWaiting` | os/src/mutex/sleep.rs:143-166 | Dropping a future at any moment is its step: a granted one passes the lock on. |
| `SleepMutex.Mutex.ReleaseGuard` | os/src/mutex/sleep.rs:190-198 | Dropping a guard is its step. |
| `Paths.ChildRenders` | os/src/fs/namei.rs:188-195 | The string built for a child is the string of the child path. |
| `Paths.RenderInjective` | os/src/fs/namei.rs:188-195 | Different paths have different strings. |
| `Paths.JoinedPrefix` | os/src/fs/dentry_cache.rs:66-83 | One path string followed by a slash is a prefix of another exactly if its path is a proper prefix. |
| `Paths.InTree` | os/src/fs/dentry_cache.rs:66-83 | The string test of the tree removal is the test on paths. |
| `Paths.BelowItself` | os/src/fs/namei.rs:1267-1269 | The string test against renaming a directory into itself is the test on paths, for every directory but the root. |
| `Paths.SegmentsOfRender` | os/src/fs/namei.rs:73-93 | Splitting a path string gives back the path. |
| `Namespace.RenameMeaning` | os/src/fs/namei.rs:1319-1324 | After a rename every path names what it did, moved paths what their old path named. |
| `Namespace.RenameKeepsWellFormed` | os/src/fs/namei.rs:1319-1324 | Moving a whole subtree leaves a well-formed tree. |
| `Namespace.RenameBack` | os/src/fs/namei.rs:1319-1324 | Renaming back undoes a rename, subtree and all. |
| `Namespace.AsideMeaning` | os/src/fs/namei.rs:1307-1316 | Setting a target aside moves that one entry and nothing else. |
| `Namespace.ReplaceIsRemoveAndRename` | os/src/fs/namei.rs:1270-1340 | Setting aside, renaming and deleting the backup is deleting the target and renaming. |
| `DentryCache.HitIsLookup` | os/src/fs/namei.rs:127-164 | A cache hit is what the lower lookup would find. |
| `DentryCache.LookupMeans` | os/src/fs/namei.rs:127-164 | A lower lookup finds an entry exactly if the tree has it, and is ENOENT or ENOTDIR otherwise. |
| `DentryCache.AddStaysCoherent` | os/src/fs/namei.rs:411-440 | Adding an entry to the tree keeps every cached path right. |
| `DentryCache.RemoveStaysCoherent` | os/src/fs/namei.rs:1039-1046 | Once a removed subtree has left the cache, every cached path is right. |
| `DentryCache.RenameStaysCoherent` | os/src/fs/namei.rs:1341-1351 | Once both subtrees have left the cache, every cached path is right after a rename. |
| `DentryCache.Dcache.Insert` | os/src/fs/dentry_cache.rs:31-54 | Inserting evicts at most one unheld dentry and keeps the cache right and, unless all are held, within its capacity. |
| `DentryCache.Dcache.RemoveTree` | os/src/fs/dentry_cache.rs:66-83 | Exactly the dentries at or below the path go. |
| `DentryCache.Dcache.Clean` | os/src/fs/dentry_cache.rs:104-124 | Only unheld dentries go. |
| `DentryCache.Dcache.Lookup` | os/src/fs/namei.rs:127-164 | A lookup through the cache gives the lower answer, found or not, whatever is cached; only a failing lower filesystem makes it EIO, and never for a cached name. |
| `Namei.AddMeans` | os/src/fs/namei.rs:707-751 | When an entry may be added, and the exact condition of each errno, on the tree. |
| `Namei.RemoveMeans` | os/src/fs/namei.rs:1003-1047 | When an entry may be removed, and the exact condition of each errno, on the tree. |
| `Namei.RenameMeans` | os/src/fs/namei.rs:1240-1302 | When a rename goes ahead or has nothing to do, and the exact condition of each errno, on the tree. |
| `Namei.VerdictMeans` | os/src/fs/namei.rs:1302-1324 | When the lower filesystem then agrees: a directory as parent, a source other than the root, and a backup name of at most 255 characters that is free. |
| `Namei.Create` | os/src/fs/namei.rs:696-751 | The errno is the one the lower tree calls for, or EIO if the lower filesystem fails; on a healthy one it succeeds exactly for an allowed, free, proper name in a directory. Success puts exactly the new entry in the tree and its dentry in the cache; a failed one leaves tree and cache unchanged unless the removal failed too, and then the cache does not show it. |
| `Namei.Link` | os/src/fs/namei.rs:1140-1204 | The errno is the one the lower tree calls for, or EIO if the lower filesystem fails; on a healthy one it succeeds exactly for an allowed, free, proper name in a directory and a source that is none. Success adds exactly the second name, in tree and cache. |
| `Namei.Unlink` | os/src/fs/namei.rs:997-1047 | The errno is the one the lower tree calls for, or EIO if the lower filesystem fails; on a healthy one it succeeds exactly for an allowed, proper name of an entry with nothing below that is a directory if and only if one is to be removed. Success removes exactly the entry and its cached subtree. |
| `Namei.SetAside` | os/src/fs/namei.rs:1302-1316 | The target is under its backup name and out of the cache, or nothing changed; the answer is the one the lower filesystem gives, ENOENT for a backup name that is too long and EEXIST for one that is taken. |
| `Namei.PublishRename` | os/src/fs/namei.rs:1341-1351 | Afterwards the cache shows the moved dentry under its new path and nothing below either path. |
| `Namei.LowerRename` | vendor/lwext4_rust/c/lwext4/src/ext4.c:1342-1408 | The lower rename moves a subtree exactly if the new parent is a directory, the new name is free and not too long, and the old one is not the root; it is never asked to move a directory into itself. The errno is ENOENT, EEXIST or EINVAL accordingly. |
| `Namei.RenameAnswerMeans` | vendor/lwext4_rust/c/lwext4/src/ext4.c:1144-1246 | The lower answer is success exactly if the tree can be renamed so. |
| `Namei.Rename` | os/src/fs/namei.rs:1217-1354 | The errno is the one the checks and then the lower filesystem call for; the tree is exactly what the outcome says, with failures compensated. A rename that passes the checks succeeds on a healthy filesystem exactly if the new parent is a directory, the source is not the root, and the backup name of an old target is at most 255 characters long and free. Only a failing filesystem gives EIO, or EEXIST for a target whose lookup failed. |
| `Namei.RenameChecked` | os/src/fs/namei.rs:1270-1354 | The same for the part after the checks that need no lookup. |
| `Namei.MoveOver` | os/src/fs/namei.rs:1302-1340 | For any two files of a healthy root directory: one can be renamed over the other exactly if the backup name of the other fits and is free, with ENOENT and EEXIST otherwise. |
| `Namei.LongTargetStays` | os/src/fs/namei.rs:1307-1312 | A target of 240 characters cannot be replaced: its backup name is too long. |
| `Namei.TakenBackupStays` | os/src/fs/namei.rs:1307-1312 | A target whose backup name is another file cannot be replaced. |
| `Namei.MoveFree` | os/src/fs/namei.rs:1319-1351 | Without a target, or with one whose lookup failed and is taken as none, nothing is set aside: the subtree moves to a free name or nothing changes. |
| `Namei.Replace` | os/src/fs/namei.rs:1270-1340 | Replacing a target ends replaced, untouched, or in one of the two named error outcomes; on a healthy filesystem it succeeds exactly if the backup name fits and is free and the source is not the root. |
| `Namei.AsideThenMove` | os/src/fs/namei.rs:1302-1323 | Once a target is set aside, only the root cannot take its place, the target could be put back, and after the move the backup can be deleted. |
| `Namei.RestoredIsCoherent` | os/src/fs/namei.rs:1319-1323 | After the target has been put back the cache agrees with the original tree. |
| `Resolve.JoinSymlinkTarget` | os/src/fs/namei.rs:976-991 | The loop builds the joined text. |
| `Resolve.JoinedTarget` | os/src/fs/namei.rs:976-991 | The joined text splits into the components of the target followed by the rest, and is absolute and directory-demanding exactly as the two parts say. |
| `Resolve.FollowIsResolved` | os/src/fs/namei.rs:925-961 | Putting the names of a symlink in its place is resolving the joined text. |
| `Resolve.ResolvePathFrom` | os/src/fs/namei.rs:870-974 | For every path, symlink and cache state, resolution gives the dentry or errno of the walk that asks the lower tree each time, or EIO if the lower filesystem fails, and ends. |
| `Resolve.RenderResolves` | os/src/fs/namei.rs:870-974 | The path string of every searchable entry resolves to that entry. |
| `Resolve.LinkPathWalk` | os/src/fs/namei.rs:1356-1413 | The parent walk, starting over at every symlink, gives the place or errno of the walk on names with bare lookups, or EIO if the lower filesystem fails. |
| `PathMeanings.DotDotIsParent` | os/src/fs/namei.rs:905-911 | The text of a directory followed by two dots names the directory without its last name. |
| `PathMeanings.RootDotDot` | os/src/fs/namei.rs:166-187 | The root is its own parent. |
| `PathMeanings.DotDotThenName` | os/src/fs/namei.rs:1370-1378 | A name after the dots is a name in the parent, for lookups and for making it. |
| `PathMeanings.DotIsSelf` | os/src/fs/namei.rs:898-904 | A single dot stays where it is. |
| `PathMeanings.LastName` | os/src/fs/namei.rs:912-974 | An entry of a reachable directory is what its path names; with a trailing slash it has to be a directory, else ENOTDIR. |
| `PathMeanings.LinkStandsFor` | os/src/fs/namei.rs:925-961 | A symlink to a directory stands for it in the middle of a path always, at the end by option or by a trailing slash. |
| `PathMeanings.LinkLeads` | os/src/fs/namei.rs:1385-1410 | It does so on the way to a name that is to be made. |
| `PathMeanings.FirstObstacle` | os/src/fs/namei.rs:912-924 | A walk stops at the first obstacle: ENOENT for a missing entry, ENOTDIR for a file on the way, EACCES for a directory that may not be searched. |
| `PathMeanings.FirstObstacleToParent` | os/src/fs/namei.rs:1356-1384 | So does the walk to a parent. |
| `SymlinkChains.ChainResolves` | os/src/fs/namei.rs:870-974 | A chain of n symlinks in any directory resolves to its end exactly if n is at most 39, and is ELOOP otherwise. |
| `SymlinkChains.ChainLeads` | os/src/fs/namei.rs:1356-1413 | The parent walk through a chain of n symlinks gets through exactly if n is at most 40, and is ELOOP otherwise. |
| `SymlinkChains.LimitsDiffer` | os/src/fs/namei.rs:870-1413 | A concrete tree with forty links, where a lookup is ELOOP and the parent walk succeeds. |
| `NamespaceRuns.Apply` | os/src/fs/namei.rs:696-1413 | One call, from path string to answer, gives an answer and a tree that a kernel without a dentry cache gives: the same errno, success if nothing below fails, EIO only for calls that ask a failing lower filesystem. |
| `NamespaceRuns.Run` | os/src/fs/namei.rs:696-1413 | So does every run of finds, creations, links, removals, renames and evictions, up to its end or to the call that brings the kernel down. |
| `NamespaceRuns.PanicsExactly` | os/src/fs/namei.rs:391-399 | A call indexes past its names exactly if it makes something other than a directory at a non-empty path of nothing but slashes; a link only if its source is found. |
| `NamespaceRuns.PanicAtRoot` | os/src/fs/namei.rs:707-713 | In particular when a regular file is made at "/". |
| `NamespaceRuns.PlaceHasName` | os/src/fs/namei.rs:1356-1364 | The parent walk ends without a name exactly for such paths, and then at the root. |
| `NamespaceRuns.LookupPath` | os/src/fs/namei.rs:813-859 | Lookup with its library fallback answers as without a cache; a path that needs no lookup cannot fail. |
| `NamespaceRuns.FindPlace` | os/src/fs/namei.rs:66-70 | Finding the place of a new name answers as without a cache: ENOENT for an empty path, ENAMETOOLONG for a long component, else what the parent walk gives. |
| `NamespaceRuns.AddAt` | os/src/fs/namei.rs:707-751 | A creation or link at a found place panics, is refused, done or undone as without a cache. |
| `NamespaceRuns.RemoveAt` | os/src/fs/namei.rs:1003-1047 | A removal at a found place answers as without a cache. |
| `NamespaceRuns.MoveTo` | os/src/fs/namei.rs:1240-1354 | A rename to a found place answers as without a cache, the limits of backup names included. |
| `NamespaceLaws.EntryIsFound` | os/src/fs/namei.rs:813-859 | An entry of a reachable directory is found under its path. |
| `NamespaceLaws.MissingIsNotFound` | os/src/fs/namei.rs:813-859 | A name that is not there is ENOENT. |
| `NamespaceLaws.LibraryFallback` | os/src/fs/namei.rs:813-859 | What is missing in one of the four library directories is looked for in that of glibc. |
| `NamespaceLaws.MakeThenFind` | os/src/fs/namei.rs:696-751 | Making something at a free name of a reachable directory works on a healthy filesystem, and it is then found there. |
| `NamespaceLaws.LinkThenFind` | os/src/fs/namei.rs:1140-1204 | A second name for a file works, and is then found to be that file. |
| `NamespaceLaws.RemoveThenFind` | os/src/fs/namei.rs:997-1047 | Removing an entry with nothing below works, and it is then ENOENT. |
| `NamespaceLaws.MoveWorks` | os/src/fs/namei.rs:1217-1354 | Renaming to a free name works; every path below the new name is then what it was below the old one, and nothing else changed. |
| `NamespaceLaws.LongComponent` | os/src/fs/namei.rs:66-70 | A component of more than 255 characters is ENAMETOOLONG. |
| `NamespaceLaws.MakeWithSlash` | os/src/fs/namei.rs:391-399 | With a trailing slash a directory can be made and nothing else: ENOENT for a missing name, EEXIST for an existing one. |
| `NamespaceLaws.RootCalls` | os/src/fs/namei.rs:714-717 | Making a directory at the root is EEXIST, removing it EBUSY or EISDIR. |
| `NamespaceLaws.MoveRefused` | os/src/fs/namei.rs:1228-1241 | A rename whose source is missing or may not be taken is refused and changes nothing. |
| `Pipes.StepKeepsInv` | os/src/fs/pipe.rs:427-590 | Every step keeps the buffer within a capacity of at least a page and nobody waiting for a closed side. |
| `Pipes.RunKeepsInv` | os/src/fs/pipe.rs:427-590 | So does every run, resizes and closes included. |
| `Pipes.StreamIsConserved` | os/src/fs/pipe.rs:427-590 | What readers got followed by the buffer is the old buffer followed by what writers sent: no byte lost, invented, repeated or reordered. |
| `Pipes.RecordsStayWhole` | os/src/fs/pipe.rs:511-590 | A write of at most a page is accepted whole or not at all and stands contiguously in the stream at its place. |
| `Pipes.ReadReadyMeans` | os/src/fs/pipe.rs:609-612 | A pipe polls readable exactly if no read would wait. |
| `Pipes.WriteReadyMeans` | os/src/fs/pipe.rs:614-618 | With a reader left, a pipe polls writable exactly if no write of any size would wait or be refused. |
| `Pipes.WriteRefused` | os/src/fs/pipe.rs:525-551 | The exact conditions of EAGAIN and EPIPE. |
| `Pipes.ReadMeans` | os/src/fs/pipe.rs:427-475 | A read takes as many bytes as there are and fit and wakes the writer that has waited longest; an empty pipe is the end, EAGAIN or a wait. |
| `Pipes.WriteMeans` | os/src/fs/pipe.rs:511-562 | A write of at most a page is taken whole or not at all, a longer one as far as it fits, and the reader that has waited longest is woken; else EPIPE, EAGAIN or a wait. |
| `Pipes.ResizeMeans` | os/src/fs/pipe.rs:147-168 | A new capacity is the least number of whole pages that is enough, within both limits and not less than what is buffered; EINVAL, EPERM and EBUSY otherwise. |
| `Pipes.CloseMeans` | os/src/fs/pipe.rs:654-685 | Closing a side closes that one and hands back everybody who waits for it. |
| `Pipes.DrainedThenEof` | os/src/fs/pipe.rs:439-460 | After the writer closed, reads hand out what is left in order and then report the end. |
| `Pipes.StaysClosed` | os/src/fs/pipe.rs:654-680 | A closed side stays closed. |
| `Pipes.WaitersLeaveAwake` | os/src/fs/pipe.rs:742-769 | A waiter leaves its queue only woken or running, longest waiters first. |
| `Pipes.Fresh` | os/src/fs/pipe.rs:699-716 | A new pipe has at least a page of capacity. |
| `Pipes.PipeRingBuffer.constructor` | os/src/fs/pipe.rs:699-716 | A new buffer is empty, open and of the allowed capacity. |
| `Pipes.PipeRingBuffer.Drain` | os/src/fs/pipe.rs:440-449 | The byte loop moves the front of the buffer to the front of the caller's array and leaves the rest of it alone. |
| `Pipes.PipeRingBuffer.TryRead` | os/src/fs/pipe.rs:427-475 | One read attempt is the read step; bytes taken wake the first waiting writer. |
| `Pipes.PipeRingBuffer.TryWrite` | os/src/fs/pipe.rs:511-562 | One write attempt is the write step; bytes taken wake the first waiting reader. |
| `Pipes.PipeRingBuffer.SetCapacity` | os/src/fs/pipe.rs:147-168 | Resizing rounds up to pages and never cuts off buffered bytes. |
| `Pipes.PipeRingBuffer.RemoveWaiter` | os/src/fs/pipe.rs:763-768 | A task that runs again leaves its queue. |
| `Pipes.PipeRingBuffer.DropEnd` | os/src/fs/pipe.rs:654-685 | Dropping an end closes its side and hands back everyone waiting on it. |
| `Disks.Disk.Read` | os/src/drivers/disk.rs:90-124 | A read returns exactly the bytes at the position and advances by their number; it succeeds whenever it lies on a healthy device and never past the end. |
| `Disks.Disk.Write` | os/src/drivers/disk.rs:127-156 | A write that succeeds changes exactly its bytes; a failed one has put the bytes the position moved over; no block outside the range and nothing before the partition is touched. |
| `Disks.Disk.ReadPartial` | os/src/drivers/disk.rs:48-59 | The ragged edge of a read gives the bytes of the block from the offset on. |
| `Disks.Disk.WritePartial` | os/src/drivers/disk.rs:62-75 | Read-modify-write of a ragged edge changes only the bytes given. |
| `Disks.Disk.ReadSome` | os/src/drivers/disk.rs:90-123 | One turn of the loop reads all whole blocks at once or one ragged edge. |
| `Disks.Disk.WriteSome` | os/src/drivers/disk.rs:127-154 | One turn of the loop writes all whole blocks at once or one ragged edge. |
| `Disks.Disk.Advance` | os/src/drivers/disk.rs:77-83 | The position moves by exactly the count. |
| `Disks.Disk.SetPosition` | os/src/drivers/disk.rs:42-45 | Setting a position and reading it back agree. |
| `Disks.Disk.WriteSeekRead` | os/src/drivers/disk.rs:163-188 | On a healthy device, what was written is read back after seeking over it, and a refused seek in between changes nothing. |
| `Disks.PatchBlock` | os/src/drivers/disk.rs:62-75 | Patching a block and writing it back is patching the bytes. |
| `Disks.PutGrows` | os/src/drivers/disk.rs:127-156 | Pieces written one after the other are one write. |
| `Disks.FilledGrows` | os/src/drivers/disk.rs:90-125 | Pieces read one after the other are one read. |
| `Disks.LandedStays` | os/src/drivers/disk.rs:127-156 | A failed request later on leaves what has landed. |
| `BuddyBlocks.CoversRange` | vendor/respos_buddy_allocator/src/lib.rs:336-346 | A block is the words between its ends. |
| `BuddyBlocks.SplitApart` | vendor/respos_buddy_allocator/src/lib.rs:315-322 | Splitting keeps blocks from overlapping. |
| `BuddyBlocks.SplitCovers` | vendor/respos_buddy_allocator/src/lib.rs:315-322 | Splitting covers the same words. |
| `BuddyBlocks.MergeApart` | vendor/respos_buddy_allocator/src/lib.rs:344-369 | Merging buddies keeps blocks from overlapping. |
| `BuddyBlocks.MergeCovers` | vendor/respos_buddy_allocator/src/lib.rs:344-369 | Merging buddies covers the same words. |
| `BuddyBlocks.HoleHasHolder` | vendor/respos_buddy_allocator/src/lib.rs:344-369 | If coalesced blocks cover a whole aligned block, one of them holds it. |
| `BuddyBlocks.CoalescedUnique` | vendor/respos_buddy_allocator/src/lib.rs:344-369 | Coalesced blocks are determined by the words they cover. |
| `BuddyHeap.ServesExactly` | vendor/respos_buddy_allocator/src/lib.rs:307-329 | A free list can serve an order exactly if the live blocks leave room for one aligned block of it. |
| `BuddyHeap.RoomMeans` | vendor/respos_buddy_allocator/src/lib.rs:307-329 | Room for an order is an aligned run of words of that length inside the heap that meets no live block. |
| `BuddyHeap.FreeIsDetermined` | vendor/respos_buddy_allocator/src/lib.rs:437-475 | The free blocks depend on nothing but the live ones: a heap given back whole is the heap as new. |
| `BuddyHeap.FreeCovers` | vendor/respos_buddy_allocator/src/lib.rs:307-372 | A word is in a free block exactly if it is in the heap and in no live block. |
| `BuddyHeap.SplitCoalesced` | vendor/respos_buddy_allocator/src/lib.rs:315-322 | During a split only the half about to be taken has its buddy free. |
| `BuddyHeap.MergeStops` | vendor/respos_buddy_allocator/src/lib.rs:344-369 | When merging stops, no block has a free buddy. |
| `BuddyHeap.BitsDiffer` | vendor/respos_buddy_allocator/src/lib.rs:241-256 | No two blocks of a heap share a bit of the membership bitmap. |
| `BuddyHeap.Heap.constructor` | vendor/respos_buddy_allocator/src/lib.rs:215-239 | A new heap covers its words with coalesced blocks, nothing live. |
| `BuddyHeap.Heap.BiggestAt` | vendor/respos_buddy_allocator/src/lib.rs:226-239 | The block laid next is the biggest that is aligned and fits. |
| `BuddyHeap.Heap.PushFree` | vendor/respos_buddy_allocator/src/lib.rs:285-288 | List and bitmap get the block. |
| `BuddyHeap.Heap.RemoveFree` | vendor/respos_buddy_allocator/src/lib.rs:296-302 | List and bitmap lose the block. |
| `BuddyHeap.Heap.TakeFrom` | vendor/respos_buddy_allocator/src/lib.rs:315-325 | Splitting down takes a block nobody had and leaves the rest coalesced. |
| `BuddyHeap.Heap.AllocOrder` | vendor/respos_buddy_allocator/src/lib.rs:307-329 | A block is handed out exactly if the live blocks leave room for one; it overlaps none of them. |
| `BuddyHeap.Heap.Coalesce` | vendor/respos_buddy_allocator/src/lib.rs:344-369 | Merging upwards ends with no free buddies anywhere. |
| `BuddyHeap.Heap.DeallocOrder` | vendor/respos_buddy_allocator/src/lib.rs:336-372 | A block given back is free again, merged as far as it goes, and no other live block changes. |
| `Magazines.LayoutFits` | vendor/respos_buddy_allocator/src/lib.rs:26-30 | The order of a layout is the least whose blocks are long and aligned enough. |
| `Magazines.LayoutServed` | vendor/respos_buddy_allocator/src/lib.rs:26-30 | A layout has an order exactly if its size is at most 2^63. |
| `Magazines.MagazineServes` | os/src/mm/heap_allocator.rs:88-101 | The magazines serve exactly the layouts of at most 256 bytes that ask for no more alignment than their blocks have. |
| `Magazines.PushedOk` | os/src/mm/heap_allocator.rs:58-66 | Pushing keeps the cached bytes equal to the sum of lengths times sizes and adds just that block. |
| `Magazines.PoppedOk` | os/src/mm/heap_allocator.rs:324-326 | Popping keeps the cached bytes exact and takes just that block. |
| `Magazines.PushOwned` | os/src/mm/heap_allocator.rs:347-356 | A pushed block belongs to that hart and no other. |
| `Magazines.PopOwned` | os/src/mm/heap_allocator.rs:324-326 | A popped block belongs to no hart. |
| `Magazines.CachedIsRoom` | os/src/mm/heap_allocator.rs:324-326 | A cached block is room as far as users are concerned. |
| `Magazines.UsersApart` | os/src/mm/heap_allocator.rs:315-476 | No word belongs to two users. |
| `Magazines.KernelHeap.constructor` | os/src/mm/heap_allocator.rs:42-56 | A new kernel heap has nothing cached and no users. |
| `Magazines.KernelHeap.Push` | os/src/mm/heap_allocator.rs:433-438 | A block goes on one hart's stack. |
| `Magazines.KernelHeap.Pop` | os/src/mm/heap_allocator.rs:324-326 | The top block leaves the stack. |
| `Magazines.KernelHeap.Refill` | os/src/mm/heap_allocator.rs:345-357 | A refill reaches fifteen blocks or stops because the buddy heap has no room. |
| `Magazines.KernelHeap.DrainClass` | os/src/mm/heap_allocator.rs:275-288 | One stack goes back to the buddy heap whole; none drained means nothing changed. |
| `Magazines.KernelHeap.DrainMagazines` | os/src/mm/heap_allocator.rs:267-292 | Afterwards no hart caches anything; none drained means nothing was cached. |
| `Magazines.KernelHeap.AllocFromHeap` | os/src/mm/heap_allocator.rs:341-373 | The buddy heap, with the magazines drained into it if need be, serves exactly if the users leave room. |
| `Magazines.KernelHeap.Alloc` | os/src/mm/heap_allocator.rs:315-420 | An allocation fails exactly if the blocks users own leave no room, and then every magazine is empty; a hit is the top of the local stack and touches no other heap state. |
| `Magazines.KernelHeap.Dealloc` | os/src/mm/heap_allocator.rs:422-476 | A block freed on any hart goes to that hart's stack if there is room, else to the buddy heap, and belongs to nobody else. |
| `Frames.BumpIssues` | os/src/mm/frame_allocator.rs:101-107 | Bumping a cursor issues exactly the frame it stood on. |
| `Frames.CursorIsFresh` | os/src/mm/frame_allocator.rs:101-107 | With disjoint ranges the frame under a cursor was never handed out. |
| `Frames.PopKeeps` | os/src/mm/frame_allocator.rs:97-100 | Reusing a returned frame keeps stack and bitmap in step. |
| `Frames.PushKeeps` | os/src/mm/frame_allocator.rs:114-126 | Returning a frame keeps stack and bitmap in step. |
| `Frames.GuardMeans` | os/src/mm/frame_allocator.rs:116-123 | The release guard passes exactly the frames that are out. |
| `Frames.Exhausted` | os/src/mm/frame_allocator.rs:101-111 | With an empty stack and used up ranges every frame is out. |
| `Frames.NewRangesManage` | os/src/mm/frame_allocator.rs:129-142 | A new allocator manages exactly the frames of the given ranges. |
| `Frames.StackFrameAllocator.constructor` | os/src/mm/frame_allocator.rs:129-142 | A new allocator has every frame free. |
| `Frames.StackFrameAllocator.Alloc` | os/src/mm/frame_allocator.rs:96-112 | A frame nobody has is handed out, last returned first; it fails exactly when every frame is out; free plus out frames stay constant. |
| `Frames.StackFrameAllocator.Dealloc` | os/src/mm/frame_allocator.rs:114-126 | A release is accepted exactly for a frame that is out, and then only that frame is free again. |
| `ListenTables.PromoteHolds` | os/src/net/listen.rs:132-149 | Promotion keeps every handle of the port exactly once and loses just the dead ones. |
| `ListenTables.QueueAlive` | os/src/net/listen.rs:132-149 | Queued connections are never among those promotion removes. |
| `ListenTables.DroppedExactly` | os/src/net/listen.rs:132-149 | Promotion drops a listener exactly if it is neither listening, nor in the handshake, nor established. |
| `ListenTables.PromotedMeans` | os/src/net/listen.rs:132-149 | Promotion in states: established listeners join the queue behind those in it, listening ones and those in the handshake stay. |
| `ListenTables.KeepConcat` | os/src/net/listen.rs:137-147 | The order of listeners is kept. |
| `ListenTables.ClosedEarlyIsLost` | os/src/net/listen.rs:137-147 | A connection whose peer closed its side before anybody looked is lost. |
| `ListenTables.ListenTable.constructor` | os/src/net/listen.rs:50-59 | A new table listens nowhere. |
| `ListenTables.ListenTable.Environment` | os/src/net/listen.rs:209-237 | Whatever the network does to socket states keeps the table right. |
| `ListenTables.ListenTable.AddListener` | os/src/net/listen.rs:195-204 | A new listener is a new handle in the socket set and in the pool of the port. |
| `ListenTables.ListenTable.Replenish` | os/src/net/listen.rs:195-204 | The pool is filled to the limit unless the stack refuses, with handles that were not in use. |
| `ListenTables.ListenTable.SortLoop` | os/src/net/listen.rs:137-147 | The loop with its full-queue test is the plain sorting of listeners: no established connection is turned away. |
| `ListenTables.ListenTable.SortListeners` | os/src/net/listen.rs:132-148 | Established listeners join the queue in order, waiting ones stay, exactly the others are removed. |
| `ListenTables.ListenTable.PromoteListener` | os/src/net/listen.rs:132-149 | Promotion sorts a port and refills it, to its limit unless the stack refuses, and every other socket and port is as before. |
| `ListenTables.ListenTable.PromoteReadyListeners` | os/src/net/listen.rs:155-159 | Every port is promoted: its queue is the old one followed by its established listeners in order; exactly the dead listeners of all ports lose their sockets, and new ones only listen. |
| `ListenTables.ListenTable.PopFront` | os/src/net/listen.rs:118-128 | The front connection leaves the table. |
| `ListenTables.ListenTable.TakeUsable` | os/src/net/listen.rs:118-129 | The first usable connection is taken; exactly the unusable ones before it lose their sockets; the pool is refilled, to its limit unless the stack refuses, and every other port is as before. |
| `ListenTables.ListenTable.Accept` | os/src/net/listen.rs:114-130 | The first queued connection that is not closed and has both endpoints is returned, ECONNREFUSED means nobody listens, EAGAIN means there is none; such connections keep their sockets, the sockets removed are the dead listeners and the skipped connections, the port is full again unless the stack refuses, and every other port is as before. |
| `ListenTables.EstablishedIsAccepted` | os/src/net/listen.rs:114-130 | A listener that the network has established is what accept returns. |
| `ListenTables.ListenTable.CanAccept` | os/src/net/listen.rs:104-112 | A port is ready exactly if promotion leaves something queued; only its dead listeners lose their sockets, and every other port is as before. |
| `ListenTables.ListenTable.StartListening` | os/src/net/listen.rs:65-88 | EADDRINUSE exactly for an occupied port; else the slot holds the given socket and new ones up to the backlog, which counts as at least 1 and at most 128, and no other port or socket changes. |
| `ListenTables.ListenTable.Unlisten` | os/src/net/listen.rs:90-102 | The slot, the active port and exactly the sockets of the port are gone. |

## Left out

- Page cache: tmpfile caches without a lower file, `mark_clean_range`, prefetching, stores through shared mappings, and interleavings finer than the steps named above.
- Page cache: a lower read that fails with ENOENT is treated as a failure and not as an empty file, and the operations read whole runs; a run that was read short is in `ShortFill` and `ShortLoadView` only.
- Page cache: `Ext4Inode::write_at`, which resizes caches.
- Writeback.NoUpdateIsLost: shrinks and punches happen between syncs, as the writeback lock makes them, which `File::punch_hole` and `Ext4Inode::truncate` take; the resize that `File::truncate` makes after the lock, and shrinks without a lock, are in `WritebackLength`. The page-cache operations take a truncate and both its resizes as one step.
- Open files: the values of timestamps, quota and read-only checks, files without a page cache, and `O_DIRECT`.
- SleepMutex: the data behind the lock and the executor; a task is a wake flag.
- Namespace: mounts, chroot, working directories other than the root, special files, deferred deletion of unlinked inodes, dentry identity across renames, and permission detail, which is a predicate on inodes and a flag for each call.
- Namespace: the entries `.` and `..` that a lower directory holds itself, which matter only to a creation whose last name is one of them and has a trailing slash; a name is as long in bytes as in characters.
- Namespace: the lower filesystem's journal; a lower call that fails has changed nothing.
- Namespace: the base of a walk is a live dentry; a task standing in a removed directory is not modelled.
- Pipes: named FIFOs, splice and peek, and any promise that every waiter is woken, since reads and writes wake one.
- Disk: the partition table, flushing, and the warning for seeks past the end.
- Heap: the links inside free blocks (lists are sequences), the byte statistics of users, peak counters, and other harts between draining the magazines and trying again.
- Magazines.KernelHeap.DrainClass: counts cached bytes down block by block, where the source subtracts a whole class at once.
- Frames: clearing of frames and the two boards' memory maps.
- Listen table: endpoints, `take_handle`, the proc listing, and the TCP engine, whose effect is any change of socket states.
- The scheduler, ext4, virtual memory, networking beyond the listen table, terminals and system call plumbing are not part of this model.

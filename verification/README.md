# xv6: storage, processes, memory and two language processors

A Dafny model of the hard core of an x86 xv6 kernel and of two of its user programs, with proofs of
what that code is for. Statements are about all inputs, all interleavings and all crash points, with no
bounds of the model's own; what they assume is listed under "Left out".

- **Crash-safe log** (`LogImages`, `LogCode`, `LogRuns`). The log on values, the code of log.c as a
  class that records every disk image it produces, and the system of all interleavings of system
  calls, single disk writes and crashes. Main results: `LogRuns.CrashSafety`, `LogRuns.GroupCommit`,
  `LogRuns.WriteAhead`.
- **Buffer cache** (`BufferList`, `BufferCache`, `LogOverCache`). The cache as arrays and a linked
  list, refining a logical disk; commit on top of it never runs out of buffers, and its disk writes are
  those for which crash atomicity is proved (`LogOverCache.Commit`).
- **Files** (`Blocks`, `Volume`, `Space`, `FileSystem`, `FileWrite`, `FullChunk`, `Dinodes`, `FileOverLog`). Bitmap,
  inodes, direct and indirect blocks; reading and writing refine a byte sequence, every block has one owner,
  the "out of blocks" panics have exact conditions. A write is a chain of transactions that log all they
  change within their reservation, which a volume shows to be needed in full; on the log, a crash leaves a
  whole number of them (`FileOverLog.WholeChunksSurvive`, `FileOverLog.FileSurvives`).
- **Names and links** (`Dirents`, `Namei`, `Links`, `SysFile`, `Calls`, `CallLaws`, `Lookups`). Directory bytes refine a finite map,
  path lookup is a fold, and link, unlink, create, open and close on those bytes, in any sequence and with
  removed directories still in use, give the replies of a function on values and are runs of a system for
  which it is proved exactly when link counts are right (`Calls.Session`); what programs rely on about paths
  before and after each call are laws about them (`CallLaws.LinkWorks`, `CallLaws.LinkThenUnlink`).
- **Processes and pipes** (`ProcTable`, `ProcRuns`, `ProcLife`, `Pipe`, `PipeRuns`, `PipeBooks`). Lock-protected
  regions as code, and all their interleavings as step systems: invariants, the exact life of a process slot
  (`ProcLife.RunFollows`), and whose bytes a pipe delivers (`PipeBooks.BuffersArrive`).
- **Memory** (`Paging`, `VmSteps`, `VmRanges`, `Vm`, `VmAccess`, `VmLife`, `FreeList`, `Umalloc`). Every physical
  page in one place through all operations on address spaces; in any sequence of them each process has a
  private memory (`VmLife.RunOps`); the user-level allocator conserves memory.
- **Language processors** (`ShellGrammar`, `ShellWords`, `ShellText`, `ShellErrors`, `Shell`, `Grep`). The shell's
  parser accepts exactly its grammar, inverts printing and means its messages; the pattern matcher decides a
  declarative language.

Code that updates state is modelled by classes and methods; what a method computes is tied to
functions on values, and the main properties are lemmas about those.

Disk block writes are atomic and take effect in order. Integers are unbounded except where the width
matters: block numbers and pipe counters are 32-bit words, request sizes of malloc wrap.

Eight properties one might expect are false of the code. Each has a concrete input, and a statement of exactly
when the code meets it:

- The panic for a too big transaction is reachable although every call keeps to MAXOPBLOCKS: by a new block
  when log.size equals LOGSIZE, which is how mkfs.c:25 lays out the disk (`LogRuns.TooBigIsReachable`), and by
  logging a block once more when the log is larger (`LogRuns.RelogIsReachable`); exactly when is
  `LogRuns.PanicsExactlyWhenFull`, and `LogRuns.ReservationSuffices` for new blocks.
- malloc returns a block too small for the request exactly when rounding the request up wraps
  (`Umalloc.TooSmallExample`, `Umalloc.RoomForRequest`).
- A writer killed in a full pipe skips the wakeup of readers (`PipeRuns.KilledWriterLosesWakeup`,
  `PipeRuns.SettledStep`, `PipeRuns.NoLostWakeup`).
- A failed copyuvm leaves one page in nobody's use exactly when memory runs out just before a page table
  (`Vm.LeftPage`, `Vm.Memory.Copyuvm`).
- A process can be killed that kill was never called for: kill of a pid that only an unused slot has flags the
  slot, and the next process there is born killed (`ProcLife.BornKilled`, `ProcLife.FlagsStep`,
  `ProcLife.KilledExactly`).
- A growproc that fails can have freed memory: when asked to give up exactly all of it
  (`VmLife.GivesUpAll`, `VmLife.FailureChangesNothing`, `VmLife.WholeStep`).
- Freeing a removed directory that was given entries loses their links (`Links.RemovedParentLosesLink`,
  `Links.LinksStep`, `Links.LinkCounts`).
- A lookup can panic for an inode without a type: ".." of a removed directory goes on naming its parent when
  that is gone (`Lookups.LookupPanics`, `Lookups.WalkPanics`, `Lookups.LookupsSafe`).

## Model

| member | source | states |
|---|---|---|
| LogImages.InstalledAt | log.c:69-82 | installing a log prefix gives each home block its last log entry, and leaves all other blocks alone |
| LogImages.ReinstallAbsorbs | log.c:69-82 | replaying the whole log over a disk on which part of it is already installed changes nothing |
| LogImages.RecoveryIdempotent | log.c:69-122 | recovery cut short after any of its disk writes leaves a recoverable disk that recovers to the same result |
| LogImages.CrashesDoNotMatter | log.c:115-122 | any number of crashes during recovery, at any writes, end where one undisturbed recovery ends |
| LogImages.HomeUntouchedBeforeHeader | log.c:177-202 | no home block differs on disk until the commit's header has been written |
| LogImages.CommitTailIsRecovery | log.c:192-202 | from the header write on, the disk images of commit are exactly those of a recovery |
| LogImages.CommitAtomic | log.c:192-202 | after any disk write of commit, recovery yields all old home blocks if the header is not yet written and all new ones from then on |
| LogImages.CommitDone | log.c:192-202 | a finished commit leaves an empty log and the new home blocks in place |
| LogImages.CommitShape | log.c:192-202 | the state after commit: empty log, its blocks no longer dirty, everything else unchanged and valid |
| LogImages.CommitTrail | log.c:192-202 | the sequence of disk images of commit is that of write_log, the header, install_trans and the cleared header, in this order |
| LogCode.Log.constructor | log.c:53-66 | initlog recovers the disk, through exactly the images of a recovery, and starts with an empty log |
| LogCode.Log.InstallTrans | log.c:69-82 | the loop installs every log entry; each write is one image of the recovery |
| LogCode.Log.ReadHead | log.c:85-96 | the in-memory header becomes the decoded on-disk header |
| LogCode.Log.WriteHead | log.c:101-113 | the header block becomes the encoding of the in-memory header, in one disk write |
| LogCode.Log.RecoverFromLog | log.c:115-122 | the disk becomes its recovery, through exactly the recovery images, and the log is empty |
| LogCode.Log.BeginOp | log.c:125-141 | one pass admits the caller exactly if no commit runs and the log has room for MAXOPBLOCKS more blocks for every call then active; sleeping changes nothing |
| LogCode.Log.LogWrite | log.c:213-233 | the block is in the transaction afterwards, once, or one of the two panics is reached, each exactly when it should; state otherwise unchanged |
| LogCode.Log.WriteLog | log.c:177-190 | every cached block of the transaction reaches its log slot; each write is one image of the commit |
| LogCode.Log.Commit | log.c:192-202 | the disk passes through exactly the images for which crash atomicity is proved, and ends with an empty log |
| LogCode.Log.EndOpRegion | log.c:145-174 | the locked region: one operation less, the commit decided on exactly if it was the last, or the panic exactly if a commit runs |
| LogCode.Log.EndOp | log.c:145-174 | the last operation out commits, others only leave; the panic is not reached |
| LogRuns.InvLog | log.c:213-233 | log_write keeps the invariant of all interleavings |
| LogRuns.InvEnd | log.c:145-174 | the end_op panic cannot be reached and end_op keeps the invariant |
| LogRuns.InvDiskWrite | log.c:177-202 | each single disk write of a commit keeps the invariant |
| LogRuns.InvFinish | log.c:145-174 | the end of a commit empties the log and keeps the invariant |
| LogRuns.InvCrash | log.c:53-66 | a crash, with any number of crashed recoveries after it, keeps the invariant |
| LogRuns.RunInv | log.c:125-233 | the invariant holds in every state of every interleaving of begin_op, log_write, end_op, disk writes and crashes |
| LogRuns.CrashSafety | log.c:69-233 | crashing any run anywhere recovers exactly the committed prefix of the log_writes, and no system call has writes on both sides of its end |
| LogRuns.GroupCommit | log.c:125-202 | a commit runs only with no operation outstanding, logged blocks are distinct, and blocks in the log plus unused reservations never exceed LOGSIZE |
| LogRuns.AdmittedExactly | log.c:125-141 | in every reachable state begin_op makes its caller wait exactly while a commit runs or the reservations of all calls then active might not fit, and otherwise exactly one call joins the transaction; a call that is alone is always admitted |
| LogRuns.LastOutCommits | log.c:145-174 | in every reachable state end_op starts a commit exactly if it is by the last active call, of all blocks of the transaction |
| LogRuns.NeverStuck | log.c:125-233 | nothing else holds up a call or a commit: exactly which steps are impossible in a reachable state |
| LogRuns.Durability | log.c:145-202 | the kernel sees every log_write at once; whenever no call is active and no commit runs the disk alone holds them all |
| LogRuns.WriteAhead | log.c:192-202 | no step but one after the header write of a commit changes a home block on disk |
| LogRuns.PanicsExactlyWhenFull | log.c:213-233 | of the log's panics only the one for a too big transaction is reachable, exactly when a block is logged at LOGSIZE or log.size - 1 blocks |
| LogRuns.ReservationSuffices | log.c:125-141 | with a log of more than LOGSIZE blocks the reservation always leaves room for a new block |
| LogRuns.TooBigIsReachable | log.c:213-233 | with log.size equal to LOGSIZE, calls that keep to MAXOPBLOCKS reach the panic: a concrete run |
| LogRuns.RelogIsReachable | log.c:213-233 | with log.size above LOGSIZE, a call that logs a block of its own once more when the log has LOGSIZE blocks reaches the panic: a concrete run |
| BufferList.AllListed | bio.c:38-56 | a ring of all different buffer numbers contains every buffer |
| BufferList.Unlink | bio.c:120-141 | unlinking a buffer through its neighbours leaves the others linked in the same order |
| BufferList.PushFront | bio.c:38-56 | linking after the head puts the buffer first and keeps the ring |
| BufferCache.CoherentUpdate | bio.c:38-141 | replacing a buffer and its block keeps: one buffer per block, clean buffers equal the disk, the kernel's view is the disk overlaid with pinned buffers |
| BufferCache.CoherentRecycle | bio.c:78-92 | giving a free buffer to an uncached block keeps the cache coherent |
| BufferCache.FreeExists | bio.c:78-92 | with nothing held and fewer than all buffers pinned there is a free buffer |
| BufferCache.Cache.constructor | bio.c:38-56 | binit links all NBUF buffers into the ring |
| BufferCache.Cache.FindCached | bio.c:68-76 | finds the buffer of a block exactly when there is one |
| BufferCache.Cache.FindFree | bio.c:78-92 | finds the free buffer released longest ago, or none exactly when all are busy |
| BufferCache.Cache.Bget | bio.c:61-93 | a cached block's own buffer, else the least recently released free one; panics exactly when neither exists; all other buffers unchanged |
| BufferCache.Cache.Bread | bio.c:96-106 | the buffer returned holds the block as the kernel sees it |
| BufferCache.Cache.Bwrite | bio.c:109-116 | disk and kernel view both get the data, and the buffer is no longer dirty |
| BufferCache.Cache.Pin | log.c:213-233 | a logged buffer changes the kernel's view but not the disk, and stays dirty |
| BufferCache.Cache.Brelse | bio.c:120-141 | drops one reference; with the last one the buffer becomes the most recently used, the order of the rest unchanged |
| BufferCache.Cache.MoveToFront | bio.c:128-138 | relinks the buffer at the head, on both directions of the list |
| LogOverCache.PinnedAtMost | bio.c:78-92 | pinned buffers belong to different blocks, so there are at most as many as blocks in the transaction |
| LogOverCache.RoomForCommit | bio.c:78-92 | with fewer than NBUF blocks in the transaction and nothing held, a buffer is free |
| LogOverCache.Transfer | log.c:177-190 | one round of write_log or install_trans copies between log and home block and never runs out of buffers |
| LogOverCache.WriteLog | log.c:177-190 | every pinned block reaches its log block, by one write each in order; nothing else changes |
| LogOverCache.InstallTrans | log.c:69-82 | every home block gets its log block, by one write each in order, and is unpinned; nothing else changes |
| LogOverCache.WriteHead | log.c:101-113 | the header block comes to list the blocks, on disk and in the cache, without disturbing pinned buffers |
| LogOverCache.LogAndHead | log.c:192-197 | when the header is written the log on disk lists the transaction and holds its blocks as the kernel sees them; no block outside the log has changed on disk |
| LogOverCache.ThroughTheLog | log.c:192-202 | a block copied to the log and back is what it was |
| LogOverCache.TrailIsCommit | log.c:192-202 | the disk after each single write that commit makes through the cache is the image of the same number in the commit on values |
| LogOverCache.CommitIsAtomic | log.c:192-202 | so recovery from the disk after any of these writes yields all old blocks, or from the header on all blocks as the kernel sees them |
| LogOverCache.Commit | log.c:192-202 | commit never meets the panic for lack of buffers; its disk writes are those of the commit on values, so that a crash between any two is atomic; afterwards the disk is what the kernel saw before, the log on disk is empty and nothing is pinned; an empty transaction writes nothing |
| Volume.TakeDirect | fs.c:379-383 | a free block put in an empty direct slot keeps every block in at most one slot and moves no other address |
| Volume.TakeTable | fs.c:386-389 | a zeroed free block made the indirect block keeps every block in at most one slot and moves no other address |
| Volume.TakeEntry | fs.c:390-398 | a free block put in an empty indirect entry keeps every block in at most one slot and moves no other address |
| Volume.WriteKeepsSlots | fs.c:482-512 | writing a block that is not an indirect block changes no address |
| Volume.MarkOne | fs.c:56-78 | setting a bitmap bit marks that block and no other |
| Volume.UnmarkOne | fs.c:81-96 | clearing a bitmap bit frees that block and no other |
| Volume.GrowDirect | fs.c:379-383 | allocation of a direct block grows the file soundly |
| Volume.GrowTable | fs.c:386-389 | allocation of an indirect block grows the file soundly, all its entries empty |
| Volume.GrowEntry | fs.c:390-398 | allocation of an indirect entry grows the file soundly |
| Volume.SpliceByte | fs.c:499-505 | a copy into a file's block changes exactly the bytes meant, of that file only |
| Volume.ContentRun | fs.c:470-475 | a run within one block read from the disk is that slice of the file's bytes |
| Volume.WritingStep | fs.c:499-505 | one round of the writei loop puts the next bytes in place and keeps all others |
| Volume.WritingDone | fs.c:482-512 | a finished write: contents are the old ones with src at off, no holes, all other files unchanged |
| Volume.BudgetStep | fs.c:373-401 | each block written logs no more than its share of data, bitmap and indirect blocks |
| Volume.LimboDirect | fs.c:415-420 | emptying a direct slot leaves exactly its block marked without owner |
| Volume.LimboTable | fs.c:422-432 | dropping an indirect block leaves it and its entries marked without owner |
| Volume.LimboFree | fs.c:81-96 | freeing such a block never meets the panic for a free block, and touches only the bitmap |
| Volume.EntryOwned | fs.c:422-428 | each non-zero entry of an indirect block is a block of its own |
| Volume.KeptFile | fs.c:408-436 | a file is untouched by work on another inode's blocks |
| Volume.ShrunkToNothing | fs.c:408-436 | an emptied inode's blocks, and no others, lose their owner |
| FileSystem.Fs.Balloc | fs.c:56-78 | the lowest free block, marked and zeroed, or the panic exactly when the disk is full |
| FileSystem.Fs.FindFree | fs.c:60-76 | the bit scan finds the lowest free block or proves there is none |
| FileSystem.Fs.Bfree | fs.c:81-96 | clears the bit; panics exactly when it is clear already |
| FileSystem.Fs.Bmap | fs.c:373-401 | the address of a file block, allocated and zeroed if missing, with ownership kept, no other block of the file mapped or moved, and every block that changed logged; the panic exactly when fewer blocks are free than it needs; a mapped block changes nothing |
| FileSystem.Fs.BmapIndirect | fs.c:384-398 | the same for a block beyond the direct ones, which may need an indirect block too |
| FileSystem.Fs.EnsureTable | fs.c:386-389 | the indirect block exists afterwards, empty if it is new |
| FileSystem.Fs.Iupdate | fs.c:221-237 | the on-disk inode becomes the in-memory one |
| FileSystem.Fs.Readi | fs.c:453-477 | exactly the clipped slice of the contents, missing blocks reading as zeros and being allocated; contents unchanged; the panic exactly when too few blocks are free; error cases exact; a file without holes is not changed by reading |
| FileSystem.Fs.WriteAll | fs.c:499-505 | the whole loop: all of src in place, within the logging budget, every block that changed logged; fails exactly when too few blocks are free |
| FileSystem.Fs.Writei | fs.c:482-512 | contents become content[..off] + src + content[off+n..], other files unchanged, no block moved, bitmap and ownership sound, the inode written back exactly if it changed; every block and inode that changed is logged and the blocks logged are bounded; error cases and the out of blocks panic exact |
| FileSystem.Fs.FreeDirect | fs.c:415-420 | frees one direct block |
| FileSystem.Fs.FreeEntries | fs.c:422-428 | frees every entry of the indirect block exactly once |
| FileSystem.Fs.FreeIndirect | fs.c:422-432 | frees the entries and then the indirect block |
| FileSystem.Fs.Itrunc | fs.c:408-436 | frees every block of the inode exactly once without meeting the panic; other files unchanged; every block that changed logged |
| Space.RoomLeft | fs.c:56-78 | the blocks neither metadata nor owned are the free ones: balloc finds none exactly when that number is zero |
| Space.AddedEntry | fs.c:384-398 | mapping a block beyond the direct ones takes one block, or two if the indirect block is missing, and maps no other |
| Space.FillingStep | fs.c:373-401 | the need of a range of file blocks is the sum of what bmap takes for each in turn |
| Space.JoinNeeds | fs.c:373-401 | what a range of file blocks needs after its first part is filled in is what the whole needed less what the part needed, also if the two parts share a block |
| Space.FillingJoin | fs.c:373-401 | filling two adjoining or overlapping ranges one after the other is filling the whole |
| Space.AddedContent | fs.c:466-469 | a zeroed block in place of a hole leaves the contents of the file as they read before |
| FileWrite.OverwriteTwice | file.c:133-152 | two consecutive writes are one write of the concatenation |
| FileWrite.ChunkTouches | file.c:133-152 | a chunk touches at most four blocks, three if aligned |
| FileWrite.ChunkFits | file.c:133-152 | data, indirect, inode and bitmap blocks of one chunk are at most MAXOPBLOCKS |
| FileWrite.WriteChunk | file.c:140-145 | one chunk as one transaction: at most MAXOPBLOCKS blocks logged, every block and inode that changed among them; offset moved on; exactly the missing blocks of the chunk filled in; panic exactly when too few blocks are free; error cases exact |
| FileWrite.Filewrite | file.c:117-156 | the transactions chain from the disk before to the disk after; each has all its changes logged in at most MAXOPBLOCKS blocks and leaves the file with the first chunks written; the number of bytes accepted is exact on success and on failure, the offset is past them, other files are unchanged; it runs out of blocks if and only if the blocks free at the call are fewer than the accepted bytes need, and then stops at the first chunk that does not fit |
| FileWrite.GoingStops | file.c:133-152 | a chunk that finds too few free blocks means that the blocks free before the whole write were too few for the bytes up to its end |
| FileWrite.Refused | file.c:117-156 | when a chunk is refused, the whole chunks before it are exactly the bytes accepted |
| FullChunk.UsesWholeReservation | file.c:125-135 | the bound is reached: on a concrete sound volume an unaligned chunk over four blocks is written as promised, with every change logged, and logs exactly MAXOPBLOCKS blocks |
| FullChunk.AllChange | file.c:125-135 | whatever blocks the chunk takes there, four bitmap blocks, four data blocks and the indirect block differ afterwards |
| FileOverLog.ImageChanges | log.c:213-233 | every home block a chunk changes, inode blocks among them, is one it logged |
| FileOverLog.PerformsAll | file.c:137-145 | log_writes of the logged blocks with their final contents turn the home blocks before a chunk into those after it |
| FileOverLog.ListingPerforms | file.c:137-145 | logging each block once, in any order, is such a sequence of log_writes |
| FileOverLog.StaysInBudget | log.c:125-141 | a chunk never logs more blocks than begin_op reserved for it |
| FileOverLog.CutBetween | log.c:192-202 | a cut of the log_writes that goes through no call falls between two chunks |
| FileOverLog.MineCut | log.c:192-202 | among interleaved log_writes of other calls, the committed ones of a filewrite are exactly those of its first k chunks |
| FileOverLog.CrashedTransactions | log.c:192-202 | for any chain of transactions run among other calls, after others already committed or not: a crash anywhere, and again in recovery, brings back the state after some whole number of them |
| FileOverLog.WholeChunksSurvive | file.c:117-156 | crash the machine anywhere in a filewrite, and again in recovery: what comes back is a sound volume on which the file has exactly the first k chunks of the write, and every other file is as it was |
| FileOverLog.FileDetermined | fs.c:221-237 | a file is determined by the disk blocks holding its inode, addresses and data: volumes that agree on these hold the same file |
| FileOverLog.FileSurvives | file.c:117-156 | so whatever volume is found on the recovered disk has the file as it was or with the first chunks written |
| FileOverLog.DinodesReadable | fs.h:29-36 | the layout of struct dinode determines the inodes of a block |
| Dinodes.EncodeInjective | fs.h:29-36 | inodes whose fields fit their widths, laid out in an inode block, can be read off it |
| FreeList.Insert | umalloc.c:24-44 | linking a block in between two it does not touch keeps the list a single ascending cycle of coalesced blocks |
| FreeList.JoinUpper | umalloc.c:24-44 | linking a block in before a free block it touches makes one block of the two and keeps the cycle |
| FreeList.JoinLower | umalloc.c:24-44 | appending a block to the free block it follows keeps the cycle |
| FreeList.JoinBoth | umalloc.c:24-44 | filling the gap between two free blocks exactly makes one block of the three and keeps the cycle |
| FreeList.Remove | umalloc.c:63-90 | unlinking a free block keeps the cycle ascending and coalesced |
| FreeList.CutTail | umalloc.c:63-90 | cutting units off the end of a free block keeps the cycle ascending and coalesced |
| FreeList.LinkInList | umalloc.c:24-44 | whichever way free links a block in, the list stays a single ascending, fully coalesced cycle |
| FreeList.LinkInUnits | umalloc.c:24-44 | whichever way free links a block in, free memory grows by exactly the block's size |
| FreeList.LinkInClear | umalloc.c:24-44 | memory apart from the free blocks and the freed one stays apart from what they become |
| Umalloc.RoomForRequest | umalloc.c:63-90 | the block carved is large enough for the request if and only if rounding up does not wrap |
| Umalloc.TooSmallExample | umalloc.c:63-90 | a request of 2^32 - 1 bytes is such a case: it rounds to one unit |
| Umalloc.SearchStep | umalloc.c:24-44 | the test of free's search holds at the block's place in the list and nowhere else |
| Umalloc.LinkInHeap | umalloc.c:24-44 | freeing keeps free and live blocks disjoint and adds the block's units |
| Umalloc.TakeExact | umalloc.c:63-90 | taking a whole block keeps the heap and moves exactly its units |
| Umalloc.TakeTail | umalloc.c:63-90 | cutting a block keeps the heap and moves exactly the units asked for |
| Umalloc.GrantLoose | umalloc.c:46-61 | memory from sbrk joins the heap disjoint from all blocks |
| Umalloc.LinkInRoom | umalloc.c:46-61 | after morecore some free block has room for the request |
| Umalloc.Allocator.Search | umalloc.c:24-44 | the search ends, at the block's place, wherever freep points |
| Umalloc.Allocator.Join | umalloc.c:24-44 | the pointer updates are those of linking the block in |
| Umalloc.Allocator.Free | umalloc.c:24-44 | exactly the block freed leaves the live blocks; heap valid, units conserved |
| Umalloc.Allocator.Morecore | umalloc.c:46-61 | the grant, at least 4096 units, becomes free memory; refused grants change nothing |
| Umalloc.Allocator.Take | umalloc.c:63-90 | the block handed out is the end of the free block chosen, disjoint from all others, and has exactly the units |
| Umalloc.Allocator.Malloc | umalloc.c:63-90 | a new disjoint block, cut from the first free block after freep with room if there is one, or none exactly when no free block fits and sbrk refuses, the free list then being as it was but for its set-up in the first call; free plus live units equal the units granted; the search ends |
| ProcTable.Ptable.DoWakeup1 | proc.c:457-465 | exactly the sleepers on the channel become runnable |
| ProcTable.Ptable.Allocproc | proc.c:73-116 | the first unused slot becomes an embryo with the next pid |
| ProcTable.Ptable.Exit | proc.c:227-268 | exactly the sleepers on the parent's channel, and those on init's if there is a zombie child, become runnable; children go to init; the caller is a zombie; nothing else changes |
| ProcTable.Ptable.Wait | proc.c:272-312 | one pass reaps the first zombie child, exactly if there is one; fails exactly without children or, none being a zombie, if killed; and otherwise sleeps on itself, no other slot changed |
| ProcTable.Ptable.Kill | proc.c:479-497 | succeeds exactly if some slot has the pid; the first such slot is flagged, and made runnable if asleep, and no other slot changes |
| ProcRuns.FamilyExit | proc.c:227-268 | after exit every parent is still a living process |
| ProcRuns.WakeupExit | proc.c:227-268 | after exit no process sleeps in wait with a zombie child |
| ProcRuns.ExitsReap | proc.c:272-312 | reaping reports a pid not reported before |
| ProcRuns.InvExit | proc.c:227-268 | exit keeps the whole invariant of RunInv |
| ProcRuns.InvWait | proc.c:272-312 | wait, in all its outcomes, keeps the whole invariant |
| ProcRuns.InvForkAlloc | proc.c:180-222 | taking a slot and a pid in fork keeps the whole invariant |
| ProcRuns.InvForkParent | proc.c:180-222 | setting the child's parent, outside the lock, keeps the whole invariant |
| ProcRuns.InvForkEnd | proc.c:180-222 | making the child runnable, or giving the slot up, keeps the whole invariant |
| ProcRuns.InvSleep | proc.c:417-452 | sleeping on any channel but the one of wait keeps the whole invariant |
| ProcRuns.InvYield | proc.c:385-392 | yield keeps the whole invariant |
| ProcRuns.InvSchedule | proc.c:322-356 | switching a CPU to a runnable process keeps the whole invariant |
| ProcRuns.InvKill | proc.c:479-497 | kill keeps the whole invariant |
| ProcRuns.RunInv | proc.c:73-497 | in every interleaving: no lost wakeup in wait, living parents, distinct pids, RUNNING exactly on one CPU, exited pids are those reaped once plus the zombies |
| ProcRuns.WaitReports | proc.c:272-312 | in every reachable state, a process with a zombie child that waits gets a child's pid that has exited and was never reported before |
| ProcLife.StepFollows | proc.c:73-497 | the life of a slot: in every state of the invariant each step does to the state, pid, parent, kill flag and channel of every slot exactly what a diagram drawn from the side of the slot says |
| ProcLife.StepEnabled | proc.c:73-497 | which steps are possible: exactly those the processes on the CPUs are in a place to make |
| ProcLife.RunFollows | proc.c:73-497 | both of these in every run, and exits, reaped pids, new pids and CPUs are recorded exactly so |
| ProcLife.SleepsUntilRoused | proc.c:417-475 | in every run a sleeper stays asleep on its channel exactly until the wakeup of the channel, a kill, the exit of a child if it waits, or an exit that hands a zombie to init |
| ProcLife.ExitWakesParent | proc.c:227-268 | in every reachable state a process that sleeps in wait is made runnable by the exit of any of its children |
| ProcLife.FlagsStep | proc.c:479-497 | a step keeps exactly the processes flagged that kill was called for if and only if it is not a kill that comes upon an unused slot, nor the failure of a fork whose child was killed |
| ProcLife.KilledExactly | proc.c:479-497 | in every run without such a step a process in use is flagged exactly if kill found its pid |
| ProcLife.BornKilled | proc.c:479-497 | kill(0) finds an unused slot, and the next process in it is born killed: a concrete run |
| Pipe.FullEmpty | pipe.c:78-121 | the counter tests for full and empty mean 512 and 0 queued bytes, also across the wrap |
| Pipe.WrapIsHarmless | pipe.c:78-121 | the ring position does not jump when a 32-bit counter wraps |
| Pipe.SlotsApart | pipe.c:78-121 | queued bytes have different slots |
| Pipe.PutQueue | pipe.c:78-98 | storing appends to the queue |
| Pipe.DropQueue | pipe.c:100-121 | fetching takes the head of the queue |
| Pipe.PipeBuf.Write | pipe.c:78-98 | the loop appends bytes until done or full: exactly as many as there is room for, in order |
| Pipe.PipeBuf.Read | pipe.c:100-121 | the loop takes the first n bytes, or all there are, in order |
| PipeRuns.FifoWrite | pipe.c:78-98 | a locked region of pipewrite stores exactly the bytes that fit, behind those queued |
| PipeRuns.FifoRead | pipe.c:100-121 | a locked region of piperead delivers the oldest bytes |
| PipeRuns.SettledWrite | pipe.c:78-98 | after pipewrite all sleepers have reason to sleep if and only if it did not skip the wakeup with a reader asleep |
| PipeRuns.SettledRead | pipe.c:100-121 | after piperead all sleepers have reason to sleep |
| PipeRuns.SettledStep | pipe.c:59-121 | after a step, kills among them, all sleepers have reason to sleep if and only if it is not a pipewrite that skips the wakeup with a reader asleep |
| PipeRuns.PipeIsQueue | pipe.c:59-121 | in every run the bytes delivered are, in order and once, a prefix of the bytes stored, the rest being in the pipe; PipeBooks.BuffersArrive says whose bytes they are |
| PipeRuns.NoLostWakeup | pipe.c:59-121 | in every run, with kills, in which no step loses a wakeup: a sleeping reader means empty and open, a sleeping writer full and open |
| PipeRuns.UnkilledLosesNone | pipe.c:78-98 | a run without kills loses no wakeup |
| PipeRuns.KilledWriterLosesWakeup | pipe.c:85-89 | a killed writer can leave a reader asleep before a full pipe: a concrete run |
| PipeBooks.KeptWrite | pipe.c:78-98 | a stretch of pipewrite goes on in its buffer where the call had come to, and keeps the books of all calls right |
| PipeBooks.BuffersArrive | pipe.c:59-121 | in every run, with any writers, readers and kills: a pipewrite has stored the front of its buffer as far as it has come, all of it once it has returned, and less if it gave up; the results of piperead one after the other are the bytes stored; so each buffer comes out in order, and in full once its call has returned and the pipe is empty |
| PipeBooks.GoesOn | pipe.c:59-121 | in every run: whoever is awake in a call can go on, and exactly when calls and closes are possible |
| PipeBooks.WriteExactly | pipe.c:78-98 | a stretch of pipewrite appends as much as there is room for; it returns, gives up or sleeps exactly when it should, and wakes all readers unless it gives up |
| PipeBooks.ReadExactly | pipe.c:100-121 | piperead sleeps or fails exactly on an empty pipe open for writing, and otherwise returns the oldest bytes, as many as asked for or all, and wakes all writers |
| PipeBooks.CloseExactly | pipe.c:59-76 | pipeclose closes one end and wakes all who wait for it; a kill marks and wakes one process; nothing else changes |
| PipeBooks.Device.constructor | pipe.c:22-57 | a new pipe is empty, with both ends open |
| PipeBooks.Device.PipeWrite | pipe.c:78-98 | the code on the ring buffer is that step of the system of readers and writers |
| PipeBooks.Device.PipeRead | pipe.c:100-121 | the code on the ring buffer is that step of the system of readers and writers |
| Paging.OnePlace | vm.c:35-80 | a page lies in a place, read off free list, directories and tables, exactly if it is the place recorded for it; so in one and only one |
| Paging.Take | kalloc.c:82-95 | taking the first free page keeps every page in one place |
| Paging.Give | kalloc.c:59-77 | freeing a page in hand keeps every page in one place, and the page was not on the free list |
| Paging.Rewire | vm.c:60-80 | writing a table entry together with the move of its page keeps every page in one place |
| Paging.PteAfter | vm.c:60-80 | writing one table entry changes exactly one translation of one address space |
| Paging.NewTable | vm.c:35-55 | a page becoming a page table keeps every page in one place |
| Paging.DropTable | vm.c:283-298 | a page table without user pages given back keeps every page in one place |
| VmSteps.AddTable | vm.c:35-55 | adding a page table changes no translation and nothing outside the address space |
| VmSteps.MapUserPage | vm.c:60-80 | mapping a user page changes one translation, its place, and nothing else |
| VmSteps.DropSkip | vm.c:255-279 | where a page table is absent, stepping over it equals visiting all its pages |
| VmSteps.DropPage | vm.c:255-279 | freeing a mapped page is one round of the page-by-page loop |
| VmSteps.GrownJoin | vm.c:60-80 | two adjoining ranges mapped one after the other are one range, with the same tables taken |
| VmSteps.GoneTable | vm.c:283-298 | freeing a page table of a dying address space |
| VmSteps.GoneEnd | vm.c:283-298 | freeing the directory last leaves exactly its pages free |
| VmRanges.TakeBack | vm.c:221-249 | growth undone leaves all user pages and everything outside as before |
| VmRanges.TakeBackHeld | vm.c:221-249 | growth undone with the page of the failed mapping in hand, and that page freed, leaves all user pages and everything outside as before |
| VmRanges.OutOfPages | vm.c:221-249 | growth that stops for want of a page could not have been paid for |
| VmRanges.OutOfTables | vm.c:221-249 | growth that stops for want of a page table could not have been paid for, and stopped at a table boundary or the start |
| VmRanges.EraseReturns | vm.c:283-298 | erasing a space made since brings everything back, except pages left in hand |
| VmRanges.StopsForPage | vm.c:315-343 | copying that stops for want of a page leaves no page behind |
| VmRanges.StopsForTable | vm.c:335-336 | copying that stops for want of a page table is the case of the page left behind |
| Vm.Memory.constructor | kalloc.c:31-53 | all pages given are put on the free list, each once, and there are no others on it |
| Vm.Memory.Kalloc | kalloc.c:82-95 | the first free page, or none exactly when none is free |
| Vm.Memory.KfreeHeld | kalloc.c:59-77 | the page is overwritten and becomes the first free page; every page still in one place |
| Vm.Memory.Walkpgdir | vm.c:35-55 | finds the page table, or makes it on the first free page, with an entry that grants writing and user access, or fails exactly when it may not or cannot |
| Vm.Memory.MapPage | vm.c:60-80 | one page mapped; or nothing changed, exactly when a table is needed and no page is free, or when the page is mapped already, which is the panic |
| Vm.Memory.Mappages | vm.c:60-80 | the loop maps the whole range consecutively; it fails exactly when too few pages are free for the missing tables, and panics exactly when it gets to a page mapped already |
| Vm.Memory.MapRun | vm.c:66-78 | the loop of mappages over page numbers: the outcome as a function of the pages mapped before, and on success exactly the region mapped |
| Vm.Memory.Deallocuvm | vm.c:255-279 | unmaps and frees exactly the pages, and in exactly the order, of a page-by-page loop; ends for all sizes up to KERNBASE |
| Vm.Memory.Allocuvm | vm.c:221-249 | all pages new and zeroed, or none and all as before; fails exactly when pages and missing tables exceed the free pages |
| Vm.Memory.Freevm | vm.c:283-298 | exactly the pages of the address space become free; nothing else changes |
| Vm.Memory.Setupkvm | vm.c:118-136 | a new space with exactly the kernel's mappings, or all as before; fails exactly with fewer than 65 free pages |
| Vm.Memory.Copyuvm | vm.c:315-343 | equal flags and contents on pages that were free, parent untouched; which of success, failure and the panic for a missing page it is, exactly; on failure all returned but one page in exactly the case of LeavesPage |
| Vm.LeftPage | vm.c:335-336 | with 133 pages, copying a process of one page when 66 are free fails, and everything is as before but for one page in nobody's use |
| VmAccess.EntryDecides | vm.c:35-55 | because every directory entry grants all, what both levels of the tables together permit is what a page's own entry says |
| VmAccess.UserAccess | vm.c:97-136 | a process may read and write exactly the pages it has; the kernel's pages are not for user mode, and the kernel may write all of them but its text |
| VmAccess.Isolation | vm.c:35-80 | no page a process can get at in user mode is another process's, another of its own, free, or part of the page tables |
| VmAccess.ShowsGrown | vm.c:221-249 | allocuvm adds zeroed pages the process may read and write, and changes no other page it sees |
| VmAccess.ShowsDropped | vm.c:255-279 | deallocuvm takes exactly the pages of the range away |
| VmAccess.ShowsCopied | vm.c:315-343 | a copy shows the same pages |
| VmAccess.CopiedAccess | vm.c:315-343 | whatever permission the parent has on a page, the child has on its copy, on another frame with the same contents, and the parent keeps its own |
| VmAccess.ShowsKept | vm.c:60-80 | work on one address space changes nothing that another shows |
| VmAccess.ShowsStored | vm.c:60-80 | a store in user mode changes the page stored to, for this process alone |
| VmLife.Machine.DoGrow | proc.c:156-175 | growproc in 32-bit arithmetic, in all its outcomes, on the process's own memory |
| VmLife.Machine.DoFork | vm.c:315-343 | the copying in fork gives the child the parent's memory, fails exactly when memory does not suffice, and panics exactly if a page is missing below the size |
| VmLife.Machine.DoStore | vm.c:60-80 | a store by a process, checked as the hardware does, changes its own memory only, or faults |
| VmLife.Machine.Do | vm.c:35-343 | any operation on any process answers and does what it would if each process were alone with a memory of its own |
| VmLife.RunOps | vm.c:35-343 | so does any sequence of them; without a growproc that gives up exactly all memory none panics |
| VmLife.WholeStep | vm.c:315-343 | an operation keeps every process in all the memory of its size exactly unless it is such a growproc, and then the copying in fork does not panic |
| VmLife.AllWhole | vm.c:315-343 | so in every sequence of operations without one |
| VmLife.FailureChangesNothing | proc.c:156-175 | a growproc that fails has changed nothing if and only if it was not asked to give up exactly all the memory there was |
| VmLife.GivesUpAll | proc.c:156-175 | a process of one page gives it up, is told that it could not, and has no memory left: a concrete run |
| ShellGrammar.BuildIsWrap | sh.c:374-446 | words and redirections may be mixed: argv is the words in order, the first redirection innermost |
| ShellGrammar.LineComplete | sh.c:344-359 | every legal derivation's sentence is parsed, to its tree, up to what follows |
| ShellGrammar.PipeComplete | sh.c:361-372 | every legal derivation of a pipeline is parsed to its tree, up to what follows |
| ShellGrammar.CommandComplete | sh.c:399-446 | every legal derivation of a block or simple command is parsed to its tree, up to what follows |
| ShellGrammar.LineSound | sh.c:344-359 | whatever is parsed has a legal derivation with that tree |
| ShellGrammar.PipeSound | sh.c:361-372 | whatever is parsed as a pipeline has a legal derivation with that tree |
| ShellGrammar.CommandSound | sh.c:399-446 | whatever is parsed as a command has a legal derivation with that tree |
| ShellGrammar.ParsesExactly | sh.c:327-446 | a token sequence is accepted with a tree if and only if the grammar derives it with that tree |
| ShellErrors.MessageMeans | sh.c:327-446 | whenever the parser stops, the tokens go wrong at some place in just the way its message says: no file after a redirection, a tenth word, a parenthesis among words, a block not closed after its line, or something after the line |
| ShellWords.ParseMap | sh.c:327-446 | parsing commutes with any replacement of words |
| ShellText.TokMaximal | sh.c:265-308 | every word token is a maximal run of word characters |
| ShellText.ParsedIsMaximal | sh.c:327-446 | every word in a parsed tree is such a run |
| ShellText.ToksAreLex | sh.c:265-308 | tokens by buffer position are the tokens of the text |
| ShellText.LexPrint | sh.c:265-308 | printed text is read as the tokens of its derivation |
| ShellText.RoundTrip | sh.c:327-342 | parsing the fully parenthesised printing of any tree with proper words and at most nine arguments gives the tree back, each redirection of output spelt with one sign or two |
| Shell.GetToken | sh.c:265-308 | takes exactly the first token off, or reports the end |
| Shell.Peek | sh.c:310-320 | moves to the next token and tells whether it begins with one of the symbols |
| Shell.ParseRedirs | sh.c:374-397 | the loop over the buffer gives the result, or the error, of the parser on tokens, with the cursor after it |
| Shell.ParseExec | sh.c:415-446 | gives the result or the error of the parser on tokens; at most nine arguments; ends on every input |
| Shell.ParseBlock | sh.c:399-413 | gives the result or the error of the parser on tokens; its own panic is not reached |
| Shell.ParsePipe | sh.c:361-372 | gives the result or the error of the parser on tokens; ends on every input |
| Shell.ParseLine | sh.c:344-359 | gives the result or the error of the parser on tokens; ends on every input |
| Shell.NulTerminate | sh.c:449-493 | writes a NUL at the end of every word of the tree and nowhere else |
| Shell.ClearedKeeps | sh.c:449-493 | no such NUL falls inside a word |
| Shell.TreeReads | sh.c:449-493 | afterwards every word of the tree is a C string, and the one that was typed |
| Shell.ParseCmd | sh.c:327-342 | parses exactly as the tokens of the line do; on success every word is its C string, on failure the buffer is unchanged |
| Grep.HereCons | grep.c:85-106 | a pattern matches here if its first item matches some beginning and the rest what follows, and only then |
| Grep.HereOne | grep.c:85-96 | a single character matches here if the text begins with it and the rest matches what follows, and only then |
| Grep.HereNone | grep.c:85-96 | a finished pattern matches here always, and with the end anchor exactly at the end |
| Grep.MatchHere | grep.c:85-96 | true exactly when some beginning of the text is in the pattern's language, all of it if the pattern ends in the anchor |
| Grep.MatchStar | grep.c:99-106 | true exactly when some run of the character followed by a match of the rest begins the text |
| Grep.Match | grep.c:72-82 | true exactly when some substring matches the declarative meaning of the pattern, at the start if it is anchored; ends on every input |
| Dirents.KeyPad | fs.c:552-579 | a name stored in an entry reads back as its first DIRSIZ bytes |
| Dirents.AsMapAt | fs.c:525-549 | a live entry is what the map has for its name |
| Dirents.PutAt | fs.c:552-579 | writing 16 bytes at an entry changes that entry and no other |
| Dirents.PutNew | fs.c:552-579 | a new name in an unused entry adds it to the map, names staying unique |
| Dirents.PutNothing | sysfile.c:218-220 | a cleared entry takes its name out of the map |
| Namei.Namecmp | fs.c:517-521 | equal exactly when the names agree as far as names count |
| Namei.Strncpy | string.c:68-79 | the field is the name cut off or zero-filled |
| Namei.ElemsWord | fs.c:596-619 | an element before a slash is the first element of the path |
| Namei.SkipElem | fs.c:596-619 | returns the first non-empty piece between slashes, truncated, and a path with the remaining elements; ends exactly when there is none |
| Namei.ResolveStep | fs.c:625-658 | one element of path resolution, in all its cases |
| Namei.Files.Iget | fs.c:242-284 | one more reference; the cached copy is not valid if it was the first |
| Namei.Files.Iput | fs.c:332-353 | one reference less; frees the inode exactly if its copy is valid, it has no links and the reference is the last |
| Namei.Files.Ilock | fs.c:288-316 | the copy is valid afterwards; the panic exactly if the inode does not exist |
| Namei.Files.DirLookup | fs.c:525-549 | finds exactly what the map has for the name, and takes a reference to it |
| Namei.Files.DirLink | fs.c:552-579 | adds the name to the map in the first unused entry; refuses exactly when it is there; panics exactly when the directory is full; references unchanged and nothing freed, for any well formed directory |
| Namei.Files.EraseEntry | sysfile.c:218-220 | takes the entry's name out of the map |
| Namei.Files.IsDirEmpty | sysfile.c:168-181 | true exactly when the map has only the two dot names |
| Namei.Files.Namex | fs.c:625-658 | the fold of lookups over the path's elements, or its parent, removed directories included; the panic exactly when the walk goes on from an inode that is gone; exactly one reference more if an inode is returned and none otherwise; frees nothing |
| Namei.ResolveSame | fs.c:625-658 | lookup depends on types and directory contents only, not on link counts |
| Links.UnlinkKeeps | sysfile.c:184-239 | unlinking a file or an empty directory keeps the tree, and each inode's links beyond its entries |
| Links.LinkAddKeeps | sysfile.c:144-151 | making the entry of a link keeps them, in a removed directory too |
| Links.CreateDirKeeps | sysfile.c:241-284 | so does creating a directory, with its dot entries and the parent's count, in a removed directory too |
| Links.FreeKeeps | fs.c:332-353 | freeing an inode without links keeps the tree and enough links, also if it is a directory with entries |
| Links.FreedExcess | fs.c:332-353 | freeing never lowers an inode's links beyond its entries, and raises them exactly for what the freed directory still named |
| Links.SaneStep | sysfile.c:118-284 | every step keeps the directory tree, closure of the names, and at least as many links as entries |
| Links.LinksStep | sysfile.c:118-284 | a step keeps right link counts right if and only if it does not free a directory with entries beside the dots |
| Links.UnlinkNeverPanics | sysfile.c:211-212 | what is unlinked has links, also in a directory that is itself removed |
| Links.LinkCounts | sysfile.c:118-284 | after any run whatever from a new file system, all link counts equal the entries naming the inode (and links under way) if and only if no step of the run freed a directory with entries beside the dots; no inode ever has fewer links than entries |
| Links.RunExcess | sysfile.c:118-284 | a link that no entry accounts for is never accounted for again, and its inode never freed |
| Links.RemovedStayEmpty | sysfile.c:241-284 | removed directories stay empty if and only if no name is entered in one, and then freeing loses nothing |
| Links.LinkCountsUnlessEntered | sysfile.c:118-284 | after any run in which no name is entered in a removed directory all link counts are right |
| Links.RemovedParentLosesLink | sysfile.c:241-284 | a run that ends by freeing such a directory leaves a file that has a link and no entry |
| Links.ParentGone | fs.c:288-316 | a run after which all counts are right and a directory in use names a parent that does not exist; Lookups.LookupPanics has the lookup that panics there |
| SysFile.LinkRaise | sysfile.c:133-142 | the first half of sys_link is the step of the system of links; refused exactly for a directory |
| SysFile.LinkInto | sysfile.c:144-151 | the second half: succeeds exactly if the path leads to a directory where the name is free and there is room; the entry made is the step of the system of links |
| SysFile.LinkLower | sysfile.c:158-164 | the rollback is the step of the system of links that gives the link up |
| SysFile.SysLink | sysfile.c:118-165 | the whole call with both lookups, removed directories included: which of success, failure and panic it is, exactly; on success both steps of the system of links, on failure no change; all references given back, what is in files untouched, and the state between calls kept |
| SysFile.SysUnlink | sysfile.c:184-239 | which of success, failure and panic it is, exactly; on success the unlink step, then the freeing of the directory and of the inode, each exactly with its last link and reference; on failure no change; all references given back and the state between calls kept |
| SysFile.UnlinkedIs | sysfile.c:218-228 | entry cleared, counts lowered and inodes freed on the bytes are those steps of the system of links |
| SysFile.UnlinkFacts | sysfile.c:211-226 | the counts that are lowered are at least one |
| SysFile.MakeDots | sysfile.c:270-276 | a new directory holds exactly its two dot entries, first |
| SysFile.CreateFile | sysfile.c:241-284 | which of the file there, a new one, failure and panic it is, exactly; a new one is the create step; one reference more for what is returned; the state between calls kept |
| SysFile.Ialloc | fs.c:195-212 | the first inode not in use, or none if there is none |
| SysFile.OpenFile | sysfile.c:300-318 | opening what is there: no change but one reference, and the outcome exact |
| SysFile.CloseFile | file.c:57-80 | giving up a reference frees the inode exactly if it was the last and there are no links; the state between calls kept |
| Calls.DoCall | sysfile.c:118-334 | the reply to each call (link, unlink, create, open, dup, close) is the one a function of names, links and references gives, failures and panics among them; a call that does not panic leads to exactly the state its steps in the system of links lead to, with the references it should hold, and keeps the state between calls |
| Calls.RunCalls | sysfile.c:118-334 | any sequence of calls, stopped only by a panic, gives a chain of states in which each reply and each state is the one the call before demands |
| Calls.StoryCounts | sysfile.c:118-334 | at every point of such a chain from a new file system the link counts on the directory bytes are right if and only if no step so far freed a directory with entries; no inode has fewer links than entries |
| Calls.MakeFs | mkfs.c:117-128 | a made file system is in the state between calls, and is the start of the system of links |
| Calls.Session | sysfile.c:118-334 | any sequence of calls on a made file system: the chain, the replies, and at its end right link counts if and only if no directory with entries was freed |
| CallLaws.LinkReplies | sysfile.c:118-165 | link succeeds exactly if the old path leads to an inode that is no directory and the new one to a free name in a directory with room; exactly when it panics; and it fails otherwise |
| CallLaws.LinkWorks | sysfile.c:118-165 | after a link both paths lead to the inode the old one led to, which has one link more; the new path led nowhere before; nothing else has changed |
| CallLaws.OpenReplies | sysfile.c:300-318 | open gives the inode the path leads to exactly if it exists and is no directory opened for writing; exactly when it panics |
| CallLaws.OpenWorks | sysfile.c:300-318 | open changes nothing but one reference |
| CallLaws.CreateReplies | sysfile.c:241-284 | create gives the file that is there if a file is asked for, or for a free name the lowest inode not in use; exactly when it panics |
| CallLaws.CreateWorks | sysfile.c:241-284 | after create the path leads to the inode it gave: the one that was there, nothing changed, or a new one with one link and of the type asked for, named in its directory; nothing else has changed |
| CallLaws.UnlinkReplies | sysfile.c:184-239 | unlink succeeds exactly if the path leads to something by a name other than the dots and not to a directory with entries; it panics exactly if the lookup of the parent does |
| CallLaws.UnlinkWorks | sysfile.c:184-239 | after unlink the path leads nowhere; the inode has one link less, or is gone exactly if that was the last and nobody holds it; nothing else has changed but the directory |
| CallLaws.DupWorks | sysfile.c:55-67 | dup takes one more reference to what is held, and nothing else |
| CallLaws.CloseWorks | file.c:57-80 | close gives one reference back; what has no links and no reference left is gone, and nothing else changes |
| CallLaws.LinkThenUnlink | sysfile.c:118-239 | unlinking what has just been linked succeeds, and all names, links and references are as they were |
| CallLaws.RenamingReplies | sysfile.c:118-334 | making a file, linking it and unlinking the first name, on a new file system: every answer, and the second name still opens the file |
| CallLaws.Rename | sysfile.c:118-334 | running those calls on a made file system gives these answers |
| Lookups.WalkPanics | fs.c:625-658 | a lookup panics for an inode without a type if and only if it goes on past the .. of a removed directory whose parent is gone |
| Lookups.LookupsSafe | fs.c:625-658 | no lookup whatever can panic if and only if every removed directory in use still has its parent |
| Lookups.OrphaningPanics | fs.c:288-316 | six calls on a new file system, on the directory bytes: making two directories, removing both, closing the outer one, and then opening a path through .. from the inner one; the replies are determined and the last is the panic |
| Lookups.LookupPanics | fs.c:288-316 | running those six calls on a made file system ends in the panic |
| Lookups.PackedNames | fs.c:552-579 | a full directory has at least 4480 names, so that none met by those six calls is full |

## Left out

- ARP and network card code (arp.c, arpfrm.c, nic.c, e1000.c and their system calls): stubs and hardware access, with no protocol behaviour to state.
- Device drivers, boot code, traps, system call argument fetching, exec, console and the small user programs: hardware, assembly or I/O.
- Spinlocks, sleep locks, interrupts and memory ordering: lock-protected regions are taken as atomic steps, ending at release or sleep.
- log_write's size check is taken together with its locked part, although log.c:218 makes it before the lock is taken.
- mkfs: its layout enters only as the shape of the superblock, as the value of log.size and as the root directory of a new file system.
- FileSystem.Fs.Iupdate: the on-disk inode is a record; its encoding in the inode block is Dinodes.Encode, which enters with FileOverLog only.
- LogCode.Log.EndOp: stated with nothing running between the locked region and the commit; LogRuns.InvEnd and LogRuns.InvDiskWrite have the interleavings.
- Device inodes: reading and writing them ends in an outcome of its own.
- FileSystem.Fs.WriteAll: stated, like FileSystem.Fs.Writei, for files without holes.
- FileWrite.WriteChunk: stated, like FileSystem.Fs.Writei, for files without holes.
- FileSystem.Fs.Writei: stated for files without holes, which every write keeps; the root directory as mkfs.c:158-163 rounds its size up may have a hole at its end.
- FileOverLog.WholeChunksSurvive: the calls that run beside the write leave the blocks it is stated for alone; a bitmap or inode block shared with another call's writes in the same transaction is not among them.
- Namei.Files.Iget: the 50-entry limit of the inode cache, with its panic, and the search for its slots are not modelled.
- Namei.Files.DirLink: directory contents are byte sequences here, so that running out of disk blocks while a directory grows is not among its outcomes; FileSystem.Fs.Writei has that panic.
- SysFile.OpenFile: the file table and the descriptors, with their limits, are not modelled.
- SysFile.CloseFile: gives up one inode reference; the count of struct file and pipes are not modelled here.
- Namei.Files.Namex: directories are well formed (whole entries, distinct names) and inodes without links are held in use; every call keeps both (SysFile.Ready). A crash, after which such inodes stay on disk without a reference, is not part of the runs of calls.
- SysFile.SysLink: one device only, so that the check for different devices does not occur.
- SysFile.SysUnlink: the two halves under different locks are one step; only sys_link's halves interleave with other calls in the system of links.
- Calls.Session: calls run one after the other; sys_chdir, sys_mkdir, fork and exit are the opening, duplicating and closing of references that they are made of.
- The free list of kalloc.c and the process table are sequences; the links stored inside free pages are not modelled.
- Page contents hold either bytes or page table entries; the encoding of entries as 32-bit words is not modelled.
- inituvm, loaduvm, clearpteu and copyout: they would add only easy members.
- VmLife.Machine.Do: spaces are made empty and grown; those that exec builds, with a guard page that is not for user mode, are not among them, and a process with no memory left is still taken to make calls.
- Vm.Memory.Mappages: stated for ranges in the kernel's half; in the user's half the code maps single pages, which is Vm.Memory.MapPage.
- Vm.Memory.Allocuvm: no page of the new range is mapped before, which holds of every process's range above its size.
- Umalloc.Allocator.Morecore: request sizes stay below 2^31 bytes, beyond which the argument of sbrk is negative.
- Umalloc.Allocator.Malloc: sbrk grants memory above all earlier grants, and request sizes stay below 2^31 bytes after rounding.
- The wrap-around of nextpid.
- Fairness and progress: that sleepers are eventually scheduled.
- runcmd, the shell's main loop, and the line buffering of grep: I/O.

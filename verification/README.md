# Verified models of an xv6 kernel with demand paging

This project models the parts of xv6 for RISC-V, extended with per-process demand
paging, in which state and the order of steps matter most, and proves what the
system relies on them for. Every statement is for all inputs, all states or all
runs; panics, error returns and lack of memory are results of the methods, not
preconditions.

| file | models |
|---|---|
| RedoLog, LogLayer, LogHeader, LogSpace, LogQueue | the redo log of kernel/log.c: crash atomicity of its disk writes, the code over the buffer cache that issues them, the header as bytes, the reservation of log space, the sleepers of begin_op |
| BufferCache | kernel/bio.c: the circle of buffers, references, pins and locks, refining a map from blocks to their latest contents |
| Policies, Paging, PagedProcess | kernel/vm.c and kernel/proc.c: SCFIFO, NFUA and LAPA, aging, the moves between RAM and swap file, the kernel code run step by step, and the copies of system calls |
| CrashSafety | kernel/fs.c on kernel/log.c: transactions of file operations, crashes, panics, recovery and mounting again |
| Blocks, FileMap, DiskRoom, Allocation, FileSystem, SwapFile | kernel/fs.c and kernel/file.c: bitmap, block map, the blocks that an operation takes and logs, reads, writes, truncation, the chunk loop, and the swap file as a sequence of pages |
| HeapAllocator | user/umalloc.c: malloc and free |
| SleepWakeup, ProcessTable | kernel/proc.c: sleep and wakeup for any condition; fork, exit and wait as runs over the process table |
| VirtioRing | kernel/virtio_disk.c: descriptors and rings, with a device that answers in any order and may fail |
| PageTable | kernel/vm.c: the three-level page table |
| Grep, Pipe, ParkMiller | user/grep.c, kernel/pipe.c, user/grind.c |
| Basics | what the modules share |

How to read the models:

- Code that updates fields in place is a class whose methods follow the code's
  statements. Its invariant is a predicate over its fields and ghost fields, and
  each method says what the new abstract state is. A run of the kernel is any
  interleaving of such calls.
- The longer invariants are folded: the predicate is a quantifier whose only
  trigger is a term `Unfold(k)`, so that proofs carry it as one fact and open it
  where they mention that term. Predicates that must not open together use
  different ranges of k.
- What an operation does to files, block map and log is a function of the files and
  the block map (Allocation, FileSystem.RunEnd, CrashSafety.HistoryOf). The methods
  that follow the code are proved to come to it, panics included, and lemmas say
  what it means: how many blocks are needed, which are logged, when log_write
  refuses, and that the answers are those of plain byte sequences.
- What such a function or a step of a transition system means is also stated without
  it, in numbers or by what a caller sees: a load reads the last store
  (PagedProcess.ReadsLastStore), a read the last write (FileSystem.ReadsLastWrite),
  across crashes (CrashSafety.Durable), a block holds what the last commit gave it
  (RedoLog.LastCommitWins), the policies evict by the accessed bits that update_age
  found (Policies.NfuaEvictsLeastRecent, LapaEvictsLeastUsed).
- Disk blocks and pages are abstract where only their identity matters (RedoLog,
  BufferCache, LogLayer, Paging) and bytes where their layout matters (LogHeader,
  FileSystem).
- Addresses are counted in pages (Paging, PageTable) or headers (HeapAllocator).
  Wraparound of 16-bit and 32-bit counters and of sz + n in growproc is explicit.

Where the code does not meet a property, the property is stated with its exact
condition and a failing input:

- LogSpace.NewAccepted, ShippedLogRefuses: a new block within an operation's
  budget is always accepted if and only if log.size - 1 >= LOGSIZE; the log area
  that mkfs lays out is one block short.
- LogLayer.Log.Commit, EverySizePanics: a commit needs a buffer besides the pinned
  ones, so it panics with NBUF logged blocks. NBUF equals LOGSIZE, so no size of
  the log area avoids both this panic and the refusal above.
- LogSpace.AgainRefused, Allocation.OverfullByCount: log_write refuses a block that
  is already logged once the log is full. Comments in kernel/log.c:205-214 promise
  that it absorbs repeated writes; the model follows the code, which tests for room
  first. A transaction that logs as many blocks as the log holds is refused exactly
  if its last call is for a block that is already logged.
- Allocation.TruncLogs, SpreadTruncOverruns: a truncation keeps to the MAXOPBLOCKS
  that begin_op reserves if and only if the file has blocks in fewer than
  MAXOPBLOCKS bitmap blocks; the disk that mkfs makes is small enough.
- PagedProcess.CopyNeedsResident, SwappedBufferFails, Process.GrowThenCopy: copyin
  and copyout do not fault pages in, so a system call on a paged-out buffer fails
  where memory without paging would not. Every process that grows past the entries
  of p->ram has such a buffer.
- HeapAllocator.Heap.Malloc, ExactUpTo, ZeroCore: beyond nbytes = 0x7fffffe0 sbrk's
  int argument is no longer the size that malloc means.

RedoLog and LogLayer take it as given that the log header on disk is empty between
commits and that blocks of the log area are never logged; CrashSafety proves both
for file operations.

Assumptions about the surroundings: callers of brelse have written or pinned what
they changed; only a holder calls bunpin; a process starts with at most 16 pages
and Guard, at most one page without PTE_U; fifo_counter does not overflow;
hardware does not set accessed bits while a policy loops; sbrk hands out addresses
that grow; copies between kernel buffers do not fail; acquire and release of a
lock are atomic mutual exclusion. The runs of PagedProcess take it as given that
writing the swap file finds disk blocks and log space: SwapFile.WriteSlot says
exactly when a slot lacks blocks, and balloc then panics (kernel/fs.c:83), which the
paging code does not see.

## Model

| member | source | states |
|---|---|---|
| `RedoLog.CrashAtomicity` | kernel/log.c:68-203 | for every transaction, every number k of completed commit writes and every list of recoveries that crash anywhere, one completed recovery leaves an empty header and the home blocks all new if k went past the header write, all old otherwise |
| `RedoLog.HistoryIsAtomic` | kernel/log.c:116-203 | over any history of transactions, crashes in commits and crashed recoveries, the home blocks equal those of the history in which each transaction happens at once or not at all |
| `RedoLog.ExecuteIsAtomic` | kernel/log.c:178-203 | one transaction with its crash ends idle, with the new home blocks exactly if its header reached the disk |
| `RedoLog.LastCommitWins` | kernel/log.c:178-203 | after any history with crashes each home block holds the contents that the last committed transaction naming it gave it |
| `RedoLog.UncommittedStays` | kernel/log.c:178-203 | and its first contents if no committed transaction names it |
| `RedoLog.ViewHolds` | kernel/log.c:205-235 | the cache shows for each logged block the last contents that the transaction gives it |
| `RedoLog.RecoverAfterCrash` | kernel/log.c:68-123 | a recovery cut off after any number of writes can be recovered again to the same home blocks |
| `RedoLog.SameAfterCrashes` | kernel/log.c:116-123 | any number of crashed recoveries does not change what the next full recovery yields |
| `RedoLog.CrashBeforeHead` | kernel/log.c:178-203 | a commit cut off before the header write leaves the old home blocks after recovery |
| `RedoLog.CrashAfterHead` | kernel/log.c:193-203 | a commit cut off at or after the header write leaves the new home blocks after recovery |
| `RedoLog.Prepared` | kernel/log.c:178-203 | once the header is written, the rest of the commit writes exactly what a recovery of that disk would write |
| `RedoLog.PreparedRecovers` | kernel/log.c:178-203 | the disk just after the header write recovers to the blocks the cache showed |
| `RedoLog.CommitCompletes` | kernel/log.c:192-203 | a commit without a crash ends with the new home blocks and an empty header |
| `RedoLog.RecoverClears` | kernel/log.c:116-123 | a completed recovery leaves an empty header |
| `RedoLog.RecoverInstalls` | kernel/log.c:67-123 | a completed recovery has brought home every logged copy and changed no other block |
| `RedoLog.CutRecovery` | kernel/log.c:67-123 | a recovery that crashes after k writes has brought home exactly the first k copies, and the header still names them all |
| `RedoLog.RecoverIdle` | kernel/log.c:116-123 | recovering a disk with an empty header changes nothing |
| `BufferCache.Cache.constructor` | kernel/bio.c:36-53 | binit links all NBUF buffers into one circle and establishes the invariant; the latest contents are those of the disk |
| `BufferCache.Cache.LinkAll` | kernel/bio.c:43-52 | the loop leaves next and prev as inverse walks of one circle through all buffers |
| `BufferCache.Cache.FindCached` | kernel/bio.c:65-73 | the first scan finds the buffer of (dev, block) if and only if there is one |
| `BufferCache.Cache.FindIdle` | kernel/bio.c:75-87 | the second scan finds the idle buffer that was released longest ago, or HEAD exactly when all buffers are in use |
| `BufferCache.Cache.Bget` | kernel/bio.c:58-89 | claims the block's buffer, or recycles the least recently released idle one; panics exactly when the block has no buffer and all are in use; keeps the invariant |
| `BufferCache.Cache.Recycle` | kernel/bio.c:77-86 | an idle buffer takes a new block without losing contents, since an idle buffer is clean |
| `BufferCache.Cache.Lock` | kernel/bio.c:69-71 | taking the sleep lock turns a waiting reference into the holder's |
| `BufferCache.Cache.Fill` | kernel/bio.c:92-103 | bread yields the contents that were last released for the block, whoever released them |
| `BufferCache.Cache.Bread` | kernel/bio.c:91-103 | bread returns a locked buffer holding the latest contents; it fails, without change, exactly when the block has no buffer and all buffers are in use |
| `BufferCache.Cache.Store` | kernel/log.c:184-187 | a holder may change the data; others still see the last released contents |
| `BufferCache.Cache.Bwrite` | kernel/bio.c:105-112 | the held block reaches the disk as one write of the trace; no other buffer holds that block |
| `BufferCache.Cache.Bpin` | kernel/bio.c:139-144 | a pin adds one reference and keeps the buffer from being recycled |
| `BufferCache.Cache.Bunpin` | kernel/bio.c:146-151 | unpinning by a holder never makes the buffer idle |
| `BufferCache.Cache.Brelse` | kernel/bio.c:114-137 | the holder's data become the latest contents; a buffer without references moves to the most recent end, all others keep their order |
| `BufferCache.Cache.Unlock` | kernel/bio.c:117-122 | releasing the sleep lock of written or pinned data keeps the invariant for every other process |
| `BufferCache.Cache.PutBack` | kernel/bio.c:124-136 | dropping the reference under bcache.lock keeps the circle and the release order |
| `BufferCache.Cache.MoveToFront` | kernel/bio.c:126-134 | the pointer updates take the buffer out of the circle and put it first |
| `BufferCache.Unlink` | kernel/bio.c:128-129 | the two stores unlink any node of the circle |
| `BufferCache.LinkFirst` | kernel/bio.c:130-133 | the four stores link a node behind the sentinel |
| `BufferCache.BootSound` | kernel/bio.c:36-53 | zeroed buffers satisfy the invariant although all have device 0 and block 0 |
| `BufferCache.ClaimSound` | kernel/bio.c:66-72 | a cache hit keeps reference counts, uniqueness, freshness and release order |
| `BufferCache.RecycleSound` | kernel/bio.c:75-87 | a recycled buffer leaves at most one buffer per (dev, block) and every uncached block clean on disk |
| `BufferCache.FillSound` | kernel/bio.c:97-101 | reading an uncached block from disk gives its latest contents |
| `BufferCache.WriteSound` | kernel/bio.c:105-112 | writing a locked buffer keeps every other buffer consistent with the disk |
| `BufferCache.UnlockSound` | kernel/bio.c:117-122 | after a release every unlocked buffer that differs from the disk is pinned |
| `BufferCache.DropSound` | kernel/bio.c:124-136 | dropping a reference keeps the whole invariant, with the idle buffers in order of release |
| `BufferCache.UnpinSound` | kernel/bio.c:146-151 | unpinning under the sleep lock keeps the whole invariant |
| `LogLayer.Log.constructor` | kernel/log.c:54-63 | the log starts with an empty header in memory and no operation |
| `LogLayer.Log.BeginOp` | kernel/log.c:125-142 | begins exactly when no commit runs and MAXOPBLOCKS more blocks per operation fit; keeps logged plus unspent blocks within LOGSIZE |
| `LogLayer.Log.EndOp` | kernel/log.c:144-164 | ends an operation, never while a commit runs, and asks for a commit exactly when it was the last; the sleepers of begin_op are woken exactly when it was not |
| `LogLayer.Log.EndCommit` | kernel/log.c:166-174 | operations may begin again after the commit, and the sleepers of begin_op are woken |
| `LogLayer.Log.LogWrite` | kernel/log.c:214-235 | panics exactly when the log has LOGSIZE blocks, fills its area or no transaction is open; otherwise a new block is appended and pinned once and an old one absorbed; a new block within budget keeps the reservation and is never refused if the area has room for LOGSIZE |
| `LogLayer.Log.FindLogged` | kernel/log.c:225-228 | finds the block in the header list if and only if it is there |
| `LogLayer.Log.AddBlock` | kernel/log.c:229-233 | appending a block keeps the list distinct and each listed block pinned |
| `LogLayer.Log.Commit` | kernel/log.c:193-203 | the disk writes of a commit are a prefix of the commit trace, all of it on success, with the header list and the pins then empty; whatever buffers other processes refer to, it succeeds exactly if each block of the log area that it writes has a buffer or finds an idle one, and otherwise panics at the first that does not, before the header is written; if no other process refers to a buffer, that is fewer than NBUF logged blocks |
| `LogLayer.Log.Recover` | kernel/log.c:116-123 | the disk writes of a recovery are a prefix of install and clear, all of it on success; if no other process holds a buffer it always succeeds |
| `LogLayer.Log.ReadHead` | kernel/log.c:85-97 | reads the home block list out of the header block, always if no other process holds a buffer |
| `LogLayer.Initlog` | kernel/log.c:54-65 | binit and initlog on any disk with a loggable header: recovery always completes, leaving an empty header, no pins and exactly the writes of a recovery |
| `LogLayer.RoomLeft` | kernel/bio.c:75-88 | if no other process holds a buffer, all buffers are in use exactly when NBUF blocks are logged, and then no other block has one |
| `LogLayer.EverySizePanics` | kernel/log.c:127-203 | for every size of the log area: a run can log NBUF blocks, whose commit panics, if and only if every new block within budget is accepted; no size is free of both failures |
| `LogLayer.WriteLog` | kernel/log.c:177-191 | each logged block's cached contents go to its place in the log area, in order, whatever the disk held; stops exactly at the first place that has no buffer and finds none idle, whatever buffers others refer to |
| `LogLayer.InstallTrans` | kernel/log.c:67-83 | each logged copy goes to its home block; a commit unpins it, a recovery does not; a commit succeeds if its log blocks find buffers, whatever buffers others refer to, and a recovery at boot always does |
| `LogLayer.WriteHead` | kernel/log.c:99-114 | the header block on disk encodes exactly the given list; exactly if the header block has a buffer or finds an idle one, and nothing is written otherwise |
| `LogLayer.CommitAll` | kernel/log.c:193-203 | commit issues log copies, header, home blocks and empty header in this order, and nothing for an empty log; succeeds exactly if the log copies and the header find buffers, and otherwise stops at the first that does not |
| `LogLayer.QuietCommits` | kernel/bio.c:75-88 | if no other process refers to a buffer, a commit finds its buffers exactly with fewer than NBUF logged blocks, and otherwise none for its first block |
| `LogLayer.RoundFinds` | kernel/bio.c:58-89 | a round of bread and brelse leaves every block that has or could get a buffer so, and no other block unless a pin was dropped |
| `LogLayer.CommitEntries` | kernel/log.c:193-203 | the writes of the code are the writes that the crash argument is about |
| `LogLayer.RecoverEntries` | kernel/log.c:116-123 | the same for recovery |
| `LogLayer.ReadyToCommit` | kernel/log.c:193-235 | when a commit starts, cache and disk differ only at logged blocks, because every other buffer is clean |
| `LogLayer.CommitIsAtomic` | kernel/log.c:67-203 | the commit method cut off after any disk write, followed by crashing recoveries and a full one, leaves exactly the cached or the old home blocks |
| `LogHeader.ByteCodecIsLawful` | kernel/log.c:33-38 | the byte layout of struct logheader reads back what was written |
| `LogHeader.PutHead` | kernel/log.c:102-114 | the encoded header decodes to the list, and words past it are kept |
| `LogHeader.EncodeHead` | kernel/log.c:108-111 | the word stores of write_head give a header that decodes to the list |
| `LogHeader.DecodeHead` | kernel/log.c:92-95 | the word loads of read_head give the list, nothing for a negative count; an overrun of log.lh.block happens exactly for an int count above LOGSIZE |
| `LogHeader.HeadLayout` | kernel/log.c:33-38 | a block that decodes to the list has its count in byte 0 and each block number in four bytes, least significant first |
| `LogSpace.NewAccepted` | kernel/log.c:127-235 | over all interleavings, no new block within an operation's budget is refused if and only if log.size - 1 >= LOGSIZE |
| `LogSpace.ShippedLogRefuses` | mkfs/mkfs.c:25 | with nlog = LOGSIZE, as shipped, there is a run in which a new block within budget is refused |
| `LogSpace.AgainRefused` | kernel/log.c:219-228 | for any log size there is a run in which a block that is already logged is refused |
| `LogSpace.RunFits` | kernel/log.c:127-164 | over any run, logged blocks plus unspent budgets stay within LOGSIZE |
| `LogSpace.StepFits` | kernel/log.c:127-235 | each step keeps logged blocks plus unspent budgets within LOGSIZE |
| `LogSpace.FilledIsReachable` | kernel/log.c:127-235 | three operations can fill the log to any level below its limit |
| `LogSpace.FillsUp` | kernel/log.c:127-235 | some run logs LOGSIZE blocks if and only if log.size - 1 >= LOGSIZE |
| `LogQueue.NoBeginSleepsPastRoom` | kernel/log.c:126-174 | in every run of begin_op, log_write, end_op and commit, in any interleaving, while log.lock is free a process that is asleep in begin_op or bound to be finds committing set or lh.n + (outstanding + 1) * 10 > 30: no wakeup is lost |
| `LogQueue.BeginsExactlyWithRoom` | kernel/log.c:126-142 | at its test begin_op goes to sleep exactly if committing is set or lh.n + (outstanding + 1) * 10 > 30, and otherwise adds one to outstanding |
| `LogQueue.BeginsWithRoom` | kernel/log.c:126-142 | in every run a process at that test can take the step into an operation whenever there is room |
| `LogQueue.EndFindsNoCommit` | kernel/log.c:145-174 | in every run log.outstanding is the number of operations in progress, and end_op finds no commit under way, so that it does not panic |
| `LogQueue.OneCommit` | kernel/log.c:145-174 | in every run at most one process commits, and no operation is in progress while it does |
| `LogQueue.MovesAreRun` | kernel/log.c:126-174 | every run keeps the invariant of the counts and is a run of sleep and wakeup in which every section pays what it owes |
| `LogQueue.MoveKeepsGood` | kernel/log.c:126-235 | every access of begin_op, log_write, end_op and commit under log.lock keeps: code and lock agree, outstanding counts the operations, committing is set while a process commits, and at most one does |
| `LogQueue.MovePays` | kernel/log.c:126-174 | a section that ends with room for an operation began with it or has woken the sleepers, and begin_op sleeps only without room |
| `LogQueue.BootGood` | kernel/log.c:54-65 | the log after initlog satisfies the invariant |
| `Policies.NfuaIndex` | kernel/vm.c:722-745 | NFUA picks the user page of least age, the first of several |
| `Policies.CountOnes` | kernel/vm.c:764-772 | the mask loop counts the ones of a 32-bit age |
| `Policies.LapaIndex` | kernel/vm.c:747-782 | LAPA picks the user page least by (number of ones, age), the first of several |
| `Policies.OldestUser` | kernel/vm.c:794-806 | the inner loop finds the head of the queue |
| `Policies.ScfifoIndex` | kernel/vm.c:784-823 | the loop over fifo_time ends, and its victim, restamps and cleared accessed bits are those of a second-chance queue |
| `Policies.Restamp` | kernel/vm.c:808-816 | clearing the accessed bit and restamping moves the head of the queue to its tail |
| `Policies.FirstUnaccessedIsVictim` | kernel/vm.c:784-823 | the second-chance victim is the first page in queue order that was not accessed |
| `Policies.AllAccessedEvictsOldest` | kernel/vm.c:784-823 | if all pages were accessed the oldest is evicted and no page keeps its bit |
| `Policies.QueueExists` | kernel/vm.c:784-806 | distinct times below the counter determine the queue |
| `Policies.UpdateAge` | kernel/proc.c:770-789 | every tracked user page's age is halved, with 0x80000000 added exactly if its accessed bit was set, which is cleared; no other page's bit and no other field changes |
| `Policies.SweptMeans` | kernel/proc.c:770-789 | exactly the tracked user pages lose their accessed bit |
| `Policies.AgeAfterTicks` | kernel/proc.c:770-789 | over any number of calls of update_age an age is the first age with the accessed bits that the calls found shifted in |
| `Policies.AgeIsShifted` | kernel/proc.c:780-785 | up to 32 ticks leave the initial age shifted right with the accessed bits above it, newest on top |
| `Policies.AgeIsHistory` | kernel/proc.c:780-785 | after 32 or more ticks the age is the number made of the last 32 accessed bits |
| `Policies.AgesCompareHistories` | kernel/proc.c:770-789 | comparing two such ages is comparing the last 32 accessed bits lexicographically, newest first |
| `Policies.NfuaEvictsLeastRecent` | kernel/vm.c:722-745 | after 32 ticks NFUA evicts the page that was used least recently: at the latest tick that told it from any other user page, it was not accessed and the other was |
| `Policies.LapaEvictsLeastUsed` | kernel/vm.c:747-782 | after 32 ticks LAPA evicts a page that was accessed in the fewest of them, and of several the one used least recently |
| `Policies.ScfifoEvictsOldest` | kernel/vm.c:784-823 | SCFIFO evicts an unaccessed page if there is one, and of those the one with the least fifo_time; the least of all if every page was accessed |
| `Policies.OnesCount` | kernel/vm.c:764-772 | the ones of an age are as many as the ticks that saw the page accessed |
| `Paging.SwapInValid` | kernel/proc.c:716-768 | moving a page from its slot to a free frame keeps all bookkeeping: distinct tracked pages, PG pages one to one with slots, no frame lost |
| `Paging.SwapInView` | kernel/proc.c:716-768 | and changes no page's contents |
| `Paging.EvictValid` | kernel/vm.c:656-720 | moving a page to a free slot keeps the bookkeeping |
| `Paging.EvictView` | kernel/vm.c:656-720 | and changes no page's contents |
| `Paging.ExchangeValid` | kernel/vm.c:656-720 | the exchange that reuses the slot it has just emptied keeps the bookkeeping |
| `Paging.ExchangeView` | kernel/vm.c:656-720 | and changes no page's contents |
| `Paging.GrowValid` | kernel/vm.c:360-398 | mapping a new page keeps the bookkeeping |
| `Paging.GrowView` | kernel/vm.c:360-398 | the new page reads as zero and no other page changes |
| `Paging.LapaKeepsNewcomer` | kernel/proc.c:748-750 | under LAPA a page that has just come in has 32 ones and is not chosen while another user page has fewer |
| `Paging.NfuaDropsNewcomer` | kernel/proc.c:744-746 | under NFUA it has age 0, and the page chosen next has age 0 and comes no later in p->ram |
| `Paging.ScfifoQueuesNewcomer` | kernel/proc.c:740-742 | under SCFIFO it is last in the queue |
| `Paging.DropValid` | kernel/vm.c:238-277 | unmapping a page, present or paged out, keeps the bookkeeping |
| `Paging.DropView` | kernel/vm.c:238-277 | exactly that page disappears |
| `Paging.SlotIsFree` | kernel/vm.c:338-355 | below 32 pages a full p->ram leaves a free swap slot |
| `Paging.FirstFitInFile` | kernel/vm.c:687-703 | the first unused slot is inside the swap file or at its end, so the write is not rejected |
| `Paging.UserInRam` | kernel/vm.c:722-745 | a full p->ram holds a user page to evict |
| `Paging.PolicyKeeps` | kernel/vm.c:722-823 | the policies' changes of times, ages and accessed bits touch no page's contents |
| `Paging.ScfifoTimes` | kernel/vm.c:784-823 | SCFIFO's restamping keeps fifo_time distinct and below the counter |
| `PagedProcess.Process.constructor` | kernel/exec.c:107-150 | any state that satisfies the invariant is a start, and the process then sees its pages |
| `PagedProcess.Process.FindPage` | kernel/vm.c:667-674 | finds the first entry for the page, or that there is none |
| `PagedProcess.Process.FindUnused` | kernel/vm.c:688-694 | finds the first unused entry |
| `PagedProcess.Process.CountPages` | kernel/proc.c:799-812 | the count is 16 exactly when every entry is used |
| `PagedProcess.Process.SwapfileToRam` | kernel/proc.c:716-768 | fails exactly without a slot or a frame; otherwise the page moves in as Paging.SwapIn says |
| `PagedProcess.Process.WriteOut` | kernel/vm.c:697-717 | the second half of swap_pages writes the page to the slot, records the slot and its offset, and frees two frames; no other page of the file changes |
| `PagedProcess.Process.SwapPagesIn` | kernel/vm.c:656-720 | swap_pages on a fault is the exchange, and fails exactly with fewer than two free frames |
| `PagedProcess.Process.SwapPagesOut` | kernel/vm.c:656-720 | swap_pages for growth is the eviction to the first unused slot, and fails exactly without a free frame |
| `PagedProcess.Process.ScfifoVictim` | kernel/vm.c:784-823 | the SCFIFO victim is the second-chance queue's, and times stay distinct |
| `PagedProcess.Process.Victim` | kernel/vm.c:825-841 | each policy's choice is its own minimum; under NFUA and LAPA nothing changes, under SCFIFO times and accessed bits change as the second-chance queue says; what the process sees is unchanged |
| `PagedProcess.ChosenMeans` | kernel/vm.c:825-841 | the choice against any other user page: no larger age under NFUA, no more ones under LAPA, and under SCFIFO unaccessed and older unless the other was accessed |
| `PagedProcess.Process.ExchangeIn` | kernel/vm.c:825-843 | exchange_pages on a fault brings the page in, exactly the policy's choice goes out, every other page stays where it was and no contents change |
| `PagedProcess.Process.Swap` | kernel/vm.c:896-920 | the page is present afterwards, contents unchanged; fails exactly when frames run out |
| `PagedProcess.Process.HandlePageFault` | kernel/vm.c:868-884 | a paged-out page comes in; any other page below MAXVA kills the process without change; above, the kernel panics |
| `PagedProcess.Process.Forget` | kernel/vm.c:268-275 | entries of p->ram and p->swap for the page become blank, all others stay |
| `PagedProcess.Process.Uvmunmap` | kernel/vm.c:238-277 | panics exactly if some page is not mapped; otherwise exactly the range disappears from what the process sees |
| `PagedProcess.Process.Uvmdealloc` | kernel/vm.c:445-456 | the process keeps exactly the pages below the new size |
| `PagedProcess.Process.ExchangeOut` | kernel/vm.c:825-843 | exchange_pages for growth frees an entry of p->ram: exactly the policy's choice goes out, and no contents change |
| `PagedProcess.Process.GrowPage` | kernel/vm.c:332-398 | one new page: it panics exactly from page 32 on or with p->ram full and no frame free, memory lacks exactly with room in p->ram and no frame free, and otherwise the page is mapped, zero, and all others are unchanged |
| `PagedProcess.Process.GrowPages` | kernel/vm.c:332-415 | the loop adds exactly the new pages, all zero, or gives back what it added; panic, lack of memory and success are exactly those of counting frames and entries of p->ram page by page |
| `PagedProcess.Process.Uvmalloc` | kernel/vm.c:323-417 | growth to newsz shows the old pages and new zero pages; failure leaves what the process sees as it was; panic, lack of memory and success are exactly those that the free frames and the entries of p->ram give |
| `PagedProcess.Process.Undo` | kernel/vm.c:360-370 | the rollback restores exactly the memory before the growth |
| `PagedProcess.Process.Growproc` | kernel/proc.c:261-281 | sbrk sets the size to sz + n, or leaves it where that is negative or overflows 32 bits; afterwards exactly the pages below the size are mapped, old ones with their contents and new ones zero; it panics, is denied or succeeds exactly as the free frames and the entries of p->ram give |
| `PagedProcess.NewSizeIs` | kernel/proc.c:261-281 | the size that growproc asks for is sz + n unless that is negative or overflows, and then sz |
| `PagedProcess.ResizedIs` | kernel/proc.c:261-281 | resizing keeps the contents of the pages below both sizes, adds zero pages up to a larger size and drops those from a smaller one on |
| `PagedProcess.Process.AgePages` | kernel/proc.c:511-521 | under NFUA and LAPA ages and accessed bits change exactly as update_age says, under SCFIFO nothing does; what the process sees does not change |
| `PagedProcess.Process.Access` | kernel/vm.c:868-884 | an access ends in a present page with its accessed bit set and contents unchanged; it is fatal exactly for a page that the process may not use, and panics exactly at MAXVA or for a paged-out page with fewer frames free than it takes: two if p->ram is full, one otherwise; with 34 frames never for a user page |
| `PagedProcess.Process.Step` | kernel/vm.c:868-920 | each load, store, sbrk and timer tick answers as plain memory would: a load gives the contents, a store changes that page alone, sbrk gives the old size and resizes; a tick never fails, a load or store below MAXVA panics exactly if its page is paged out and the frames to bring it in are short, and sbrk is denied or panics exactly where counting the frames says |
| `PagedProcess.Process.Run` | kernel/vm.c:323-417 | over any run of loads, stores, grows, shrinks and ticks, under any policy, the process observes exactly what memory without paging would show it, if there are 34 frames; with fewer, the only other answers are those for lack of frames, at the steps where the free frames counted through the run are short |
| `PagedProcess.EnoughFrames` | kernel/vm.c:323-417 | with 34 frames the only observation that the model admits is the promised one |
| `PagedProcess.ReadsLastStore` | kernel/vm.c:868-920 | in what a run is promised, a load gives what the last store to its page put there, as long as the size has stayed above the page |
| `PagedProcess.ReadsFirst` | kernel/vm.c:868-920 | without a store, what the page held at the start |
| `PagedProcess.ReadsZero` | kernel/vm.c:360-398 | and zero if sbrk has made the page since |
| `PagedProcess.SbrkReports` | kernel/proc.c:261-281 | each sbrk answers with the size that the ones before it left, and is fatal exactly beyond 32 pages |
| `PagedProcess.AnswersEnough` | kernel/vm.c:323-417 | with 34 frames each step is answered as promised and never denied |
| `PagedProcess.GrowingEnough` | kernel/vm.c:323-417 | with 34 frames a growth succeeds up to 32 pages and panics beyond |
| `PagedProcess.GrowingRoom` | kernel/vm.c:332-398 | a growth takes frames only until p->ram is full |
| `PagedProcess.FramesLeft` | kernel/kalloc.c:46-82 | the frames that are not free are as many as the pages that are present |
| `PagedProcess.SomeSwapped` | kernel/vm.c:332-398 | with fewer frames in use than pages some page is paged out |
| `PagedProcess.Process.Copyin` | kernel/vm.c:591-610 | copies the contents the process sees, page after page in order; fails exactly at the first page that is not present or not a user page |
| `PagedProcess.Process.Copyout` | kernel/vm.c:567-586 | page first + k of the copied range then shows src[k] and every other page what it did; fails exactly at the first page that is not present or not a user page |
| `PagedProcess.CopyNeedsResident` | kernel/vm.c:105-122 | a page the process may use can be copied by a system call if and only if it is not paged out |
| `PagedProcess.SwappedBufferFails` | kernel/vm.c:105-122 | there is a sound state, with 34 frames free, in which a page that the process may use and a load would bring in cannot be copied: paging shows in system calls |
| `PagedProcess.Process.GrowThenCopy` | kernel/vm.c:105-122 | from every state with 34 frames: after an sbrk by more pages than p->ram has entries left, there is a page on which a system call fails although a load then gives its promised contents |
| `PagedProcess.Process.GrowPast` | kernel/vm.c:332-398 | such an sbrk succeeds, shows the promised memory and leaves a page paged out |
| `PagedProcess.FramesConserved` | kernel/kalloc.c:46-82 | frames in use by pages and free frames together are always all frames |
| `PagedProcess.WithWithout` | kernel/vm.c:360-370 | removing the pages just added gives the memory before |
| `CrashSafety.History` | kernel/log.c:68-203 | over any history of transactions of file operations, with commits and recoveries that crash anywhere, panics and mounts after them, each transaction ends, is kept and answers exactly as a function of the files and the block map alone says, whatever is on the disk or in the log area; so are the files at the end; no transaction within MAXOPBLOCKS per operation is refused by the log or the cache; each ends, in numbers, by the blocks it passes to log_write, as stated for Transact |
| `CrashSafety.Transact` | kernel/log.c:126-203 | one transaction: it ends in log_write's panic exactly if some call comes with 30 or log.size - 1 blocks logged, whether or not its own block is among them; without that and without lack of disk blocks, exactly from 30 logged blocks on for lack of buffers; it is kept exactly if it does not panic and its crash, if any, comes after more disk writes than blocks were logged, that is with the header written; after crashed recoveries and a mount the answers, files and block map are those after the whole transaction or before it accordingly; a panic leaves the disk as it was; within ten blocks per operation only lack of disk blocks can stop it |
| `CrashSafety.LimitIs` | kernel/log.c:219-220 | the limit is log_write's test: fewer than 30 and fewer than log.size - 1 blocks |
| `CrashSafety.ServeEnds` | kernel/log.c:126-235 | how a transaction ends, in numbers, for all inputs |
| `CrashSafety.NoBuffersIs` | kernel/bio.c:75-88 | it ends for lack of buffers exactly if a commit of its blocks, with nobody else about, finds none: from 30 blocks on |
| `CrashSafety.Next` | kernel/log.c:68-203 | a transaction, ended in any way, extends the history by exactly what it comes to |
| `CrashSafety.HistoryAnswers` | kernel/log.c:68-203 | that function answers as plain byte sequences would: each transaction sees the files that exactly the kept ones before it left, answers all operations unless it panics, and the files at the end are those when the kept transactions happen at once and the others not at all |
| `CrashSafety.Durable` | kernel/log.c:68-203 | a write of a transaction that is kept is read back byte for byte in every later transaction, across crashes, panics and mounts, until a kept transaction changes the file again |
| `CrashSafety.HistoryEnds` | kernel/log.c:68-235 | every transaction of a history ends as ServeEnds says |
| `CrashSafety.HistoryServes` | kernel/log.c:68-203 | every transaction of a history answers by the files that the kept ones before it left |
| `CrashSafety.ModestIs` | kernel/file.c:149-156 | which transactions are within ten blocks per operation, in numbers |
| `CrashSafety.ServeAnswers` | kernel/log.c:126-203 | what one transaction comes to answers as plain byte sequences would, all operations unless it panics, and leaves the files after all of it if it is kept and those before it otherwise |
| `CrashSafety.ModestFits` | kernel/log.c:126-235 | a transaction within MAXOPBLOCKS per operation ends in its commit or in lack of disk blocks |
| `CrashSafety.FitsLog` | kernel/log.c:214-235 | blocks that log_write has accepted fit in the header and in the log area |
| `CrashSafety.CommitRun` | kernel/log.c:193-203 | the commit of the logged blocks leaves the disk with the new file system exactly if it is kept, and with the old one otherwise |
| `CrashSafety.Commit` | kernel/log.c:192-203 | the disk then holds the new file system or the one the transaction found, as the header decides |
| `CrashSafety.LogCovers` | kernel/log.c:178-203 | what fs.c passes to log_write is what the log needs: the listed blocks fit, none is in the log area, and every other home block is unchanged |
| `CrashSafety.ImageNoted` | kernel/log.c:205-235 | a block that is not in the transaction, inodes included, is as the transaction found it |
| `CrashSafety.Mount` | kernel/fs.c:42-47 | mounting a recovered disk gives exactly the files it holds, whatever is left in the log area |
| `CrashSafety.MountReads` | kernel/fs.c:289-313 | home blocks and inodes read from the disk are those of the file system it holds |
| `CrashSafety.RepHome` | kernel/fs.c:42-47 | the file system does not depend on the log area |
| `CrashSafety.ReadInodes` | kernel/fs.c:299-309 | reading each inode from its block gives back the inodes written there |
| `CrashSafety.InodeShown` | kernel/fs.c:221-238 | the place that ilock reads in an inode block holds that inode |
| `CrashSafety.ListsAll` | kernel/log.c:225-233 | the header lists each block once, so that its length is the number of blocks logged |
| `CrashSafety.ShippedFits` | mkfs/mkfs.c:20-27 | the layout that mkfs computes, for any size, keeps the log area apart from inodes, bitmap and data and has room for its inodes and bits |
| `CrashSafety.ShippedIs` | mkfs/mkfs.c:20-27 | where mkfs puts inodes, bitmap and data |
| `FileMap.FillValid` | kernel/fs.c:378-405 | giving an empty slot a free block keeps: each block in one slot, bits set exactly for metadata and owned blocks, no holes |
| `FileMap.FillHolds` | kernel/fs.c:378-405 | and changes no file's contents |
| `FileMap.WriteValid` | kernel/fs.c:486-517 | writing a block of a file keeps the invariant |
| `FileMap.WriteHolds` | kernel/fs.c:486-517 | the write is a splice of that file and shows in no other |
| `FileMap.TruncateValid` | kernel/fs.c:407-437 | truncation keeps the invariant, with exactly the file's blocks freed |
| `FileMap.TruncateHolds` | kernel/fs.c:407-437 | the file is empty and all other files are unchanged |
| `FileMap.ReadShows` | kernel/fs.c:455-480 | a block below the size is present and holds its slice of the file |
| `FileMap.SpliceTwice` | kernel/fs.c:497-509 | consecutive writes compose to one |
| `Allocation.WriteNeeds` | kernel/fs.c:375-517 | bmap's allocations for a write succeed if and only if the blocks that the file lacks in the range, with the indirect block, are at most the free ones |
| `Allocation.RoundsNeed` | kernel/fs.c:497-509 | the loop of writei takes exactly the blocks that the file lacks and leaves it without gaps in the range, and does so exactly if they are free |
| `Allocation.RoundNeeds` | kernel/fs.c:375-405 | the same for one call of bmap |
| `Allocation.AllocNeeds` | kernel/fs.c:62-85 | balloc succeeds exactly with a free block, takes one and gives it to one slot |
| `Allocation.OverfullMeans` | kernel/log.c:219-220 | log_write panics in a transaction if and only if some call comes with as many blocks logged as the log holds |
| `Allocation.OverfullByCount` | kernel/log.c:219-228 | never if the blocks logged in the end are fewer than the limit, always if they are more, and if they are as many exactly when the last call is for a block that is already logged |
| `Allocation.WriteLogs` | kernel/file.c:149-156 | a write of at most three blocks logs at most MAXOPBLOCKS blocks, however it ends, if it starts in a block of the file or on a block boundary |
| `Allocation.WriteLogsExactly` | kernel/fs.c:482-517 | a write passes to log_write exactly the data blocks of its range, the bitmap blocks of those it takes, the indirect block if it makes an entry, with its bitmap block if it is new, and last the inode's block |
| `Allocation.RoundsLog` | kernel/fs.c:497-509 | a round logs at most two blocks besides those of the indirect block, one if its block was there |
| `Allocation.ChunkBlocks` | kernel/file.c:149-156 | a chunk of three blocks touches at most three blocks, or four if it starts inside one |
| `Allocation.LayoutIs` | kernel/fs.h:44-53 | a bitmap block holds the bits of 8192 blocks and an inode block 16 inodes |
| `Allocation.TruncLogs` | kernel/fs.c:407-437 | itrunc logs exactly the bitmap blocks of the blocks it frees and the block of the inode; it keeps to MAXOPBLOCKS if and only if the file has blocks in fewer than MAXOPBLOCKS bitmap blocks |
| `Allocation.SmallDiskTruncs` | mkfs/mkfs.c:20-27 | on a disk of at most nine bitmap blocks, like the one that mkfs makes, it always does |
| `Allocation.SpreadTruncOverruns` | kernel/fs.c:407-437 | a file with a block in each of ten bitmap blocks, which takes a larger disk, is one whose truncation logs more than MAXOPBLOCKS blocks |
| `Allocation.FilewriteNeeds` | kernel/file.c:213-260 | unless log_write panics, the chunk loop writes all that writei accepts exactly if the blocks that this lacks together are free |
| `Allocation.FilewriteLogs` | kernel/file.c:213-260 | each transaction of the chunk loop logs at most MAXOPBLOCKS blocks, so that log_write never panics in a log larger than that, if the first starts in a block of the file or on a block boundary |
| `Allocation.FillPlaces` | kernel/fs.c:378-405 | filling a slot with the first free block is what the allocation function says |
| `Allocation.WriteKeepsPlaces` | kernel/fs.c:497-509 | storing bytes moves no block |
| `Allocation.TruncatedPlaces` | kernel/fs.c:407-437 | giving up the blocks of a file is what the truncation function says |
| `FileSystem.Disk.constructor` | kernel/fs.c:40-46 | a hole-free image satisfies the invariant, with the block map it shows |
| `FileSystem.NotedPut` | kernel/log.c:205-235 | changing a block and logging it keeps: every block changed since the transaction began is logged, and only home blocks are |
| `FileSystem.NotedInode` | kernel/fs.c:221-238 | writing an inode to its block and logging that block keeps it too |
| `FileSystem.Disk.Begin` | kernel/log.c:126-142 | a transaction that finds the log empty starts with the blocks as they are |
| `FileSystem.Disk.LogWrite` | kernel/log.c:214-235 | the block is in the transaction, and the panic is noted exactly if some call so far found as many blocks logged as the log holds, whether or not its own block was among them |
| `FileSystem.Disk.SetEntry` | kernel/fs.c:396-399 | the entry of the indirect block is set, no other word changes, and the block is logged |
| `FileSystem.Disk.Balloc` | kernel/fs.c:62-85 | takes the first free block, marks and zeroes it, logs its bitmap block and itself in this order, and panics exactly on a full disk |
| `FileSystem.Disk.Bfree` | kernel/fs.c:88-103 | clears exactly that bit and panics exactly if it was clear |
| `FileSystem.Disk.FillInode` | kernel/fs.c:383-393 | allocates a direct or indirect block for an inode without changing any file |
| `FileSystem.Disk.FillEntry` | kernel/fs.c:394-401 | allocates a block for an entry of the indirect block without changing any file |
| `FileSystem.Disk.LinkInode` | kernel/fs.c:383-393 | the block that balloc took goes into the inode: the block map changes there alone, and no file does |
| `FileSystem.Disk.LinkEntry` | kernel/fs.c:394-401 | the block that balloc took goes into the indirect block, which is logged: the block map changes there alone, and no file does |
| `FileSystem.Disk.Bmap` | kernel/fs.c:375-405 | returns the block of the slot; a present one without any change, an absent one as Allocation.Bmap says: with the first free blocks, the logged blocks in order, and a panic exactly without a free one; panics beyond MAXFILE |
| `FileSystem.Disk.Readi` | kernel/fs.c:450-480 | returns the slice of the file, empty past the end or on 32-bit overflow, and never allocates or logs |
| `FileSystem.Disk.WritePart` | kernel/fs.c:497-508 | one round changes exactly the spliced bytes of one file and logs its block |
| `FileSystem.Disk.WriteRound` | kernel/fs.c:497-508 | one round splices the bytes into the file, takes the blocks and logs the blocks of Allocation.Round, in its order, and panics exactly where it does |
| `FileSystem.Disk.WriteNext` | kernel/fs.c:497-508 | one round takes the rest of a block or of src, whichever is less, and extends the written part by it, with the blocks taken and logged of Allocation.Round |
| `FileSystem.Disk.WriteBlocks` | kernel/fs.c:497-509 | the loop splices all of src into the file, takes and logs the blocks of Allocation.Rounds, and panics exactly where it does |
| `FileSystem.Disk.Writei` | kernel/fs.c:482-517 | splices src into the file and leaves all others unchanged; -1 exactly past the end or beyond MAXFILE; otherwise its calls of log_write are those of Allocation.Write, and it ends exactly in the first panic it meets, of balloc for lack of a free block or of log_write with a full log |
| `FileSystem.Disk.Iupdate` | kernel/fs.c:221-238 | the inode on disk equals the one in memory, and its block is logged |
| `FileSystem.Disk.Itrunc` | kernel/fs.c:407-437 | the file is empty, exactly its blocks are freed and counted free, no other file changes, and no free block is freed; its calls of log_write are those of Allocation.Trunc, one for each freed block and one for the inode, and it panics exactly if one of them finds the log full |
| `FileSystem.Disk.FreeDirect` | kernel/fs.c:414-420 | frees the direct blocks one by one, each still marked, logging the bitmap block of each |
| `FileSystem.Disk.FreeIndirect` | kernel/fs.c:422-432 | frees the listed blocks and then the indirect block, logging the bitmap block of each |
| `FileSystem.Disk.Filewrite` | kernel/file.c:213-260 | the chunk loop writes exactly the chunks of src up to the first that writei refuses, and returns n exactly if there is nothing to write or the range starts within the file and ends within 268 blocks, and -1 otherwise; each of its transactions logs at most MAXOPBLOCKS blocks, so that log_write does not panic if the log is larger than that; it ends in the first panic it meets |
| `FileSystem.Disk.WriteChunks` | kernel/file.c:236-254 | the chunks of the loop compose to one splice, and end as Allocation.Filewrite says |
| `FileSystem.Disk.WriteChunk` | kernel/file.c:241-246 | one transaction of the loop: a splice with the calls of log_write of Allocation.Write, refused and stopped exactly as writei is |
| `FileSystem.Step` | kernel/fs.c:407-517 | each read, write and truncation answers as plain byte sequences would, and ends exactly in the first panic that its allocations and its calls of log_write meet, if any |
| `FileSystem.Run` | kernel/fs.c:407-517 | over any run of reads, writes and truncations in one transaction the answers, the files, the block map and the calls of log_write are those of a function of the files and the block map; it ends exactly in the panic of balloc or log_write that this function meets first; operations of at most three blocks log at most MAXOPBLOCKS each |
| `FileSystem.RunServes` | kernel/fs.c:407-517 | that function answers as plain byte sequences would, with all answers and all effects unless a panic cuts it short |
| `FileSystem.ReadsLastWrite` | kernel/fs.c:450-517 | in these answers a read gives exactly the bytes that the last accepted write put there |
| `FileSystem.ReadsTruncated` | kernel/fs.c:407-480 | a truncated file reads as empty |
| `FileSystem.ReadsFirst` | kernel/fs.c:450-480 | a file that nothing has changed reads as it was |
| `FileSystem.WriteRefused` | kernel/fs.c:482-495 | a write answers -1 exactly past the end of the file or beyond 268 blocks, and its length otherwise |
| `FileSystem.RunStops` | kernel/fs.c:62-85 | a run answers every operation unless it panics, and lacks blocks exactly in a write that writei accepts and that needs more than are free then |
| `FileSystem.RunFull` | kernel/log.c:219-228 | it ends in log_write's panic exactly if one of its calls finds the log full |
| `FileSystem.OpNeeds` | kernel/fs.c:375-517 | reads, truncations and refused writes never lack blocks; a write does exactly if the blocks it needs exceed the free ones |
| `FileSystem.SmallLogs` | kernel/file.c:149-156 | reads, writes of at most three blocks and, on a disk of at most nine bitmap blocks, truncations log at most MAXOPBLOCKS blocks |
| `FileSystem.OverwriteFits` | kernel/fs.c:375-405 | a write inside a file needs no block, so it succeeds on a full disk |
| `DiskRoom.NeedFront` | kernel/fs.c:497-509 | the blocks that a write needs are those of its first round plus those of the rest after it |
| `DiskRoom.NeedSplit` | kernel/file.c:236-254 | the blocks that a write needs are those that its first part needs and those that the rest needs after it |
| `DiskRoom.NeedNone` | kernel/fs.c:375-405 | a write needs no block if the file has all blocks up to its end |
| `Blocks.SetBit` | kernel/fs.c:75-76 | setting or clearing a bit of a bitmap block leaves all other bits |
| `Blocks.HasBitIs` | kernel/fs.c:75-76 | testing bit k of a byte is testing v / 2^k for oddness |
| `Blocks.SetWord` | kernel/fs.c:394-399 | storing a word of a block leaves all other words |
| `SwapFile.WriteSlot` | kernel/fs.c:796-801 | writing a page to its slot is storing it in the sequence of pages and changes no other byte, -1 exactly if the slot starts past the end; a slot inside the file never lacks a block, a new one exactly if the blocks it needs are not free; log_write panics only if the log is no larger than MAXOPBLOCKS |
| `SwapFile.ReadSlot` | kernel/fs.c:804-809 | reading a slot gives its page and logs nothing |
| `SwapFile.SpliceIsStored` | kernel/fs.c:796-801 | splicing a page at a slot's offset is storing it in the page sequence |
| `HeapAllocator.Heap.constructor` | user/umalloc.c:21-22 | the heap starts empty |
| `HeapAllocator.Heap.FindPlace` | user/umalloc.c:30-32 | the walk ends within a round at the last free block below bp |
| `HeapAllocator.Heap.LinkIn` | user/umalloc.c:33-43 | linking and coalescing keep one address-ordered circle of disjoint, non-touching blocks, and conserve units |
| `HeapAllocator.Heap.Free` | user/umalloc.c:24-44 | the block leaves the live ones, its units lie in one free block, the invariant holds |
| `HeapAllocator.Heap.Morecore` | user/umalloc.c:46-61 | adds at least 4096 units as one free block, or fails without change; ends outside the model exactly if sbrk's int argument is another size |
| `HeapAllocator.Heap.AddCore` | user/umalloc.c:57-60 | what sbrk gave is freed as one block; obtained units grow by as much |
| `HeapAllocator.Heap.Start` | user/umalloc.c:70-73 | the first call makes base a circle of its own |
| `HeapAllocator.Heap.TakeFrom` | user/umalloc.c:75-84 | cuts a block off a free one, whole or at its end, disjoint from all others |
| `HeapAllocator.Heap.Malloc` | user/umalloc.c:63-90 | returns a new block of the fewest units that hold nbytes and a header, disjoint from all live ones, asks sbrk at most once, for 4096 units or what it needs if that is more, and only if no free block suffices, and fails only if sbrk does; all this exactly for nbytes <= 0x7fffffe0 or with a free block that suffices |
| `HeapAllocator.Heap.LiveApart` | user/umalloc.c:63-90 | blocks in use never overlap |
| `HeapAllocator.Heap.LiveFreeApart` | user/umalloc.c:21-90 | blocks in use and free blocks never overlap and lie in memory that sbrk gave, and their units are all that it gave |
| `HeapAllocator.Heap.ZeroCore` | user/umalloc.c:54-60 | the failing input nbytes = 0xfffffff0: sbrk is asked for 0 bytes, succeeds, and 2^28 units that were never obtained are freed, so that units are no longer conserved |
| `HeapAllocator.Heap.Extend` | user/umalloc.c:85-88 | after morecore a free block suffices, and the walk meets it within a round |
| `HeapAllocator.ExactUpTo` | user/umalloc.c:54-54 | sbrk's int argument is what malloc means if and only if nbytes <= 0x7fffffe0 |
| `HeapAllocator.PlaceSound` | user/umalloc.c:30-42 | inserting a block, with coalescing upwards, keeps the invariant up to the pair that may touch |
| `HeapAllocator.JoinSound` | user/umalloc.c:38-40 | coalescing downwards restores it |
| `HeapAllocator.TakeWhole` | user/umalloc.c:76-77 | unlinking a block of exact size keeps the invariant |
| `HeapAllocator.TakeTail` | user/umalloc.c:79-81 | cutting the tail off a block keeps the invariant |
| `HeapAllocator.CoreSound` | user/umalloc.c:54-58 | new memory above the break is disjoint from everything |
| `HeapAllocator.UnitsCut` | user/umalloc.c:75-84 | the units of a set of blocks are those of any one plus the rest |
| `SleepWakeup.StepKeepsInv` | kernel/proc.c:591-633 | every step of sleep and wakeup under lk and p->lock keeps: nobody is asleep or bound to sleep on a channel whose condition held at the start of the section or which has been woken |
| `SleepWakeup.RunKeepsInv` | kernel/proc.c:591-633 | the same over any run |
| `SleepWakeup.NoLostWakeup` | kernel/proc.c:591-633 | in any run, whenever lk is free and the condition of a channel holds, no process is asleep or committed to sleep on it |
| `SleepWakeup.OnlyWakeupEndsSleep` | kernel/proc.c:591-633 | a sleeper stays asleep until wakeup reaches it with its channel or it is killed |
| `SleepWakeup.SleepSteps` | kernel/proc.c:591-615 | sleep takes p->lock before it gives up lk, and then is asleep |
| `ProcessTable.NoParentSleepsPastZombie` | kernel/proc.c:303-484 | in every run of fork, exit and wait from the boot, with kills and in any interleaving, no process asleep in wait or bound to be has a zombie child while wait_lock is free, across reparenting |
| `ProcessTable.WaitSleepsExactly` | kernel/proc.c:440-484 | in every run wait comes to the end of its scan only without a zombie child, and then sleeps exactly if it has a child and is not killed |
| `ProcessTable.UserCanStart` | kernel/proc.c:303-484 | in every run a process can begin a fork while there is an unused slot, and an exit or a wait while wait_lock is free |
| `ProcessTable.NoOrphans` | kernel/proc.c:303-484 | in every run every live process and every zombie but init has a live parent, so that exit always finds one to wake and no zombie is orphaned |
| `ProcessTable.EachExitReapedOnce` | kernel/proc.c:390-484 | in every run each process exits at most once and is reaped at most once, after it exits; it has exited and not been reaped exactly while it is a zombie with a live parent |
| `ProcessTable.ReapedByParent` | kernel/proc.c:448-470 | in every run a process is reaped by its parent at that time, of whom it is the first zombie child, and only after it has left its stack |
| `ProcessTable.MovesAreRun` | kernel/proc.c:303-484 | every run of the process table keeps its invariant and is a run of sleep and wakeup in which every section pays what it owes |
| `ProcessTable.MoveKeepsGood` | kernel/proc.c:303-484 | every access of fork, exit, wait and kill keeps: code and locks agree, each slot is sound for its stage of life, parents are alive, pids are distinct, and every new zombie child is settled by a wakeup |
| `ProcessTable.SectionPays` | kernel/proc.c:418-431 | whoever has a zombie child at the end of a section and had none at its start has been woken in it |
| `ProcessTable.MovePays` | kernel/proc.c:303-484 | a release of wait_lock or a sleep in wait happens only with all wakeups paid and, for the sleep, no zombie child |
| `ProcessTable.BootGood` | kernel/proc.c:235-257 | the table with init alone satisfies the invariant |
| `ProcessTable.SectionsCompute` | kernel/proc.c:303-484 | in every run each section of wait_lock computes from the table it found what fork, Exit and Wait promise |
| `ProcessTable.Reparent` | kernel/proc.c:375-385 | exactly the children of p become init's, and init is woken exactly if there are any |
| `ProcessTable.Exit` | kernel/proc.c:390-436 | panics exactly for init; otherwise children go to init, p is a zombie and whoever now has a zombie child was woken or had one |
| `ProcessTable.Wait` | kernel/proc.c:440-484 | reaps the first zombie child exactly if there is one and its status can be copied out, sleeps exactly with a child, no zombie child and no kill, and fails otherwise |
| `VirtioRing.Disk.constructor` | kernel/virtio_disk.c:135-138 | all descriptors start free |
| `VirtioRing.Disk.AllocDesc` | kernel/virtio_disk.c:143-154 | takes the first free descriptor |
| `VirtioRing.Disk.FreeDesc` | kernel/virtio_disk.c:156-170 | frees a descriptor and panics exactly if it is free or out of range |
| `VirtioRing.Disk.Alloc3` | kernel/virtio_disk.c:187-201 | takes three different free descriptors exactly if there are three, and otherwise none |
| `VirtioRing.Disk.Submit` | kernel/virtio_disk.c:203-269 | a request gets a chain disjoint from all others and an avail entry; no unconsumed entry is overwritten |
| `VirtioRing.Disk.RequestLaid` | kernel/virtio_disk.c:223-257 | the device finds each request in three descriptors in use: 16 bytes to read, 1024 bytes of the buffer to write for a read and to read for a write, and a status byte to write |
| `VirtioRing.Disk.RequestsApart` | kernel/virtio_disk.c:187-265 | two requests share no descriptor and no buffer |
| `VirtioRing.Disk.Format` | kernel/virtio_disk.c:223-257 | the three descriptors are laid out and linked, and the buffer recorded |
| `VirtioRing.Disk.Offer` | kernel/virtio_disk.c:259-265 | the entry goes to the next place of the avail ring, across 16-bit wraparound |
| `VirtioRing.Disk.DeviceTake` | kernel/virtio_disk.c:41-54 | the device takes the oldest unconsumed request exactly when the indices differ |
| `VirtioRing.Disk.DeviceReport` | kernel/virtio_disk.c:50-54 | any taken request may be reported next, with any status; no unseen used entry is overwritten |
| `VirtioRing.Disk.Intr` | kernel/virtio_disk.c:282-315 | the handler sees the used entries in order up to the first that failed, on which it panics, and clears disk on exactly the buffers whose entries it has seen |
| `VirtioRing.Disk.SeeNext` | kernel/virtio_disk.c:300-312 | a used entry leads to the buffer that issued the request; panics exactly on a status other than 0 |
| `VirtioRing.Disk.FreeChain` | kernel/virtio_disk.c:172-185 | frees the three descriptors of a chain and does not panic |
| `VirtioRing.Disk.Finish` | kernel/virtio_disk.c:271-279 | the chain of an answered request, and nothing else, becomes free |
| `VirtioRing.Disk.Forget` | kernel/virtio_disk.c:156-170 | freeing the chain of a request ends it and keeps every other |
| `VirtioRing.QueuePush` | kernel/virtio_disk.c:259-265 | an entry at the 16-bit index overwrites none still in the queue |
| `VirtioRing.QueuePop` | kernel/virtio_disk.c:300-311 | the entry at the other index is the oldest in the queue |
| `VirtioRing.QueueEmpty` | kernel/virtio_disk.c:300-300 | the 16-bit indices are equal exactly when the queue is empty |
| `PageTable.PageTable.constructor` | kernel/vm.c:295-303 | an empty root table maps nothing |
| `PageTable.PageTable.Walk` | kernel/vm.c:82-100 | finds or creates the level-0 table of a page and changes no page's PTE; with alloc it fails exactly if fewer pages are free than tables are missing, without alloc exactly if one is missing; panics exactly at MAXVA; says how many tables every other page then lacks |
| `PageTable.PageTable.AddTable` | kernel/vm.c:92-97 | a zeroed page taken from the free list becomes a table; no PTE changes |
| `PageTable.PageTable.MapOne` | kernel/vm.c:163-169 | maps one page and changes no other; panics exactly on a present one or at MAXVA, and otherwise fails exactly if fewer pages are free than tables are missing |
| `PageTable.PageTable.Mappages` | kernel/vm.c:156-176 | maps exactly the requested range to consecutive physical pages, or the part of it before a failure: a panic exactly if the next page is present or at MAXVA, and lack of memory exactly if the tables that the range lacks up to that page exceed the free pages; so it succeeds if no page is present, all are below MAXVA and the missing tables fit |
| `PageTable.PageTable.MapNext` | kernel/vm.c:163-175 | one round of the loop extends the mapped part, or ends it with the exact reason |
| `PageTable.MapsAll` | kernel/vm.c:156-176 | with room for the tables that the range lacks, no page present and all below MAXVA, there is no way for mappages to stop early |
| `PageTable.PageTable.StoreLeaf` | kernel/vm.c:169-169 | storing a PTE changes that page alone |
| `PageTable.PageTable.Unmap` | kernel/vm.c:238-277 | clears exactly the range, and panics exactly if a page of it is neither present nor paged out, or at MAXVA |
| `PageTable.PageTable.FreeWalk` | kernel/vm.c:461-477 | frees a table and every table below it, once each, and panics exactly if a page is still mapped under it |
| `PageTable.PageTable.Uvmfree` | kernel/vm.c:481-487 | afterwards no table is left and the free list holds exactly the old free pages and the old tables, each once; panics exactly if a page below sz is not mapped or one above it is |
| `PageTable.SlotsDiffer` | kernel/vm.c:82-100 | pages below MAXVA that share a PTE slot are the same page |
| `PageTable.PxDetermine` | kernel/vm.c:76-88 | the three indices determine the page |
| `PageTable.PxIs` | kernel/vm.c:76-88 | the three indices are the digits of the page number in base 512 |
| `PageTable.LeafFlat` | kernel/vm.c:99-99 | a store through the slot of a page changes the flat map there alone |
| `PageTable.TableFlat` | kernel/vm.c:92-97 | a new table leaves the flat map unchanged |
| `PageTable.PrunedTree` | kernel/vm.c:461-477 | a partly freed table still is a tree |
| `PageTable.MissingAdded` | kernel/vm.c:86-97 | a table added on the way down is one missing less |
| `PageTable.MissingElsewhere` | kernel/vm.c:86-97 | how many tables any other page lacks after a table was added |
| `PageTable.NoLeavesNext` | kernel/vm.c:464-474 | an entry of a table adds nothing mapped exactly if it is not valid or leads to a table under which nothing is mapped |
| `PageTable.NothingMapped` | kernel/vm.c:461-477 | if no page is present, no table has a leaf, so that freewalk does not panic |
| `Grep.Match` | user/grep.c:70-80 | true exactly if the pattern reads the text from some position, or from the start after a leading ^ |
| `Grep.MatchHere` | user/grep.c:82-94 | true exactly if the text starts with pieces that fit the items of the pattern |
| `Grep.MatchStar` | user/grep.c:96-104 | true exactly if the text starts with a run of c followed by the rest of the pattern |
| `Grep.PlainPattern` | user/grep.c:82-94 | a pattern without special characters matches exactly the texts that start with it |
| `Grep.SinglePattern` | user/grep.c:91-92 | a dot stands for any one character and any other for itself |
| `Grep.StarPattern` | user/grep.c:96-104 | a starred character stands for any number of them, none included |
| `Grep.EndPattern` | user/grep.c:89-90 | a final dollar stands for the end of the text |
| `Grep.ReadsOne` | user/grep.c:91-92 | reading a single-character item |
| `Grep.ReadsStar` | user/grep.c:96-104 | reading a starred item |
| `Grep.ReadsEnd` | user/grep.c:89-90 | a final $ reads only the end of the text |
| `Pipe.Pipe.constructor` | kernel/pipe.c:31-37 | a new pipe is empty and open at both ends |
| `Pipe.Pipe.Write` | kernel/pipe.c:76-103 | appends src in order until it is done, full, closed or a copy fails, each reported exactly |
| `Pipe.Pipe.Append` | kernel/pipe.c:95-95 | a byte goes in without overwriting one that is still to be read, across 32-bit wraparound |
| `Pipe.Pipe.Read` | kernel/pipe.c:105-130 | returns the next written bytes in order, up to n or until empty; sleeps exactly on an empty open pipe |
| `Pipe.Pipe.Take` | kernel/pipe.c:123-123 | the byte taken is the oldest unread one |
| `Pipe.Pipe.Close` | kernel/pipe.c:58-74 | closes one end and frees the pipe exactly when both are closed |
| `Pipe.CountsTell` | kernel/pipe.c:88-113 | the wrapped counts tell full and empty from all other states |
| `ParkMiller.DoRand` | user/grind.c:16-40 | the result plus one is 16807 * (ctx mod 0x7ffffffe + 1) mod (2^31 - 1) |
| `ParkMiller.Schrage` | user/grind.c:29-35 | Schrage's step is exact and its products fit in 31 bits |
| `ParkMiller.Injective` | user/grind.c:16-40 | the step is injective on the range |
| `ParkMiller.Onto` | user/grind.c:16-40 | every number of the range has a predecessor in it |

## Left out

- Directories, path names, inode allocation and reference counts (kernel/fs.c:196-370, kernel/fs.c:520-680): they would add easy members.
- The byte layout of struct dinode: FileSystem keeps inodes as records, and Iupdate says which block is logged.
- FileSystem and LogLayer are not joined in one object: FileSystem works on the latest contents of blocks, which BufferCache and LogLayer show the cache to keep; CrashSafety joins it to the disk writes of RedoLog.
- FileSystem.Disk.constructor: takes the image with its invariant; CrashSafety.Mount shows which image a recovered disk gives.
- FileSystem.Disk.Begin: covers an operation that finds the log empty; operations that share a transaction follow one another in FileSystem.Run, without a Begin between them.
- CrashSafety.Transact: the operations of a transaction follow one another, as inode locks arrange for one file, and the header lists the logged blocks in any order. Buffers run out in the commit only: that a bread inside an operation may find all of them pinned by logged blocks or held by readers is not modelled.
- FileSystem.Disk.LogWrite: notes the panic and goes on, and the operation that called it then ends in that panic; nothing of its state is used afterwards.
- Copies to and from user memory in readi and writei that fail part way (kernel/fs.c:500-503).
- fork's copy of the swap file, exec and wait as they affect tracked pages, and the lazy allocation build (NONE): runs of PagedProcess consist of accesses, sbrk and timer ticks of one process.
- PagedProcess.Process.constructor: takes a state that satisfies the invariant; exec's loading of the image is not modelled.
- PagedProcess.Process.Run: with fewer than 34 frames it counts frames but not which pages are paged out, so that it says where an access may panic; Step says exactly when it does.
- PagedProcess.Process.Copyin: copies whole pages; a range that starts or ends inside a page touches the same pages.
- PagedProcess.Process.Copyout: copies whole pages, like Copyin.
- uvmalloc's failure inside mappages (kernel/vm.c:366-370): pages below 32 share one table page, which exists from the first page on.
- PageTable.PageTable.Unmap: does not free the mapped physical pages; Paging models their frames.
- PageTable.PageTable.Mappages: takes page numbers, so that an unaligned va or a size of 0 is not modelled.
- LogLayer.Log.constructor: leaves the recovery of initlog to Recover; Initlog is both.
- LogLayer.Log.Commit: runs while no other process has a buffer locked, with any references by others that do not change meanwhile. The committing flag keeps other transactions out, but kernel/file.c:120-124 reads files outside transactions, so a reader may lock a buffer during a commit, which then waits for it. The two bread calls of a round are one step.
- LogLayer.Log.EndOp: its wakeup is a result; LogQueue shows that no sleeper is missed.
- LogLayer.Log.EndCommit: its wakeup is a result, like that of EndOp.
- LogQueue: log_write's panic, and the reservation, which LogSpace has; log.lh.n becomes 0 in the section that clears committing, since nobody reads it before.
- LogLayer.Log.Recover: when it succeeds is stated for a boot, when no other process runs.
- BufferCache.Cache.Bread: without interference; Bget, Lock and Fill are its separate steps.
- BufferCache.Cache.Brelse: without interference; Unlock and PutBack are its separate steps.
- HeapAllocator.Heap.Malloc: where it is not exact, what happens to the heap is shown for one input, in ZeroCore.
- SleepWakeup: scheduling and fairness; a step that wakes one process stands for the short critical section on its p->lock.
- ProcessTable: p->lock only where it orders steps across processes (wait against a child that has not left exit); pids do not wrap; what exit does before it takes wait_lock, and memory of processes.
- VirtioRing: memory barriers and interrupt acknowledgement.
- VirtioRing.Disk.Alloc3: its loops over three descriptors are written out.
- Pipe.Pipe.Write: the wakeups it issues; a call that has to sleep returns and goes on with another call.
- grep's line buffer, printing and argument handling; printf, console, traps, boot, PLIC, UART and spinlock internals.
- kernel/queue.c and kernel/ramdisk.c, which the kernel does not build.

# Verified models of the systems assignments

Dafny models of the cores of four systems assignments, with proofs of what they are for. `dafny verify
dfyconfig.toml` checks everything. Code that works step by step on memory, files, lists and buffers is modelled
as classes, arrays and loops, each proved against a specification function; what the code promises is then proved
about that function.

- **WeensyOS memory (pset4).** `PageTable` has the table walk, the range map and the lookup over a flat array of
  8-byte cells. The tree invariant (entries stay in range, no table is reached twice, inner entries carry P, W and
  U) makes a page table refine a plain map from page number to leaf entry. `TableShape` is the one five-table shape
  that the kernel builds. `KernelState` has page ownership, the invariant, process isolation and the assertions of
  `check_virtual_memory` and `set_pagetable`; `Loader` has which pages a program needs and when they suffice; `Kernel`
  has start-up, process set-up with the program loader, user stores, exceptions, and runs of them, event by event,
  until the kernel panics or is lost.
- **Buffered I/O (pset3).** `OsFile` is the kernel's side of a descriptor, with nondeterministic short reads and
  writes. `SlowIo61` is the reference, `Io61` the cache with its two buffers and its adaptive seek, `Io61Agreement`
  the two side by side over any sequence of operations. `Stride` (over slow-io61 for the way back), `Ostride` (the
  way back over io61.c), `ScatterGather`, `Reorder` and `Reverse` are the driver programs. `BUFSZ` is any size from 1
  up, and the uninitialised `counter` starts with any value.
- **Debugging allocator (pset1).** `M61` has the in-place doubly linked list of headers, the trailers, the
  statistics modulo 2^64, and the table of the three heaviest sites, over any run of the four calls.
- **Parsers and a formatter.** `HttpResponse` (pset6) is the incremental header parser, `ShellToken` (pset5) the
  shell tokenizer, `Printf` (pset4) the format parser, number formatting and
  the bounded string printer.

`Basics` and `Modular` hold what they share.

## Where the code and its documentation part

The models follow the code. Each of these is stated exactly:

- `virtual_memory_lookup` masks with W and U only every other level. It reports the flags the processor uses only
  because every inner entry is open (`PageTable.ReportedWExact`, `PageTable.ReportedUExact`, `PageTable.ReportedWOverstates`).
- The page-allocation call accepts any address. One that names a kernel page, directly or folded from 2^48 up,
  replaces the kernel's mapping while ownership stays intact. The kernel panics at once if the page is one that
  `set_pagetable` looks up. Otherwise it goes on through a table in which it does not find itself: the model calls it
  lost and promises nothing from there on (`Kernel.PageAllocConfined`, `Kernel.Kernel.Exception`, `Kernel.Kernel.Run`).
- `virtual_memory_map` starts its cached index with -1, which is also the truncated index of some addresses above
  2^48: their table is not looked up, so mapping there fails at once and unmapping does nothing
  (`PageTable.PhysicalMemory.Map`).
- A read-only segment is protected on its first page only; its other pages stay writable
  (`Kernel.Kernel.LoadSegment`).
- `io61_seek` takes a neighbour of the last position for a step and aligns it. For a writer that is harmless exactly
  when the bytes that the buffer holds before the position are those of the file (`Io61Agreement.SeekThenWrite`). A
  seek to -1 succeeds because lseek's error value equals the position, and a negative neighbour is rounded up to block
  0 (`Io61Agreement.SeekThenRead`).
- After an aligned seek to or past the end of the file `io61_readc` returns a stale byte where slow-io61 reports
  end of file, and after one inside the file when the read that follows is short of the position
  (`Io61Agreement.RunCharSeekers`, `Io61Agreement.StaleReached`, `Io61Agreement.ShortWrong`).
- `ostridecat61` undoes `stridecat61` only without a ragged edge, where the last row ends inside a block that other
  columns follow (`Stride.Ostridecat`, over slow-io61). Over io61.c every step to another column must be fine as well:
  none to a neighbour of the last position inside a buffer block, and for blocks of one byte with two or more columns
  that end in the first row, the first or the second of these at a block start. Strides of 1 or of the whole file are
  harmless; for every other case some file does not come back (`Ostride.ThereAndBack`, `Ostride.LostOriginal`), four
  bytes in strides of two among them (`Ostride.FourBytes`).
- `reordercat61` copies every file right exactly for block sizes with which no two blocks start next to each other
  modulo 2^32, as positions are compared after truncation to 32 bits (`Reorder.ReorderFresh`, `Reorder.ReorderWrong`).
  Block size 1 fails from three bytes on.
- `m61_realloc` frees the old block even when the new one cannot be allocated, and `m61_calloc` refuses a request
  with exactly one factor zero and can miss a product that wraps (`M61.GuardCases`, `M61.GuardMisses`). The heavy-hitter
  table is exact only for up to three sites and can miss the heaviest of four (`M61.Allocator.ExactTable`,
  `M61.HeaviestMissed`).
- The redirection branch of `parse_shell_token` skips one character after the second number, the NUL included
  (`ShellToken.PastTheEnd`).
- The caller of the header parser clears the buffer before each read. That is harmless exactly when the last read
  ended at the end of a line (`HttpResponse.ClearingHarmless`, `HttpResponse.ClearingLosesLength`).
- `vsnprintf` returns the number of characters stored, not the length of the whole output.

## Model

| member | source | states |
|---|---|---|
| PageTable.PageIndexIsPath | pset4/x86-64.h:29-37 | the nine-bit field of an address at each level is the corresponding index of its page number |
| PageTable.NumberPath | pset4/x86-64.h:29-37 | a page number below 2^36 is recovered from its four indices |
| PageTable.PathNumber | pset4/x86-64.h:29-37 | four indices are recovered from the page number they make up |
| PageTable.PathsDiffer | pset4/k-hardware.c:326-330 | different pages have different indices, and share a level-4 table exactly when the cached index (all but nine bits) is the same |
| PageTable.FrameFlags | pset4/x86-64.h:42-49 | address, flags and page number of an entry built from a page address and flags |
| PageTable.ClearWUFlags | pset4/k-hardware.c:380 | the masking step of the lookup clears W and U exactly where the mask has them and touches nothing else |
| PageTable.LeafWrite | pset4/k-hardware.c:331-334 | storing a leaf entry through its level-4 table keeps the tree and all tables and changes the translation of exactly one page |
| PageTable.Link | pset4/k-hardware.c:346-356 | linking a fresh, cleared table keeps the tree (in range, no aliasing, open inner entries), every old table and every translation; the new table is the only new one |
| PageTable.PhysicalMemory.ClearPage | pset4/k-hardware.c:355 | clears one page and no other |
| PageTable.PhysicalMemory.AllocateTable | pset4/k-hardware.c:346-356 | the allocating branch: the page is the allocator's next answer; the tree grows by it, no translation changes, NULL changes nothing |
| PageTable.PhysicalMemory.LookupL4 | pset4/k-hardware.c:341-369 | returns the level-4 table of the address, or NULL exactly when it is missing and PTE_P or the allocator is, or the last of at most three calls to the allocator was refused; adds tables only from the allocator's answers |
| PageTable.PhysicalMemory.Map | pset4/k-hardware.c:309-339 | the table stays a tree; the pages it got through (all of them for 0, a proper prefix for -1) are mapped and every other translation is unchanged; only tables of the tree and allocated pages are written; with an allocator -1 only after it refused, so three answers for each level-4 table suffice; without one -1 exactly when the next page has no level-4 table; for the one first index that is the loop's initial one a present mapping fails at once and an unmapping leaves all as it was, as its table is never looked up |
| PageTable.InitialIndexLast | pset4/k-hardware.c:325-330 | a range whose first index is the loop's initial one lies in the last level-4 table of an address space, so all of it has that index |
| PageTable.MapTranslates | pset4/k-hardware.c:287-290 | for every address modulo 2^48: inside the range it translates to pa+X with exactly perm (to nothing without PTE_P), outside it translates as before |
| PageTable.PhysicalMemory.Lookup | pset4/k-hardware.c:376-390 | on any table that stays inside physical memory: unmapped exactly when the leaf is not present, otherwise frame, offset and the flags that the alternating mask reports; on a tree exactly the leaf entry |
| PageTable.ReportedFlagsInTree | pset4/k-hardware.c:354-355 | when every present inner entry carries P, W and U, the reported W and U are the conjunction of the four entries (section 4.6 of the Intel SDM, Volume 3A) |
| PageTable.ReportedWExact | pset4/k-hardware.c:379-382 | for arbitrary tables the reported W is the conjunction if and only if the stated condition on the four W flags holds |
| PageTable.ReportedUExact | pset4/k-hardware.c:379-382 | the same for U |
| PageTable.AddressParts | pset4/x86-64.h:29-37 | an address from 2^48 up has the indices of the address it folds onto |
| PageTable.ReportedWOverstates | pset4/k-hardware.c:379-382 | a concrete table on which the lookup reports a writable page that the processor would not write |
| TableShape.ShapeTree | pset4/k-hardware.c:268-279 | the five-table shape is a tree with exactly those five tables |
| TableShape.ShapeLeaf | pset4/k-hardware.c:268-279 | the walk of such a table ends in one of its two level-4 tables |
| TableShape.MapTable | pset4/k-hardware.c:309-339 | a map or unmapping without an allocator on such a table: -1 exactly when a present mapping reaches past 4 MB (modulo 2^48); exactly the leaves of the range below 4 MB change, and only in the two level-4 tables |
| TableShape.InitialIndexHigh | pset4/k-hardware.c:325-330 | the one index that the loop takes for its initial -1 is far above those 4 MB |
| KernelState.Isolation | pset4/kernel.c:416-435 | in every state of the invariant: a user-accessible page of a process other than the console is owned by it, is reachable by no other process and is no page table of any process or of the kernel |
| KernelState.UserReachesOwn | pset4/kernel.c:416-435 | such a page is owned by the process and is none of its tables |
| KernelState.ClaimInv | pset4/kernel.c:224-234 | giving a free page to a live process keeps the invariant |
| KernelState.OwnStep | pset4/kernel.c:145-194 | a step that writes only own and free pages leaves pages, descriptor and tables of every other owner untouched |
| KernelState.OthersTrans | pset4/kernel.c:145-194 | being untouched composes over steps |
| KernelState.UntouchedView | pset4/kernel.c:145-194 | a process that was left untouched translates every address as before and finds the same words there |
| KernelState.OtherTables | pset4/kernel.c:416-435 | writes to pages of one process keep page ownership, the kernel table and every other process table |
| KernelState.InitialTableOk | pset4/kernel.c:166-193 | the table that set-up builds gives user code only the console and maps the whole kernel |
| KernelState.KernelTableMapped | pset4/kernel.c:544-564 | the kernel's own table passes check_page_table_mappings |
| KernelState.OwnershipFromShape | pset4/kernel.c:592-607 | a table whose five pages are owned passes the recursive ownership check |
| KernelState.CheckPasses | pset4/kernel.c:614-643 | under the invariant every assertion of check_virtual_memory holds if and only if every live process maps the kernel, its data and stack writable |
| KernelState.PageAllocMapped | pset4/kernel.c:416-435 | a page allocation keeps that, for the check and for the process's own table, if and only if the page number that the indices of the address name is not a kernel page |
| KernelState.PageAllocSettable | pset4/k-hardware.c:398-409 | after a page allocation the assertions of set_pagetable hold for the process if and only if it did not ask for one of the three pages they look up |
| KernelState.MappedSettable | pset4/k-hardware.c:398-409 | they hold for every table that maps the kernel |
| KernelState.FinishLoading | pset4/kernel.c:216 | marking the loaded process runnable establishes the invariant for it |
| Kernel.InitKernelTable | pset4/k-hardware.c:268-284 | after virtual_memory_init and the two maps of kernel(): identity map, user access only from PROC_START_ADDR up and on the console |
| Kernel.CopyPage | pset4/kernel.c:138-143 | copies one page and changes no other |
| Kernel.LinkTables | pset4/kernel.c:166-192 | five cleared pages become a table that agrees with the kernel's below PROC_START_ADDR and is empty from there to 4 MB; only those pages change |
| Kernel.Kernel.constructor | pset4/kernel.c:83-95 | the machine after start-up satisfies the invariant and passes the check |
| Kernel.Kernel.PageinfoInit | pset4/kernel.c:522-537 | every page is reserved, kernel or free, with the matching count |
| Kernel.Kernel.UseAnyPhysicalPage | pset4/kernel.c:125-132 | the lowest free page, or -1 exactly when none is free |
| Kernel.Kernel.AssignPhysicalPage | pset4/kernel.c:224-234 | succeeds exactly for an aligned, existing, free page, which alone changes owner |
| Kernel.Kernel.ClaimCleared | pset4/kernel.c:147-149 | takes, assigns and clears the lowest free page; fails exactly without one |
| Kernel.Kernel.ClaimTables | pset4/kernel.c:147-164 | five distinct cleared pages, the lowest ones, with one owner, or as many as there are; other owners untouched |
| Kernel.Kernel.SetupPagetable | pset4/kernel.c:145-194 | exactly with five free pages, the lowest of which it takes, the table agrees with the kernel below PROC_START_ADDR and is unmapped up to 4 MB, its pages belong to the process, and nothing of any other owner changes |
| Kernel.Kernel.LoadOne | pset4/k-loader.c:86-92 | one page of a segment: owned and mapped to itself if and only if it exists and is free, else -1 and no change |
| Kernel.Kernel.LoadPages | pset4/k-loader.c:86-92 | all pages of the segment are owned and mapped to themselves if and only if all of them exist and are free |
| Kernel.Kernel.WriteImage | pset4/k-loader.c:98-99 | the image is in place and zeros follow it; everything else is as before |
| Kernel.Kernel.LoadSegment | pset4/k-loader.c:78-108 | succeeds if and only if the pages of the segment are free; then image and pages are in place, the first page read-only if the segment is not writable |
| Kernel.Kernel.LoadProgram | pset4/k-loader.c:48-68 | succeeds if and only if the pages of all segments are free and no two segments share one; then every segment is in place and exactly those pages were taken; other owners untouched |
| Kernel.Kernel.MapStack | pset4/kernel.c:210-215 | if and only if a page is free, the lowest one is claimed and mapped at the top of virtual memory, and the program stays in place |
| Kernel.Kernel.ProcessSetup | pset4/kernel.c:202-217 | succeeds if and only if there are five pages for tables, then the program's pages and one for the stack; then the program is in place, the process runnable, the invariant and the check hold, and no other process is touched |
| Kernel.Kernel.Boot | pset4/kernel.c:108-117 | succeeds if and only if every process_setup in turn finds its pages; then all programs are in place, processes 1..n runnable, the rest free, process 1 runs, invariant and check hold |
| Loader.FitsMore | pset4/k-loader.c:48-68 | a program and one more segment fit exactly when the segment's pages are free after the program was loaded |
| Loader.SegmentKept | pset4/k-loader.c:86-99 | a loaded segment stays in place while other pages are loaded |
| Loader.BootFitsHigh | pset4/kernel.c:108-117 | any programs from PROC_START_ADDR up without a shared page boot as long as six pages each are free below |
| Loader.BootableHigh | pset4/kernel.c:83-117 | after pageinfo_init up to fifteen such programs boot, wherever the kernel ends |
| Kernel.Start | pset4/kernel.c:76-118 | so from power-up they all come to run: running states exist |
| Kernel.Kernel.UserStore | pset4/x86-64.h:47-49 | a user store faults exactly when the translation lacks P, W or U; otherwise it changes one word, keeps the invariant and leaves other processes untouched |
| Kernel.Kernel.CheckMappings | pset4/kernel.c:544-564 | passes if and only if every kernel page is identity-mapped, those from start_data up and the stack writable |
| Kernel.Kernel.CheckLevel | pset4/kernel.c:592-607 | the recursion over table pages passes if and only if each has the owner and count |
| Kernel.Kernel.CheckMemory | pset4/kernel.c:614-643 | check_virtual_memory passes if and only if all its assertions hold |
| Kernel.Kernel.SetPagetable | pset4/k-hardware.c:398-409 | passes if and only if its four assertions hold |
| Kernel.Kernel.RunProcess | pset4/kernel.c:505-517 | the process becomes current; the kernel panics if and only if its table fails set_pagetable, is lost if and only if it passes but does not map the kernel, and runs the process otherwise |
| Kernel.Kernel.Schedule | pset4/kernel.c:488-497 | the first runnable process after the current one in cyclic order, which runs, panics or loses the kernel as its table decides; spins exactly when none is runnable |
| Kernel.NextNearest | pset4/kernel.c:488-497 | the process that schedule picks is the one of the runnable processes that comes first after the current one |
| Kernel.Kernel.PageAlloc | pset4/kernel.c:416-435 | for any address: rax -1 and nothing else when memory is full; otherwise the lowest free page is given and mapped at the page the address names, or the kernel panics on an unaligned one |
| Kernel.PageAllocConfined | pset4/kernel.c:416-435 | no other owner is touched; when it is granted, the next check passes, and the kernel finds itself in the process's table, if and only if it was not for a kernel page; set_pagetable passes if and only if it was not for a page that it looks up |
| Kernel.Kernel.Handle | pset4/kernel.c:401-481 | for each exception the new state, who runs next, and exactly when it panics and when the kernel is lost |
| Kernel.Kernel.Exception | pset4/kernel.c:378-481 | lost if and only if the kernel is not mapped where the trap comes in, or the trap is a granted request for a kernel page that set_pagetable does not look up; otherwise it panics if and only if the trap does by itself, or check_virtual_memory fails, or a granted page request has an unaligned address or replaces a page that set_pagetable asserts; unless lost: the new state, who runs next, invariant and confinement to the current process |
| Kernel.Kernel.Step | pset4/kernel.c:378-517 | exactly what one event does, unless it loses the kernel: a store changes the one word its address translates to, if that is open to it; a trap sets the process's rax, gives it a page, breaks it or panics, and the nearest runnable process goes on, or none is runnable; invariant and confinement to the current process; an exception is survived only with the kernel mapped before and after it |
| Kernel.Kernel.Run | pset4/kernel.c:378-517 | over any run of stores and exceptions the machines before the events are linked by that relation from start to end, and only the last event that happens can end the run, by a panic, a lost kernel or nothing runnable; every machine meets the invariant and processes that never ran are untouched; without requests for kernel pages the kernel is not lost, the check passes at the end and only events that panic by themselves do; while memory lasts no run goes on after a request for a kernel page |
| OsFile.WriteAtByte | pset3/slow-io61.c:84-91 | every byte of a file after a write, zero-filled gap included |
| OsFile.WriteAtTwice | pset3/slow-io61.c:99-110 | two adjacent writes are one |
| OsFile.File.Read | pset3/io61.c:101 | a read may be short but is empty only at end of file |
| SlowIo61.SlowHandle.Readc | pset3/slow-io61.c:48-54 | the byte at the offset, or -1 at end of file |
| SlowIo61.SlowHandle.Read | pset3/slow-io61.c:64-77 | byte by byte, exactly the bytes from the offset |
| SlowIo61.SlowHandle.Write | pset3/slow-io61.c:99-110 | byte by byte, the write of the whole block at the offset |
| SlowIo61.SlowHandle.Seek | pset3/slow-io61.c:128-134 | moves for positions from 0 up; -1 counts as a success that moves nothing |
| Io61.AlignedBelow | pset3/io61.c:226 | where the aligned position lies, for negative positions too |
| Io61.CachedHandle.CopyOut | pset3/io61.c:93-99 | copies cached bytes and keeps the cache invariant |
| Io61.CachedHandle.Refill | pset3/io61.c:100-107 | after any short read the cache holds the file's bytes from the old end; empty only at end of file |
| Io61.CachedHandle.Read | pset3/io61.c:90-110 | for every pattern of short reads exactly the bytes from the position; the loop terminates; also after a seek to -1 has shifted the tags |
| Io61.CachedHandle.FlushBlocks | pset3/io61.c:177-188 | the cached bytes are written at the tag and the cache is empty |
| Io61.CachedHandle.StoreBlock | pset3/io61.c:150-166 | one round: the block joins what is to be written |
| Io61.CachedHandle.Write | pset3/io61.c:146-169 | the file as it will be after a flush is the old one with the block written at the position; how much the buffer holds afterwards, and its first byte, which is the first of the last chunk that started at the front of the buffer |
| Io61.CachedHandle.CloseBlocks | pset3/io61.c:50-53 | the file is what was promised |
| Io61.CachedHandle.SeekRead | pset3/io61.c:222-243 | for a sound position the status of slow-io61 and an intact cache at that position; for the others, all negative, where the tags end up; which bytes stay cached |
| Io61.CachedHandle.MoveDescriptor | pset3/io61.c:225-242 | the lseek part for a flushed writer: descriptor, tags and status for every position |
| Io61.CachedHandle.SeekWrite | pset3/io61.c:222-243 | a writer's seek flushes, and moves descriptor and tags to the position, or to the start of its block for a neighbour of the last one |
| Io61.CachedHandle.RefillChars | pset3/io61.c:71-79 | the read of io61_readc: the buffer has what was read in front and keeps what it held behind it |
| Io61.CachedHandle.Readc | pset3/io61.c:63-80 | for every short read: the byte at the position when cached or just read; EOF exactly at the end of the file with nothing cached; otherwise the byte that the buffer held there before; what the buffer holds afterwards; one read exactly when the cache is used up |
| Io61.CachedHandle.DrainSome | pset3/io61.c:122-134 | a short write of a full ring keeps what will be written and makes room |
| Io61.CachedHandle.Append | pset3/io61.c:135-137 | a character joins the ring, across its wrap |
| Io61.CachedHandle.Writec | pset3/io61.c:117-138 | the file as it will be after close gains exactly this character |
| Io61.CachedHandle.FlushRound | pset3/io61.c:190-207 | a round, the zero-length write included, keeps what will be written and decreases (cache_size, first) |
| Io61.CachedHandle.FlushChars | pset3/io61.c:177-215 | after close the file holds exactly the characters in order; the loop terminates |
| Io61Agreement.RunReaders | pset3/io61.c:90-110 | for every sequence of reads and sound seeks, short reads and first counter, both libraries reply with what the file has at each position |
| Io61Agreement.RunWriters | pset3/io61.c:146-188 | for every sequence of writes, flushes and sound seeks and a close, both libraries return the counts and statuses, and leave the file that the writes make one after the other at their positions |
| Io61Agreement.SeekThenRead | pset3/io61.c:222-243 | slow-io61 gives the bytes at the position, and a reader's seek and the read after it agree with it if and only if the position is not negative, or is not rounded up to block 0 and, for -1, the bytes at the descriptor are those at the position |
| Io61Agreement.SeekThenWrite | pset3/io61.c:222-243 | slow-io61 writes at the position, and a writer's seek, a non-empty write and a close leave its status and file if and only if the seek is to no neighbour or the buffer holds, before the position, what the zero-extended file has there; for a negative position, if it is not rounded up to block 0 and the writes at descriptor and position coincide |
| Io61Agreement.StaleHarmless | pset3/io61.c:225-231 | writing a block's start again changes nothing if and only if those bytes were there already |
| Io61Agreement.RunCharReaders | pset3/io61.c:63-80 | for every pattern of short reads, reading characters one by one gives the bytes of the file from the position on and -1 behind its end |
| Io61Agreement.CharStep | pset3/io61.c:63-80 | one character on both, in any state and for any short read: they differ exactly when the read ends before the position and the buffer keeps another byte there than the file has; on full reads exactly past the end of the file |
| Io61Agreement.RunCharSeekers | pset3/io61.c:63-80 | any sequence of character reads and forward seeks: slow-io61 replies with what the file has, and for whatever numbers of bytes the reads deliver the library does if and only if no read leaves off before the position with another byte in the buffer than the file has there; on full reads, if and only if no character is asked for with the position at or past the end of the file and the descriptor before it |
| Io61Agreement.ExactClean | pset3/io61.c:225-231 | when every seek goes to its position and not to the start of its block, that never happens, however short the reads are |
| Io61Agreement.StaleReached | pset3/io61.c:225-231 | on full reads it does from any first counter, by seeks to the end of a file and one further, inside a block |
| Io61Agreement.ShortWrong | pset3/io61.c:225-231 | and on short reads inside the file, by seeks to two neighbours inside a block, exactly when the read delivers too little and the buffer has another byte there |
| Io61Agreement.RunCharWriters | pset3/io61.c:117-138 | for every pattern of short writes, writing characters one by one and closing leaves their low bytes at the position, with both libraries |
| Io61Agreement.ForwardReadsSound | pset3/io61.c:225-227 | every seek of a reader to a position from 0 up is sound, so it agrees |
| Io61Agreement.UnsoundSeekExample | pset3/io61.c:225-231 | a concrete writer whose file differs from that of slow-io61 |
| Stride.VisitMember | pset3/stridecat61.c:37-55 | the positions still to be visited are exactly those not visited |
| Stride.VisitDistinct | pset3/stridecat61.c:37-55 | no position is visited twice |
| Stride.VisitInOrder | pset3/stridecat61.c:37-55 | positions are visited column of blocks by column of blocks, and down each column row by row |
| Stride.VisitPermutation | pset3/stridecat61.c:37-55 | the strided order visits every position of the file once, in that order |
| Stride.VisitStep | pset3/stridecat61.c:46-52 | the driver's arithmetic follows that order, and stride - pos never goes below zero |
| Stride.Stridecat | pset3/stridecat61.c:35-60 | over io61.c the output is the input in the strided order |
| Stride.WholeBlocks | pset3/ostridecat61.c:36-50 | without a ragged edge a block is cut short only when nothing follows |
| Stride.EdgeBlock | pset3/ostridecat61.c:36-50 | at a ragged edge a block is cut short although more follows |
| Stride.RestoringStep | pset3/ostridecat61.c:36-52 | one block: what was visited is restored, or the output has grown past the file |
| Stride.RestoringEnd | pset3/ostridecat61.c:36-52 | at the end the output is the original, or longer if the edge is ragged |
| Stride.Ostridecat | pset3/ostridecat61.c:35-58 | over slow-io61, given the output of stridecat61 with the same block size and stride, it writes the original if and only if the last row does not end inside a block that other columns follow; otherwise a longer file |
| Ostride.SeekOn | pset3/io61.c:222-243 | a writer's seek inside the output: what waited in the buffer is in the file, and where the seek is taken for a step, the block start that the buffer holds is promised again |
| Ostride.FineStep | pset3/ostridecat61.c:36-52 | over io61.c, when every step of the order is fine, no block promises a wrong byte |
| Ostride.BadStepTaken | pset3/io61.c:226-231 | a step to a neighbour inside a block rewrites the start of that block with a byte of another place |
| Ostride.WrongStays | pset3/io61.c:146-169 | a byte before the position stays wrong through every later write and seek |
| Ostride.SpoiltStep | pset3/ostridecat61.c:36-52 | one block: wrong once is wrong after it |
| Ostride.TrackingStep | pset3/ostridecat61.c:36-52 | one block over io61.c beside one over slow-io61: as long a file; the same file while all steps are fine, a wrong byte behind a bad one |
| Ostride.TrackingEnd | pset3/ostridecat61.c:36-58 | with every byte copied: longer with a ragged edge; else the original with fine steps, and one wrong byte for each bad one |
| Ostride.SomeBadStep | pset3/ostridecat61.c:46-52 | an order that is not fine has a bad step |
| Ostride.Ostridecat | pset3/ostridecat61.c:35-58 | over io61.c, for every first counter, given the output of stridecat61: with a ragged edge a longer file; without one the original if every step is fine, and otherwise, for each bad step, the byte of another place at the start of its buffer block |
| Ostride.ThereAndBack | pset3/ostridecat61.c:35-58 | stridecat61 and then ostridecat61 over io61.c on freshly opened handles: the original, a longer file or a wrong byte by the same conditions |
| Ostride.LostOriginal | pset3/ostridecat61.c:35-58 | whenever the edge is not ragged and a step is not fine there is a file of that length that does not come back |
| Ostride.SmallColumns | pset3/io61.c:227 | up to 2 GB the steps to columns are sound if and only if not: the block is one less than the stride, there are at most two rows, and the block size is no multiple of BUFSZ |
| Ostride.FourBytes | pset3/io61.c:226-231 | four bytes, stride 2, block 1: no ragged edge, and the step from 2 to 1 is bad for every BUFSZ from 2 up |
| ScatterGather.GatherDeal | pset3/gather61.c:27-39 | gathering what was dealt with the same block size gives the input back, for any length and file count |
| ScatterGather.DealtByte | pset3/scatter61.c:28-35 | byte i goes to file (i / b) mod n, at the place behind one block for every earlier round |
| ScatterGather.DealTotal | pset3/scatter61.c:28-35 | no byte is lost and none is added |
| ScatterGather.GatheredOnce | pset3/gather61.c:27-39 | on any files the merge emits each file's bytes exactly once and in their order |
| ScatterGather.GatherDecreases | pset3/gather61.c:27-39 | every turn uses up bytes or brings the next file that has some closer |
| ScatterGather.TurnPassed | pset3/gather61.c:38 | a turn on a dead file brings the next live one closer |
| ScatterGather.DealBlocks | pset3/scatter61.c:28-35 | the copying loop hands every file its share |
| ScatterGather.Scatter | pset3/scatter61.c:27-39 | after the closes every output file is its share of the input |
| ScatterGather.ReadFrom | pset3/gather61.c:30 | reading a block from one file of many leaves the others as they were |
| ScatterGather.GatherTurn | pset3/gather61.c:29-36 | a turn keeps written plus remaining equal to the merge and makes progress |
| ScatterGather.Gather | pset3/gather61.c:26-41 | for any files the output is their merge, and the loop terminates |
| Reorder.Blocks | pset3/reordercat61.c:40-51 | the error exits and the initial block positions |
| Reorder.TakeBlock | pset3/reordercat61.c:56-59 | takes the block at random() % nblocks and moves the last one to its place |
| Reorder.OrderPermutes | pset3/reordercat61.c:56-59 | for all random numbers each block is copied once |
| Reorder.EveryOrder | pset3/reordercat61.c:56-59 | every order of the blocks is drawn by some random numbers |
| Reorder.ReorderStep | pset3/reordercat61.c:53-68 | copied and remaining blocks stay all the blocks, each once, and those copied are in place |
| Reorder.ReorderEnd | pset3/reordercat61.c:53-68 | with nothing remaining the output is the input and each block was copied once |
| Reorder.ReorderSlow | pset3/reordercat61.c:40-71 | over slow-io61, for every block size dividing the file and all random numbers, the output is the input |
| Reorder.ReorderCached | pset3/reordercat61.c:40-71 | over io61.c, for every first counter: the output is the input if every output seek of the order drawn is sound; if only the last is known to be unsound, after a sound one, the byte at the start of its buffer block is the first byte of the last chunk of the block copied before |
| Reorder.ProgressStep | pset3/reordercat61.c:61-67 | one block, whether its seek is sound or not |
| Reorder.SafeOrder | pset3/io61.c:227 | no output seek is taken for a step to a neighbour, in any order, when no two blocks start next to each other modulo 2^32 |
| Reorder.ReorderFresh | pset3/reordercat61.c:40-71 | so for those block sizes the output is the input for all random numbers; also for a file of two bytes in blocks of one |
| Reorder.UnsafeSeek | pset3/io61.c:226-231 | if two blocks do start next to each other, the seek from block 0 to one of them is unsound and spoils a byte of another block |
| Reorder.ReorderWrong | pset3/reordercat61.c:40-71 | and for every other block size below 2^32 - 1 there are a file and random numbers for which the output is not the input; block size 1 fails from three bytes on |
| Reorder.SmallSafe | pset3/io61.c:227 | files below 4 GB in blocks of two bytes or more are safe |
| Reorder.EvenSafe | pset3/io61.c:227 | so are even block sizes |
| Reorder.LargeUnsafe | pset3/io61.c:227 | a file just over 4 GB in blocks of 257, within the driver's limit, is not |
| Reverse.SeekBackwards | pset3/reverse61.c:30 | after the seek the bytes still to be read need no more reads than the bound |
| Reverse.ReadPlaced | pset3/reverse61.c:31 | the character at the position, within the bound |
| Reverse.BlocksBelow | pset3/io61.c:226-231 | the aligned position starts the block below, which leaves one block less |
| Reverse.ReverseFile | pset3/reverse61.c:23-36 | the output is the input backwards, with at most 1 + ceil((n-1)/BUFSZ) non-empty reads up to 2 GB |
| M61.Space | pset1/m61.c:72-73 | disjoint blocks below a bound take up at most that many bytes |
| M61.NoWrap | pset1/m61.c:87-90 | so neither the number of live blocks nor their bytes can wrap |
| M61.SwapNext | pset1/m61.c:41-45 | the inner step swaps exactly when out of order |
| M61.Pass | pset1/m61.c:40-46 | a pass moves the smallest slot to the end of the unsorted part |
| M61.Heavy | pset1/m61.c:38-48 | the slots are sorted descending and rearranged only |
| M61.CountsRecorded | pset1/m61.c:107-121 | sites stay distinct, no count exceeds what its site allocated, and the sum does not exceed the total |
| M61.ExactRecorded | pset1/m61.c:107-121 | as long as a new site finds a free slot the table holds exactly the sites with their exact bytes |
| M61.FewRecorded | pset1/m61.c:107-121 | with at most three sites and no wrap a new site always does |
| M61.FewRearranged | pset1/m61.c:38-48 | sorting keeps that |
| M61.ExactFew | pset1/m61.c:107-121 | an exact table of three slots knows at most three sites |
| M61.HeaviestFirst | pset1/m61.c:38-48 | the first slot of an exact sorted table is the site that allocated most |
| M61.Allocator.ExactTable | pset1/m61.c:106-124 | while the total has not wrapped, the allocator's table is exact if and only if at most three sites have allocated |
| M61.HeaviestMissed | pset1/m61.c:112-121 | with four sites the table can miss the one that allocated most |
| M61.RecordSite | pset1/m61.c:106-124 | the table after an allocation is the recorded one, sorted |
| M61.BlockList.Push | pset1/m61.c:127-131 | the block becomes the head of a well-linked list of the live blocks |
| M61.BlockList.Unlink | pset1/m61.c:187-195 | exactly the block leaves the well-linked list |
| M61.BlockList.Check | pset1/m61.c:153-184 | on a live block the checks of links and trailer pass unless the trailer is damaged |
| M61.BlockList.LeakReport | pset1/m61.c:279-284 | enumerates the live blocks, newest first |
| M61.Allocator.Reserve | pset1/m61.c:53-84 | fails exactly for an oversized request or without memory; the size passed on never wraps |
| M61.Allocator.CountMalloc | pset1/m61.c:87-90 | statistics stay the number and bytes of the live blocks and the totals of all requests |
| M61.Allocator.WidenHeap | pset1/m61.c:92-99 | heap_min and heap_max are the lowest address and the highest end of all blocks there have been, and enclose every live one |
| M61.ExtremesReached | pset1/m61.c:92-99 | those are bounds of every block, and some block reaches each |
| M61.Allocator.Malloc | pset1/m61.c:50-138 | the new block is first in the list, described and intact; a failure changes only the failure counters |
| M61.Allocator.Free | pset1/m61.c:140-208 | NULL does nothing; a live block is freed exactly when its trailer is intact; any other pointer whose header is outside the heap, marked as freed or without its own address aborts with nothing changed, so a second free of a block aborts |
| M61.Allocator.Realloc | pset1/m61.c:216-232 | the new block, of the caller's site and recorded in the history, keeps the first min(old, new) bytes; the old block is given up even when the new one could not be had, which counts as one failure |
| M61.GuardCases | pset1/m61.c:236-239 | for a product that does not wrap the guard refuses just the requests with one factor zero |
| M61.GuardMisses | pset1/m61.c:236-239 | a product that wraps can pass the guard |
| M61.Allocator.Calloc | pset1/m61.c:234-244 | for any factors: a zeroed block, of the caller's site and recorded in the history, of the product modulo 2^64, which is the product if and only if that does not wrap, or a counted failure, exactly when the guard or malloc refuses |
| M61.Allocator.Step | pset1/m61.c:50-244 | one call or in-bounds write does what it is for to the blocks held, their bytes and sites, the history and the bytes given back, keeps everything, and does not abort |
| M61.Run | pset1/m61.c:50-244 | any run of malloc, calloc, free, realloc and in-bounds writes: every step does what its call is for, nothing aborts; list, statistics and top three are those of the blocks held; the table is exact if and only if at most three sites have allocated |
| M61.Allocator.GetStatistics | pset1/m61.c:251-262 | after any run the statistics are the number and bytes of the blocks held, the totals of all requests modulo 2^64, and the extremes of all blocks; no byte is unaccounted for |
| M61.Allocator.ReportLeaks | pset1/m61.c:279-284 | the report names each block held with the site of its call, its address and its size |
| HttpResponse.LineEndMore | pset6/pong61.c:505 | a line end stays where it is when more bytes follow |
| HttpResponse.ChunkIndependent | pset6/pong61.c:501-530 | parsing a, then a's rest with b, equals parsing a+b: state, status, length and remaining bytes, for every split |
| HttpResponse.FeedConcat | pset6/pong61.c:501-530 | any number of chunks is like one |
| HttpResponse.NothingLost | pset6/pong61.c:505-524 | the lines consumed and the remaining bytes are the input |
| HttpResponse.HeadersEnd | pset6/pong61.c:514-515 | the body starts after the first empty header line; a parser that wants more has no full line left |
| HttpResponse.HeadersMean | pset6/pong61.c:515-519 | header lines never change the status; the length is the number behind the last "Content-Length: ", unchanged when there is none |
| HttpResponse.ResponseMeans | pset6/pong61.c:507-519 | the status is the one that the first line gives, or the response is broken, and the length that of the lines behind it |
| HttpResponse.HeadersRead | pset6/pong61.c:501-530 | header lines as they were written are read as they are, and the body is what follows the empty one |
| HttpResponse.ResponseRead | pset6/pong61.c:501-530 | a response written with a status line, any header lines, an empty one and a body is read with its status, its length and its body |
| HttpResponse.ClearingHarmless | pset6/pong61.c:176-183 | clearing the buffer before the next read is harmless, whatever is read, if and only if the parse left nothing in it; among the headers even the state differs otherwise |
| HttpResponse.CalledReads | pset6/pong61.c:169-190 | every read is parsed alone behind the state that the reads before it made, until the headers end or the stream does |
| HttpResponse.CalledLineByLine | pset6/pong61.c:169-190 | if every read ends at the end of a line, the caller gets what the reads make as one chunk |
| HttpResponse.ClearingLosesLength | pset6/pong61.c:176-183 | because the caller clears the buffer before each read, a Content-Length header cut inside its name is lost, wherever it is cut |
| HttpResponse.Connection.ApplyLine | pset6/pong61.c:506-519 | what a line does to the parser's state |
| HttpResponse.Connection.MoveDown | pset6/pong61.c:520-521 | the remaining bytes move to the front |
| HttpResponse.Connection.TakeFirst | pset6/pong61.c:505-522 | takes exactly the first line out of the buffer |
| HttpResponse.Connection.ProcessHeaders | pset6/pong61.c:501-530 | the scanning loop computes the parse in place; returns 1 exactly when it wants more |
| HttpResponse.Connection.ReceiveHeaders | pset6/pong61.c:163-190 | on any stream of reads, with interrupted ones and the end: the parse with the buffer cleared before each read |
| HttpResponse.Connection.CheckBody | pset6/pong61.c:536-546 | the state after the check |
| HttpResponse.Connection.ReceiveBody | pset6/pong61.c:209-228 | on any stream of reads: done at the first read that completes Content-Length, closed at EOF with enough bytes, broken at EOF with fewer |
| ShellToken.BuildString.Push | pset5/helpers.c:14-22 | appends one character and keeps the rest, across doubling |
| ShellToken.PastTheEnd | pset5/helpers.c:58-70 | the returned pointer is past the NUL if and only if the string ends with the number of a redirection |
| ShellToken.ReadPieces | pset5/helpers.c:95-108 | every notation of a word is read as the word |
| ShellToken.LexItem | pset5/helpers.c:56-109 | every word, operator and redirection is read back, whatever follows that makes no other token of it |
| ShellToken.RoundTrip | pset5/helpers.c:44-115 | tokenizing undoes rendering for every list of words and operators in every notation, with any white space between them or none where none is needed, and a comment at the end or not, if and only if the line does not end in a redirection to a number |
| ShellToken.SkipSpaces | pset5/helpers.c:48-49 | skips exactly the spaces |
| ShellToken.TakeDigits | pset5/helpers.c:57 | takes exactly the digits |
| ShellToken.TakeRedirection | pset5/helpers.c:58-70 | the redirection branch |
| ShellToken.TakeWord | pset5/helpers.c:92-108 | the quoting loop |
| ShellToken.TakeToken | pset5/helpers.c:58-109 | the branches after the digits |
| ShellToken.ParseShellToken | pset5/helpers.c:44-115 | kind, text and end of the next token on any C string, without reading past its NUL |
| Printf.DigitsValue | pset4/lib.c:111-115 | the digits denote the number, in base 10 and 16 |
| Printf.DigitsShape | pset4/lib.c:111-115 | they are digits of the base without a leading zero |
| Printf.DigitsLength | pset4/lib.c:111-115 | a number below 10^k has at most k digits |
| Printf.FillNumbuf | pset4/lib.c:101-117 | for any 64-bit number at most 21 of the 24 bytes are used; the buffer ends in the digits and a NUL |
| Printf.NumberField | pset4/lib.c:243-271 | a number takes max(width, prefix + zeros + digits) characters |
| Printf.SignedRoundTrip | pset4/lib.c:190-271 | for every flag, width and precision a printed signed number reads back |
| Printf.UnsignedRoundTrip | pset4/lib.c:198-271 | so does an unsigned number or a pointer, in base 10 or 16, with or without its prefix |
| Printf.StringPrinter.Putc | pset4/lib.c:319-324 | what is stored stays the beginning of what was printed |
| Printf.StringPrinter.PutField | pset4/lib.c:261-271 | the five output loops print the padded field |
| Printf.StringPrinter.Print | pset4/lib.c:230-271 | a directive prints its field |
| Printf.DirectiveRead | pset4/lib.c:140-229 | every notation of a directive (flags in any order and repeated, widths and precisions in digits or as arguments, any length characters) is read as what it means |
| Printf.ParseWritten | pset4/lib.c:135-273 | parsing undoes writing for every list of characters and directives in every notation |
| Printf.PrintedAll | pset4/lib.c:131-273 | a format prints what its parts print, one after the other |
| Printf.SignedPrinted | pset4/lib.c:188-194 | "%d" with any flags, width and precision prints a number that reads back as the signed 32-bit value of its argument, with l or z as the 64-bit one, with its sign, at least as many digits as the precision asks for, and at least as wide as the width, filled with zeros when they are asked for |
| Printf.UnsignedPrinted | pset4/lib.c:195-210 | "%u", "%x", "%X" and "%p" print a number that reads back as the low 32 or all 64 bits of the argument in base 10 or 16, capitals for X only, with the prefix exactly when it is due, and digits and width as for "%d" |
| Printf.TextPrinted | pset4/lib.c:211-271 | "%s", "%c" and any other character print the first of their characters, as many as the precision allows, padded on the one side that the flags ask for |
| Printf.ColourPrinted | pset4/lib.c:214-216 | "%C" prints nothing |
| Printf.PlainPrinted | pset4/lib.c:131-135 | a character outside directives prints itself, and so does a percent sign at the end |
| Printf.SignedBitsIs | pset4/lib.c:158-189 | an argument taken as a signed number has the value of that width with the same low bits |
| Printf.ReadFlags | pset4/lib.c:141-148 | takes exactly the flags |
| Printf.ReadNumber10 | pset4/lib.c:153-155 | takes exactly the decimal digits, as their value |
| Printf.ReadWidth | pset4/lib.c:151-159 | width in digits, from an argument, or none |
| Printf.ReadPrecision | pset4/lib.c:161-173 | precision, 0 when it is empty or negative |
| Printf.ReadLength | pset4/lib.c:181-187 | any number of length characters |
| Printf.ReadDirective | pset4/lib.c:140-229 | one directive and its arguments, at the end of the format too |
| Printf.StringPrinter.PrintDirective | pset4/lib.c:140-271 | a directive of the format prints its field with its arguments |
| Printf.StringPrinter.Vprintf | pset4/lib.c:131-273 | for any format with fitting arguments the whole output is that of its directives in order |
| Printf.Vsnprintf | pset4/lib.c:326-336 | a buffer that is not empty gets the first min(size-1, length) characters of the whole output of the format and a NUL |

## Left out

- `fork` and `sys_exit` of pset4/kernel.c: as written they treat the 0/-1 result of `assign_physical_page` as a page number and index `pageinfo` with -1; isolation does not hold across them.
- The out-of-memory path of `setup_pagetable`: the code would clear memory at address -1; the model stops there.
- Kernel.Kernel.UseAnyPhysicalPage: the bound is tested before the array is read, where the code tests it after.
- PageTable.PhysicalMemory.Map: ranges that fail the code's own assertions or cross a multiple of 2^48 are outside its precondition.
- PageTable.PhysicalMemory.Lookup: page numbers are unbounded, where the macro truncates to `int`.
- Accessed and dirty bits, TLBs and large pages: the processor's walk is the model's lookup.
- Kernel.Kernel.UserStore: stores are aligned 8-byte words of the current process; loads and other state of user code do not change the machine, and the page fault of a store that is refused is an event of its own.
- Kernel.Kernel.WriteImage: segments are page-aligned, not empty, have equal physical and virtual addresses and sizes in 8-byte words.
- The positions of the kernel's page tables: pages 0x59 to 0x5D, as the constants in setup_pagetable imply; the other linker symbols are parameters.
- Registers other than the return value, the keyboard, the console, interrupt set-up and drawing.
- Errors (-1) from read, write and lseek other than a negative position, and closing descriptors.
- Mixing the character and block APIs on one handle, and short writes inside a flush: the code does not support them.
- Ostride.Ostridecat: strides from 2^32 - 1 up, and buffer sizes that do not divide 2^31.
- Kernel.Kernel.Exception: once the kernel is lost, what a replaced interrupt table, kernel stack or handler does; nothing is promised.
- Reorder.ReorderWrong: block sizes from 2^32 - 1 up, and buffer sizes that do not divide 2^32.
- Io61.CachedHandle.SeekRead: `counter - 1` is mathematical, where the code would overflow at the smallest `int`.
- The SIZE argument of the drivers: they copy the whole file; sizes do not wrap.
- M61.Allocator.Free: memory that was never a live block but holds a forged header; freed memory that the C library or the program has overwritten with one; the list of regions that an invalid free prints.
- M61.Allocator.Malloc: the file name of a call is not NULL, as the macros make it.
- HttpResponse.Connection.ProcessHeaders: sscanf and strtoul are parameters of the model.
- HttpResponse.Connection.ReceiveBody: a body longer than the buffer; the code would read past its end.
- The sockets, threads, connection table and game loop of pset6, and the process control of pset5.
- Printf.StringPrinter.Vprintf: arguments that do not fit the format, widths and precisions beyond an `int`, colours and the console printer.
- pset3/io61_2.c and the other drafts of the library, pset1/basealloc.c, the test programs and the checkers.

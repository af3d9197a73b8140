# Proofs about the STAR OS kernel

A Dafny model of the parts of the STAR OS kernel whose correctness is hardest to see from one function:
the memory stack, the locks and channels, the scheduler and the sleep queue, the compositor with its hit test,
and the readers and writers of device trees, transport frames, files and time.

`dafny verify dfyconfig.toml` checks everything.

| file | what it holds |
|---|---|
| `Physical.dfy` | the bitmap page allocator: words and counter in place, against the set of pages taken |
| `PageRace.dfy` | the same allocator as a state machine over atomic steps with any number of threads |
| `BuddyPool.dfy`, `Buddy.dfy` | the buddy allocator: a pool of blocks on values, and the class that keeps it in linked lists inside the free blocks |
| `SlabPool.dfy`, `Slab.dfy`, `Heap.dfy` | the slab allocator over the buddy allocator, and the global allocator that routes to both |
| `ByteMemory.dfy` | memory by the byte, with the sixteen-byte links that free blocks and free slots carry |
| `PageTables.dfy`, `VirtualMemory.dfy` | page-table entries, the tree of tables, and `map`, `unmap`, `translate`, `protect` |
| `Sharing.dfy` | the heap and the page tables over one physical allocator |
| `RwLock.dfy`, `Locks.dfy`, `Channel.dfy` | the reader-writer lock, the mutex and the semaphore, and the channel, as state machines over atomic steps with any number of threads |
| `SchedulerState.dfy`, `Scheduler.dfy` | the scheduler's state and operations, and the rings and bitmap that refine them |
| `Sleep.dfy` | the sleep queue with its history, and the sorted array |
| `Compositor.dfy` | blending, painting, sorting and hit testing |
| `DeviceTree.dfy` | flattened device trees: the scan, the trees it reads back, the three loops |
| `XRay.dfy`, `BigEndian.dfy` | WebSocket, gRPC and TLS-record framing |
| `Time.dfy` | cycle conversion, drift, and time values |
| `RamFs.dfy` | the RAM file system |
| `Bits.dfy`, `Errors.dfy` | machine words as numbers with their bits; the error values |

Where the kernel changes state in place there is a class whose methods are proved against functions on values;
the lemmas about those functions are the results. Machine words are numbers with their bounds; bitwise operators are
defined bit by bit in `Bits.dfy` and tied to arithmetic by lemmas. Where a promise of the code turned out not to hold
on all inputs, the table gives the exact condition and, where it helps, the input that shows it:

- the buddy allocator keeps every block until two free buddies of the largest order meet; then the merged block is in no list (`FreeKeeps`, `RunKeeps`); two allocations and two releases from an empty pool do it (`PairLeaks`)
- requests of 1 to 8 bytes break the heap: their slots are half as long as the links kept in them. Cutting a page for them writes past its end, and freeing one writes into its neighbour; both stay inside exactly for the larger sizes (`LinkFitsSize`, `CutStaysInPage`, `LinkStaysInSlot`). The first such request is served and overwrites the eight bytes behind its page, whoever has them (`Alloc`); `EightByteRun` is a run in which the heap hands out whatever number an owner has stored. That the heap stays consistent is proved for the other sizes
- what the heap serves at address 0 its caller takes for a refusal, and cannot give back. That happens exactly when physical memory begins at 0 and the heap comes to its first page (`NullServedIff`); if it cannot at the start it cannot later (`Alloc`, `Dealloc`)
- `alloc_page` hands out no page twice, whatever threads do at the same time, as long as none is in `alloc_pages` (`OneNeverTwice`); with `alloc_pages` a page gets two owners exactly when a bit is set that somebody has set since it was looked at (`SharedIff`), and two threads that start together do it (`RunsTwice`)
- requests of 2049 to 4095 bytes are refused always: they are too long for a slot and not routed to the buddy allocator (`RefusedSizes`); so are alignments above the size rounded up to a power of two, although a larger slot would do (`RefusedIff`)
- heap allocations are aligned exactly as far as the base of physical memory is (`LiveAligned`)
- a page-table entry gives back its address exactly for page-aligned frames below 2^48 whose flags carry no other address bits (`EntryRoundTrip`)
- a click hits what is shown unless several covering surfaces share the highest z order (`HitIsLastPainted`, `TiedTwice`); a surface whose far corner passes 2^32 is hit nowhere (`HitsIff`)
- an expired task is lost exactly when its queue is full, and so is one that yields (`StepHolds`); `set_current` leaves the previous task's priority in place (`ScheduleConserves`, `RoundRobinLoses`, `SetCurrentStale`); both are reached from the start (`OverfullReached`, `StaleReached`)
- a receiver can miss the closing of a channel (`CloseCanBeMissed`), exactly when the drain of close falls between its look at the flag and the leaving of its waker and it has no waker from before (`CloseMissedIff`)
- pages handed out can be given back exactly when physical memory begins on a page boundary (`TakenCanBeFreed`)
- the clock keeps its bound exactly for counters above 3906250 Hz, since the multiplier is cut to 32 bits (`BoundIffFast`), and exactly over gaps whose product with the multiplier fits 64 bits, that is about eighteen minutes (`GapIff`)
- transport payloads survive exactly up to the range of their length field (`UnwrapWrap`)
- unlinking a directory that is not empty leaves its entries in use and unreachable for good (`UnlinkOrphans`, `RunNames`, `OrphanRun`), and a duplicate name hides the newer entry (`LookupAfterCreate`, `LookupAfterUnlink`, `DuplicateRun`)

## Model

| member | source | states |
|---|---|---|
| Physical.PhysicalAllocator.constructor | kernel/src/memory/physical.rs:44-54 | a new allocator has no page taken and a counter that agrees |
| Physical.PhysicalAllocator.Init | kernel/src/memory/physical.rs:56-62 | afterwards every page is free |
| Physical.PhysicalAllocator.AllocPage | kernel/src/memory/physical.rs:64-111 | takes the lowest free page; fails exactly when none is free, so the out-of-range branch after the exchange cannot be reached |
| Physical.PhysicalAllocator.AllocPages | kernel/src/memory/physical.rs:113-155 | takes the leftmost free run of the length; fails exactly when there is no such run, and changes nothing then |
| Physical.PhysicalAllocator.TakeRun | kernel/src/memory/physical.rs:136-147 | marks exactly the run and lowers the counter by its length |
| Physical.PhysicalAllocator.FreePage | kernel/src/memory/physical.rs:157-172 | which of success, bad address and double free comes back, and that only success changes the set, by that page |
| Physical.PhysicalAllocator.FreePages | kernel/src/memory/physical.rs:174-198 | the same for a run, all or nothing; a run past the end of memory inside the bitmap is a double free; the panic comes exactly when the run is taken up to the last bit of a full bitmap and goes on |
| Physical.PhysicalAllocator.OutcomeIff | kernel/src/memory/physical.rs:157-198 | a release succeeds exactly when every one of its pages is handed out, and which of the four refusals comes otherwise |
| Physical.PhysicalAllocator.TakenCanBeFreed | kernel/src/memory/physical.rs:157-198 | what was handed out can be freed exactly when the base address is page-aligned; otherwise every free is refused for alignment |
| Physical.PhysicalAllocator.AddrToPage | kernel/src/memory/physical.rs:208-221 | the page of an address, and exactly which addresses are refused |
| Physical.PhysicalAllocator.IsPageFree | kernel/src/memory/physical.rs:223-229 | the bit test answers whether the page is in the set |
| Physical.PhysicalAllocator.MarkPageAllocated | kernel/src/memory/physical.rs:231-239 | the word update adds one page to the set |
| Physical.PhysicalAllocator.MarkPageFree | kernel/src/memory/physical.rs:241-249 | the word update removes one page from the set |
| Physical.ScanWord | kernel/src/memory/physical.rs:69-80 | a word that is not all ones holds a free page at its trailing ones, and none below |
| Physical.RunNeedsFreePages | kernel/src/memory/physical.rs:122-124 | a free run is never longer than the number of free pages, so the early test on the counter refuses nothing it should not |
| Physical.SparePage | kernel/src/memory/physical.rs:65-67 | a counter above zero means that a free page exists |
| PageRace.StepKeeps | kernel/src/memory/physical.rs:64-198 | each load, exchange, bit update and counter update of any thread keeps: a page has an owner, one only, exactly if its bit is set; unless the step of alloc_pages that sets a bit finds it set |
| PageRace.CollisionDoubles | kernel/src/memory/physical.rs:136-147 | and that step gives the page a second owner |
| PageRace.SharedIff | kernel/src/memory/physical.rs:64-198 | in every run of allocations and releases of what is out, no page ever has two owners exactly when no marking of alloc_pages finds its bit set |
| PageRace.OneNeverTwice | kernel/src/memory/physical.rs:64-111 | in every run without alloc_pages no page is out twice, however stale the words the exchanges start from |
| PageRace.AllocPageAnswers | kernel/src/memory/physical.rs:64-111 | alloc_page, whatever the other threads do, comes back empty-handed from its scan only if each page below the total was marked at some time of the scan, and with a page only if each lower one was |
| PageRace.AllocPagesAnswers | kernel/src/memory/physical.rs:113-155 | alloc_pages gives up its search only if each run of that length below the total had a page marked at some time of it, and settles on a run only if each lower one had |
| PageRace.RunsTwice | kernel/src/memory/physical.rs:113-155 | in any memory of two pages or more, two threads in alloc_pages that both look before either marks get the same two pages |
| BuddyPool.BuddyAdjacent | kernel/src/memory/heap.rs:143-148 | the exclusive-or buddy is the adjacent block on one side or the other, and the buddy of the buddy is the block, aligned or not |
| BuddyPool.AllocKeeps | kernel/src/memory/heap.rs:46-81 | serving from the lists hands out one new block, keeps all blocks disjoint and covers exactly the same bytes |
| BuddyPool.FreeKeeps | kernel/src/memory/heap.rs:84-117 | freeing gives back one block, keeps all blocks disjoint and the same bytes covered, and drops a block exactly when the merging climbs past the largest order |
| BuddyPool.SplitDownKeeps | kernel/src/memory/heap.rs:119-141 | splitting replaces the block by its first part and keeps disjointness and coverage |
| BuddyPool.MergeKeeps | kernel/src/memory/heap.rs:89-104 | joining a block with its free buddy keeps disjointness and coverage |
| BuddyPool.RunKeeps | kernel/src/memory/heap.rs:46-187 | over any run of allocations and valid frees: blocks pairwise disjoint, the bytes covered are those taken from the physical allocator, and none is dropped exactly when no free climbs past the largest order |
| BuddyPool.PairLeaks | kernel/src/memory/heap.rs:84-117 | such a drop is reached: from an empty pool, two neighbouring blocks of the largest order taken and given back leave eleven empty lists and one block in none |
| BuddyPool.FreeOnPages | kernel/src/memory/heap.rs:84-117 | every block stays a whole number of pages from the base |
| BuddyPool.AllocTidy | kernel/src/memory/heap.rs:46-81 | with natural alignment, allocation keeps all blocks aligned and no block free together with its buddy |
| BuddyPool.FreeTidy | kernel/src/memory/heap.rs:84-117 | the same for freeing |
| BuddyPool.RunTidy | kernel/src/memory/heap.rs:46-187 | the same over any run whose pages come naturally aligned |
| BuddyPool.SplitThenFree | kernel/src/memory/heap.rs:119-141 | freeing the first part of a split undoes the split at every depth |
| BuddyPool.AllocThenFree | kernel/src/memory/heap.rs:46-117 | an allocation served from the lists followed by its free restores all eleven lists exactly |
| Buddy.BuddyAllocator.Alloc | kernel/src/memory/heap.rs:46-81 | the lists in memory follow the pool; which block comes out, exactly when it fails, and that no live block's memory is written |
| Buddy.BuddyAllocator.TakePages | kernel/src/memory/heap.rs:74-80 | on empty lists the block is the leftmost free run of pages and becomes part of the pool |
| Buddy.BuddyAllocator.Free | kernel/src/memory/heap.rs:84-117 | the lists in memory follow the pool; InvalidSize exactly when the merging climbs out; other live blocks untouched |
| Buddy.BuddyAllocator.SplitBlock | kernel/src/memory/heap.rs:119-141 | the lists follow the split; only the split block's memory is written |
| Buddy.BuddyAllocator.IsFree | kernel/src/memory/heap.rs:150-162 | walking the links decides membership in the list |
| Buddy.BuddyAllocator.RemoveFromList | kernel/src/memory/heap.rs:164-187 | unlinks exactly that block, wherever it stands, and writes no live block |
| Buddy.BuddyAllocator.BlocksFit | kernel/src/memory/heap.rs:119-148 | every block the allocator knows ends within 64 bits and its buddy begins there, so no address wraps |
| Buddy.UnlinkChains | kernel/src/memory/heap.rs:164-187 | redirecting one link takes one block out of one list and leaves the other lists as they are |
| SlabAllocation.SizeToSlabLeast | kernel/src/memory/heap.rs:295-302 | the class chosen is the smallest whose slots hold the size |
| SlabAllocation.SlabAllocator.Init | kernel/src/memory/heap.rs:226-231 | the nine classes have slots of 8 to 2048 bytes |
| ByteMemory.PutLinkSpec | kernel/src/memory/heap.rs:208-211 | a link stored is the link read back, and storing it writes its sixteen bytes and no others |
| SlabAllocation.LinkFitsSize | kernel/src/memory/heap.rs:197-211 | a slot holds its own link exactly for requests above 8 bytes, that is in all classes but the smallest |
| SlabAllocation.LinkStaysInSlot | kernel/src/memory/heap.rs:286-291 | storing a link in a free slot writes inside the slot exactly then |
| SlabAllocation.CutStaysInPage | kernel/src/memory/heap.rs:256-269 | cutting up a page writes inside the page exactly then |
| SlabAllocation.EightByteRun | kernel/src/memory/heap.rs:242-269 | with 8-byte slots, the word that the owner of a page's last slot has stored is what the second request after that hands out |
| SlabAllocation.CutEight | kernel/src/memory/heap.rs:256-269 | in the smallest class cutting a page writes the page and the eight bytes behind it, which end as the address of its last slot but one |
| SlabAllocation.CutChains | kernel/src/memory/heap.rs:256-269 | in the other classes the bytes written make a list of all slots of the page but the first, and the other classes' lists stay |
| SlabAllocation.SlabAllocator.CutPage | kernel/src/memory/heap.rs:256-269 | for every class the loop ends with the memory and the list head that CutMemory and CutHead give, the subject of the three rows above |
| SlabAllocation.SlabAllocator.RefillFromBuddy | kernel/src/memory/heap.rs:252-271 | refills an empty class with exactly one page and hands out its first slot; live slots and blocks untouched, in the smallest class but for the eight bytes behind the page |
| SlabAllocation.SlabAllocator.PopSlot | kernel/src/memory/heap.rs:242-250 | hands out the head of the list, a slot not live before; the link in its bytes becomes the head |
| SlabAllocation.SlabAllocator.Alloc | kernel/src/memory/heap.rs:233-272 | one new slot that holds the size; fails exactly on bad sizes and when the buddy allocator fails; live slots and blocks untouched. A request of 1 to 8 bytes gets a page, and all live blocks stay but for the eight bytes behind it |
| SlabAllocation.SlabAllocator.Free | kernel/src/memory/heap.rs:274-293 | the slot goes back to its class; nothing is written but its first sixteen bytes, and no live slot |
| SlabPool.SlotsDisjoint | kernel/src/memory/heap.rs:197-293 | any two slots, live or free, are disjoint |
| SlabPool.RefillKeeps | kernel/src/memory/heap.rs:256-269 | cutting up a page keeps every slot on the grid of its page, each once |
| Heap.OrderForLeast | kernel/src/memory/heap.rs:353-357 | the block of the chosen order is the smallest power-of-two number of pages that holds the size |
| Heap.LiveDisjoint | kernel/src/memory/heap.rs:327-398 | any two live allocations are disjoint, and each is as long as its layout asks |
| Heap.RefusedSizes | kernel/src/memory/heap.rs:328-367 | of the requests aligned to one byte exactly those of no byte, of 2049 to 4095 bytes and of more than 4 MiB are refused whatever the state |
| Heap.RefusedIff | kernel/src/memory/heap.rs:328-367 | for every layout: refused whatever the state exactly for no byte, 2049 to 4095 bytes, more than 4 MiB, an alignment above a page, or under a page of bytes one above the least power of two that holds the size and 8 |
| Heap.LiveAligned | kernel/src/memory/heap.rs:337-346 | a live allocation has the residue of the physical base modulo its layout's alignment: aligned exactly when the base is |
| Heap.HeapAllocator.constructor | kernel/src/memory/heap.rs:312-321 | a new heap has no allocations and shares one buddy allocator |
| Heap.HeapAllocator.Alloc | kernel/src/memory/heap.rs:328-367 | null exactly for what is rejected, for what finds the layer below exhausted, and for what is served at address 0; what is served is one more live allocation, and the contents of the others stay. For 1 to 8 bytes it is a new page, and the contents stay but for the eight bytes behind it, whose new value is given |
| Heap.HeapAllocator.AllocSmall | kernel/src/memory/heap.rs:342-350 | the same for the slab path, the null of address 0 included |
| Heap.HeapAllocator.AllocBig | kernel/src/memory/heap.rs:351-366 | the same for the buddy path |
| Heap.HeapAllocator.ExhaustedIff | kernel/src/memory/heap.rs:46-81 | a layout that is not refused finds the heap exhausted exactly when its class has no free slot, no block of its least order or a larger one is free, and every run of that many pages has one taken |
| Heap.HeapAllocator.ServesNonNull | kernel/src/memory/heap.rs:328-367 | while address 0 is outside physical memory or its page somebody else's, nothing is served at null |
| Heap.HeapAllocator.NullServedIff | kernel/src/memory/heap.rs:328-372 | on a heap not used yet, some request is answered with null although it is served exactly when physical memory begins at 0 and its first page is free |
| Heap.HeapAllocator.Dealloc | kernel/src/memory/heap.rs:369-398 | exactly that allocation goes; null and empty layouts do nothing, so what was served at address 0 stays out; the contents of the others stay |
| Heap.HeapAllocator.Touch | kernel/src/memory/heap.rs:327-398 | whatever an owner stores in the bytes it asked for, the heap stays consistent and the contents of the other allocations stay |
| Sharing.BlocksOffTables | kernel/src/memory/heap.rs:74-80 | while heap and page tables share a physical allocator, no block of the heap, free or out, meets a page table |
| Sharing.AllocsOffTables | kernel/src/memory/virtual_mem.rs:241-253 | nor does any live allocation |
| Sharing.Start | kernel/src/memory/heap.rs:312-321 | this holds for a new heap and a new root table |
| Sharing.Allocate | kernel/src/memory/heap.rs:328-367 | allocation keeps it, both sides' invariants, and every translation, unless it serves 1 to 8 bytes |
| Sharing.Deallocate | kernel/src/memory/heap.rs:369-398 | so does release |
| Sharing.Map | kernel/src/memory/virtual_mem.rs:224-271 | mapping keeps it, both sides' invariants, and the heap's bytes |
| Sharing.Unmap | kernel/src/memory/virtual_mem.rs:274-323 | so does unmapping |
| Sharing.Protect | kernel/src/memory/virtual_mem.rs:357-406 | and so does protecting |
| PageTables.TableIndex | kernel/src/memory/virtual_mem.rs:39-42 | shift and mask take out the base-512 digit of the page number |
| PageTables.Digits | kernel/src/memory/virtual_mem.rs:39-42 | the four indices are the base-512 digits of the page number, the top one first |
| PageTables.PageOffset | kernel/src/memory/virtual_mem.rs:33-35 | the mask takes the remainder |
| PageTables.AlignDown | kernel/src/memory/virtual_mem.rs:44-46 | the mask takes off the remainder |
| PageTables.IndicesDetermine | kernel/src/memory/virtual_mem.rs:37-42 | two 48-bit pages with the same four indices are the same page |
| PageTables.FlagBits | kernel/src/memory/virtual_mem.rs:97-133 | the flag tests are tests of single bits; W^X validation refuses exactly writable and executable |
| PageTables.WxIs | kernel/src/memory/virtual_mem.rs:97-104 | refused exactly are flags with bit 7 clear and bit 53 set |
| PageTables.EntryBit | kernel/src/memory/virtual_mem.rs:139-145 | bits 12 to 47 of an entry come from the address, and all bits of the flags are in it |
| PageTables.EntryRoundTrip | kernel/src/memory/virtual_mem.rs:139-145 | an entry gives its address back exactly for page-aligned frames below 2^48 whose flags hold no other address bits |
| PageTables.LeafEntry | kernel/src/memory/virtual_mem.rs:264-268 | a written leaf is valid and writable-and-executable only if its flags are |
| PageTables.ReachUnique | kernel/src/memory/virtual_mem.rs:231-256 | two pages whose walks meet in a table have the same indices above it |
| PageTables.OneParent | kernel/src/memory/virtual_mem.rs:231-256 | no table hangs in two places |
| PageTables.HangKeeps | kernel/src/memory/virtual_mem.rs:241-253 | hanging a cleared table under an invalid entry keeps the tables a tree |
| PageTables.HangLeaf | kernel/src/memory/virtual_mem.rs:241-253 | and changes the translation of no page |
| PageTables.HangMissing | kernel/src/memory/virtual_mem.rs:241-253 | and brings the walk one table nearer its end |
| PageTables.MissingIs | kernel/src/memory/virtual_mem.rs:231-256 | a walk that gets to one level and no further lacks the tables of the levels after it |
| PageTables.SetKeeps | kernel/src/memory/virtual_mem.rs:258-268 | writing a leaf that is not both writable and executable keeps the tree |
| PageTables.SetLeaf | kernel/src/memory/virtual_mem.rs:258-268 | and sets that page's translation |
| PageTables.SetOtherLeaf | kernel/src/memory/virtual_mem.rs:258-268 | and leaves every other page's |
| PageTables.LeafFrame | kernel/src/memory/virtual_mem.rs:326-354 | translations depend on the contents of the table pages alone |
| VirtualMemory.PageMemory.ClearTable | kernel/src/memory/virtual_mem.rs:188-192 | zeroes all 512 entries of one page |
| VirtualMemory.VirtualMemory.constructor | kernel/src/memory/virtual_mem.rs:216-221 | over a cleared root no page is mapped |
| VirtualMemory.VirtualMemory.WalkCreating | kernel/src/memory/virtual_mem.rs:231-256 | succeeds exactly when enough pages are free for the missing tables, and never changes a translation, failing or not |
| VirtualMemory.VirtualMemory.Map | kernel/src/memory/virtual_mem.rs:224-271 | the exact result in every case; on success the page's translation alone changes, on failure none, even when tables were created |
| VirtualMemory.VirtualMemory.Unmap | kernel/src/memory/virtual_mem.rs:274-323 | the exact result; afterwards that page alone is unmapped |
| VirtualMemory.VirtualMemory.Translate | kernel/src/memory/virtual_mem.rs:326-354 | the frame of the page plus the offset, or not mapped |
| VirtualMemory.VirtualMemory.Protect | kernel/src/memory/virtual_mem.rs:357-406 | the exact result; afterwards that page's flags alone are replaced |
| VirtualMemory.VirtualMemory.NeverWritableAndExecutable | kernel/src/memory/virtual_mem.rs:97-102 | in every reachable state no mapped page is both writable and executable |
| RwLock.StepKeeps | kernel/src/process/sync.rs:242-320 | each atomic step keeps the invariant: the counter counts, the flag has one owner, a writer excludes readers, readers see the data as it is |
| RwLock.WriterExcludes | kernel/src/process/sync.rs:261-277 | in every run a write guard excludes every other writer and every reader |
| RwLock.ReadersSeeOneValue | kernel/src/process/sync.rs:284-296 | in every run the data do not change under a read guard |
| RwLock.ReadersSeeLastPut | kernel/src/process/sync.rs:284-320 | in every run the data, and what a reader sees of them, are what the last writer put |
| RwLock.ReadersCounted | kernel/src/process/sync.rs:242-259 | in every run the counter is the number of threads between increment and decrement, those backing out included, and is never decremented at zero |
| RwLock.WhoWaits | kernel/src/process/sync.rs:242-277 | exactly when a thread inside read or write cannot get on |
| RwLock.NoDeadlock | kernel/src/process/sync.rs:242-277 | when threads are inside and no guard is out, some thread can get on |
| RwLock.WriterWaits | kernel/src/process/sync.rs:261-277 | from any reachable state: while a writer keeps its claim the read guards out only become fewer, the readers inside have a number of moves left that each move lowers by one, at none the writer goes on, and until then some reader holds a guard from before the claim or can move |
| RwLock.ReadersShare | kernel/src/process/sync.rs:242-259 | two readers can hold guards at once |
| Locks.MutexExcludes | kernel/src/process/sync.rs:78-147 | in every run at most one guard is out, the owner stored is its holder, and without a guard none is stored |
| Locks.MutexAnswers | kernel/src/process/sync.rs:78-147 | in every run try_lock gets the mutex exactly if nobody has it, lock on its next try exactly then, and a dropped guard leaves it free |
| Locks.SemaphoreConserves | kernel/src/process/sync.rs:163-213 | however stale loads and exchanges interleave, the count is the initial one plus the signals minus the waits that succeeded, within its bound |
| Locks.WaitAnswers | kernel/src/process/sync.rs:163-194 | one try of wait or try_wait takes a permit exactly if it finds one and the count is the same at the exchange, whatever happens between |
| Locks.SignalAnswers | kernel/src/process/sync.rs:196-213 | one try of signal gives a permit back exactly if it finds the count below the maximum and the count is the same at the exchange |
| Channel.StepWakes | kernel/src/async_ipc.rs:45-121 | each step keeps: messages waiting for a receiver in the waker list means that someone is about to drain the list |
| Channel.NoLostWakeup | kernel/src/async_ipc.rs:104-120 | in every run a receiver waiting unwoken is in the waker list, and if a message waits someone stands between push and drain |
| Channel.DrainWakesAll | kernel/src/async_ipc.rs:56-60 | that drain wakes every waiting receiver |
| Channel.ReceivedIsPrefix | kernel/src/async_ipc.rs:45-67 | in every run messages come out in the order they went in, each once, and at most 64 wait |
| Channel.SendAnswers | kernel/src/async_ipc.rs:45-62 | in every run, whatever the others do between its steps: a send fails with closed exactly if the channel was closed at its look, with full exactly if 64 messages waited at its push; failing it leaves queue and history alone, otherwise exactly its message is at their ends |
| Channel.PollAnswers | kernel/src/async_ipc.rs:104-120 | in every run a poll returns the oldest message if one waits at its first try, else that the channel is closed if it is at its look, else the oldest message at its second try, else Pending with its waker left |
| Channel.TryRecvAnswers | kernel/src/async_ipc.rs:65-67 | takes the oldest message, or does nothing when none waits |
| Channel.CloseSpec | kernel/src/async_ipc.rs:75-81 | a channel is closed by the store of close alone and never opens again |
| Channel.CloseMissedIff | kernel/src/async_ipc.rs:75-120 | once close drains, a receiver can come to wait unwoken exactly if at the drain it has looked at the flag, has not left its waker, and has none from before; otherwise it never does, whatever all threads do afterwards |
| Channel.CloseCanBeMissed | kernel/src/async_ipc.rs:109-114 | a run after which a receiver waits on a closed channel and nobody is left to wake it |
| SchedulerState.StepKeeps | kernel/src/process/scheduler.rs:192-347 | every operation keeps the ready counter equal to the number of waiting tasks and the queues within 64 |
| SchedulerState.DispatchKeeps | kernel/src/process/scheduler.rs:269-283 | a task taken means a counter above zero: the saturating subtraction does not saturate |
| SchedulerState.RunFifo | kernel/src/process/scheduler.rs:229-315 | in every run each queue is first in, first out: what was taken followed by what waits is what was put in |
| SchedulerState.SelectsOldestOfLowest | kernel/src/process/scheduler.rs:214-286 | the task selected is the oldest of the lowest priority number in use, after the expired task has gone back; its slice is 1 + p ticks below priority 32, 10 below 128 and 20 from there on, and the request to reschedule is cleared |
| SchedulerState.ScheduleConserves | kernel/src/process/scheduler.rs:258-266 | a rescheduling keeps the number of times each task is held, except the expired one's when its queue is full |
| SchedulerState.StepHolds | kernel/src/process/scheduler.rs:229-344 | what every operation does to the number of times a task is held, waiting or current: putting it where 64 do not wait adds one, yielding and blocking take the current one away, scheduling hands one out |
| SchedulerState.CurrentAfter | kernel/src/process/scheduler.rs:255-344 | which task is current after each operation, and with what priority |
| SchedulerState.BlockedStaysOut | kernel/src/process/scheduler.rs:300-309 | in every run a current task that waits nowhere and is blocked is neither current nor waiting nor selected until an operation that puts it back names it |
| SchedulerState.TicksSpec | kernel/src/process/scheduler.rs:192-206 | the timer asks to reschedule from exactly the tick on that uses the slice up, and without a current task it does nothing |
| SchedulerState.TurnRotates | kernel/src/process/scheduler.rs:255-286 | one turn at the lowest priority number rotates the ring of tasks by one |
| SchedulerState.RoundRobin | kernel/src/process/scheduler.rs:255-286 | up to 64 tasks take turns with their number as the period for ever, and no other queue changes |
| SchedulerState.RoundRobinLoses | kernel/src/process/scheduler.rs:261 | with 65 tasks the first to run its slice out disappears |
| SchedulerState.OverfullReached | kernel/src/process/scheduler.rs:229-286 | any 65 tasks come to share one priority in a run from the start, and one turn later the first of them is gone |
| SchedulerState.SetCurrentStale | kernel/src/process/scheduler.rs:335-339 | after set_current an expired task goes back to its own queue exactly when the stored priority happens to be its own |
| SchedulerState.StaleReached | kernel/src/process/scheduler.rs:229-339 | a run from the start after which a task enqueued with one priority only goes back with another |
| Scheduling.RunQueue.Push | kernel/src/process/scheduler.rs:46-55 | the ring appends one task, or refuses exactly when 64 wait |
| Scheduling.RunQueue.Pop | kernel/src/process/scheduler.rs:57-66 | the ring gives up its oldest task |
| Scheduling.PriorityBitmap.Set | kernel/src/process/scheduler.rs:102-106 | sets that priority's bit and no other |
| Scheduling.PriorityBitmap.Clear | kernel/src/process/scheduler.rs:108-112 | clears that priority's bit and no other |
| Scheduling.PriorityBitmap.FindHighest | kernel/src/process/scheduler.rs:114-124 | the lowest priority number whose bit is set, or none when none is |
| Scheduling.Scheduler.constructor | kernel/src/process/scheduler.rs:172-186 | the bitmap and the queues agree, all empty |
| Scheduling.Scheduler.Enqueue | kernel/src/process/scheduler.rs:229-235 | refines the operation on the state, keeping bitmap and queues in agreement |
| Scheduling.Scheduler.Tick | kernel/src/process/scheduler.rs:192-206 | refines the operation on the state |
| Scheduling.Scheduler.Schedule | kernel/src/process/scheduler.rs:255-286 | refines the operation on the state, keeping bitmap and queues in agreement |
| Scheduling.Scheduler.Yield | kernel/src/process/scheduler.rs:289-297 | refines the operation on the state |
| Scheduling.Scheduler.Block | kernel/src/process/scheduler.rs:300-309 | refines the operation on the state; refused exactly when the task is not current |
| Scheduling.Scheduler.Wake | kernel/src/process/scheduler.rs:312-315 | refines the operation on the state |
| Scheduling.Scheduler.SetCurrent | kernel/src/process/scheduler.rs:335-339 | refines the operation on the state |
| Scheduling.Scheduler.SetCurrentWithPriority | kernel/src/process/scheduler.rs:342-347 | refines the operation on the state |
| Sleep.InsertSorted | kernel/src/sleep.rs:36-50 | insertion before the first later deadline keeps the order by deadline and, among equal ones, by age |
| Sleep.RunKeeps | kernel/src/sleep.rs:31-102 | every run keeps the queue sorted, nothing overdue asleep, and everything accepted accounted for once |
| Sleep.EachWokenOnce | kernel/src/sleep.rs:31-102 | in every run each accepted entry is asleep, returned or cancelled, exactly one of these and once; returned by the first tick at or past its deadline |
| Sleep.SleepTakes | kernel/src/sleep.rs:31-53 | below 128 sleepers exactly one with the task and deadline asked for is added; at 128 nothing changes |
| Sleep.TickTakes | kernel/src/sleep.rs:61-86 | a tick takes exactly the sleepers whose deadline has come, in order, and leaves the others in order |
| Sleep.CancelTakes | kernel/src/sleep.rs:89-102 | takes out the first sleeper of the task named and no other; without one nothing changes |
| Sleep.SleepQueue.SleepUntil | kernel/src/sleep.rs:31-53 | the shifted array is the sequence with the entry inserted; refused exactly when 128 sleep |
| Sleep.SleepQueue.Tick | kernel/src/sleep.rs:61-86 | returns the tasks that are due in order and leaves the rest packed at the front |
| Sleep.SleepQueue.CancelSleep | kernel/src/sleep.rs:89-102 | takes out the first entry of the task and closes the gap |
| Compositing.MixBetween | kernel/src/display_server/compositor.rs:34-43 | a mixed channel lies between source and destination, is the source at full weight and the destination at none, and is the mean cut off |
| Compositing.ByteIsMask | kernel/src/display_server/compositor.rs:35-42 | the remainder modulo 256 is the mask 0xFF |
| Compositing.BlendChannels | kernel/src/display_server/compositor.rs:34-43 | the casts to bytes lose nothing: each channel of a blend is that mix, and alpha is full |
| Compositing.OverIs | kernel/src/display_server/compositor.rs:286-388 | what a surface leaves of a covered pixel: its own if it is opaque; else red, green and blue each the mean of the two reds, greens and blues with the alpha of the surface's own pixel, under full alpha; a picture's transparent pixels keep what is there and its opaque ones replace it |
| Compositing.TopOverRest | kernel/src/display_server/compositor.rs:225-264 | a pixel of the picture is what the last surface covering it makes of what the ones before it show |
| Compositing.PaintOrderUnique | kernel/src/display_server/compositor.rs:232-256 | the order by z and handle of the visible surfaces is unique |
| Compositing.Compositor.CollectVisible | kernel/src/display_server/compositor.rs:235-242 | the visible handles, each once, in table order |
| Compositing.Compositor.SortByZ | kernel/src/display_server/compositor.rs:243-256 | the swaps end in that unique order: exactly the visible surfaces, by z and then handle |
| Compositing.Compositor.PaintSolid | kernel/src/display_server/compositor.rs:286-315 | paints over exactly the clipped rectangle, each pixel as the blend mode says, where the products of row and stride fit 32 bits |
| Compositing.Compositor.PaintPixels | kernel/src/display_server/compositor.rs:319-388 | the same for pixel surfaces on all three paths |
| Compositing.Compositor.CopyRow | kernel/src/display_server/compositor.rs:330-344 | the fast row copy equals painting the row pixel by pixel |
| Compositing.Compositor.PaintSurface | kernel/src/display_server/compositor.rs:266-282 | changes exactly the pixels of the screen that the surface covers; what is off the screen may wrap |
| Compositing.Compositor.Compose | kernel/src/display_server/compositor.rs:225-264 | every pixel of the screen is the fold over the paint order from the background; the rest of each row is background; memory behind the last row stays |
| Compositing.Compositor.AddSurface | kernel/src/display_server/compositor.rs:177-197 | the lowest free slot, and exactly when a surface is refused |
| Compositing.Compositor.RemoveSurface | kernel/src/display_server/compositor.rs:200-204 | empties that slot alone |
| Compositing.HitsIff | kernel/src/input/mod.rs:294-295 | with 32-bit sums a surface is hit exactly where it lies if its far corner does not wrap, and nowhere if it does |
| Compositing.AdmittedFits | kernel/src/display_server/compositor.rs:177-197 | a surface of admitted size that begins on a screen of at most 2^32 - 8192 pixels a side does not wrap |
| Compositing.Compositor.HitTest | kernel/src/input/mod.rs:284-307 | the lowest handle among the visible surfaces hit that have the highest z order; none exactly when none is hit |
| Compositing.HitIsLastPainted | kernel/src/input/mod.rs:284-307 | the surface hit is the one painted last there exactly when no other covering surface shares its z order |
| Compositing.TiedTwice | kernel/src/input/mod.rs:297-300 | two surfaces on one place with one z order: the first is hit, the second painted last |
| Compositing.HitIsShown | kernel/src/input/mod.rs:284-307 | what is hit is what the composed buffer shows there, for surfaces that let nothing through and no tie |
| DeviceTree.RoundUpIsMask | kernel/src/devicetree/parser.rs:112 | the masked sum rounds up to a multiple of four |
| DeviceTree.ParentOfJoin | kernel/src/devicetree/parser.rs:114-139 | cutting the path at its last slash takes off exactly the name that was joined |
| DeviceTree.TreeLaid | kernel/src/devicetree/parser.rs:308-341 | where a flattened tree lies, the readers find its tokens, names and values |
| DeviceTree.FlattenIs | kernel/src/devicetree/parser.rs:93-156 | the trees read back are laid out with the tokens 1, 2, 3, 4 and 9 as big-endian words, names ended by a zero, names and values filled up with zeros to four bytes |
| DeviceTree.ScanTree | kernel/src/devicetree/parser.rs:93-156 | scanning a flattened tree is folding the tree, for every use of the scan |
| DeviceTree.WalkNodesPreorder | kernel/src/devicetree/parser.rs:93-156 | walk_nodes calls back the nodes in preorder with joined path, offset and depth, up to where the callback or the depth limit stops it, and with which result |
| DeviceTree.WalkNodesAll | kernel/src/devicetree/parser.rs:120-122 | with a callback that goes on, it succeeds exactly on trees of at most 32 levels, having called back every node |
| DeviceTree.ReadPropertyFinds | kernel/src/devicetree/parser.rs:158-226 | read_property is the first property of the name among the nodes of the path |
| DeviceTree.AllPropertiesFinds | kernel/src/devicetree/parser.rs:228-306 | get_all_properties is all properties of the nodes of the path |
| DeviceTree.PathsDiffer | kernel/src/devicetree/parser.rs:114-118 | with distinct non-empty sibling names all joined paths are different |
| DeviceTree.PropertyOfNode | kernel/src/devicetree/parser.rs:158-306 | so the path of a node leads both to exactly that node's properties |
| DeviceTree.PropertyOfNone | kernel/src/devicetree/parser.rs:158-306 | a path that no node has leads both to nothing |
| DeviceTree.VisitsAreNodes | kernel/src/devicetree/parser.rs:124 | the paths called back are the paths of the nodes |
| DeviceTree.ReadStringAt | kernel/src/devicetree/parser.rs:318-341 | the loop finds the string up to the first zero, or refuses |
| DeviceTree.Walk | kernel/src/devicetree/parser.rs:93-156 | the loop of walk_nodes gives the scan's result and calls |
| DeviceTree.FindProperty | kernel/src/devicetree/parser.rs:158-226 | the loop of read_property gives the scan's result, a slice beyond the blob included |
| DeviceTree.ListProperties | kernel/src/devicetree/parser.rs:228-306 | the loop of get_all_properties gives the scan's list, slices beyond the blob included |
| XRay.MaskedTwice | kernel/src/net/xray.rs:92-137 | masking twice with one key is no masking |
| XRay.LaneIsMask | kernel/src/net/xray.rs:92-137 | the remainder modulo 4 is the mask 3 on the index |
| XRay.FrameRoundTrip | kernel/src/net/xray.rs:69-140 | a frame decodes to its payload and its length, whatever follows, in all three length forms |
| XRay.ServerFrameRoundTrip | kernel/src/net/xray.rs:100-140 | the same for frames without a mask |
| XRay.TruncatedFrame | kernel/src/net/xray.rs:100-130 | a frame cut short anywhere is refused |
| XRay.FramesRoundTrip | kernel/src/net/xray.rs:69-140 | any frames one after the other give their payloads back and leave no byte over |
| XRay.FrameBytes | kernel/src/net/xray.rs:69-97 | a frame of bytes is made of bytes |
| XRay.FrameIs | kernel/src/net/xray.rs:69-97 | every byte of an encoded frame: 0x82, the mask bit with the length, 2 or 8 bytes of length with the most significant first, the key with its least significant byte first, and payload byte i exclusive-or key byte i modulo 4 |
| XRay.DecodeIs | kernel/src/net/xray.rs:100-140 | for any bytes: when decoding refuses or panics, and else every byte of the payload from the bytes behind the header and, if the mask bit is set, the four key bytes before them |
| XRay.GrpcRoundTrip | kernel/src/net/xray.rs:167-186 | a payload comes back cut to its length modulo 2^32: whole exactly below 2^32 |
| XRay.WrapIs | kernel/src/net/xray.rs:167-175 | the gRPC and TLS-record frames byte by byte |
| XRay.UnwrapIs | kernel/src/net/xray.rs:178-363 | what unwrapping any bytes gives for these two |
| XRay.UnwrapWrap | kernel/src/net/xray.rs:328-363 | unwrapping a wrapped payload gives it back exactly within the transport's range |
| XRay.WebSocketTransport.EncodeFrame | kernel/src/net/xray.rs:69-97 | the loop builds the frame under the present key, and the key counts up with wrap-around |
| XRay.WebSocketTransport.DecodeFrame | kernel/src/net/xray.rs:100-140 | the loop decodes as specified, with the panic on an end past the machine word |
| Time.BoundIffFast | kernel/src/time.rs:71-80 | the drift bound holds over all runs whose products fit 64 bits exactly for counters above 3906250 Hz |
| Time.NotSlow | kernel/src/time.rs:161-169 | above that frequency, and while no product passes 64 bits, the clock is slow by less than one nanosecond an update and one for 2^24 cycles |
| Time.GapIff | kernel/src/time.rs:165-169 | for a single gap the bound holds exactly when its product with the multiplier fits 64 bits |
| Time.NeverFast | kernel/src/time.rs:161-169 | the clock never runs ahead of the counter, at any frequency and over any gaps |
| Time.WrapsRight | kernel/src/time.rs:165-166 | the wrapping difference of two readings is the number of cycles passed, across a wrap of the counter |
| Time.ClockRuns | kernel/src/time.rs:161-180 | over any run seconds and nanoseconds add up to the converted cycles, products cut to 64 bits, with nanoseconds below one second |
| Time.ClockDrift | kernel/src/time.rs:161-180 | over any run the clock itself is never ahead, and while no product passes 64 bits it keeps the drift bound |
| Time.Timekeeper.UpdateWallTime | kernel/src/time.rs:161-180 | the normalising loop ends in quotient and remainder, whatever wraps |
| Time.UpdateNormalises | kernel/src/time.rs:172-196 | whatever nanoseconds were set, an update brings them below one second, and adds exactly the converted cycles unless their sum passes 64 bits |
| Time.TimespecRoundTrip | kernel/src/time.rs:206-217 | nanoseconds survive the way to a time value and back; a time value exactly when it is not negative, its nanoseconds make no second, and all its nanoseconds fit 64 bits |
| RamFs.CreateKeeps | kernel/src/fs.rs:84-95 | create keeps the table a forest |
| RamFs.UnlinkKeeps | kernel/src/fs.rs:151-166 | unlink keeps the table a forest |
| RamFs.WriteKeeps | kernel/src/fs.rs:136-149 | write keeps the table a forest |
| RamFs.From | kernel/src/fs.rs:64-166 | every run from a forest ends in a forest: entries name live inodes, none twice, the root never, and no cycle |
| RamFs.NoCycle | kernel/src/fs.rs:84-95 | no way down through directories comes back to where it has been |
| RamFs.ReachedFromRoot | kernel/src/fs.rs:84-112 | while every live inode is named, each is reached from the root |
| RamFs.OneWay | kernel/src/fs.rs:84-112 | by one way only |
| RamFs.CreateNames | kernel/src/fs.rs:92-94 | create leaves no live inode unnamed |
| RamFs.CreateIff | kernel/src/fs.rs:74-95 | succeeds exactly for names up to 255 bytes in a live directory of fewer than 64 entries while a slot from 1 to 255 is free, and gives the lowest; otherwise which error |
| RamFs.CreateMakes | kernel/src/fs.rs:84-95 | the new inode is empty and of the type asked for, a file with 4096 zeros; the directory has the entry at its end; nothing else changes |
| RamFs.LookupIff | kernel/src/fs.rs:101-112 | finds the first entry of the name, and which error comes when |
| RamFs.UnlinkTakes | kernel/src/fs.rs:151-166 | takes exactly that entry out and empties its inode; nothing else changes |
| RamFs.WriteLeaves | kernel/src/fs.rs:136-149 | replaces exactly the bytes from the offset on that fit the buffer, and lengthens the file at most |
| RamFs.UnlinkOrphans | kernel/src/fs.rs:158-165 | unlink leaves none unnamed exactly when what it unlinks has no entries |
| RamFs.NamelessStays | kernel/src/fs.rs:84-166 | an inode that has lost its last name stays in use and nameless, whatever operation follows |
| RamFs.RunNames | kernel/src/fs.rs:84-166 | after any run all that is in use is named exactly when the run has unlinked nothing that had entries |
| RamFs.OrphanRun | kernel/src/fs.rs:158-165 | a run of three operations that leaves a file in use and nameless |
| RamFs.LookupAfterCreate | kernel/src/fs.rs:84-112 | a created name leads to the new inode exactly when it was free; other names lead where they did |
| RamFs.LookupAfterUnlink | kernel/src/fs.rs:101-166 | an unlinked name is gone exactly when it stood there once |
| RamFs.DuplicateRun | kernel/src/fs.rs:84-166 | a run after which a name leads to the older of two files, and one unlink later to the newer |
| RamFs.CreateThenUnlink | kernel/src/fs.rs:84-166 | unlinking what was created under a free name leaves every live inode as it was |
| RamFs.FileAfterWrites | kernel/src/fs.rs:84-166 | a file that is created and then not unlinked holds, after any run of all three operations, the zeros it began with written over by the writes to it, and its size is the furthest end |
| RamFs.ReadAfterWrites | kernel/src/fs.rs:121-149 | a read after such a run brings those bytes back, as many as the size and the buffer allow |
| RamFs.RamFs.constructor | kernel/src/fs.rs:64-72 | a forest with the root alone |
| RamFs.RamFs.AllocInode | kernel/src/fs.rs:74-82 | the lowest free slot, or no space exactly when there is none |
| RamFs.RamFs.Create | kernel/src/fs.rs:84-95 | the in-place form of create, with every error |
| RamFs.RamFs.Find | kernel/src/fs.rs:101-112 | the loop of lookup, with every error |
| RamFs.RamFs.Read | kernel/src/fs.rs:121-134 | fills the buffer's front with the file's bytes and leaves its rest, with every error |
| RamFs.RamFs.Write | kernel/src/fs.rs:136-149 | the in-place form of write, with every error |
| RamFs.RamFs.Remove | kernel/src/fs.rs:151-166 | the in-place form of unlink, with every error |
| Bits.XorPow2 | kernel/src/memory/heap.rs:143-148 | exclusive-or with a power of two moves to the neighbouring multiple |
| Bits.TrailingZerosSpec | kernel/src/process/scheduler.rs:119 | trailing zeros count the clear bits below the lowest set one |
| Bits.NextPow2Least | kernel/src/memory/heap.rs:298 | the next power of two is the least one that is enough |
| BigEndian.RoundTrip | kernel/src/net/xray.rs:82-115 | k big-endian bytes give a number back modulo 256^k: exactly the numbers that fit |
| BigEndian.TwoBytes | kernel/src/net/xray.rs:82-84 | two bytes of a number, the most significant first, and back |
| BigEndian.FourBytes | kernel/src/net/xray.rs:170-182 | the same for four |
| BigEndian.EightBytes | kernel/src/net/xray.rs:85-117 | the same for eight |

## Left out

- SlabAllocation.SlabAllocator.Alloc: what later calls do to a heap that has served a request of 1 to 8 bytes: nothing is consistent any more; EightByteRun follows one such run
- Heap.HeapAllocator.Alloc: the same; its ledger ends with such a request
- Sharing.Allocate: which table, if any, lies behind the page of such a request
- the layout of a link: a word that says whether there is a pointer, then the pointer, as compilers for 64-bit targets lay out an optional raw pointer
- overflow checks: sums, differences and products of machine words that the code does not guard wrap, as in a release build
- Physical.PhysicalAllocator.constructor: more pages than the bitmap has bits, for which the assertion in new is commented out, and physical memory that ends past 2^64, are excluded by preconditions
- Physical.PhysicalAllocator.AllocPage: on the class each call is one step; the races between processors are the subject of PageRace
- PageRace.StepKeeps: the counter decides there whether a request is tried; that it counts the pages is proved for one caller at a time only. Releases are of pages that are out, and of a run inside the bitmap
- HeapAllocator::new: the slab allocator's pointer to a buddy allocator that is then moved; the model's two allocators share one, as intended
- align_up, Flags::remove and the other small accessors of virtual_mem.rs: one expression each
- TLB and cache instructions, memory-mapped registers, interrupts, boot code and vendor tables: effects without state to prove about
- Spinlock and the look at the holder's priority in Mutex::lock, which has no effect; weak memory orderings are taken as sequentially consistent; a weak exchange of lock, wait or signal that fails without reason is a step that changes nothing
- Channel.NoLostWakeup: speaks of messages only; closing is the subject of CloseMissedIff
- msg_count of the channel: a statistic that nothing reads
- RunQueue::remove, Scheduler::dequeue and Scheduler::remove: they clear a slot of a ring without moving its ends, and the queues are no longer first in, first out afterwards
- running_tasks, blocked_tasks and total_switches of the scheduler: kept as the code keeps them, and nothing reads them
- total_tasks and the idle task of the scheduler: stored and returned only; its u64 counters are taken not to overflow
- sleep_for: one addition before sleep_until
- Compositing.Compositor.Compose: the caller's promises are preconditions: a stride of at least the width, a buffer long enough, for surfaces that begin on the screen no u32 wrap, and pixel data of the announced size in place of the raw pointer
- cursor movement, listeners and event polling of the input manager
- parse_header and FdtParser::new: the offsets they read are parameters; addresses count from the base and are taken not to wrap
- the contents of memory behind a device-tree blob: a slice that runs past the blob is its place and length only; on flattened trees none does
- from_utf8: any test of byte strings, given as a parameter
- handshake_request, build_client_hello and the other parts of the Reality transport outside its framing
- XRay.FrameRoundTrip: payloads are taken to leave room for the header in a machine word, as vectors do
- Time.GapIff: with a multiplier of 2, that is for counters of about 5.6 to 8.4 * 10^15 Hz, the last 2^24 gaps that a counter can show
- do_settimeofday, two assignments; ktime_get_ns and the fast timekeeper, whose stored nanoseconds are reduced modulo one second; suspend and resume; reading the counter and its frequency, which are parameters
- RamFs.From: the parent of create and the offset of write are limited as the code's indexing demands (a parent below 256, an offset within the buffer); beyond that it panics
- RamFs.RamFs.Find: names are byte strings; mkdir and open add nothing to create and the table

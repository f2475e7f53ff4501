# GarbageOS kernel memory: a Dafny model

The project models the memory core of the GarbageOS kernel and proves what it keeps over every run:
the kernel heap, the virtual memory manager, the four-level page tables, the TLB shootdown protocol,
the frame allocator with the boot memory map it starts from, and the hard spinlock. `dafny verify
dfyconfig.toml` checks all of it.

Each part has the same shape. A *model* gives the state as a value and the operations as functions
(`HeapModel`, `VmmModel`, `PageTables`, `ShootdownModel`, `FrameModel`, `BootModel`, `Spinlock`).
*Proofs* and *runs* show what every operation keeps and what follows for every sequence of operations.
A *class* or a set of methods does the work in place, as the C code does, on words, linked descriptors,
page-table entries, queue nodes and buffers, and is proved to do what the functions say (`KernelHeap`,
`VirtualMemory`, `Paging`, `ShootdownQueue`, `FrameAllocator`, `BootMemory`).

`TableAccess` ties the page tables to the processor: the flat map is what its walk finds, and which pages it lets
be written to. Further modules put the parts together. `Mapping` writes the kernel's page tables page by page, with every frame
for data and for missing tables drawn from the frame allocator; `PagingFrames` shows that the paging operations
take exactly these rounds and that a new structure is one to boot on. `VmmFrames` runs the manager's operations on
top of it, `KernelMemory` the heap on the region the manager keeps for it, from boot to every run, and
`HeapExecution` runs of the heap on its words.

The model does what the code does, also where that is not what the comments around it say. Where a
property fails, a lemma gives an input or a run on which it fails and another gives the exact condition
under which it holds:

* `kmalloc` accepts a candidate without adding the room for a second chunk to the requested size, and
  ignores a split that fails, so a block can be handed out twice (`HeapFindings.SameBlockTwice`). A call hands
  out a block it has allocated exactly when `HeapRuns.Served` holds before it (`MallocEffect`,
  `UnservedBreaks`). With the test that is meant, every run is safe whatever is requested, and no block held loses
  a word (`HeapRuns.IntendedRunIsSafe`, `HeapExecution.ExecuteIntended`).
* `kmalloc` can panic although a chunk of exactly the requested size is free (`PanicsWithAFit`). With a fitting
  chunk it does so exactly when the wilderness heads the last bucket and is accepted, every chunk the search would
  take is in that bucket, and the wilderness can neither be split nor grown (`PanicsDespiteExact`).
* Allocation lets `VM_TYPE_FREE` and paddings that are not whole pages through; but for an empty request exactly
  the others keep the manager consistent (`VmmRuns.AllocateExact`). With a lower padding that is not whole pages the end of a window of
  whole pages is never mapped (`HalfPagePaddings`, `WindowMappedExact`).
* A request of size zero leaves an empty region that splits free space (`EmptyRegionBlocks`); a mapping of a
  free range is refused exactly when such a region lies inside it (`IdentityMapExact`, `CopyMappingExact`), which
  does not happen on runs of non-empty requests (`MappingExactOverRuns`).
* Deallocating the last region reads through a null pointer unless the one before it is free in the kernel zone
  (`LastRegionFaults`, `Manager.Deallocate`). A refused expansion leaves the manager's lock held
  (`Manager.TryExpandTop`, `Manager.TryExpandBottom`).
* Four loops give the shootdown the address they have advanced to, so its range shares no page with
  what was changed (`ShootdownFindings.AdvancedRangeMisses`).
* The shootdown handler's guard is inverted: it deletes nothing, whatever the range
  (`HandlerDeletesNothing`, `HandlerExact`), and a CPU can keep a stale translation after the
  wait has returned (`StaleAfterWait`). With the guard turned round, coherence holds on every run for a
  shootdown no CPU is late for (`ShootdownTlb.TlbCoherence`).
* A CPU that activates between the count and the push of a shootdown makes the wait return while its
  queue still points at the initiator's stack (`ReturnsTooEarly`); the wait is safe exactly when no CPU is
  activated between its own round of the count and its own round of the push (`ShootdownRuns.AckSafety`).
* A mapped physical address comes back changed unless it is page aligned and bits 63 to 48 repeat bit 47
  (`Paging.MapRoundTrip`). Frames do when all memory lies below 2^47, which `Mapping.Allocator` asks for.
* Aligning a memory-map fragment shorter than its round-up underflows and invents pages, and nothing else
  does (`BootModel.AlignExact`).
* Releasing nested hard spinlocks out of order can turn interrupts on under a held lock
  (`Spinlock.ReleasedOutOfOrder`, `ReleaseExact`).
* Tables that mapping and unmapping create are never given back: what the manager holds after it has released
  everything is its tables (`VmmFrames.EveryFrameIsAccountedFor`).

Heap addresses are counted in 8-byte words, everything else in bytes. Atomics and bodies under a lock are
single steps; memory ordering is not modelled. A panic or a failed assertion is a result of the operation
after which nothing more happens. Frames that `alloc_frame` hands to the manager and to the page tables are
parameters in `VmmRuns`, `VirtualMemory` and `Paging`; from `Mapping` on they come from the frame allocator itself.

## Model

| member | source | states |
|---|---|---|
| HeapModel.BucketIndex | kernel/mem/heap.c:395-418 | every size of at least 16 bytes selects one of the 128 buckets, never the first |
| HeapModel.BucketRange | kernel/mem/heap.c:395-418 | a bucket holds one multiple of 8 bytes up to 512 bytes, a step of 64 up to 2560 and a step of 512 up to 18 KB; everything from there on is in the last |
| HeapModel.Words | kernel/mem/heap.c:452-456 | a request is rounded to the least whole number of words that holds it, and no fewer than two |
| HeapModel.GrowthBytes | kernel/mem/heap.c:181-188 | a growth asks for the least whole pages that are 16 MB and hold the request with its split |
| HeapModel.FirstFitListed | kernel/mem/heap.c:458-472 | the search returns a listed chunk its test accepts, or no chunk from the start bucket on passes the test |
| HeapModel.CandidateIsFree | kernel/mem/heap.c:458-477 | the chunk kmalloc settles on is always a free chunk of the heap |
| HeapModel.GrowMakesRoom | kernel/mem/heap.c:495-502 | after a successful growth the second split always succeeds |
| HeapProofs.UnlistKeepsIndex | kernel/mem/heap.c:357-384 | taking a chunk off its list leaves every other free chunk on exactly its own list |
| HeapProofs.PushKeepsIndex | kernel/mem/heap.c:386-393 | adding a loose free chunk puts it on exactly its own list |
| HeapProofs.CarveTiled | kernel/mem/heap.c:311-355 | a split leaves the chunks covering the heap exactly |
| HeapProofs.JoinTiled | kernel/mem/heap.c:213-257 | a merge leaves the chunks covering the heap exactly |
| HeapProofs.SplitKeepsInv | kernel/mem/heap.c:311-355 | a split keeps tiling, index, wilderness and the absence of adjacent free chunks |
| HeapProofs.TakeKeepsInv | kernel/mem/heap.c:427-431 | handing out a whole chunk keeps them too |
| HeapProofs.GrowthFits | kernel/mem/heap.c:180-211 | a growth the manager grants is whole words taken from the padding and stays inside the reservation |
| HeapProofs.GrowKeepsInv | kernel/mem/heap.c:180-211 | growing the wilderness keeps the heap well formed and its size equal to the region's window |
| HeapProofs.MallocKeepsInv | kernel/mem/heap.c:450-508 | kmalloc keeps the heap well formed whichever way it ends |
| HeapProofs.ReleaseKeepsInv | kernel/mem/heap.c:510-556 | kfree keeps the heap well formed and leaves no two adjacent free chunks |
| HeapProofs.InitInv | kernel/mem/heap.c:139-167 | a freshly initialised heap is well formed |
| HeapRuns.BucketMonotone | kernel/mem/heap.c:395-418 | a larger size never selects a lower bucket |
| HeapRuns.SearchMissesNothing | kernel/mem/heap.c:458-472 | when the search finds nothing, no free chunk but the wilderness fits |
| HeapRuns.CandidateChosen | kernel/mem/heap.c:458-477 | the chunk chosen is the first one listed, from the bucket of the request upwards, of exactly the size asked for or of at least 32 bytes; with the intended test, of at least 32 bytes more than asked for |
| HeapRuns.CandidateNear | kernel/mem/heap.c:458-472 | a listed candidate is short of the request by less than one step of its bucket: by nothing up to 512 bytes, less than 64 up to 2560, less than 512 up to 18 KB |
| HeapRuns.WildernessChosen | kernel/mem/heap.c:458-479 | when the wilderness is chosen, a fitting chunk passed over stands behind it in the last bucket |
| HeapRuns.MallocEffect | kernel/mem/heap.c:450-508 | a call that does not panic adds exactly one live block of the rounded size if and only if its candidate is the wilderness or fits, and otherwise leaves the heap unchanged; a call that panics changes nothing |
| HeapRuns.CandidateExact | kernel/mem/heap.c:458-477 | the search ends at the wilderness if and only if it meets nothing it would take, or the wilderness heads the last bucket and everything it would take is behind it |
| HeapRuns.OutOfMemoryExact | kernel/mem/heap.c:458-503 | kmalloc panics if and only if the wilderness can neither be split nor grown and the search ends at it in one of those two ways |
| HeapRuns.PanicsDespiteExact | kernel/mem/heap.c:458-503 | with a fitting chunk free, kmalloc panics if and only if the wilderness hides all it would take and can neither be split nor grown |
| HeapRuns.FreeEffect | kernel/mem/heap.c:510-556 | kfree removes exactly that block from the live ones and keeps the heap well formed |
| HeapRuns.FreedIsFirst | kernel/mem/heap.c:386-393 | the block just freed, joined with its free neighbours, is the first in its bucket |
| HeapRuns.RestIsFirst | kernel/mem/heap.c:311-355 | so is what a split leaves, which begins behind the block and its tags |
| HeapRuns.UnservedBreaks | kernel/mem/heap.c:466-490 | a call whose candidate does not fit hands out a block that is not allocated |
| HeapRuns.UnservedNear | kernel/mem/heap.c:466-490 | so is a block handed out while still free, and it is neither of the size asked for nor 32 bytes or more larger |
| HeapRuns.RunGood | kernel/mem/heap.c:450-576 | over every run of served requests, releases and growth being enabled the allocated chunks are exactly the blocks held, each of the size its request rounds to |
| HeapRuns.GrowsOnceEnabled | kernel/mem/heap.c:180-211 | over every run the heap's window stays as it is until enable_kheap_growth is called, and never shrinks |
| HeapRuns.BootIsGood | kernel/mem/heap.c:440-448 | the heap starts in such a state |
| HeapRuns.EveryRunIsSafe | kernel/mem/heap.c:450-576 | over every run of served requests the blocks held are inside the heap, large enough and disjoint with their tags, and with nothing held the heap is one wilderness chunk |
| HeapRuns.IntendedServes | kernel/mem/heap.c:464-469 | with the test that adds the room for a second chunk every request is served |
| HeapRuns.IntendedRunIsSafe | kernel/mem/heap.c:450-576 | with that test every run is safe in which clients free only what they hold |
| HeapRuns.AllFreeIsOneChunk | kernel/mem/heap.c:213-309 | a well-formed heap with every chunk free is one chunk of the heap's size less 16 bytes |
| HeapFindings.SameBlockTwice | kernel/mem/heap.c:466-490 | after three calls on any fresh heap a request for 32 bytes and then one for 40 get the same block |
| HeapFindings.PanicsWithAFit | kernel/mem/heap.c:458-503 | on any heap that is one free chunk and cannot grow by the request, for a request of the last size class that takes over half of the heap and leaves room for two small blocks: three calls of kmalloc and two of kfree lead to a heap on which it panics although a chunk of exactly its size is free |
| HeapFindings.SplitTestExact | kernel/mem/heap.c:321-324 | the signed 64-bit remainder decides whether a split fits exactly for the stated requests |
| HeapFindings.RequestsUpTo2To63 | kernel/mem/heap.c:321-324 | up to 2^63 bytes the 64-bit rounding and split test are the unbounded ones |
| HeapFindings.RoundingWraps | kernel/mem/heap.c:455-459 | rounding up wraps exactly for the last seven sizes |
| HeapMemory.UnlinkLinked | kernel/mem/heap.c:357-384 | the link writes of a removal leave every chain doubly linked, in order, and touch only link words of listed chunks |
| HeapMemory.PushLinked | kernel/mem/heap.c:386-393 | so do those of an insertion |
| HeapMemory.HeaderFlags | kernel/mem/heap.c:39-53 | a header is the size in bytes with the free flag in bit 0 and that of the wilderness in bit 1 |
| HeapMemory.CarveTags | kernel/mem/heap.c:311-355 | the four tag writes of a split describe the new chunks and keep every live payload word |
| HeapMemory.JoinTags | kernel/mem/heap.c:213-257 | the two tag writes of a merge describe the joined chunk and keep every live payload word |
| KernelHeap.RemoveListed | kernel/mem/heap.c:357-384 | removal of a listed chunk by its embedded links |
| KernelHeap.RemoveLoose | kernel/mem/heap.c:521-552 | removal of a chunk that is on no list writes nothing new |
| KernelHeap.Heap.constructor | kernel/mem/heap.c:139-167 | the words written make one free wilderness chunk over the window |
| KernelHeap.Heap.RemoveFromBucket | kernel/mem/heap.c:357-384 | the chunk leaves its list, live payloads keep every word, and a chunk on no list leaves memory as it was |
| KernelHeap.Heap.AddToBucket | kernel/mem/heap.c:386-393 | the chunk heads the list its header selects; live payloads keep every word |
| KernelHeap.Heap.SplitAndAlloc | kernel/mem/heap.c:311-355 | refines the split and says exactly when it is refused; live payloads keep every word |
| KernelHeap.Heap.AllocChunk | kernel/mem/heap.c:427-431 | refines handing out a whole chunk |
| KernelHeap.Heap.MergeWithNext | kernel/mem/heap.c:213-257 | refines joining two free chunks: tags, links, wilderness and chunk count |
| KernelHeap.Heap.MergeWithBoth | kernel/mem/heap.c:258-309 | refines joining three |
| KernelHeap.Heap.TryIncreaseWilderness | kernel/mem/heap.c:180-211 | refines growth and says exactly when it is refused |
| KernelHeap.Heap.FindCandidate | kernel/mem/heap.c:458-477 | the two search loops find the model's candidate, for the size test as written and for the one intended |
| KernelHeap.Heap.MallocFromWilderness | kernel/mem/heap.c:491-503 | split, grow and split again, or out of memory |
| KernelHeap.Heap.Kmalloc | kernel/mem/heap.c:450-508 | with either test does on the heap's words what the model's malloc says and changes no word of any live payload |
| KernelHeap.Heap.FreeNeighbours | kernel/mem/heap.c:526-542 | what the tags around a chunk say about its neighbours is true |
| KernelHeap.Heap.Kfree | kernel/mem/heap.c:510-556 | does what the model's free says, refuses exactly a block that is already free, and changes no word of any other live payload |
| KernelHeap.Heap.EnableGrowth | kernel/mem/heap.c:572-576 | only the growth flag changes |
| KernelHeap.Heap.Store | kernel/mem/heap.c:69-73 | a client writing into its own payload keeps the heap valid |
| KernelHeap.Heap.IsCorrupted | kernel/mem/heap.c:578-606 | the walk ends and reports corruption only for an unaligned window |
| HeapExecution.Step | kernel/mem/heap.c:450-576 | one call on the words does what the model says and leaves every word of every other block held |
| HeapExecution.StillHeld | kernel/mem/heap.c:450-576 | no call takes a block from its client but the one that frees it |
| HeapExecution.Execute | kernel/mem/heap.c:450-576 | over every run of legal calls on the words the heap is the one the model reaches, and every block held before and not freed is still held and holds word for word what it held |
| HeapExecution.ExecuteIntended | kernel/mem/heap.c:450-576 | with the intended test the same, and the blocks held are safe, whatever is requested |
| Region.RoundUp | kernel/mem/vmm.c:382-384 | an expansion is rounded to the least whole number of pages that holds it |
| VmmModel.InitialSizes | kernel/mem/vmm.c:66-91 | the list starts with the pages from 4096 to 512 GB, free for identity mappings, and the upper half of the address space less its last page, free |
| VmmProofs.CutKeepsWellFormed | kernel/mem/vmm.c:487-601 | cutting a region out of a free one, in any of the four shapes, keeps the list sorted, aligned, gap free, overlap free and merged |
| VmmProofs.CutSpot | kernel/mem/vmm.c:487-564 | a cut changes the kind of its own addresses and of no other |
| VmmProofs.CutTaken | kernel/mem/vmm.c:487-564 | a cut adds one region to those in use and leaves the others as they are |
| VmmProofs.MergeFromOk | kernel/mem/vmm.c:341-374 | merging a run of free neighbours restores a well-formed list |
| VmmProofs.DeallocateKeepsWellFormed | kernel/mem/vmm.c:341-374 | deallocation and merging keep the list well formed |
| VmmProofs.DeallocateTaken | kernel/mem/vmm.c:341-374 | merging changes no region that is in use |
| VmmProofs.DeallocateSpot | kernel/mem/vmm.c:341-374 | deallocation frees exactly the region's own addresses |
| VmmRuns.IdentityMapKeepsInv | kernel/mem/vmm.c:116-152 | identity_map keeps the manager's invariant |
| VmmRuns.MemoryMapKeepsInv | kernel/mem/vmm.c:181-224 | memory_map keeps it |
| VmmRuns.MemoryMapAdmits | kernel/mem/vmm.c:181-202 | memory_map succeeds if and only if some free region holds the mapping and 16 KB on each side |
| VmmRuns.MemoryMapPlaces | kernel/mem/vmm.c:192-211 | the region added is the first such, cut at its front, with 16 KB of padding at either end |
| VmmRuns.MemoryMapPages | kernel/mem/vmm.c:213-219 | page by page its window is mapped from the physical address on, and no other page changes |
| VmmRuns.CopyMappingKeepsInv | kernel/mem/vmm.c:226-268 | the mapping copy keeps it |
| VmmRuns.AllocateKeepsInv | kernel/mem/vmm.c:270-311 | allocation keeps it: exactly the window is mapped, on fresh frames |
| VmmRuns.ExpandTopKeepsInv | kernel/mem/vmm.c:379-421 | expansion upwards extends the window contiguously out of the padding |
| VmmRuns.ExpandBottomKeepsInv | kernel/mem/vmm.c:427-467 | so does expansion downwards |
| VmmRuns.ExpandExact | kernel/mem/vmm.c:379-467 | both expansions move exactly the whole pages asked for out of the padding into the window, for stack, heap and general-use regions with that much padding, to the last byte of it, and for no others |
| VmmRuns.DeallocateKeepsInv | kernel/mem/vmm.c:313-377 | deallocation leaves nothing mapped in the region and every other page as it was |
| VmmRuns.WindowIsOwned | kernel/mem/vmm.c:270-311 | every page of the window of a stack, heap or general-use region has its frame |
| VmmRuns.FramesReturned | kernel/mem/vmm.c:327-337 | deallocation gives each frame of the window back once and keeps exactly the others |
| VmmRuns.SpaceExact | kernel/mem/vmm.c:282-293 | allocation finds no room exactly when no free region is large enough |
| VmmRuns.AllocateAdmits | kernel/mem/vmm.c:270-297 | allocation succeeds if and only if the kind is free, stack, heap or general use and some free region holds data and paddings |
| VmmRuns.AllocatePlaces | kernel/mem/vmm.c:282-297 | the region added is the first such, cut at its front, with the kind and paddings asked for; every other region stays |
| VmmRuns.AllocateExact | kernel/mem/vmm.c:270-297 | of the requests the checks let through, exactly the owned kinds with paddings of whole pages keep the manager consistent, and an empty region put in place of an empty free one |
| VmmRuns.WindowMappedExact | kernel/mem/vmm.c:299-305 | with the total in whole pages, after an allocation every address of the window lies on a mapped page if and only if the window is empty, starts on a page, or its last part page fits on the page before |
| VmmRuns.WholeWindowMappedExact | kernel/mem/vmm.c:299-305 | for whole pages of data, if and only if the lower padding is whole pages |
| VmmRuns.TouchedIsMapped | kernel/mem/vmm.c:299-305 | the rounds of the mapping loop touch exactly the pages allocation adds |
| VmmRuns.HalfPagePaddings | kernel/mem/vmm.c:271-305 | allocating a page between two paddings of 2048 bytes passes the assertion and leaves the page its second half lies on unmapped |
| VmmRuns.FreeRangeInOneRegion | kernel/mem/vmm.c:341-374 | a range free throughout with no empty region inside lies in one region, as free neighbours are merged |
| VmmRuns.HoldsExact | kernel/mem/vmm.c:125-136 | looking at a single region succeeds if and only if the whole range is free in the zone and no empty region lies inside it |
| VmmRuns.HoldsEmptyExact | kernel/mem/vmm.c:125-136 | an empty range succeeds if and only if its address is free in the zone, or is the end of a list whose last region is |
| VmmRuns.IdentityMapExact | kernel/mem/vmm.c:116-152 | identity_map succeeds if and only if all of the range is free in the identity zone and no empty region lies inside it |
| VmmRuns.CopyMappingExact | kernel/mem/vmm.c:226-268 | the mapping copy succeeds if and only if all of the range is free in the kernel zone and no empty region lies inside it |
| VmmRuns.IdentityMapTakes | kernel/mem/vmm.c:116-152 | it adds one region of exactly the range and maps nothing yet |
| VmmRuns.CopyMappingTakes | kernel/mem/vmm.c:226-268 | the copy adds one region of exactly the range; its pages are mapped as in the source, all others as before |
| VmmRuns.EmptyRegionBlocks | kernel/mem/vmm.c:116-152 | after a request of size zero a free range is refused |
| VmmRuns.RunKeepsNoEmpty | kernel/mem/vmm.c:116-467 | runs of non-empty requests leave no empty region |
| VmmRuns.MappingExactOverRuns | kernel/mem/vmm.c:116-268 | after any such run both succeed if and only if all of the range is free in their zone |
| VmmRuns.LastRegionFaults | kernel/mem/vmm.c:346-352 | with one page allocated and the rest of the kernel zone as its padding, deallocation reads past the end of the list |
| VmmRuns.StepKeepsInv | kernel/mem/vmm.c:116-467 | every operation keeps the invariant |
| VmmRuns.EveryRunIsSafe | kernel/mem/vmm.c:66-467 | from the two initial regions on, every run whose allocations AllocateExact admits keeps regions ordered and disjoint and the mapped pages of owned regions exactly their windows |
| VirtualMemory.Manager.constructor | kernel/mem/vmm.c:66-91 | the list built is the initial one |
| VirtualMemory.Manager.UpdateHead | kernel/mem/vmm.c:603-606 | walking back from any descriptor ends at the first |
| VirtualMemory.Manager.DescriptorAbove | kernel/mem/vmm.c:125-129 | the search stops at the first region ending above the address |
| VirtualMemory.Manager.DescriptorWithSpace | kernel/mem/vmm.c:282-285 | the search stops at the first free region large enough, or at the last |
| VirtualMemory.Manager.RegionOf | kernel/mem/vmm.c:616-632 | the descriptor found is the one whose range holds the address, and none is found exactly when there is none |
| VirtualMemory.Manager.CutStart | kernel/mem/vmm.c:566-601 | cuts the front of a free region in place and links in the rest |
| VirtualMemory.Manager.CutEnd | kernel/mem/vmm.c:498-523 | cuts the end of a free region in place |
| VirtualMemory.Manager.CutMiddle | kernel/mem/vmm.c:524-560 | cuts the middle, with two new descriptors around it |
| VirtualMemory.Manager.CutDescriptor | kernel/mem/vmm.c:487-564 | returns a descriptor of exactly the range, in a list still doubly linked and headed by its first element; every other descriptor keeps its value |
| VirtualMemory.Manager.IdentityMap | kernel/mem/vmm.c:116-152 | does what the model says and keeps every live handle |
| VirtualMemory.Manager.MemoryMap | kernel/mem/vmm.c:181-224 | does what the model says and keeps every live handle |
| VirtualMemory.Manager.CopyMapping | kernel/mem/vmm.c:226-268 | does what the model says and keeps every live handle |
| VirtualMemory.Manager.Allocate | kernel/mem/vmm.c:270-311 | does what the model says for every kind and padding, keeps every live handle, stays valid for the requests of AllocateExact, and shoots down the range that starts where its loop ended |
| VirtualMemory.Manager.TryExpandTop | kernel/mem/vmm.c:379-421 | expands exactly when the padding is large enough; otherwise nothing changes but a lock it took stays held |
| VirtualMemory.Manager.TryExpandBottom | kernel/mem/vmm.c:427-467 | the same downwards |
| VirtualMemory.Manager.UnmapWindow | kernel/mem/vmm.c:327-337 | unmaps exactly the window and gives its frames back in order |
| VirtualMemory.Manager.MergeRun | kernel/mem/vmm.c:352-374 | one descriptor swallows the run of its kind behind it; no other descriptor's value changes |
| VirtualMemory.Manager.Deallocate | kernel/mem/vmm.c:313-377 | faults exactly on the last region after one that is not free in its zone; otherwise does what the model says, gives back the window's frames and keeps every other live handle |
| Words.RouteOfWord | kernel/HAL/x86-64/x64-memory.c:54-61 | the table indices of an address are its base-512 digits |
| Words.PagesDiffer | kernel/HAL/x86-64/x64-memory.c:54-61 | two pages of the canonical address space take different paths |
| Words.FrameRound | kernel/HAL/x86-64/x64-memory.c:103-188 | a frame below 2^47 comes back unchanged from its word and from the entry that maps it |
| Words.TargetRound | kernel/HAL/x86-64/x64-memory.c:239-242 | what an entry points to comes back from its number |
| Mapping.DrawEffect | kernel/mem/frame_allocator.c:54-132 | frames drawn one by one from the allocator are distinct, fit an entry and were held by nobody |
| Mapping.FreshEffect | kernel/mem/vmm.c:302-305 | a round of allocation maps its page, and no other, on a frame nobody held |
| Mapping.ReleaseEffect | kernel/mem/vmm.c:329-337 | a round of deallocation unmaps its page, gives back exactly its frame and creates no table |
| Mapping.LoopEffect | kernel/mem/vmm.c:217-460 | after a loop over a window the tables map its pages as each round says and every other page as before |
| Mapping.FreshLoop | kernel/mem/vmm.c:299-305 | a window mapped page by page on frames of the allocator is mapped on distinct frames nobody owned |
| Mapping.UnmapLoop | kernel/mem/vmm.c:327-337 | a window unmapped page by page loses exactly its mappings and, if owned, exactly its frames |
| PagingFrames.MapPage | kernel/HAL/x86-64/x64-memory.c:103-117 | paging_map on tables in place with alloc_frame behind it takes such a round: it draws exactly the tables missing, and fails only if the allocator cannot give them |
| PagingFrames.DropPage | kernel/HAL/x86-64/x64-memory.c:119-126 | so does invalidate_paging_mapping |
| PagingFrames.FreshPage | kernel/mem/vmm.c:302-305 | alloc_frame and paging_map take a round of allocation |
| PagingFrames.ReleasePage | kernel/mem/vmm.c:329-337 | get_physical_address, dealloc_frame and invalidate_paging_mapping take a round of deallocation, and do not fail |
| PagingFrames.CopyRound | kernel/HAL/x86-64/x64-memory.c:229-243 | a round of the mapping copy fills in the source, then the destination, and copies one page |
| PagingFrames.Start | kernel/HAL/x86-64/x64-memory.c:190-204 | a new kernel structure on any allocator with 514 frames to give is one the manager boots on |
| VmmFrames.StepKeepsAccount | kernel/mem/vmm.c:116-467 | every operation, with all frames it draws for data and for tables and all it gives back, keeps the tables mapping exactly the manager's pages and every frame held by exactly one of data, tables and others |
| VmmFrames.StepGrows | kernel/mem/vmm.c:116-467 | tables once created stay, and only a copy adds to the frames of others |
| VmmFrames.DeallocateGivesBack | kernel/mem/vmm.c:327-337 | deallocating a stack, heap or general-use region gives back exactly the frames of its window and leaves the tables and the frames of others as they were |
| VmmFrames.DeallocateKeepsFrames | kernel/mem/vmm.c:327-337 | deallocating an identity or memory mapping gives back no frame |
| VmmFrames.TablesAgree | kernel/HAL/x86-64/x64-memory.c:128-188 | what get_physical_address reports of a page is what the manager has mapped there |
| VmmFrames.OwnedIsWritable | kernel/HAL/x86-64/x64-memory.c:63-117 | every entry on the path of an owned page, from the root down, is present and writable |
| VmmFrames.MapEntries | kernel/mem/vmm.c:213-219 | each page of a memory_map window has the entry of its physical page with the flags given |
| VmmFrames.CopyEntries | kernel/mem/vmm.c:245-258 | each page of a copied range has the source's entry, with the new flags if there are any |
| VmmFrames.EveryFrameIsAccountedFor | kernel/mem/vmm.c:66-467 | over every run from boot a page translates if and only if the manager has it mapped, an owned page to a frame of its own, every entry on its path present and writable; the frames held are exactly the data frames, the tables of the structure and those of others, which share none; tables only grow, and others gain frames only where a copy fills in its source |
| KernelMemory.HeapBoots | kernel/mem/heap.c:440-448 | whatever region allocation gives the heap, the heap on it starts in a good state, its descriptor is on the manager's list and every frame is accounted for |
| KernelMemory.KernelHeapStarts | kernel/mem/heap.c:139-167 | the kernel heap starts as one free block in a window of 4 MB, with 16 KB of padding below and 8 GB above, and growth off |
| KernelMemory.GrowthIsExpansion | kernel/mem/heap.c:195-198 | the heap can grow if and only if the manager can expand its region; afterwards the heap's descriptor is the one on the manager's list and every frame is accounted for |
| KernelMemory.StaysListed | kernel/mem/vmm.c:116-467 | a region in use stays on the list unchanged through every operation that is not on it |
| KernelMemory.HeapIsMapped | kernel/mem/heap.c:139-211 | every page of the heap has a frame of its own, and the tables translate it there, present and writable on every level |
| KernelMemory.EveryRunIsSafe | kernel/mem/heap.c:440-576 | from boot through any operations of the manager and kheap_init, over every run of heap requests and other operations of the manager: the blocks held are safe, the heap is exactly the window of its region, every page of it translates to a held frame of its own, and every frame is accounted for; with the intended test nothing is asked of requests |
| PageTables.SameRoute | kernel/HAL/x86-64/x64-memory.c:54-61 | two addresses take the same path exactly when they agree in bits 47 to 12 |
| TableAccess.WalkIsLeaf | kernel/HAL/x86-64/x64-memory.c:54-85 | the flat map is what a walk finds that takes bits 47 to 39 of the address in the root and nine bits less significant in each table below, and stops at an entry that is not present |
| PageTables.TableEntryTarget | kernel/HAL/x86-64/x64-memory.c:65-69 | a new table's entry leads to the frame, and of its flags exactly present and writable are set |
| PageTables.FrameTables | kernel/HAL/x86-64/x64-memory.c:54-85 | which tables a tree has depends on its own tables only |
| PageTables.WriteLeaf | kernel/HAL/x86-64/x64-memory.c:103-117 | writing a leaf entry keeps the tree and its tables |
| PageTables.WriteLeafAt | kernel/HAL/x86-64/x64-memory.c:103-117 | and changes the flat map at that one page |
| PageTables.AddTable | kernel/HAL/x86-64/x64-memory.c:63-83 | creating a missing table keeps a tree of distinct frames and adds exactly the new one |
| PageTables.AddTablePath | kernel/HAL/x86-64/x64-memory.c:63-83 | and lengthens the path of the address to it |
| PageTables.AddTableLeaf | kernel/HAL/x86-64/x64-memory.c:63-83 | and changes no translation |
| TableAccess.OpenPath | kernel/HAL/x86-64/x64-memory.c:54-85 | where every table hangs under a writable entry, all entries on the path of an address are present and writable if and only if its page entry is |
| TableAccess.WriteLeafOpen | kernel/HAL/x86-64/x64-memory.c:103-126 | writing a page entry keeps every table under a writable entry |
| TableAccess.AddTableOpen | kernel/HAL/x86-64/x64-memory.c:63-83 | so does creating a missing table |
| Paging.MapRoundTrip | kernel/HAL/x86-64/x64-memory.c:103-188 | a mapped page reads back present, with its flags, and with its address if and only if that is aligned and canonical |
| Paging.MapEntryHigh | kernel/HAL/x86-64/x64-memory.c:103-117 | a mapped entry holds the frame in bits 47 to 12 and nothing above |
| Paging.AbsentKeepsFrame | kernel/HAL/x86-64/x64-memory.c:119-126 | invalidation keeps the frame and every flag but present |
| Paging.AbsentIsExact | kernel/HAL/x86-64/x64-memory.c:119-126 | it clears bit 0 and no other |
| Paging.CopyIsPlain | kernel/HAL/x86-64/x64-memory.c:239-242 | a copy without flags takes the entry as it is |
| Paging.CopyHasFlags | kernel/HAL/x86-64/x64-memory.c:239-242 | one with flags has all of them |
| Paging.CopyHasAddress | kernel/HAL/x86-64/x64-memory.c:239-242 | and beside them exactly the address bits of the entry |
| Paging.CopyKeepsFrame | kernel/HAL/x86-64/x64-memory.c:239-242 | new flags keep the copied frame if and only if they set no address bit it lacks |
| Paging.PagesFollow | kernel/HAL/x86-64/x64-memory.c:229-248 | the pages a copy goes through follow each other 4096 bytes apart from its start on |
| Paging.Untouched | kernel/HAL/x86-64/x64-memory.c:54-85 | a structure none of whose tables changed translates as before |
| Paging.PagingMemory.NextTable | kernel/HAL/x86-64/x64-memory.c:63-69 | finds or creates the next table, drawing a frame exactly if it is missing; frames are conserved, other memory and all translations unchanged, and every table stays under a writable entry |
| Paging.PagingMemory.GetEntry | kernel/HAL/x86-64/x64-memory.c:54-85 | the path of the address is complete afterwards with exactly the tables that were missing drawn, nothing is translated differently, and it fails only with fewer free frames than that |
| Paging.PagingMemory.Map | kernel/HAL/x86-64/x64-memory.c:103-117 | the page holds the frame and flags, every page differing in bits 47 to 12 what it held; exactly the missing tables are drawn; with every table under a writable entry the whole path is writable if and only if the flags say so |
| Paging.PagingMemory.Invalidate | kernel/HAL/x86-64/x64-memory.c:119-126 | the page loses its present bit only, every other page keeps its entry; exactly the missing tables are drawn |
| Paging.PagingMemory.GetPhysical | kernel/HAL/x86-64/x64-memory.c:128-188 | the read-only walk reports exactly the flat map's entry |
| Paging.PagingMemory.NewStructure | kernel/HAL/x86-64/x64-memory.c:190-204 | a new structure has all 512 second-level tables on the first frames handed out, each under a writable entry, and maps nothing; it fails only with fewer than 514 frames |
| Paging.PagingMemory.CountTables | kernel/HAL/x86-64/x64-memory.c:250-265 | the recursive counter adds the number of table frames |
| Paging.PagingMemory.DeleteTables | kernel/HAL/x86-64/x64-memory.c:206-220 | recursive deletion returns every table frame exactly once |
| Paging.PagingMemory.CopyPage | kernel/HAL/x86-64/x64-memory.c:234-243 | one page of the destination takes the source's entry; the source translates as before, and each structure is given exactly the tables it lacked |
| Paging.PagingMemory.CopyMapping | kernel/HAL/x86-64/x64-memory.c:229-248 | the pages of the range take the source's entries and no other page of either structure changes |
| PagingRuns.Apply | kernel/HAL/x86-64/x64-memory.c:103-126 | each mapping or invalidation on the tables is one step of the run, and fails only with no free frame left |
| PagingRuns.RunIsFlat | kernel/HAL/x86-64/x64-memory.c:103-188 | over every run of mappings and invalidations the tables refine a flat map from page to entry |
| PagingRuns.LastMappingWins | kernel/HAL/x86-64/x64-memory.c:103-188 | a page translates as its last mapping says, whatever happened before and to other pages since |
| PagingRuns.LastMappingIsWritable | kernel/HAL/x86-64/x64-memory.c:63-117 | in a structure that began with every table under a writable entry, all entries on the path of a page are present and writable if and only if its last mapping asked for a writable page |
| PagingRuns.AbsentUntilMapped | kernel/HAL/x86-64/x64-memory.c:119-188 | an invalidated page stays absent until it is mapped again |
| ShootdownProofs.StepKeepsInv | kernel/mem/vaddr_cache_shootdown.c:83-300 | every step of any CPU keeps the invariant: a CPU refers to a shootdown exactly from the push to the signal, and once |
| ShootdownProofs.RunKeepsInv | kernel/mem/vaddr_cache_shootdown.c:83-300 | so does every run |
| ShootdownRuns.AcksConserved | kernel/mem/vaddr_cache_shootdown.c:181-291 | signals sent plus requests queued or in process equal the pushes made, on every run |
| ShootdownRuns.WaitExact | kernel/mem/vaddr_cache_shootdown.c:275-300 | when the wait may first return, no queue or handler refers to the state if and only if those pushed to are those counted |
| ShootdownRuns.WaitNeverStuck | kernel/mem/vaddr_cache_shootdown.c:244-300 | on every run a wait may return once no queue or handler has its request, and every CPU that still has it can go on |
| ShootdownRuns.HandlerFinishes | kernel/mem/vaddr_cache_shootdown.c:244-260 | three steps of a handler take the request at the head of its queue to its acknowledgement, one signal each |
| ShootdownRuns.InitiatorAdvances | kernel/mem/vaddr_cache_shootdown.c:181-291 | each round of the two loops is one fewer to go, and no other step adds any: the initiator comes to its wait after one round for each CPU and one to see the end, twice over |
| ShootdownRuns.PushedExact | kernel/mem/vaddr_cache_shootdown.c:181-291 | a shootdown pushes to those it counted and those activated between their own count and their own push; to exactly those counted if and only if there are none |
| ShootdownRuns.FixedActiveSet | kernel/mem/vaddr_cache_shootdown.c:181-198 | with no activation while it counts and pushes, no CPU is late for a shootdown, whatever is activated after |
| ShootdownRuns.AckSafety | kernel/mem/vmm.c:29-39 | for a shootdown begun in any reachable state: when its wait may first return, no queue or handler refers to its stack-allocated state if and only if no CPU was activated between its own count and its own push; without such an activation none does later either |
| ShootdownTlb.StepKeepsCoherent | kernel/mem/vaddr_cache_shootdown.c:144-260 | with the guard turned round, every step keeps TLBs no older than what has been acknowledged |
| ShootdownTlb.TlbCoherence | kernel/mem/vaddr_cache_shootdown.c:144-300 | with the guard turned round, for a shootdown begun in any reachable state with no CPU activated between its own count and its own push: after the wait has returned the initiator, every CPU active at its begin or counted and every CPU that has finished activating hold nothing older than the changes the initiator had made, then and later |
| ShootdownFindings.HandlerDeletesNothing | kernel/mem/vaddr_cache_shootdown.c:252-258 | as written the handler deletes no translation for any range |
| ShootdownFindings.DeletedExact | kernel/mem/vaddr_cache_shootdown.c:144-152 | with the guard turned round exactly the pages of the range leave the TLB |
| ShootdownFindings.HandlerExact | kernel/mem/vaddr_cache_shootdown.c:252-258 | a handler leaves no translation of the range if and only if its guard is turned round or there was none |
| ShootdownFindings.ShootdownHasNoEffect | kernel/mem/vaddr_cache_shootdown.c:181-300 | as written no step of a shootdown changes any TLB |
| ShootdownFindings.StaleAfterWait | kernel/mem/vaddr_cache_shootdown.c:234-300 | a run that ends with a returned wait and a stale translation on a CPU that signalled |
| ShootdownFindings.ReturnsTooEarly | kernel/mem/vaddr_cache_shootdown.c:275-300 | a run in which the wait returns while a CPU activated after the count still has the request |
| ShootdownFindings.AdvancedRangeMisses | kernel/mem/vmm.c:299-307 | the range given to the shootdown shares no page with the window just mapped or unmapped, and covers it exactly when it is empty |
| ShootdownQueue.Queue.Push | kernel/mem/vaddr_cache_shootdown.c:83-100 | the request goes in front; head, tail and count stay consistent |
| ShootdownQueue.Queue.Pop | kernel/mem/vaddr_cache_shootdown.c:102-128 | the request pushed last comes out first |
| ShootdownQueue.DeleteRange | kernel/mem/vaddr_cache_shootdown.c:144-152 | exactly the pages of the range leave the TLB |
| ShootdownQueue.CountActive | kernel/mem/vaddr_cache_shootdown.c:275-291 | counts the other active queues |
| ShootdownQueue.Enqueue | kernel/mem/vaddr_cache_shootdown.c:181-198 | exactly the other active queues get the request, each in front |
| ShootdownQueue.Handle | kernel/mem/vaddr_cache_shootdown.c:244-260 | drains the queue, signals every state once per request carrying it, skips requests without one, and leaves the TLB as it was |
| FrameModel.FirstSuitable | kernel/mem/frame_allocator.c:32-43 | the first range large enough and inside the boot identity map, if there is one |
| FrameModel.Pick | kernel/mem/frame_allocator.c:77-124 | a usable range if there is any |
| FrameRuns.InitialInv | kernel/mem/frame_allocator.c:12-52 | initialisation leaves a stack that can hold every frame, in storage no range includes, and loses no page |
| FrameRuns.StackBytesLeast | kernel/mem/frame_allocator.c:20-30 | the stack is given the least whole pages above eight bytes a frame and one page |
| FrameRuns.StorageChosen | kernel/mem/frame_allocator.c:32-52 | it goes to the front of the first range that holds it below 1 GB, and there is none exactly when every range is too short or too high |
| FrameRuns.AllocEffect | kernel/mem/frame_allocator.c:54-132 | a granted frame was free and is now the client's alone, below 1 GB before architecture set-up; then allocation panics if and only if no frame was returned and every range is used up or lies at 1 GB or above, afterwards if and only if no frame is free |
| FrameRuns.AllocChooses | kernel/mem/frame_allocator.c:54-132 | the frame granted is the one returned last, else the front of the range used last, else of the first range that has one; the null frame is never granted |
| FrameRuns.DeallocEffect | kernel/mem/frame_allocator.c:134-172 | returning a held frame never overflows the stack |
| FrameRuns.DeallocExact | kernel/mem/frame_allocator.c:134-172 | a frame is taken back if and only if its storage has eight bytes left, and is the next one granted |
| FrameRuns.RunKeeps | kernel/mem/frame_allocator.c:54-139 | over every run no frame is lost or invented |
| FrameRuns.OpenFromArchOn | kernel/mem/frame_allocator.c:77-124 | memory from 1 GB on is open exactly from the set-up of the architecture on |
| FrameRuns.EveryRunIsSafe | kernel/mem/frame_allocator.c:12-139 | from initialisation on, over every run: held frames are boot pages outside the stack's storage, the stack and the ranges; held and free frames together stay constant; held and recycled frames lie below 1 GB until the architecture is set up |
| FrameAllocator.Allocator.constructor | kernel/mem/frame_allocator.c:12-52 | panics if and only if no range can hold the stack, and otherwise builds the initial state |
| FrameAllocator.Allocator.AllocFrame | kernel/mem/frame_allocator.c:54-132 | does what the model's allocation says and panics exactly when it says so |
| FrameAllocator.Allocator.DeallocFrame | kernel/mem/frame_allocator.c:134-139 | does what the model's deallocation says and never panics for a held frame |
| BootModel.AlignInside | kernel/HAL/bios/bootloader_data.c:136-149 | alignment keeps exactly the whole pages of a range that does not underflow |
| BootModel.AlignExact | kernel/HAL/bios/bootloader_data.c:136-149 | alignment invents no page if and only if the fragment is not shorter than its round-up |
| BootModel.LowIsEmptied | kernel/HAL/bios/bootloader_data.c:122-134 | a range above the first megabyte is left alone, one below it is emptied |
| BootModel.PrepareExact | kernel/HAL/bios/bootloader_data.c:109-149 | trimming and aligning a range leaves exactly its whole pages above 1 MB that the bootloader did not take |
| BootProofs.PermDisjoint | kernel/HAL/bios/bootloader_data.c:100-107 | sorting keeps disjoint ranges disjoint |
| BootProofs.FreeRangesMember | kernel/HAL/bios/bootloader_data.c:88-98 | a range is taken over if and only if it is that of an item marked free and not empty |
| BootProofs.FreeRangesExact | kernel/HAL/bios/bootloader_data.c:88-98 | the ranges are those items, in the order of the map, each once |
| BootProofs.FreeDisjoint | kernel/HAL/bios/bootloader_data.c:88-98 | of a map whose items do not overlap, neither do the ranges |
| BootProofs.TotalCounts | kernel/HAL/bios/bootloader_data.c:160-170 | the total is the sum over the items marked free, whatever the reserved ones hold |
| BootProofs.PipelineExact | kernel/HAL/bios/bootloader_data.c:76-157 | for a disjoint map without underflow the ranges are sorted, aligned and disjoint and hold exactly the available pages |
| BootProofs.ReservedStaysOut | kernel/HAL/bios/bootloader_data.c:76-157 | of a map whose items do not overlap, no page of a reserved item is in any range |
| BootProofs.FeedsAllocator | kernel/HAL/bios/bootloader_data.c:76-170 | those ranges and the reported total of free RAM meet what the frame allocator asks for |
| BootMemory.BootMap.Fill | kernel/HAL/bios/bootloader_data.c:88-98 | the buffer takes exactly the items marked free that are not empty, in order; more than 128 of them is a panic |
| BootMemory.BootMap.Sort | kernel/HAL/bios/bootloader_data.c:100-107 | the bubble sort leaves a sorted permutation |
| BootMemory.BootMap.TrimConsumed | kernel/HAL/bios/bootloader_data.c:113-120 | refines taking out what the bootloader used |
| BootMemory.BootMap.TrimLow | kernel/HAL/bios/bootloader_data.c:122-134 | refines taking out the first megabyte |
| BootMemory.BootMap.AlignAll | kernel/HAL/bios/bootloader_data.c:136-149 | refines cutting to whole pages, in 64-bit arithmetic |
| BootMemory.BootMap.FreeMemory | kernel/HAL/bios/bootloader_data.c:76-157 | the first call leaves the sorted, prepared free items in the buffer; later calls change nothing |
| BootMemory.TotalUsable | kernel/HAL/bios/bootloader_data.c:160-170 | the 64-bit sum of the sizes of the items marked free |
| Spinlock.StepCpuOk | kernel/HAL/x86-64/cpu_instructions.c:57-66 | every step, interrupts included, keeps the interrupt flag and the saved states consistent |
| Spinlock.StepLockOk | kernel/util/sync_types.c:18-32 | every step keeps each set flag with exactly one holder |
| Spinlock.EveryRunIsSafe | kernel/util/sync_types.c:18-32 | for any number of CPUs and any interleaving of nested use: one holder per lock, interrupts off while it is held, and the interrupt state from before the outermost acquire restored |
| Spinlock.RetryRestores | kernel/util/sync_types.c:18-26 | a CPU that finds the lock taken has the interrupt state back it came in with |
| Spinlock.InterruptibleBetween | kernel/util/sync_types.c:18-26 | on every run, one that came in with interrupts on can be interrupted between a failed attempt and the next |
| Spinlock.InterruptibleBetweenAttempts | kernel/util/sync_types.c:18-26 | so it can between an attempt that finds the lock taken and its next attempt |
| Spinlock.AcquireGets | kernel/util/sync_types.c:18-26 | on every run a context that asks for a lock, whatever interrupts it, is still asking for it or has come out holding it and nothing else new, by an attempt that found the flag clear |
| Spinlock.AcquireRelease | kernel/util/sync_types.c:18-32 | acquiring a free lock and releasing it, under any other locks, leaves the CPU, its interrupt state and the locks as they were |
| Spinlock.InterruptReturns | kernel/HAL/x86-64/interrupt_stubs.s:113-127 | a handler that holds no lock can return, and the code it interrupted goes on with the interrupt state and the locks it had |
| Spinlock.ReleaseExact | kernel/util/sync_types.c:28-32 | a release leaves interrupts off for the locks still held, except exactly for the outermost of several taken with interrupts on |
| Spinlock.ReleasedOutOfOrder | kernel/util/sync_types.c:18-32 | a run from the start takes two locks, releases the outer one first and holds the inner one with interrupts on |

## Left out

- KernelHeap.Heap.Kmalloc: requests above 2^63 bytes are excluded; HeapFindings says what 64-bit arithmetic does to them.
- KernelHeap.Heap.Kfree: the pointer is one kmalloc returned; what kfree does with a pointer into nowhere is not modelled.
- VirtualMemory.Manager.IdentityMap: sizes and addresses are unbounded, so a range that wraps past 2^64 is not modelled; the same holds of CopyMapping and MemoryMap.
- VirtualMemory.Manager.MemoryMap: the class keeps its pages as a map without flags; the entries with their flags are in VmmFrames.MapEntries.
- VirtualMemory.Manager.CopyMapping: so does the copy, whose source is a map from page to frame there; see VmmFrames.CopyEntries.
- VmmFrames.EveryFrameIsAccountedFor: is about machines whose memory lies below 2^47; above, an entry does not hold the frame's address (Paging.MapRoundTrip).
- Paging.PagingMemory.CopyMapping: the byte count is unbounded; above 2^64 - 4096 the code's counter wraps and its loop does not end. Source and destination are structures that share no table.
- Paging.PagingMemory.DeleteTables: delete_paging_structure returns before it gets there, so the kernel never runs it.
- BootMemory.BootMap.FreeMemory: get_ram_space runs the same filter, sort and alignment without the two trims and is not repeated.
- FrameAllocator.Allocator.constructor: takes the used part of the boot buffer as its array; that the ranges there are sound and accounted for is BootProofs.FeedsAllocator.
- ShootdownTlb.TlbCoherence: is about the guard turned round and a shootdown no CPU is late for; with the guard as written only ShootdownFindings.HandlerExact holds.
- The comment that a checkpoint pushed last completes last is not claimed: the queue is last in, first out.
- empty_all_vmmcache_shootdown_queues and, in the protocol, ranges queued without a state: the kernel does not use them.
- Fairness: that the steps a waiting initiator needs stay possible is ShootdownRuns.WaitNeverStuck; that every CPU gets to take them, and that a CPU spinning on a lock gets it, is not claimed.
- load_identity_map_pages, page-fault handling and stack auto-expansion; the user-space manager.
- Boot assembly, GDT, IDT, APIC, PIT, ACPI, MADT and ELF readers, console and display code, image tools.
- circular_buffer, linked_list and kernel_data are not modelled.

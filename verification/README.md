# A verified model of a virtual-memory simulator

The repository simulates the virtual memory of an operating system: a memory manager with page tables, a frame
table, a TLB, a 4-level page table, copy-on-write sharing, compression, prefetching and twelve page-replacement
policies. This project models that engine in Dafny and proves what its parts promise each other. `dafny verify
dfyconfig.toml` checks all of it.

Two layers meet throughout. Values and functions say what an operation does to the state
(`MemoryModel`, `CowState`, `TwoLayerMap`, the list functions of `Arc` and `Car`). Classes work as the program
does, field by field and loop by loop (`MemoryManager`, `FrameTable`, `Tlb`, `CopyOnWrite`, `Compression`,
`MultiLevelTable`, `Clock`, `WSClock`, `Arc`, `Car`, `Policies`, `Offline`, `Simulator`), and every method is proved
to do what the function says. The theorems are about the functions and hold for every run.

Main results:

- **Coherence** (`Coherence`, `StoreRuns`). In every run without forks and huge pages, for every policy, with pins,
  removals and failures, present pages and used frames are paired one to one, tags and mappings agree, and each
  multi-level table is the same mapping again as long as the process stays below page 2^36: loading a page keeps the
  two in agreement exactly below that limit. A failed access changes no mapping, no owner tag and no compressed page.
- **Failures** (`Failures`). In any state, with forks, copies and pins, an access fails exactly under a guard on the
  state before it: no frame can be had for its page, or none for the copy its write needs.
- **TLB transparency** (`Transparency`, `TlbSteps`, `TlbRuns`). The contents of the TLB are modelled beside the rest of
  the state, insertion by insertion. After every operation of every run without forks and huge pages, with clustering
  or without, the TLB agrees with the page tables; with forks, copies and huge pages it does as long as every page is
  loaded under its own number and every fork has a fresh child, and both conditions are exact for the single step. So
  managers whose TLBs differ in capacity agree after every operation of such a run without clustering; with clustering
  the fast path equals the slow path exactly when the detector has nothing left to learn.
  `SharingRuns.ForkLeavesStaleEntry` is a forked run after which a process reads a page it no longer has.
- **LRU inclusion** (`LruStack`, `LruInclusion`). With n <= m frames, the pages resident with n frames are resident
  with m, and m frames never cause more faults, through the whole of `AccessMemory`.
- **Copy-on-write** (`CowState`). Redundant counts agree under every interleaving of the critical sections; n sharers
  writing once each, their looks, decisions and numberings interleaved in any way, cause n - 1 copies with new,
  different numbers.
- **Isolation** (`Isolation`, `CalmRuns`, `SharingRuns`). An eviction, a removal, a fork or a failing write keeps
  sharing sound exactly when it passes its guard, and in `SharingRuns` each of the four breaks it in a short run that
  misses the guard. While every operation passes its guard, a page not marked shared is alone in its frame, and a write
  takes nothing from other processes but the frames it evicts. Runs without forks and huge pages pass every guard, and
  in any isolated state an access passes its guard under every policy exactly when a condition on that state holds.
- **Conservation** (`Conservation`, `Pins`, `Compression`). Used frames + evictions + frames released by removals =
  faults + copies + prefetched pages + lost loads, in every run. A load is lost exactly when an absent shared page is
  written by one of several sharers while every frame is pinned and one is free; `SharingRuns.LoadLost` gives such a
  run, and runs that pin nothing lose nothing.
- **What a frame records** (`FrameLogs`, `Swap`, `Counters`). With a log of the accesses kept beside the run: a used
  frame is dirty exactly if a write hit it since it was last allocated, and dirty evictions are the evictions of such
  frames. Their pages are in the compressed store afterwards and come out of it with the next fault. Hits and faults
  count exactly the accesses that found their page and those that brought one in.
- **Prefetching and the resident set** (`Clusters`, `ResidentSet`). Three pages in a row bring in the first two absent
  ones of the sixteen that follow, in order, unless fewer are absent or no frame is free, and after, not before, the
  evictions down to the resident-set target, which take exactly the excess.
- **Huge pages** (`HugePages`, `Processes`). A huge page serves exactly the addresses of its 2 MB, with one frame, and
  every other address of every process resolves as before but for what its victim's page loses.
- **4-level table** (`TwoLayerMap`, `TableWalk`, `MultiLevelTable`). The pointer trie refines a huge-page map laid over
  a 4 KB map; shadowed small pages resurface; the walk reports every visible mapping once, in address order.
- **Policies** (`Clock`, `WSClock`, `Arc`, `Car`, `Policies`, `Offline`). The shared victim contract for all twelve;
  second chance, working-set protection, the list invariants of ARC and CAR in every run and the termination of their
  adaptation, exactly which entry CAR's scans over lists that change under them give up, and Belady's choice, and that
  of OPT+, with the exact condition on the frames and the trace under which the code makes it. `ArcPolicy` puts ARC
  into the manager's runs.
- **What a hit is good for** (`ArcOrder`, `CarOrder`, `Accessed`, `TlbRecency`, `FaultRates`). Where ARC and CAR put a
  page that is hit, remembered or new, in what order the others stay, and the exact condition under which a page just
  accessed is the next victim; the same, one way, for CLOCK, WSClock, NRU, LRU, LFU and the TLB. `ArcOrder` and
  `CarOrder` each hold a state in which such a page does go first. PFF's rate counts exactly the faults of its window.
- **Precomputed traces** (`Simulator`). A scenario run from the seed's state issues exactly the list computed for the
  offline policies, for any random number generator.

## Model

| member | source | states |
|---|---|---|
| TwoLayerMap.IndicesDecompose | internal/memory/multilevel_pt.go:62-68 | below 2^48 the four 9-bit indices and the 4 KB offset determine the address |
| TwoLayerMap.IndicesInjective | internal/memory/multilevel_pt.go:62-68 | two addresses share all indices iff they lie in one 4 KB page, and the upper three iff in one 2 MB page |
| TwoLayerMap.LookupAfterHistory | internal/memory/multilevel_pt.go:70-166 | after any sequence of sets and invalidations a lookup sees the live huge page, else the last small mapping not invalidated while uncovered |
| TwoLayerMap.ShadowedPagesResurface | internal/memory/multilevel_pt.go:102-153 | mapping a huge page and invalidating it gives back every small page under it |
| TableWalk.VisitIsLookup | internal/memory/multilevel_pt.go:168-200 | a reported address leads back to its slot, and a lookup there returns the reported mapping |
| TableWalk.LookupIsVisited | internal/memory/multilevel_pt.go:168-200 | every address that resolves is covered by exactly one report, with the same frame |
| MultiLevelTable.MultiLevelPageTable.GetEntry | internal/memory/multilevel_pt.go:70-93 | the entry found, if present, holds the frame that the two-layer map gives for the address |
| MultiLevelTable.MultiLevelPageTable.SetEntry | internal/memory/multilevel_pt.go:95-135 | updates the trie in place, creating missing tables, as the two-layer map's Set; the returned entry is present with the given frame; every other address is unaffected |
| MultiLevelTable.MultiLevelPageTable.InvalidateEntry | internal/memory/multilevel_pt.go:137-166 | acts as the two-layer map's Invalidate: the huge mapping goes first, else the small one |
| MultiLevelTable.MultiLevelPageTable.WalkRegion | internal/memory/multilevel_pt.go:178-196 | reports of one 2 MB region: the huge page alone, else its small pages; relies on a huge mark always having a present entry |
| MultiLevelTable.MultiLevelPageTable.WalkPages | internal/memory/multilevel_pt.go:168-200 | the callback is called exactly once for each visible mapping, in strictly ascending address order |
| CowState.CountsAgreeInEveryRun | internal/cow/cow.go:51-285 | whatever the interleaving of the critical sections, resets included, each RefCount equals its process-set size and its ReferenceCounter value, is at least 1, and all sum to totalRefs |
| CowState.EachSharerWritesOnce | internal/cow/cow.go:83-144 | n registered sharers writing once each, their look under the read lock, their decision under the write lock and the numbering after it interleaved in any way with each other and with writes to other pages, cause exactly n - 1 copies with new, pairwise different numbers, and the page ends up unshared |
| CowState.AddSharersValid | internal/cow/cow.go:51-79 | SharePage registers exactly the listed processes, however often listed |
| CowState.DropEverywhereAnyOrder | internal/cow/cow.go:260-285 | the result of RemoveProcess does not depend on the order in which the map is walked |
| CowState.DropEverywhereLeaves | internal/cow/cow.go:260-285 | RemoveProcess takes its process off the record of every page and nobody else off any |
| CowState.ShareAllAnyOrder | internal/cow/cow.go:215-257 | the result of ForkProcess does not depend on the order of the pages |
| CowState.ShareAllRegisters | internal/cow/cow.go:215-257 | a fork registers parent and child for exactly the given pages |
| CopyOnWrite.ReferenceCounter.Increment | internal/cow/reference_counter.go:23-34 | adds one to the page's count and to the total |
| CopyOnWrite.ReferenceCounter.Decrement | internal/cow/reference_counter.go:37-54 | takes one off an existing count and the total; a count that reaches zero disappears |
| CopyOnWrite.CopyOnWrite.SharePage | internal/cow/cow.go:51-79 | refuses an empty list, else registers every listed process in table and counter |
| CopyOnWrite.CopyOnWrite.HandleWrite | internal/cow/cow.go:83-144 | both critical sections and the numbering in sequence: no copy, or a new number when several sharers are registered and the writer is one of them |
| CopyOnWrite.CopyOnWrite.UnsharePage | internal/cow/cow.go:147-174 | unregisters one sharer and forgets the page with its last one |
| CopyOnWrite.CopyOnWrite.ForkProcess | internal/cow/cow.go:215-257 | registers both processes for every page, in whatever order they come |
| CopyOnWrite.CopyOnWrite.RemoveProcess | internal/cow/cow.go:260-285 | the process leaves every page it shares |
| Compression.StoreLawsInEveryRun | internal/memory/advanced.go:234-318 | in every run the byte totals are the sums over the stored pages, their number is compressed minus decompressed, and the ratio is that of the totals |
| Compression.RestoreUndoesDecompress | internal/memory/advanced.go:275-318 | restoring a page just decompressed gives back the store and every counter |
| StoreRuns.StoreInEveryRun | internal/memory/manager.go:375-561 | in every run of the manager, forks and huge pages included, the totals of the compressed store are those of the pages it holds |
| StoreRuns.StoreHalvesInEveryRun | internal/memory/advanced.go:234-318 | in every run of the manager the store counts 4096 bytes in and 2048 out for each of its pages, and its ratio is one half unless it is empty |
| Swap.OutAndIn | internal/memory/manager.go:375-561 | a dirty page that is evicted is in the store, and the next fault for it takes it out and leaves the store's pages as they were |
| Swap.FaultTakesOut | internal/memory/manager.go:375-454 | a fault takes its page's image out before a victim's goes in: afterwards the store has lost the page and gained the victim's, if that was dirty |
| Compression.CompressionManager.CompressPage | internal/memory/advanced.go:234-273 | stores the half-size image unless the page is empty, compresses badly or is stored already |
| Compression.CompressionManager.DecompressPage | internal/memory/advanced.go:298-318 | takes the page out and gives its bytes back to the totals |
| MemoryModel.EvictTables | internal/memory/manager.go:522-561 | an eviction frees its frame, unmaps exactly the tagged page and leaves all other pages and frames alone |
| Failures.AccessFails | internal/memory/manager.go:210-520 | in any state an access by a live process fails iff its page is absent and every frame is in use and pinned, or its write needs a copy and no frame is left for it |
| Failures.SettleFails | internal/memory/manager.go:456-520 | a write to a page fails iff the page is marked shared, its process is one of several registered sharers, and every frame is in use and pinned |
| Failures.FaultFails | internal/memory/manager.go:375-429 | a fault fails iff every frame is in use and pinned, or after its page was loaded, which happens iff the write needs a copy while every frame is pinned and exactly one is free |
| Coherence.CoherentIsBijection | internal/memory/manager.go:375-454 | in a coherent state two present pages share a frame only if they are the same page |
| Coherence.EvictCoherent | internal/memory/manager.go:522-561 | evicting a used frame keeps page tables, owner tags and multi-level tables in agreement |
| Coherence.AttachCoherent | internal/memory/manager.go:375-429 | loading an absent page into a free frame keeps the agreement and maps exactly that page |
| Coherence.EnforceCoherent | internal/memory/manager.go:923-945 | evicting down to PFF's target keeps the agreement |
| Coherence.PrefetchCoherent | internal/memory/manager.go:333-373 | prefetching keeps the agreement |
| Coherence.AccessCoherent | internal/memory/manager.go:210-314 | an access keeps the agreement and fails exactly when its page is absent and every frame is in use and pinned |
| Coherence.FailedAccessChangesNothing | internal/memory/manager.go:375-454 | in a coherent state with an orderly compressed store a failed access leaves owner tags, mappings, multi-level tables, compressed store and counters as they were |
| Coherence.RemoveCoherent | internal/memory/manager.go:168-208 | removing a process keeps the agreement |
| Coherence.RemoveReleasesExactly | internal/memory/manager.go:168-208 | removing a live process frees exactly the frames that carry its name, leaves every other frame as it was, and takes away exactly its tables |
| Coherence.CoherentInEveryRun | internal/memory/manager.go:143-454 | in every run of create, access, remove, pin, unpin, reset and settings, for every lawful policy, the page tables, owner tags and multi-level tables agree after each operation, and the compressed store is in order |
| Coherence.FailuresInEveryRun | internal/memory/manager.go:210-454 | after every such run an access by a live process fails iff its page is absent and every frame is in use and pinned, and a failed access changes nothing |
| Coherence.AgreesWithinTheLimitOnly | internal/memory/multilevel_pt.go:62-68 | loading an absent page into a free frame keeps the page table and the multi-level table of its process in agreement on all pages below 2^36 iff the page is below 2^36 itself: beyond, it takes the slot of another page |
| LruStack.StackReplace | internal/algorithms/lru.go:25-56 | when the least recent of n resident pages makes room, the residents are again the n most recently used |
| LruInclusion.VictimStamp | internal/algorithms/lru.go:25-56 | LRU's victim among the used frames is the resident page with the oldest access |
| LruInclusion.ResidentsAreMostRecent | internal/memory/manager.go:210-454 | after every access the resident pages are the most recently used ones, as many as there are frames |
| LruInclusion.MoreFramesFewerMisses | internal/simulator/simulator.go:215-250 | on any trace, more frames never cause more page faults under LRU |
| LruInclusion.Inclusion | internal/simulator/simulator.go:215-250 | for n <= m frames, after every access the pages resident with n frames are resident with m, and the m-frame run has no more faults |
| Transparency.FastPathIsSlowPath | internal/memory/manager.go:222-287 | for a resident page the read fast path ends in the state of the slow path iff clustering is off or tracking the page again changes nothing |
| Transparency.TlbIsTransparent | internal/memory/manager.go:210-314 | a run whose reads take the fast path to whatever frame the TLB files, the TLB being within its capacity and agreeing with the page tables, ends where the run without a TLB ends: frames, page tables, policy state, hits, faults and evictions |
| Transparency.TlbSizeIsTransparent | internal/memory/tlb.go:30-112 | two managers whose TLBs have different capacities and any contents that agree with their own page tables agree after the same operations |
| TlbRuns.TlbAgreesInEveryRun | internal/memory/manager.go:210-561 | in every run without forks and huge pages, with clustering or without, for every policy and capacity: whatever of its oldest entries the TLB drops when it is full, after each operation every entry is the page table's, filed under its own key, and the TLB is within its capacity |
| TlbRuns.OwnRunsKeepTlb | internal/memory/manager.go:168-846 | the same with forks, copies and huge pages and clustering off, as long as each page is loaded under its own number and each fork has a fresh child; and the run is then the run without a TLB |
| TlbRuns.CapacityIsTransparent | internal/memory/tlb.go:51-112 | two managers with TLBs of different capacities, each filled as its own run fills it, agree after the same operations of a run without forks, huge pages and clustering, or of one as above |
| TlbRuns.StepInStep | internal/memory/manager.go:143-846 | each operation keeps the TLB in agreement in any state, isolated or not: evictions, copies, removals and huge pages always, loads and forks under their condition |
| TlbRuns.LoadAgreesIffOwnNumber | internal/memory/manager.go:375-454 | loading an absent page keeps the TLB in agreement iff the page is filed under its own number: an evicted copy is not, and is cached under the number of the copy |
| TlbRuns.ForkAgreesIff | internal/memory/manager.go:563-601 | a fork keeps the TLB in agreement iff every translation still cached for the child is one the parent has; for a fresh child always |
| SharingRuns.ForkLeavesStaleEntry | internal/memory/manager.go:563-601 | a run of four operations, for any number of frames and any capacity, after which the TLB holds a page for the child of a fork that has no such page, and a read takes it |
| Conservation.EvictBalances | internal/memory/manager.go:522-561 | an eviction moves one unit from the used frames to the eviction count |
| Conservation.AccessBalances | internal/memory/manager.go:210-314 | an access keeps used + evictions - faults - copies - prefetched, except that it grows by one exactly when an absent shared page is written by one of several registered sharers while every frame is pinned and exactly one is free |
| Conservation.FramesAreConserved | internal/memory/manager.go:168-601 | in every run: used frames + evictions + frames released by removals = faults + copies + prefetched + lost loads, and accesses = faults + hits |
| Conservation.ErrorFreeRunsLoseNothing | internal/memory/manager.go:168-601 | without errors no load is lost and the counters balance exactly, whatever is pinned |
| Conservation.UnpinnedRunsLoseNothing | internal/memory/manager.go:168-601 | runs that pin no frame lose no load and balance exactly, whatever fails in them |
| Conservation.RemoveBalances | internal/memory/manager.go:168-208 | a removal takes as many frames out of use as used frames are mapped by the process's pages |
| Pins.PinsStay | pkg/models/frame.go:52-97 | no operation but Pin and Unpin changes which frames are pinned, not even a release or a reset |
| SharingRuns.LoadLost | internal/memory/manager.go:375-520 | a run of eight operations with one frame, under any policy without a resident-set target, that loses a load, so that the counters no longer balance |
| Conservation.MapHugeBalances | internal/memory/manager.go:795-846 | mapping a huge page takes one frame and counts one fault, or changes nothing in the balance |
| Conservation.CountIsUsed | internal/memory/frame.go:96-135 | the used-frame count is the number of frames that GetUsedFrames lists |
| Isolation.ForkIsolated | internal/memory/manager.go:563-601 | a fork keeps isolation, pages in one frame being the same page of registered sharers, iff the parent holds no copy |
| Isolation.EvictIsolated | internal/memory/manager.go:522-561 | evicting a used frame keeps isolation iff no page but the one the frame is tagged with maps it |
| Isolation.RemoveIsolated | internal/memory/manager.go:168-208 | removing a live process keeps isolation iff no other process's page maps a frame that its pages map |
| CalmRuns.StrandedAccess | internal/memory/manager.go:456-520 | a write to a resident page that needs a copy while every frame is in use and pinned fails, and keeps isolation iff no other page maps its frame |
| Isolation.AccessIsolated | internal/memory/manager.go:210-314 | an access whose evictions pass their guard and whose write is not left without a copy beside another page keeps isolation, whether it succeeds or fails; pages of other processes at most lose their frames to evictions; a write that succeeds leaves its page unshared |
| Isolation.UnsharedPagesAreAlone | internal/memory/manager.go:168-601 | in runs in which every operation passes its guard, a page not marked shared lives in a frame that no other page of any process maps |
| Isolation.WritesAreIsolated | internal/memory/manager.go:210-520 | after a successful write of such a run the page is not shared and, unless a resident-set target has evicted it again, alone in its frame; the write moves no page of another process and changes none but by evicting it |
| CalmRuns.ForklessRunsAreCalm | internal/memory/manager.go:143-454 | every operation of a run without forks and huge pages passes its guard, whatever is evicted, removed, pinned or fails |
| CalmRuns.PinnedSharingIsSafe | internal/memory/manager.go:210-561 | while every used frame that a page other than its tagged one maps is pinned, an access under a policy without a resident-set target passes its guard, unless its write is left without a copy beside another page |
| CalmRuns.StateGuardIsExact | internal/memory/manager.go:210-561 | in an isolated state an access passes its guard under every lawful policy without a resident-set target iff: whenever the access must evict, for its page or for the copy of its write, every evictable frame is mapped by its tagged page only; and a write that cannot have its copy is to a page alone in its frame |
| CalmRuns.StateGuardIsolates | internal/memory/manager.go:210-561 | under that condition on the state alone an access keeps isolation whatever the policy chooses, whether it succeeds or fails |
| Isolation.CopyReplacesOnlyOwnNumber | internal/memory/manager.go:495-503 | after a copy was made the writer's page is in another frame iff the page was filed under its own number |
| SharingRuns.CalmRunsCopy | internal/memory/manager.go:456-601 | a run that passes every guard, under any policy without a resident-set target: parent and child share a frame after the fork, and no longer after the parent's write |
| SharingRuns.CalmRunsEvict | internal/memory/manager.go:375-601 | a run that passes every guard, with a fork, a pinned shared frame and an eviction |
| SharingRuns.EvictionBreaksSharing | internal/memory/manager.go:522-601 | a run that evicts a frame that the child still maps: the child's page and another process's unshared page end up in one frame |
| SharingRuns.RemovalBreaksSharing | internal/memory/manager.go:168-208 | a run that removes the parent while the child maps its frame: the child's page and another process's unshared page end up in one frame |
| SharingRuns.FailedWriteBreaksSharing | internal/memory/manager.go:456-520 | a run whose write finds no frame for its copy: the child's next write makes the frame the child's own although the parent still maps it |
| SharingRuns.ForkedCopyStaysShared | internal/memory/manager.go:495-601 | a run without errors and evictions that forks a process holding a copy: after its next write the page still shares the frame of the new child |
| Tlb.MakeKeyInjective | internal/memory/tlb.go:43-45 | no two translations share a key, whatever the process names contain |
| Tlb.TLB.Lookup | internal/memory/tlb.go:51-70 | a hit returns the frame filed for exactly this process and page; only a time stamp and the hit counters change |
| Tlb.TLB.Insert | internal/memory/tlb.go:73-92 | files the translation, after dropping one least recently used entry when a bounded cache is full |
| Tlb.TLB.EvictOldest | internal/memory/tlb.go:95-112 | drops exactly one entry, and none is older |
| Tlb.TLB.InvalidateProcess | internal/memory/tlb.go:124-133 | drops exactly the process's entries |
| TlbRecency.AccessIsFiled | internal/memory/manager.go:210-314 | after an access that does not fail, from a coherent state, without clustering and a resident-set target, the TLB files the page under the frame it is in, stamped with the access |
| TlbRecency.UsedStays | internal/memory/tlb.go:73-112 | an entry outlasts an insertion as long as another has an older stamp |
| TlbRecency.FoundStays | internal/memory/tlb.go:51-112 | a page just found outlasts the next insertion while any other entry is older than the lookup |
| FrameTable.FrameTable.AllocateFrameInRange | internal/memory/frame.go:191-204 | gives the first free frame of the range to the page, or changes nothing; an end beyond the table is the end of the table, and a range that ends before it starts is empty |
| FrameTable.FrameTable.GetUsedFrames | internal/memory/frame.go:96-107 | lists exactly the used frames, in order |
| FrameTable.FrameTable.SetPinned | pkg/models/frame.go:126-133 | pins or unpins the frame of a valid number and changes nothing else |
| MemoryManager.MemoryManager.constructor | internal/memory/manager.go:50-81 | a manager starts with nothing mapped, every frame free, an empty TLB, all views in agreement |
| MemoryManager.MemoryManager.EnableClustering | internal/memory/manager.go:99-103 | changes the setting and nothing else |
| MemoryManager.MemoryManager.AllocateFrameForPage | internal/memory/manager.go:770-791 | the first free frame of the process's half when NUMA is on, else of the whole table |
| Numa.HomeComesFirst | internal/memory/manager.go:756-791 | with NUMA on a process gets the first free frame of its own half of the table, the lower iff its name has an even number of characters of odd code, and one of the other half only if its own has none |
| Numa.HashIsPolynomial | internal/memory/manager.go:760-768 | the hash is the polynomial of the characters in 31, modulo 2^64 |
| Numa.CopyTakesFirstFree | internal/memory/manager.go:466-503 | a copy takes the first free frame of the table, in whatever half |
| MemoryManager.MemoryManager.EvictPage | internal/memory/manager.go:522-561 | compress if dirty, unmap, drop the TLB entry and the multi-level entry, notify the policy, free the frame |
| MemoryManager.MemoryManager.LoadPage | internal/memory/manager.go:375-454 | a free frame or a victim's is mapped to the page in every table and filed in the TLB, from which an evicted page goes; a failure leaves the TLB alone; coherence is kept |
| MemoryManager.MemoryManager.HandleCoW | internal/memory/manager.go:456-520 | the copy gets a frame and the page's place in the table and in the TLB, or the page becomes private |
| MemoryManager.MemoryManager.HandlePageFault | internal/memory/manager.go:375-429 | takes the compressed image out, loads the page, settles a shared write, and puts the image back when no frame can be had |
| MemoryManager.MemoryManager.EnforceResident | internal/memory/manager.go:923-945 | evicts until at most the target number of frames is used, each page leaving the TLB too, keeping coherence |
| ResidentSet.TargetIsMet | internal/memory/manager.go:923-945 | under a target above zero exactly the frames used beyond it are evicted, fewer only if none is left that may be, and without one nothing happens |
| MemoryManager.MemoryManager.TrackAccess | internal/memory/manager.go:316-331 | keeps the last 16 pages and records a cluster when the last three follow each other |
| MemoryManager.MemoryManager.PrefetchCluster | internal/memory/manager.go:333-373 | loads at most two absent pages of the cluster into free frames and the TLB, keeping coherence |
| Clusters.ClusterBringsNext | internal/memory/manager.go:333-373 | a process whose last three pages began at a, with a cluster there, gets the first absent ones of a+1 to a+16 modulo 2^64, in order: two, unless fewer are absent or no frame is left free; no other page of any process comes or goes |
| Clusters.NoClusterNoPrefetch | internal/memory/manager.go:333-348 | without a cluster where the last three pages began nothing changes |
| Clusters.TrackRemembers | internal/memory/manager.go:316-331 | the last sixteen pages of the process are kept, and a cluster is recorded exactly where the last three follow each other modulo 2^64 |
| Clusters.ThreeInARow | internal/memory/advanced.go:145-169 | a process that touches a, a+1 and a+2 has its cluster at a, whatever came before |
| Processes.AccessIsTracked | internal/memory/manager.go:210-331 | an access, failed or not, is tracked once and first, if clustering is on and it misses the read fast path, and nothing else in it is |
| ResidentSet.TargetThenPrefetch | internal/memory/manager.go:289-314 | after a fault the evictions down to the target come before the prefetch, so that the pages it loads stay |
| MemoryManager.MemoryManager.UpdateWorkingSet | internal/memory/manager.go:873-903 | keeps the last ten accesses and counts the different pages among them |
| MemoryManager.WindowIsLastTen | internal/memory/manager.go:873-903 | after any accesses the window holds the last ten of them in order, or all if there are fewer |
| MemoryManager.MemoryManager.TryFastPath | internal/memory/manager.go:222-246 | hits exactly when the TLB has a valid entry for the page with a frame of the table, and touches that frame, which is the resident page's own whenever the TLB agrees with the page tables |
| MemoryManager.MemoryManager.AccessMemory | internal/memory/manager.go:210-314 | is the step of a manager whose TLB holds what this one's holds, and leaves in the TLB what the model of its contents says; keeps all four views in agreement; without clustering it does what the write-locked path alone would do; a failure leaves the TLB alone |
| FrameLogs.FramesTellTheirLog | pkg/models/frame.go:52-109 | in every run, forks, copies, pins and huge pages included, under a policy that records accesses: a used frame is dirty iff a write hit it since its last allocation, its stamps are those of its allocation and its last access, its count is that of its accesses, and dirtyEvictions counts the evictions of frames that had been written |
| FrameLogs.EvictionsOfWritten | internal/memory/manager.go:522-561 | with compression on, the page of an evicted frame is in the store if a write had hit it, and no other eviction changes the store |
| FrameLogs.LruRecords | internal/algorithms/lru.go:59-75 | LRU records every access and load on its frame and touches no record otherwise |
| FrameLogs.ArcRecords | internal/algorithms/arc.go:126-266 | so does ARC |
| Counters.AccessIsCounted | internal/memory/manager.go:210-314 | an access is counted once, as a hit if its page is resident, even if the write then fails, and as a fault if the page is absent and can be had |
| Counters.CountersInEveryRun | internal/memory/manager.go:210-314 | after every run since the last reset the hits are the accesses that found their page resident, the faults those that brought one in and the huge pages mapped, the accesses both |
| MemoryManager.MemoryManager.CreateProcess | internal/memory/manager.go:143-166 | refuses a known process, else adds empty tables for it |
| MemoryManager.MemoryManager.RemoveProcess | internal/memory/manager.go:168-208 | releases the frames of the present pages in any order, ends all sharing, and drops the process's tables, clusters and TLB entries |
| Processes.RemovalIsComplete | internal/memory/manager.go:168-208 | a removal leaves no table, no recent page, no huge page and no cluster of the process, and everything of every other process, unless the name is empty, which takes all clusters |
| Processes.ProcessesInEveryRun | internal/memory/manager.go:143-208 | in every run the page tables, 4-level tables, recent pages and huge pages are of the same processes, at most sixteen recent pages of each, and every cluster is a living process's |
| MemoryManager.MemoryManager.ForkProcess | internal/memory/manager.go:563-601 | the child gets a shared clone of the table, the parent's present pages become shared, both are registered |
| Processes.ForkedIsUnmapped | internal/memory/manager.go:563-601 | the child has the parent's pages but nothing in its 4-level table, no recent page and no huge page; no third process is touched |
| MemoryManager.MemoryManager.MapHugePage | internal/memory/manager.go:795-846 | a free frame or a victim's becomes the huge page, the victim's page leaving the TLB; indices of 2^43 and more are refused |
| HugePages.HugePageIsMapped | internal/memory/manager.go:795-846 | a huge page that was mapped serves every address of its 2 MB with one frame, tagged with the process and 2^32 plus the index and recorded for it |
| HugePages.OthersResolveAsBefore | internal/memory/manager.go:795-846 | every other address of every process resolves as before but for what the victim's page loses: its own translation, or, under a huge page, that huge page, whose small pages come back |
| HugePages.EvictedResolves | internal/memory/manager.go:522-561 | what an eviction takes from the translations of any process, address by address |
| HugePages.HugePageAfterEveryRun | internal/memory/manager.go:795-846 | the first holds after every run for every live process |
| MemoryManager.MemoryManager.Reset | internal/memory/manager.go:735-754 | everything is forgotten but settings, pins, the numbering of copies and what the policy's own Reset keeps of its state |
| Runs.ResetIsFreshStart | internal/memory/manager.go:735-754 | the state after a reset is that of a manager just built, but for settings, pins, the numbering of copies and the policy's state |
| Clock.CLOCK.SelectVictim | internal/algorithms/clock.go:26-78 | the first evictable frame from the hand with a clear bit, else the first evictable one; exactly the passed-over evictable frames lose their bits; the scan after two rounds never yields |
| Clock.SecondChanceDetermines | internal/algorithms/clock.go:26-78 | the second-chance description admits only one victim and one outcome |
| Clock.RecentlyUsedIsSpared | internal/algorithms/clock.go:26-78 | while some evictable bit is clear, no frame whose bit is set is chosen |
| WSClock.WSClock.SelectVictim | internal/algorithms/wsclock.go:30-95 | with a clock that never runs backwards: if any evictable frame is outside its working set at the first reading, the victim is clean and outside its own at the last reading taken; bits are only cleared, dirty bits only of old frames |
| WSClock.WSClock.Sweep | internal/algorithms/wsclock.go:38-72 | two visits clear the reference bit and, for a frame old from the start, the dirty bit |
| WSClock.OldIsCleanAfterSweeps | internal/algorithms/wsclock.go:38-84 | a frame old from the start is evictable, old and clean after two fruitless sweeps, so the first fallback finds one |
| Accessed.ClockSpares | internal/algorithms/clock.go:26-85 | CLOCK does not choose a frame just accessed while another evictable one has a clear bit |
| Accessed.WSClockSpares | internal/algorithms/wsclock.go:30-100 | WSClock does not choose a frame accessed within its window while another was outside when the choice began |
| Arc.AdaptBounded | internal/algorithms/arc.go:230-264 | adapting brings T1 to p and T1 and T2 together to c |
| Arc.AccessInvariant | internal/algorithms/arc.go:126-194 | an access keeps 0 <= p <= c, T1 within p, the ghosts within c, and every key in one place |
| Arc.FaultInvariant | internal/algorithms/arc.go:196-228 | a fault keeps the same bounds |
| Arc.SelectInvariant | internal/algorithms/arc.go:54-124 | an eviction keeps the same bounds |
| Arc.SelectContract | internal/algorithms/arc.go:54-124 | a victim is an evictable frame, and there is none only if nothing is evictable |
| Arc.SelectPrefersT1 | internal/algorithms/arc.go:97-124 | while T1 names an evictable frame the victim is named by T1, at or behind any given such entry, and T2 and B2 stay |
| Arc.BoundsInEveryRun | internal/algorithms/arc.go:54-362 | the bounds hold after every run, for every capacity |
| Arc.ARC.Adapt | internal/algorithms/arc.go:230-264 | both loops end and do what the closed form says, counters equal to lengths; T2 is not empty while the total exceeds c |
| Arc.ARC.OnPageAccess | internal/algorithms/arc.go:126-194 | a hit in T1 or T2 moves the entry to the front of T2, a ghost hit moves p and adapts, a new page enters T1 |
| Arc.ARC.OnPageFault | internal/algorithms/arc.go:196-228 | a remembered page enters T2, any other T1 |
| Arc.ARC.SelectVictim | internal/algorithms/arc.go:54-124 | the entry found nearest the back of T1, else of T2, becomes a ghost of its own list, found again by its key |
| ArcOrder.HitGoesToFront | internal/algorithms/arc.go:126-147 | a page found in T1 or T2 goes to the front of T2; the target, the ghosts and every other entry stay, in their order |
| ArcOrder.B1GoesToFront | internal/algorithms/arc.go:149-168 | a page that B1 remembers goes to the front of T2, the other entries of T1 and T2 losing nothing but their ends; the target grows by the ratio of the ghosts' lengths, at least one, up to c |
| ArcOrder.B2GoesToFront | internal/algorithms/arc.go:169-187 | so does a page that B2 alone remembers, and the target shrinks by the ratio, at least one, down to 0 |
| ArcOrder.NewPageEntersT1 | internal/algorithms/arc.go:188-264 | a page in no list enters T1 at its front, what T1 and then T2 cannot hold going to the front of their ghosts |
| ArcOrder.FaultGoesToFront | internal/algorithms/arc.go:196-228 | a fault for a remembered page puts it at the front of T2 and takes away the ghost that remembered it; any other page enters T1 as a new one |
| ArcOrder.AdaptedKeepsOrder | internal/algorithms/arc.go:230-264 | adapting takes entries from the backs only, and the latest demoted are remembered first |
| ArcOrder.SparedIffCovered | internal/algorithms/arc.go:54-124 | in any state with these bounds a page of T1 or T2 with an evictable frame is not the victim iff an entry of another page that names an evictable frame comes later in the queue from the front of T2 to the back of T1 than all of its own |
| ArcOrder.JustAccessedIsSpared | internal/algorithms/arc.go:54-194 | a page that some list knew, T1 and T2 once at most, is after its access not the victim iff another entry of T1 or T2 names an evictable frame |
| ArcOrder.NewPageIsNotSpared | internal/algorithms/arc.go:97-124 | a page that no list knew is not spared: a state in which it is the next victim, before another entry |
| ArcOrder.TwiceHeldIsNotSpared | internal/algorithms/arc.go:97-147 | nor is a page that T1 holds twice: a state in which only one of its entries moves and the other is the next victim |
| ArcOrder.VictimIsRemembered | internal/algorithms/arc.go:54-96 | the page of the victim is the latest ghost, in B2 if T2 gave it up and else in B1 |
| ArcOrder.VictimComesBack | internal/algorithms/arc.go:54-228 | a page that is evicted and faults again goes to the front of T2 |
| Car.AdaptedInvariant | internal/algorithms/car.go:184-201 | adapting brings T1 to p and T1 and T2 together to c, the ghosts to 2c |
| Car.AccessInvariant | internal/algorithms/car.go:124-162 | an access keeps 0 <= p <= c, T1 within p, T1 and T2 within c + 1, the ghosts within 2c, and every key in one place |
| Car.FaultInvariant | internal/algorithms/car.go:164-182 | a fault keeps the same bounds |
| Car.BoundsInEveryRun | internal/algorithms/car.go:51-350 | the bounds hold after every run, for every capacity |
| Car.ScanExhausted | internal/algorithms/car.go:55-86 | once the scan of the shrinking T1 has met every entry, those that name an evictable frame, that is, have a page whose first frame in the list is evictable, all had their bit set and have been promoted in scan order with cleared bits; the others are left in clock order |
| Car.T1ExhaustedIs | internal/algorithms/car.go:55-86 | after such a scan no entry left in T1 names an evictable frame, no entry is lost and none changes its page; if none named one nothing has changed |
| Car.SelectedTakesOne | internal/algorithms/car.go:51-122 | while any entry of T1 or T2 names an evictable frame, the victim is the frame that such an entry names and exactly that entry leaves the clocks, unremembered, all others staying with their pages; only otherwise the first evictable frame is taken, and then nothing moves |
| Car.SelectedDetermines | internal/algorithms/car.go:51-122 | the description of the two scans, with the hands where they stand, admits one victim and one outcome, up to where the hand of T1 stands in it |
| Car.BitsSweptTwice | internal/algorithms/car.go:88-114 | two rounds over T2 without a victim mean that no entry had a page whose first frame in the list is evictable, and nothing changed |
| Car.SelectedContract | internal/algorithms/car.go:51-122 | a victim is an evictable frame, and there is none only if nothing is evictable |
| Car.CAR.Adapt | internal/algorithms/car.go:184-245 | both loops end and do what the closed form says; the second never has to cut T1 |
| Car.CAR.ScanT1 | internal/algorithms/car.go:55-86 | within two rounds: the first entry from the hand that names an evictable frame and has a clear bit gives it up, those met before it with a set bit being promoted; or every entry that names one has been promoted |
| Car.CAR.ScanT2 | internal/algorithms/car.go:88-114 | gives up the first entry from the hand that names an evictable frame, of those with a clear bit if there are any, and clears the bits of those passed over; finds none only if no entry names one |
| Car.CAR.SelectVictim | internal/algorithms/car.go:51-122 | T1 is scanned, then T2 with what was promoted, and only if no entry names an evictable frame the first evictable frame of the list is taken, also when a later frame of some entry's page is evictable |
| Car.CAR.OnPageAccess | internal/algorithms/car.go:124-162 | marks the entry, or a ghost hit moves p, adapts and enters T2, or a new page enters T1 |
| Car.CAR.OnPageFault | internal/algorithms/car.go:164-182 | a remembered page enters T2, any other T1, then the lists adapt |
| CarOrder.HitSetsBit | internal/algorithms/car.go:124-137 | a hit sets the reference bit of the page's first entry in T1, or else in T2, and changes nothing else |
| CarOrder.B1EntersT2 | internal/algorithms/car.go:139-148 | a page that B1 remembers becomes T2's newest entry with its bit set; the target grows by the ratio of the ghosts' lengths, at least one, up to c |
| CarOrder.B2EntersT2 | internal/algorithms/car.go:149-157 | so does a page that B2 alone remembers, and the target shrinks |
| CarOrder.NewPageEntersT1 | internal/algorithms/car.go:158-245 | a page in no list becomes T1's newest entry with its bit set, if T1 has any room |
| CarOrder.FaultEnters | internal/algorithms/car.go:164-182 | a fault makes a remembered page T2's newest entry and any other T1's, with its bit set, as far as T1 leaves T2, or has itself, any room |
| CarOrder.AdaptedKeepsOrder | internal/algorithms/car.go:184-245 | adapting takes the oldest entries only, and the latest demoted are remembered longest |
| CarOrder.HitInT1GoesIff | internal/algorithms/car.go:51-137 | after a hit in T1 the victim is the page's entry iff its frame can go, every other entry of T1 that names an evictable frame has its bit set, and of the entries then found in T2 with a clear bit the hand meets it first |
| CarOrder.HitInT2GoesIff | internal/algorithms/car.go:51-137 | after a hit in T2 the victim is the page's entry iff its frame can go, no entry of T1 names an evictable frame, every other of T2 that does has its bit set, and the hand meets it first |
| CarOrder.JustHitIsSpared | internal/algorithms/car.go:51-137 | an entry just hit is spared while another entry of its own clock that names an evictable frame has a clear bit, and in T2 while any entry of T1 names one |
| CarOrder.HitInT1MayGoFirst | internal/algorithms/car.go:51-114 | a clear bit in T2 does not spare an entry of T1 just hit: a state in which it is promoted and given up before that one |
| CarOrder.GoneIffGoes | internal/algorithms/car.go:51-122 | of all entries of the clocks exactly the one that the scans come to is given up |
| Policies.ContractIsLawful | internal/algorithms/algorithm.go:11-18 | a policy that meets the victim contract on its list of frames, all different, answers the manager a used, unpinned frame of the table or none exists, and changes no owner |
| ArcPolicy.ArcInEveryManagerRun | internal/algorithms/arc.go:54-264 | with ARC as the manager's policy, in every run without forks and huge pages the views of the mapping agree and ARC's bounds and unique keys hold |
| Policies.SelectLru | internal/algorithms/lru.go:25-56 | the first of the least recently accessed evictable frames |
| Accessed.LruSpares | internal/algorithms/lru.go:25-63 | LRU does not choose a frame just accessed while an evictable one was accessed before |
| Policies.SelectFifo | internal/algorithms/fifo.go:25-56 | the first evictable frame that no other was loaded before |
| Policies.SelectLfu | internal/algorithms/lfu.go:24-60 | the first evictable frame of lowest access count, the least recent among those |
| Accessed.LfuSpares | internal/algorithms/lfu.go:24-67 | LFU does not choose a frame just accessed while an evictable one has been accessed no more often than it had |
| Policies.SelectRandom | internal/algorithms/random.go:24-45 | an evictable frame, whatever the random number |
| Policies.NRU.SelectVictim | internal/algorithms/nru.go:37-72 | a frame of the lowest non-empty class, by the bits after the periodic clearing |
| Accessed.ClassRanks | internal/algorithms/nru.go:52-62 | the classes rank an unreferenced frame before a referenced one, and of these a clean one before a dirty one |
| Accessed.NruSpares | internal/algorithms/nru.go:37-79 | between its ticks NRU does not choose a frame just accessed while another evictable one's bit is clear |
| Policies.PFF.SelectVictim | internal/algorithms/pff.go:53-93 | the least recently accessed evictable frame; every tenth choice adjusts the target |
| Policies.PFF.AdjustResidentSize | internal/algorithms/pff.go:95-129 | the target moves by the fault rate over the window |
| FaultRates.RateCountsTheWindow | internal/algorithms/pff.go:111-137 | after faults and readings in any order the rate times the seconds of the window is the number of faults in the window, or 512 if there were more: neither the readings nor the cap drop one too early |
| Policies.AdjustedTracksFaults | internal/algorithms/pff.go:95-109 | the target moves against the fault rate by one frame, lags the resident set by at most one unless at its maximum, and stays in its bounds once there; a target that starts below the minimum, as the manager sets it for fewer than eight frames, rises with faults and resident set and is never lowered |
| Offline.BuildIndex | internal/algorithms/optimal.go:30-39 | the index holds for every accessed page exactly its positions, in order |
| Offline.NextAccessDistance | internal/algorithms/optimal.go:77-92 | the distance is that of the page's true next use in the trace, or one million if there is none |
| Offline.Optimal.SelectVictim | internal/algorithms/optimal.go:42-73 | the first evictable frame of largest distance |
| Offline.OptimalIsFarthest | internal/algorithms/optimal.go:42-92 | the victim is Belady's iff no page that is used again passes for a never-used one: by a next use more than a million accesses away, or exactly a million and listed before every never-used evictable page |
| Offline.OptimalOnShortTraces | internal/algorithms/optimal.go:42-92 | on traces of at most a million accesses no evictable page is used later than the victim's |
| Offline.LongTracesFool | internal/algorithms/optimal.go:42-92 | a trace and two frames for which SelectVictim evicts the page that is used again and keeps the one that never is |
| Offline.OptPlus.SelectVictim | internal/algorithms/optplus.go:57-101 | the first evictable frame of best score |
| Offline.OptPlusPrefersNeverUsed | internal/algorithms/optplus.go:57-116 | when a never-used page could be evicted, one is, iff no page that is used again has its next use so far beyond a million accesses that it outweighs the write penalties against every never-used page, ties going to the page listed first |
| Offline.LongTracesFoolPlus | internal/algorithms/optplus.go:57-116 | a trace and two frames for which OPT+ evicts the page that is used again and keeps the one that never is |
| Offline.OptPlusOnShortTraces | internal/algorithms/optplus.go:57-116 | on traces of at most a million accesses a never-used page is evicted whenever there is one, a clean one if possible |
| Offline.OptPlusIsNearlyFarthest | internal/algorithms/optplus.go:89-101 | among used pages, on traces of any length, at most 100 accesses of distance are given up, and only to evict a clean page instead of a dirty one |
| Simulator.PrecomputeAccesses | internal/simulator/simulator.go:428-552 | computes each scenario's page list from a generator in the seed's state |
| Simulator.ScenarioShape | internal/simulator/simulator.go:428-552 | for any generator each scenario has its number of pages, within its range, and in its order where none is drawn |
| Simulator.Simulator.SimulateRandomAccess | internal/simulator/simulator.go:294-308 | issues exactly the pages drawn, or a first part of them when an access fails |
| Simulator.Simulator.SimulateLocalityAccess | internal/simulator/simulator.go:310-338 | refuses an empty working set, else issues exactly the drawn pages |
| Simulator.Simulator.RunScenario | internal/simulator/simulator.go:367-426 | run from the seed's state, every scenario issues exactly its precomputed list, or a first part after a failure; a whole random scenario leaves the generator where its draws lead |
| Simulator.SecondRunDiffers | internal/simulator/simulator.go:419-449 | there are a generator and a seed for which the run of the random scenario that follows a whole one issues other pages than the list computed for it |

## Left out

- Policies inside the manager: there a policy is a record of functions that meets the victim contract and leaves owner
  tags alone. LRU and ARC are built as such records; the class of every other policy is proved against the contract.
  Switching the policy of a running manager is not modelled.
- The 4-level table inside the manager: there it is the two-layer map that the pointer trie is proved to refine.
- Frames and pages are values that are replaced in the frame table and in the page tables, so pointers to them held
  elsewhere are not modelled. Compression and copying move no bytes.
- Time: every operation of the manager happens at one instant; WSClock alone reads the clock many times.
- Locks: `AccessMemory` is run with its two sections in sequence; the steps of `HandleWrite` are interleaved, except
  that the count of avoided copies moves together with the section before it.
- Integers are unbounded except for the 64-bit wrap of page numbers, addresses and the string hash. Process names are
  sequences of characters, which the hash takes one by one as bytes.
- LruInclusion.Inclusion: needs at least one frame, nothing pinned, clustering off and increasing times.
- Transparency.TlbIsTransparent: with clustering on, the fast path does not feed the cluster detector; the per-access
  lemma gives the exact condition.
- TlbRuns.OwnRunsKeepTlb: forks onto living processes and loads of evicted copies are excluded; for the single step each
  condition is exact.
- Isolation.UnsharedPagesAreAlone: operations that miss their guard are excluded; `SharingRuns` shows that each kind of
  them breaks sharing in the code.
- Isolation.AccessIsolated: the guard of an access speaks of the frames that the policy chooses during it;
  `CalmRuns.StateGuardIsExact` says when it holds for every policy without a resident-set target, not for PFF.
- Coherence.CoherentInEveryRun: forks and huge pages are excluded, because evictions update only the tagged owner and
  leave the huge-page maps alone.
- FrameLogs.FramesTellTheirLog: for policies that record every access and leave stamps, counts and dirty bits alone
  otherwise, as LRU and ARC are shown to; WSClock clears the dirty bits of old frames when it chooses.
- ArcOrder.JustAccessedIsSpared: new pages and pages that T1 and T2 hold twice are excluded, because the claim is false
  of them (`ArcOrder.NewPageIsNotSpared`, `ArcOrder.TwiceHeldIsNotSpared`); `ArcOrder.SparedIffCovered` is exact for
  every page.
- Addresses of 2^48 and more wrap, as the 48-bit table makes them: huge-page indices of 2^27 and more, which the code
  accepts below 2^43, share the addresses of the index modulo 2^27.
- TlbRecency.AccessIsFiled: clustering and PFF's target are excluded, because a prefetch may push the entry out and the
  target may evict the page again.
- Arc.BoundsInEveryRun: a page may be in several lists, as the code allows, and T2 alone has no bound between
  adaptations.
- Offline.Optimal.SelectVictim: the index advances only on accesses that hit, so the whole run is not claimed optimal.
- OPT+ remembers which future accesses write, but no choice reads it.
- The read-only mark and the original number of a page, the NUMA node tag of a frame, the frame number kept with a
  shared page, frame numbers kept in ARC and CAR entries, per-process counters, events, statistics and monitoring:
  recorded, never read by what is modelled.
- NUMA cost estimates, NUMA node registration, the HTTP interface, the command line, saving and loading of traces.
- The per-frame effects of OnPageAccess, OnPageFault and OnPageEviction are those of Frame.Access and
  Frame.ClearReferenceBit; the policy classes model what the policies keep for themselves.

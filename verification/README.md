# Verified model of a RISC-V proxy kernel's core

A Dafny model of the memory manager, the copy-on-write fork, the scheduler, the device-tree scanner
and the bounded formatter of a small RISC-V proxy kernel, with proofs about whole runs of them.
`dafny verify dfyconfig.toml` checks everything.

## Main results

- **Buddy allocator** (`PowersOfTwo`, `Rounding`, `BlockTiling`, `BuddyPool`, `RingLists`,
  `BuddySystems`, `StaleFlags`). Linked lists agree with page flags, flags with block sets, and free and live blocks tile the region. The free
  blocks are the unique canonical decomposition of the free pages in every reachable state, so history
  does not matter and out-of-memory is reached iff no aligned run is free.
- **Many harts** (`BuddyHarts`, `HartCalls`, `BuddyBoot`, `PageCaches`). From boot, every
  interleaving of any number of harts keeps mutual exclusion, cache bounds, the block invariant and single ownership of each page,
  and every call of the allocator does to cache, pool and clients what it does alone.
- **Sv39 tables** (`PageTableTree`, `PageTables`, `WalkRace`, `WalkAsWritten`). The lazily built tree of
  section 4.4 of the RISC-V Privileged Architecture refines a map from page to entry; mapping, unmapping and translation are
  exact on the map; walkers racing on one directory agree and leak nothing.
- **Copy-on-write fork and user heap** (`CowFork`). Any run of forks, stores, allocations and frees reads
  exactly what the kernel with the eager copying fork would read, as long as frames last.
- **Scheduler** (`Scheduler`). Queue shape, states, dispatch order and termination over every run.
- **Device tree** (`DeviceTree`). Scanning inverts the flattening of section 5.4 of the Devicetree
  Specification, with NOPs anywhere between tokens and deletion by the close callback.
- **Formatter** (`Snprintf`). Truncation refines the unbounded rendering of a format, with the exact
  condition under which the returned length does.

## Form

Code that updates fields, links, arrays and page tables is a class or a method with loops, tied by its
`ensures` to functions on values; the properties are lemmas about those functions. Concurrent code is a
state machine whose steps are single atomic accesses. A node of a linked list is named by the number of the
page it is embedded in. Physical memory is a map from page number to contents; alloc_page is a pool of
unused page numbers wherever its caller is the subject.

## Where the model departs from the code

The evident intent is modelled. For the departures that name a member, that member says what the code as
written does, and exactly when it goes wrong.

- `objs[++count]` at work/kernel/pmm.c:299 is modelled as a push at `objs[count]`
  (`PageCaches.PageCache.PushAsWritten` has the exact condition for the code as written).
- alloc_page holds the lock at work/kernel/pmm.c:219 while buddy_alloc takes it again at line 184: the
  refill is one critical section in `BuddyHarts`. `NestedLock` is the code as written: a call can return iff
  the cache is not empty (`NestedLock.ReturnsIffCached`), and the 33rd call after boot cannot.
- The flag updates at work/kernel/pmm.c:199-200 follow the release at line 197: they are inside the
  critical section here. `StaleFlags.MergeUnlinksTwiceIff` has the exact condition under which another
  hart's merge, reading the flags in between, unlinks a node that is in no list.
- The range test at work/kernel/pmm.c:265 uses `||` and fails only if the region's bounds have crossed
  (`BuddySystems.RangeTestFailsIff`): freeing requires a live block instead, and `BuddySystems.FreeNeedsLive`
  and `RingLists.DoubleLinkBreaksRing` say what breaks otherwise.
- The merge loop's buddy index needs nr_pages to be a multiple of 1024, a precondition of freeing here
  (`BuddySystems.BuddyIndexInBounds` proves it exact); it holds at the 128 MB cap of work/kernel/config.h:11.
- page_walk has four parameters at work/kernel/vmm.c:50 and three in work/kernel/vmm.h:18 and some calls:
  those calls are read as target level 0.
- A new table is zeroed at work/kernel/vmm.c:82 after it is published at line 73: zeroing is part of the
  install in `WalkRace` and `PageTables`. `WalkAsWritten` is the code as written, with the exact condition
  under which races are harmless (`WalkAsWritten.HarmlessIff`) and the runs that lose an entry, also between
  the test at line 26 and the store at line 28.
- page_ref_share at work/kernel/pmm.c:303 is empty, get_page and get_page_ref have no body, and pfree drops
  no reference: counts follow the declarations at work/kernel/pmm.h:32-36 and the `ref` field. Allocation
  sets 1, sharing adds 1, pfree subtracts 1 and releases the frame at 0.
- do_fork does not carry over the heap's npages (work/kernel/process.c:252-254), as the eager version did:
  it is carried over here (`CowFork.CowForkIsEagerIff` and `CowFork.GrandchildLosesHeap` are the code as
  written).
- do_fork reads through the result of page_walk at work/kernel/process.c:234-236 without testing it for 0. With
  npages carried over, a process whose only heap pages were reclaimed before it was forked has no leaf table to
  find: the model skips the null result and remembers it, `CowFork.Kernel.Run` says exactly when it is met, and
  `CowFork.ForkMeetsNull` is such a run.
- do_fork overwrites the stack mapping that alloc_process made (work/kernel/process.c:118-119): modelled as
  written, so each fork leaks one frame, counted exactly.
- The eager version's memset at work/kernel/process.c:203 clears a quarter of its filter; the specification
  takes the whole filter as cleared.
- The argument of a %c is fetched only if the character fits (work/util/snprintf.c:65): modelled as written,
  with the exact condition under which later conversions still get their own arguments
  (`Snprintf.OwnArgumentsIff`).
- A property's length is kept in a C int (work/spike_interface/dts_parse.h): lengths of 2^31 - 3 and above,
  whose sum wraps, are excluded from well-formed trees by the exact condition `DeviceTree.PropWordsIff`.
- Negating the most negative long at work/util/snprintf.c:36 is taken to wrap
  (`Snprintf.DecimalDecodesIff` has the exact condition).
- page_walk's assertion excludes address 0, so mapping or translating page 0 is the modelled panic.

## Model

| member | source | states |
|---|---|---|
| `Rounding.RoundUp` | work/util/functions.h:11-11 | the least multiple of b at or above a: `a <= r < a + b` and `r % b == 0` (the source uses a mask and powers of two) |
| `Rounding.RoundDown` | work/util/functions.h:12-12 | the greatest multiple of b at or below a |
| `PowersOfTwo.Ctz` | work/kernel/pmm.c:135-135 | the number of trailing zero bits: aligned to 2^r and not to 2^(r+1) |
| `PowersOfTwo.Log2` | work/kernel/pmm.c:139-139 | the position of the top bit: 2^r <= n < 2^(r+1) |
| `PowersOfTwo.Halves` | work/kernel/pmm.c:162-164 | an aligned run of order k+1 is two aligned runs of order k, each the other's buddy under XOR, both with the same parent under the mask |
| `PowersOfTwo.BuddyPair` | work/kernel/pmm.c:239-251 | for an aligned block, `^` names its other half, `&~` names its parent, `^` is an involution, and bit k is set iff the block is not aligned to order k+1 |
| `PowersOfTwo.Nested` | work/kernel/pmm.c:115-153 | two naturally aligned runs that meet are nested |
| `BlockTiling.FullCoalescing` | work/kernel/pmm.c:239-258 | in a canonical block set every covered aligned run of order at most 10 lies inside one single block |
| `BlockTiling.CanonicalIsCoarsest` | work/kernel/pmm.c:239-258 | every block of a canonical set starts a block, no larger, of any other aligned decomposition of the same pages |
| `BlockTiling.CanonicalUnique` | work/kernel/pmm.c:115-258 | two canonical block sets that cover the same pages are equal |
| `BlockTiling.CanonicalFewest` | work/kernel/pmm.c:127-153 | a canonical set uses the fewest blocks of all aligned decompositions of its pages |
| `BlockTiling.CanonicalIffMaximal` | work/kernel/pmm.c:239-258 | a canonical set holds block (p, k) iff the run is covered and is of top order or its parent run is not wholly covered |
| `BlockTiling.SplitKeepsTiles` | work/kernel/pmm.c:156-177 | one split keeps alignment, disjointness and the pages covered, and the upper half was no block before |
| `BlockTiling.SplitKeepsCanonicalWithout` | work/kernel/pmm.c:156-177 | splitting the block set aside for allocation creates no pair of free buddies except with that block |
| `BlockTiling.AbsorbBuddy` | work/kernel/pmm.c:239-252 | removing a free buddy keeps the set canonical and clears exactly the parent run |
| `BlockTiling.InsertCanonical` | work/kernel/pmm.c:254-257 | inserting the run when its buddy is not free gives a canonical set that covers exactly the run more |
| `BlockTiling.JoinKeepsTiles` | work/kernel/pmm.c:245-252 | replacing two buddies by their parent keeps alignment, disjointness and the pages covered |
| `BuddyPool.FreeIsComplement` | work/kernel/pmm.c:115-258 | in every state a page is free iff it lies in the region and in no live block |
| `BuddyPool.HandedKeepsInv` | work/kernel/pmm.c:179-211 | handing out a free run, what stays free being canonical, keeps free and live blocks an exact tiling of the region |
| `BuddyPool.ReturnedKeepsInv` | work/kernel/pmm.c:231-271 | taking a live block back, the free pages being canonical again, keeps the same tiling |
| `BuddyPool.BlocksStayInside` | work/kernel/pmm.c:337-351 | no block, free or live, ever reaches below the start or past the end of the managed region |
| `BuddyPool.HistoryIndependent` | work/kernel/pmm.c:115-258 | two states with the same live pages have the same free blocks, whatever led to them |
| `BuddyPool.HandThenReturn` | work/kernel/pmm.c:179-271 | freeing a block just allocated restores the state exactly |
| `BuddyPool.RunFreeIffCovered` | work/kernel/pmm.c:186-211 | an aligned run inside the region touches no live block iff the free blocks cover it |
| `BuddyPool.ExhaustedIffNoRun` | work/kernel/pmm.c:179-211 | no free block of order at least k exists iff no naturally aligned run of 2^k pages is entirely free |
| `RingLists.RingDel` | work/kernel/pmm.c:48-51 | unlinking node j of a circular doubly linked ring leaves the ring without it |
| `RingLists.RingAdd` | work/kernel/pmm.c:54-59 | inserting behind the head leaves the ring with the node in front |
| `RingLists.AllRingsDel` | work/kernel/pmm.c:48-51 | unlinking a page from its list leaves all eleven lists well-formed rings, disjoint and without repetition |
| `RingLists.AllRingsAdd` | work/kernel/pmm.c:54-59 | inserting a page linked nowhere leaves all eleven lists well-formed, disjoint and without repetition |
| `RingLists.FreeLists.constructor` | work/kernel/pmm.c:118-122 | self-linked heads: every list empty |
| `RingLists.FreeLists.ListDel` | work/kernel/pmm.c:48-51 | the two link writes remove exactly that page from exactly its list |
| `RingLists.FreeLists.ListAdd` | work/kernel/pmm.c:54-59 | the four link writes put the page at the front of exactly that list |
| `RingLists.FreeLists.ListPop` | work/kernel/pmm.c:62-66 | returns and removes the front page of a nonempty list |
| `RingLists.FreeLists.IsEmpty` | work/kernel/pmm.c:188-189 | the head links to itself iff the list is empty |
| `BuddySystems.AbsoluteAlignment` | work/kernel/pmm.c:134-135 | alignment of the absolute address is alignment of the page frame number for every order up to 19, since DRAM_BASE is 2^19 pages |
| `BuddySystems.ChooseOrder` | work/kernel/pmm.c:134-142 | the order chosen is the largest that alignment, the end of the region and order 10 allow |
| `BuddySystems.GreedyStep` | work/kernel/pmm.c:132-153 | adding the chosen block keeps the partition so far canonical, exact and greedy |
| `BuddySystems.PartitionIsFewest` | work/kernel/pmm.c:127-153 | a canonical tiling of a region has the fewest blocks of all its tilings and is the only canonical one |
| `BuddySystems.BuddyIndexInBounds` | work/kernel/pmm.c:239-240 | the buddy index of every aligned block of order below 10 that lies in `pages` is an index of `pages` iff nr_pages is a multiple of 1024 |
| `BuddySystems.SplitDownEffect` | work/kernel/pmm.c:156-177 | the split loop ends with the wanted block, covers the same pages, leaves no other free buddies, and every index it touches is in bounds and neither free nor live |
| `BuddySystems.AllocIsHanded` | work/kernel/pmm.c:191-203 | splitting and popping is handing out exactly the wanted run, and keeps the invariant |
| `BuddySystems.MergeUpEffect` | work/kernel/pmm.c:239-258 | the merge loop ends canonical and covers exactly the freed run more |
| `BuddySystems.FreeIsReturned` | work/kernel/pmm.c:231-258 | merging a live block is giving back exactly its run, and keeps the invariant |
| `BuddySystems.RangeTestFailsIff` | work/kernel/pmm.c:265-265 | the assertion as written fails iff the region ends at or below the address and starts above it: never when start <= end |
| `BuddySystems.FreeNeedsLive` | work/kernel/pmm.c:231-258 | merging from a page that heads neither a live nor a free block, whatever its order field, breaks the invariant |
| `RingLists.DoubleLinkBreaksRing` | work/kernel/pmm.c:54-59 | linking a page that is already linked leaves no ring at all: following next never returns to the head |
| `BuddySystems.RunKeepsInv` | work/kernel/pmm.c:156-258 | the invariant, canonical form included, holds in every state of every run of the split and merge loops |
| `BuddySystems.DrainedRunRestoresInitial` | work/kernel/pmm.c:115-258 | a run that starts and ends with nothing live ends in the very partition it started from |
| `BuddySystems.BuddySystem.Run` | work/kernel/pmm.c:179-271 | the blocks held are exactly those the requests served leave outstanding, each with the order asked for; the states are a run of splits and merges; it stops early only where a request panics; with nothing held the allocator is as it was |
| `BuddySystems.BuddySystem.constructor` | work/kernel/pmm.c:115-154 | after initialisation lists, flags and blocks agree, nothing is live, and the free blocks are the canonical tiling of the rounded region |
| `BuddySystems.BuddySystem.Partition` | work/kernel/pmm.c:127-153 | the greedy loop terminates with the canonical tiling of the region in lists and flags |
| `BuddySystems.BuddySystem.AddFreeBlock` | work/kernel/pmm.c:144-150 | flags and list gain exactly one free block |
| `BuddySystems.BuddySystem.SplitTurn` | work/kernel/pmm.c:157-176 | one turn: lists, flags and blocks agree again and the front block became its two halves |
| `BuddySystems.BuddySystem.Split` | work/kernel/pmm.c:156-177 | the loop performs exactly the splits from the found order to the wanted one and leaves the block at the front of its list |
| `BuddySystems.BuddySystem.FirstNonempty` | work/kernel/pmm.c:186-189 | the first nonempty list at or above the order; every list passed is empty |
| `BuddySystems.BuddySystem.TakeFront` | work/kernel/pmm.c:194-203 | the front block leaves its list and becomes live, flags included |
| `BuddySystems.BuddySystem.BuddyAlloc` | work/kernel/pmm.c:179-211 | keeps the whole invariant; reaches its out-of-memory branch iff no free block is large enough; otherwise hands out a best-fitting block split down, and nothing else changes |
| `BuddySystems.BuddySystem.MergeTurn` | work/kernel/pmm.c:239-253 | merges iff the buddy is a free block of the same order, found by flags alone; then exactly that block is unlinked and the parent is next |
| `BuddySystems.BuddySystem.MergeLoop` | work/kernel/pmm.c:239-257 | the loop on lists and flags performs exactly the merge on block sets |
| `BuddySystems.BuddySystem.MergeInner` | work/kernel/pmm.c:231-258 | a live block becomes free, coalesced; lists, flags, blocks and the invariant agree |
| `BuddySystems.BuddySystem.BuddyFree` | work/kernel/pmm.c:261-271 | freeing a live block by address keeps the invariant and returns exactly its run |
| `BuddySystems.BuddySystem.AllocThenFree` | work/kernel/pmm.c:179-271 | allocating and at once freeing restores every free and live block |
| `BuddySystems.LayoutFits` | work/kernel/pmm.c:337-342 | kernel image and page metadata end at or below the managed region, which ends at the top of memory |
| `BuddySystems.PmmInit` | work/kernel/pmm.c:308-351 | panics iff the memory is smaller than the kernel; otherwise a page is free, and of the managed region, iff it lies in memory and wholly at or above the 8-aligned end of the page metadata |
| `BuddySystems.TakePage` | work/kernel/pmm.c:355-356 | one order-0 page becomes live, or none is free and nothing changes |
| `BuddySystems.FillCache` | work/kernel/pmm.c:355-358 | the pages taken are distinct, were not live, and are exactly what became live; a shortage means no page is free |
| `BuddyBoot.FillCaches` | work/kernel/pmm.c:353-359 | any number of harts: every cache full, and the state is the one the hart machine boots from; a shortage means no page is free |
| `BuddyBoot.Boot` | work/kernel/pmm.c:308-360 | panics, or every hart starts idle with a full cache; free or cached are exactly the pages of memory wholly behind the page metadata |
| `StaleFlags.PopOpensWindow` | work/kernel/pmm.c:194-198 | popping the front block, its flags not yet cleared, leaves lists without it and flags that show it free, however many blocks are already in that state |
| `StaleFlags.LiveBlocksApart` | work/kernel/pmm.c:231-258 | a popped block and a live block another hart frees meet the hypotheses of the next rows |
| `StaleFlags.ReachesIff` | work/kernel/pmm.c:239-253 | a merge of block (q, o) comes to the popped block (p, k) iff k < 10, the freed block lies in the buddy of p, and every other page of that buddy is free |
| `StaleFlags.MergeUnlinksTwiceIff` | work/kernel/pmm.c:197-200 | with any number of blocks popped, the merge loop on the flags as another hart reads them unlinks a node that is in no list iff that condition holds of some popped block |
| `StaleFlags.PopThenFreeUnlinksTwice` | work/kernel/pmm.c:179-271 | from every allocator state in which the front block of a list below order 10 has a live buddy of its order: the pop, then the other hart's free of the buddy, unlinks a node that is in no list |
| `StaleFlags.TwoPages` | work/kernel/pmm.c:179-271 | such a state, one allocation from the start: two pages, one handed out |
| `StaleFlags.SecondUnlinkLosesFront` | work/kernel/pmm.c:245-245 | the second unlinking makes a block pushed onto the list in between unreachable from the head |
| `BuddyHarts.StepKeepsGood` | work/kernel/pmm.c:179-301 | every atomic step of any hart (lock test, swap, each split, each merge, each cache move) keeps mutual exclusion, the block invariant, cache bounds and single ownership |
| `BuddyHarts.BootedIsGood` | work/kernel/pmm.c:351-359 | the state pmm_init leaves (see BuddyBoot.FillCaches) satisfies the invariant |
| `BuddyHarts.InterleavingKeepsGood` | work/kernel/pmm.c:179-301 | the invariant holds in every state of every interleaving of any number of harts |
| `BuddyHarts.HartsAreSafe` | work/kernel/pmm.c:214-301 | from boot, under every interleaving: at most one hart inside the lock, blocks canonical and exact whenever the lock word is 0, every cache count within 0..32, every live block owned once |
| `BuddyHarts.PageInOnePlace` | work/kernel/pmm.c:214-301 | while the lock is free each page of the region is in exactly one of: a free block, one slot of one cache, one client's hands, one call in flight |
| `BuddyHarts.LockHolderCanStep` | work/kernel/sync_utils.c:77-92 | a hart inside the lock always has a next step, so the lock is never held for ever by a stuck hart |
| `HartCalls.PfreePushes` | work/kernel/pmm.c:273-300 | for every interleaving: pfree of a single page with fewer than 32 cached puts it last in its own hart's cache in one step; lock, pool, all other caches and harts are untouched |
| `HartCalls.PfreeFlushes` | work/kernel/pmm.c:273-300 | for every interleaving: pfree with 32 cached ends with the 16 older ones and the page in the cache, and has given exactly the 16 younger ones back to the pool and taken none |
| `HartCalls.AllocPagePops` | work/kernel/pmm.c:214-228 | for every interleaving: alloc_page with pages cached hands out exactly the last one in one step; lock, pool and everything else are untouched |
| `HartCalls.AllocPageRefills` | work/kernel/pmm.c:214-228 | for every interleaving: alloc_page of an empty cache takes 16 different pages, hands out one of them and caches the other 15, or halts with no free block |
| `HartCalls.BuddyAllocTakesOne` | work/kernel/pmm.c:179-211 | for every interleaving: buddy_alloc takes one block of exactly the order asked for and hands it out, or halts with no free block as large or an order above 10; no cache is touched |
| `HartCalls.FreeReturnsBlock` | work/kernel/pmm.c:261-284 | for every interleaving: buddy_free, and pfree of a block of order above 0, give exactly that block back to the pool; no cache is touched |
| `HartCalls.OthersLeave` | work/kernel/pmm.c:179-301 | no step of another hart changes a hart's cache or place, nor the pool or lock while it is inside |
| `HartCalls.CallCanBegin` | work/kernel/pmm.c:179-301 | an idle hart can enter any allocation, and a release iff a client holds the block |
| `HartCalls.BusyCanStep` | work/kernel/pmm.c:179-301 | a hart within a call is never stuck |
| `HartCalls.CallReturns` | work/kernel/pmm.c:179-301 | from any good state with the lock free, every call that can be entered returns or panics if its hart alone moves, so each of the laws above has runs |
| `HartCalls.FreeLockIsTaken` | work/kernel/sync_utils.c:77-87 | two undisturbed steps take a free lock |
| `HartCalls.FindsSmallest` | work/kernel/pmm.c:186-193 | the block found is free, large enough, and of the smallest such order |
| `HartCalls.LockHeldBriefly` | work/kernel/pmm.c:179-301 | in every interleaving a hart that stays inside the lock makes at most 192 steps there |
| `PageCaches.PageCache.Pop` | work/kernel/pmm.c:226-227 | returns the last cached page and removes exactly it |
| `PageCaches.PageCache.Push` | work/kernel/pmm.c:291-299 | the intended push: the page becomes the last cached page |
| `PageCaches.PageCache.PushAsWritten` | work/kernel/pmm.c:299-299 | as written: in bounds iff count + 1 < 32, and then it caches the page iff the slot it skips already held it; otherwise the pointer lands on `count`, which becomes its low 32 bits |
| `PageCaches.PageCache.PopThenPushAsWritten` | work/kernel/pmm.c:227-299 | a push straight after the pop of the same page restores the cache iff it was not full; on the full cache that pmm_init leaves, `count` becomes the low 32 bits of the pointer |
| `PageCaches.PageCache.WrittenPushLosesPages` | work/kernel/pmm.c:227-299 | two pops, two pushes as written: one page is cached twice and the other lost |
| `NestedLock.ReturnsIffCached` | work/kernel/pmm.c:214-228 | from the unlocked state, in every state of every interleaving: a call of alloc_page as written can return iff the hart's cache count is positive at the call |
| `NestedLock.RefillNeverReturns` | work/kernel/sync_utils.c:77-87 | a hart that called with an empty cache is still in the refill in every later state |
| `NestedLock.CachedReturns` | work/kernel/pmm.c:226-228 | with a positive count the call returns in two steps of its own, whatever the lock |
| `NestedLock.CountsStayFit` | work/kernel/pmm.c:214-301 | with the nested acquire as written every cache stays within its 32 slots: a push adds one page, a return takes one, a flush leaves 17, and no refill ever completes |
| `NestedLock.BootReachesDeadlock` | work/kernel/pmm.c:353-359 | from boot any hart returns from 32 calls of three steps each and enters a 33rd that can never return |
| `NestedLock.AllocatorDead` | work/kernel/pmm.c:184-219 | once a hart has come to the inner acquire, in every later state of every interleaving the lock is taken, no hart is inside it, and every hart waiting for it still waits |
| `PageTableTree.EntryRoundTrip` | work/kernel/riscv.h:221-227 | PTE2PA and PTE_FLAGS recover page address and flags from an entry, and entries of 64-bit addresses fit in 64 bits |
| `PageTableTree.PxIsIndex` | work/kernel/riscv.h:229-233 | PX(level, va) depends on the virtual page number only, as its nine-bit digit |
| `PageTableTree.IndicesInjective` | work/kernel/riscv.h:229-239 | the three indices determine the virtual page below MAXVA |
| `PageTableTree.SlotsInjective` | work/kernel/vmm.c:50-91 | two virtual pages never share a leaf slot |
| `PageTableTree.InstallOk` | work/kernel/vmm.c:70-82 | hanging a zeroed page in an unset interior slot keeps the directory a three-level tree |
| `PageTableTree.InstallKeepsHung` | work/kernel/vmm.c:70-82 | after an install every table still hangs from some slot |
| `PageTableTree.InstallKeepsLookup` | work/kernel/vmm.c:70-82 | an install changes no translation |
| `PageTableTree.WriteChangesOne` | work/kernel/vmm.c:28-28 | writing the leaf slot of v changes the translation of v and of no other page |
| `PageTables.OneParent` | work/kernel/vmm.c:50-91 | every table page but the root is referenced by exactly one entry |
| `PageTables.RepresentsUnique` | work/kernel/vmm.c:50-91 | a directory represents exactly one map from virtual page to entry |
| `PageTables.WriteUpdatesMap` | work/kernel/vmm.c:28-28 | a leaf write is exactly a map update or removal |
| `PageTables.WalkOk` | work/kernel/vmm.c:50-91 | a walk keeps the directory a tree, changes no translation, and without alloc changes nothing at all |
| `PageTables.MapRangeAt` | work/kernel/vmm.c:19-31 | mapping n pages changes exactly the pages of the range, each to the entry of its own physical page |
| `PageTables.ClearUndoesMap` | work/kernel/vmm.c:191-205 | clearing a range just mapped over fresh pages gives back the earlier map |
| `PageTables.FramesOfMapped` | work/kernel/vmm.c:198-200 | the frames under a mapped range are its consecutive physical pages, each once |
| `PageTables.FramesOfAt` | work/kernel/vmm.c:198-200 | the frames a release hands back are those of the mapped pages of the range, in order, and no others |
| `PageTables.MapThenTranslate` | work/kernel/vmm.c:167-176 | after mapping, va + i*PGSIZE + off translates to pa + i*PGSIZE + off |
| `PageTables.AddressSpace.constructor` | work/kernel/vmm.c:128-142 | a zeroed directory represents the empty map |
| `PageTables.AddressSpace.Walk` | work/kernel/vmm.c:50-91 | returns the leaf slot of the address in the resulting tree, fails only with no page left or without alloc, asserts iff the address is 0 or at least MAXVA, changes no translation, takes at most two pages, none if the slot exists, and loses none |
| `PageTables.AddressSpace.MapPages` | work/kernel/vmm.c:19-31 | the represented map gains exactly the pages up to the first obstacle: an address out of range, a page already mapped, or no page for a table; success iff the last page is reached |
| `PageTables.AddressSpace.UserVaToPa` | work/kernel/vmm.c:167-176 | panics iff va is out of range, reports an unmapped page iff the map lacks it, otherwise the frame's address plus the offset; nothing changes |
| `PageTables.AddressSpace.LookupPa` | work/kernel/vmm.c:96-108 | the page address if the page is mapped readable or writable, else 0; asserts iff va is 0 |
| `PageTables.AddressSpace.UserVmUnmap` | work/kernel/vmm.c:191-205 | exactly the pages of the range leave the map, and with free set exactly their frames are handed back, in order |
| `PageTables.AddressSpace.MapThenUnmap` | work/kernel/vmm.c:19-205 | unmapping a range just mapped restores the earlier map and hands back each of its frames exactly once |
| `PageTables.ProtToType` | work/kernel/vmm.c:36-44 | readable iff asked or nothing asked; writable, executable, user iff asked; accessed and dirty set, valid, global and software bits clear |
| `PageTables.KernelIdentity` | work/kernel/vmm.c:144-155 | the kernel map holds exactly [KERN_BASE, PHYS_TOP), each page mapped to itself, text executable and not writable, the rest writable and not executable, none for users |
| `PageTables.KernVmMap` | work/kernel/vmm.c:120-123 | a direct map over unmapped pages succeeds or runs out of table pages |
| `PageTables.KernVmInit` | work/kernel/vmm.c:128-160 | represents the kernel map or runs out of table pages; the second mapping never meets a page of the first |
| `WalkRace.StepKeepsGood` | work/kernel/vmm.c:59-90 | every atomic step of a walker (read, allocate, swap with zeroing, free, re-read) keeps the tree, page ownership and every walker on the path of its own address |
| `WalkRace.InterleavingKeepsGood` | work/kernel/vmm.c:59-90 | so does every interleaving of any number of walkers |
| `WalkRace.SlotSetOnce` | work/kernel/sync_utils.c:42-56 | in every interleaving an interior slot once valid never changes again |
| `WalkRace.WalkersAgree` | work/kernel/vmm.c:59-90 | all walkers of one virtual page arrive at the same leaf slot, the one a lone walk finds in the final directory |
| `WalkRace.StepConserves` | work/kernel/vmm.c:70-77 | no step creates or loses a page among tables, allocator and walkers' hands |
| `WalkRace.InterleavingConserves` | work/kernel/vmm.c:70-77 | nor does any interleaving |
| `WalkRace.NothingLeaks` | work/kernel/vmm.c:73-77 | when all walks have ended every page is a table or back with the allocator, never both: each loser's page was returned exactly once |
| `WalkRace.StartIsGood` | work/kernel/vmm.c:50-57 | an empty directory with walkers at its root satisfies the invariant |
| `WalkRace.WalkEnds` | work/kernel/vmm.c:59-90 | a walker can step until it has ended, has at most ten steps to make whatever the others do, and gives up only with no page to allocate |
| `WalkAsWritten.UndisturbedStep` | work/kernel/vmm.c:19-90 | access by access as written: a step that publishes no stale valid entry, writes no slot yet to be zeroed, and finds no leaf slot unset that another walker is about to store to, keeps the directory sound and changes the valid entries only as its walker means to |
| `WalkAsWritten.HarmlessIff` | work/kernel/vmm.c:19-90 | over every run that ends with no memset and no store under way, all levels: every step does to the valid entries what it means to do iff no page is published with a valid entry, nobody swaps or stores in a slot between its table's swap and the zeroing of that slot, and no two walkers are at once between testing and storing to one leaf slot |
| `WalkAsWritten.EntrySetOnce` | work/kernel/vmm.c:19-90 | in a run that meets this condition every valid entry, interior or leaf, is set once and never changes |
| `WalkAsWritten.LostMapping` | work/kernel/vmm.c:73-82 | a run on an all-zero page: a leaf entry another hart stored is gone in the course of the memset |
| `WalkAsWritten.LostInstall` | work/kernel/vmm.c:73-82 | the same one level up: a table another hart hung in the new middle table is gone in the course of the memset |
| `WalkAsWritten.LostStore` | work/kernel/vmm.c:26-28 | a run on a table long since zeroed: two harts both find a leaf slot unset, and the second store replaces the first |
| `WalkAsWritten.LostStoreState` | work/kernel/vmm.c:26-28 | a sound, settled directory in which that run starts |
| `WalkAsWritten.StartIsSound` | work/kernel/vmm.c:50-57 | an empty directory, with pages of any contents in the pool, is sound |
| `WalkAsWritten.StartReachesRace` | work/kernel/vmm.c:59-73 | two steps from the empty directory two walkers of one region are in the race that loses the install |
| `WalkAsWritten.WalkEnds` | work/kernel/vmm.c:59-90 | as written, too, a walker can step until it has ended, and makes at most 1032 accesses whatever the others do |
| `WalkAsWritten.StepConserves` | work/kernel/vmm.c:70-82 | races lose entries, not pages: every step, disturbed or not, keeps each page in the directory, with the allocator or in one walker's hands |
| `CowFork.SoleMapper` | work/kernel/strap.c:68-80 | a frame with count 1 has one mapper only |
| `CowFork.WritersAlone` | work/kernel/process.c:236-241 | no frame reachable through a writable entry has a second mapper |
| `CowFork.StoreLaw` | work/kernel/strap.c:60-83 | what a store means: the byte at that offset of that page is the value, every other byte, page and process is as before; past the end nothing changes; it panics iff the page is not mapped |
| `CowFork.AllocLaw` | work/kernel/syscall.c:46-65 | what an allocation means: the page last reclaimed, or else the next one above the heap, is mapped with the given contents, and no other page or process changes |
| `CowFork.FreeLaw` | work/kernel/syscall.c:70-75 | what a release means: that page is unmapped and becomes the one last reclaimed |
| `CowFork.ForkLaw` | work/kernel/process.c:192-227 | what a fork means: the child has exactly the parent's stack page and heap pages not reclaimed, with the parent's contents, and no other process changes |
| `CowFork.PoolIffUnmapped` | work/kernel/strap.c:68-80 | in every reachable state a frame is with the allocator iff no process maps it and it is not a leaked one |
| `CowFork.CowForkIsEagerIff` | work/kernel/process.c:228-256 | sharing npages heap pages gives the child what the eager copy gives iff every heap page beyond npages is reclaimed |
| `CowFork.AllocStep` | work/kernel/syscall.c:46-65 | a heap allocation keeps counts and heap layout, is the eager kernel's step, never meets a mapped page, and a reused address is below heap_top |
| `CowFork.FreeStep` | work/kernel/syscall.c:70-75 | freeing a live heap page keeps counts and heap layout and is the eager kernel's step |
| `CowFork.StoreStep` | work/kernel/strap.c:60-83 | a store through a writable entry changes that page of that process and of no other |
| `CowFork.ForkStep` | work/kernel/process.c:178-256 | copy-on-write fork keeps counts, layout and sole writers, is the eager fork of what is read, and leaks the stack frame alloc_process mapped |
| `CowFork.FaultStep` | work/kernel/strap.c:64-82 | either branch of the store fault makes the entry writable and changes nothing that any process reads |
| `CowFork.Kernel.constructor` | work/kernel/process.c:89-156 | one process with its stack page and an empty heap |
| `CowFork.Kernel.AllocPage` | work/kernel/syscall.c:46-65 | fails iff no frame is left; otherwise the eager step; the already-mapped panic is unreachable |
| `CowFork.Kernel.FreePage` | work/kernel/syscall.c:70-75 | the eager step; the frame is released when its last mapper goes |
| `CowFork.Kernel.SharePage` | work/kernel/process.c:236-249 | parent protected, count raised, entry copied: exactly the sharing step |
| `CowFork.Kernel.HasLeaf` | work/kernel/vmm.c:59-90 | page_walk without alloc is null iff the page is of the heap and the process has no heap leaf table |
| `CowFork.Kernel.ShareSegment` | work/kernel/process.c:232-251 | the loop shares exactly the heap pages the parent has mapped, makes the child a leaf table iff there is one, and meets a null walk iff there are pages to walk and the parent has no leaf table |
| `CowFork.Kernel.DoFork` | work/kernel/process.c:178-256 | fails iff no frame is left; otherwise the eager fork, one more leaked frame, and a null walk met iff the parent has a page count but no heap leaf table |
| `CowFork.Kernel.PageFault` | work/kernel/strap.c:60-83 | fails iff the frame is shared and no frame is left; otherwise the entry is writable and every process reads what it read before |
| `CowFork.Kernel.StoreByte` | work/kernel/strap.c:54-83 | panics iff the page is not mapped, fails iff a copy is needed and impossible, otherwise the eager step |
| `CowFork.Kernel.Do` | work/kernel/syscall.c:46-83 | one call refines the eager kernel's, or changes nothing because it panics or memory is exhausted |
| `CowFork.Kernel.Run` | work/kernel/process.c:178-291 | for every tree of forks and every interleaving of stores, allocations and frees, every process reads what the eager kernel gives it after the calls made; the run stops early only where the eager kernel panics or with no frame left; a null walk is met iff some fork was of a process with a page count that never had a heap page allocated or shared into it |
| `CowFork.TabledStep` | work/kernel/syscall.c:61-62 | after every call each mapped heap page hangs from a leaf table of its process: an allocation makes one, and so does a page shared into a child |
| `CowFork.ForkMeetsNull` | work/kernel/process.c:234-236 | the run Alloc, Free, Fork(0,1), Fork(1,2) from boot is legal, and its last fork meets the null walk |
| `CowFork.GrandchildLosesHeap` | work/kernel/process.c:252-254 | as written, with npages not carried over, the child reads its heap but a child of the child has no heap page at all |
| `Scheduler.ChainAppend` | work/kernel/sched.c:24-33 | linking a process behind the last one extends the acyclic, duplicate-free queue by it |
| `Scheduler.ChainTail` | work/kernel/sched.c:68-68 | following the head's link drops exactly the front of the queue |
| `Scheduler.AllExitShutsDown` | work/kernel/sched.c:46-64 | if the calls hold an exit for every process and the pool suffices, the run ends in shutdown |
| `Scheduler.ShutdownNeedsAllExits` | work/kernel/sched.c:46-64 | shutdown is reached only after as many exits as there were processes |
| `Scheduler.Kernel.constructor` | work/kernel/process.c:74-83 | all processes FREE, queue empty, nothing current |
| `Scheduler.Kernel.FindLast` | work/kernel/sched.c:24-30 | the traversal finds the process iff it is queued, else stops at the last one |
| `Scheduler.Kernel.Insert` | work/kernel/sched.c:13-36 | a queued process changes nothing; another becomes READY at the end |
| `Scheduler.Kernel.AllEnded` | work/kernel/sched.c:49-56 | true iff every process is FREE or ZOMBIE |
| `Scheduler.Kernel.Schedule` | work/kernel/sched.c:45-73 | an empty queue means shutdown, never the "Not handled" panic; otherwise the front, which is READY, becomes the only RUNNING process |
| `Scheduler.Kernel.ExitCurrent` | work/kernel/syscall.c:35-41 | the current process is ZOMBIE and the next is dispatched, or all have ended |
| `Scheduler.Kernel.AllocProcess` | work/kernel/process.c:89-99 | finds the first FREE process, one never used before, iff fewer than 32 have been |
| `Scheduler.Kernel.ForkCurrent` | work/kernel/process.c:282-286 | a never-used process joins the end of the queue, or the pool is used up and nothing changes |
| `Scheduler.Kernel.Boot` | work/kernel/sched.c:45-73 | the first process inserted is dispatched |
| `Scheduler.Kernel.Run` | work/kernel/sched.c:13-73 | over every run of forks and exits: the outcome is the expected one, dispatch order is insertion order, each process is dispatched at most once, at most 32 dispatches, READY iff queued, and shutdown only with all FREE or ZOMBIE |
| `DeviceTree.BswapReadsBigEndian` | work/spike_interface/dts_parse.c:11-15 | bswap of a little-endian load is the big-endian value of the four bytes |
| `DeviceTree.ValueDigits` | work/spike_interface/dts_parse.c:11-15 | the four base-256 digits of a word's value are its bytes in memory order |
| `DeviceTree.ValueIsSwapped` | work/spike_interface/dts_parse.c:11-15 | the value is the byte swap, by halves and then bytes, of the little-endian load |
| `DeviceTree.KnownWords` | work/spike_interface/dts_parse.c:29-93 | the tokens and the magic number, byte by byte |
| `DeviceTree.ScanTrace` | work/spike_interface/dts_parse.c:29-71 | whatever it deletes, a scan reports the pre-order trace: properties, done once, each child opened, scanned and closed |
| `DeviceTree.ScanKeepsLength` | work/spike_interface/dts_parse.c:57-58 | a scan leaves a structure block of the same length |
| `DeviceTree.ScanPrunes` | work/spike_interface/dts_parse.c:57-58 | after a scan the properties are as they were and the children are exactly the surviving ones |
| `DeviceTree.ScanKeepsOk` | work/spike_interface/dts_parse.c:57-58 | what a scan leaves is again a well-formed flattened tree |
| `DeviceTree.RescanReportsSurvivors` | work/spike_interface/dts_parse.c:50-61 | a rescan reports the properties and the pre-order traces of the surviving children only |
| `DeviceTree.Scanner.constructor` | work/spike_interface/dts_parse.c:89-98 | a scanner over a block, nothing reported |
| `DeviceTree.Scanner.NameLength` | work/spike_interface/dts_parse.c:56-56 | the name's length in bytes divided by 4 is one less than its words |
| `DeviceTree.Scanner.Wipe` | work/spike_interface/dts_parse.c:57-58 | exactly the words of the node become NOPs |
| `DeviceTree.PropWordsIff` | work/spike_interface/dts_parse.c:36-46 | with the length kept in an int the scanner moves past the padded value iff the length is below 2^31 - 3 |
| `DeviceTree.Scanner.PropCase` | work/spike_interface/dts_parse.c:35-49 | reports the property with its length, name offset and value and moves past its padded value |
| `DeviceTree.Scanner.ChildCase` | work/spike_interface/dts_parse.c:50-61 | opens, scans, closes and perhaps deletes the child; memory outside it is untouched; returns the word after it |
| `DeviceTree.Scanner.ToEnd` | work/spike_interface/dts_parse.c:29-61 | the loop stops at the matching end token with the whole scan behind it |
| `DeviceTree.Scanner.Helper` | work/spike_interface/dts_parse.c:17-72 | scanning inverts flattening: reports what the tree scan reports, leaves its result in memory, and returns the word after an end-node token, or the other end token itself |
| `DeviceTree.Scanner.FdtScan` | work/spike_interface/dts_parse.c:89-99 | a header without the magic bytes d0 0d fe ed or for a later version changes and reports nothing; otherwise the block that the header names is reported in pre-order and pruned, and nothing outside it changes |
| `DeviceTree.Scanner.GetCells` | work/spike_interface/dts_parse.c:74-87 | the cells as one big-endian number modulo 2^64, and the word after them |
| `Snprintf.KindAt` | work/util/snprintf.c:17-68 | the first conversion letter after a percent sign; everything before it is skipped |
| `Snprintf.HexDecodes` | work/util/snprintf.c:26-29 | the hexadecimal digits, read back, are the number modulo 16^k: 2^32 for eight, 2^64 for sixteen |
| `Snprintf.DigitsDecode` | work/util/snprintf.c:40-46 | the decimal digits, read back, are the number, with no leading zero |
| `Snprintf.DecimalDecodesIff` | work/util/snprintf.c:34-51 | the decimal text of a long reads back as the long iff it is not the most negative one |
| `Snprintf.HexLaw` | work/util/snprintf.c:26-35 | %x prints 8 digits and %lx 16, which read back are the number modulo 2^32 or 2^64 |
| `Snprintf.PointerLaw` | work/util/snprintf.c:22-35 | %p prints 0x and 16 digits, which read back are the number modulo 2^64 |
| `Snprintf.DecimalLaw` | work/util/snprintf.c:36-53 | %d of any int and %ld of any long but the most negative one read back as the number |
| `Snprintf.TextLaw` | work/util/snprintf.c:54-69 | %c prints the low byte, %s the characters before the first NUL |
| `Snprintf.FormatLaw` | work/util/snprintf.c:16-77 | a plain character stands for itself; a percent sign, at most one l and one of the five letters are a conversion; a lone percent sign prints nothing |
| `Snprintf.SkipLaw` | work/util/snprintf.c:70-72 | any other character within a conversion is skipped |
| `Snprintf.LengthLaw` | work/util/snprintf.c:78-82 | the returned int is the length iff the length is below 2^31 |
| `Snprintf.CountDigits` | work/util/snprintf.c:40-42 | the digit count is the length of the decimal digits |
| `Snprintf.PutHex` | work/util/snprintf.c:26-29 | the hexadecimal digits follow the text emitted so far, truncated at n |
| `Snprintf.PutDigits` | work/util/snprintf.c:40-47 | written backwards, the digits follow the text emitted so far, truncated at n |
| `Snprintf.PutFetched` | work/util/snprintf.c:18-64 | each conversion but %c emits exactly its text, 'p' as "0x" and sixteen digits |
| `Snprintf.PutConversion` | work/util/snprintf.c:64-69 | %c advances the position and fetches its argument only if the character fits; every other conversion fetches and emits |
| `Snprintf.OwnArgumentsIff` | work/util/snprintf.c:64-69 | every conversion that fetches gets its own argument iff no conversion but a %c follows a %c whose character lands at index n - 1 or later |
| `Snprintf.InStepKeepsLength` | work/util/snprintf.c:11-82 | under that condition nothing undefined is fetched and the length is that of the unbounded rendering |
| `Snprintf.WrittenVisible` | work/util/snprintf.c:11-82 | without it the characters below index n - 1 are still those of the unbounded rendering |
| `Snprintf.CharThenDecimal` | work/util/snprintf.c:64-69 | the smallest failing call: n = 1 and "%c%d", where %d prints the character's code and the length is 3 instead of 2 |
| `Snprintf.Terminate` | work/util/snprintf.c:77-80 | NUL after the text or in the last of the n cells, nothing for n = 0 |
| `Snprintf.Vsnprintf` | work/util/snprintf.c:11-82 | for every format, every n and arguments for what is fetched: the first min(length, n-1) characters of the unbounded rendering and NUL are delivered, nothing else is touched and nothing at all for n = 0; the length returned, as a 32-bit int, is the rendering's whenever no conversion but a %c follows a %c that does not fit |

## Left out

- HTIF, host files and console output (work/spike_interface/spike_htif.c, spike_file.c, spike_utils.c): host I/O.
- ELF loading (work/kernel/elf.c): host reads and single-branch checks.
- Boot code, control registers, trap vectors and register save and restore.
- Timer interrupts, round robin, yield and semaphores: stubs and panics in the source.
- TLB flushes, interrupt masking and memory-ordering bits: steps are sequentially consistent and
  interrupt-disabled sections are not interrupted by their own hart.
- work/util/string.c: memcpy and memset are whole-page copies and fills.
- Page colours, owning hart numbers and debug printing.
- CowFork.Kernel.DoFork: covers stack and heap contents and reference counts; trapframe, code segment and the
  page-table pages of the child are not part of it, and the source has no case for a data segment.
- CowFork.Kernel.AllocPage: a page that sys_user_allocate_page takes carries any contents, as alloc_page does not clear it.
- BuddySystems.BuddySystem.BuddyFree: requires a live block and a multiple of 1024 pages, where the source accepts any
  address; `BuddySystems.FreeNeedsLive`, `RingLists.DoubleLinkBreaksRing` and `BuddySystems.BuddyIndexInBounds` say
  what goes wrong otherwise.
- PageTables.AddressSpace.MapPages: flags are below 2^10, as every caller's are; the assertion and panics are results.
- DeviceTree.Scanner.Helper: cell counts, which sibling nodes share through one record, and the strings block
  are not part of the trace; a property is reported with the offset of its name; the blocks scanned are
  well-formed ones with their end token.
- DeviceTree.Scanner.FdtScan: the structure block starts at a whole word, and the strings block is not read.
- Snprintf.Vsnprintf: requires an argument of the right kind for every fetch, as the source does;
  the size_t position does not wrap.
- WalkAsWritten.HarmlessIff: page contents change only by the walkers' steps, and no entry is unmapped
  while walks are under way.
- StaleFlags.MergeUnlinksTwiceIff: the popped blocks keep their flags set while the merge runs; one whose hart
  clears them sooner counts as no longer popped.
- BuddyHarts.HartsAreSafe: proves safety; that a waiting hart gets the lock in the end needs fairness the source's spin lock does not give.

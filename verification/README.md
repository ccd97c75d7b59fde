# Sylphia-OS: a verified model of the kernel's stateful core

This project models the parts of the Sylphia-OS kernel that keep state and do arithmetic on it, and proves what they
promise. Physical memory is a map from frame number to page table, the disk a sequence of 512-byte sectors, and the
devices are the other party of a protocol.

| part | files | main results |
|---|---|---|
| frame allocator | `Bitmap`, `FrameSets`, `MemoryManager`, `AllocatorRuns` | the packed bitmap is a set of free frames; the skip-ahead search is lowest first fit; every run from the memory map on keeps live blocks disjoint, in conventional memory and clear of the kernel, the bitmap and frame 0 |
| paging | `PageTables`, `EntryBits`, `PageTree`, `PageSteps`, `PageBoot`, `PageManager`, `ProcessTrees`, `SharedTrees`, `PagingRuns`, `IsolationRuns` | mapping changes exactly the requested pages, splitting a 2 MB page changes none; a mapping under one root shows under another exactly where they share a table; over every run a process sees what its own actions made of the pages it shares with nobody, and data frames are never reused |
| FAT32 | `FatDisk`, `FatEntries`, `FatNames`, `FatChains`, `FatVolume`, `FatUpdates`, `FatViews`, `FatAppend`, `FatPaths`, `Fat32`, `FatFormat`, `FatNamespace`, `FatRuns` | every run from a format keeps the volume invariant and both FAT copies in step, and shows exactly the fold of its operations over a map from directory and name to file content or directory; every subdirectory names itself and its parent |
| tasks | `RoundRobin`, `Tasks` | the intrusive queue refines a duplicate-free sequence; every run keeps one running task; turns come in queue order; the timer preempts kernel tasks and never a running app |
| devices | `NvmeProtocol`, `NvmeDriver`, `XhciRing` | no stale completion is ever taken; a consumer that follows the addresses in the ring sees every request once and in order |
| checksum | `PolyDivision`, `Crc32` | the checksum is the inverted remainder of dividing the message by the CRC-32 generator; every change within four consecutive bytes is detected |

Where a claim one would expect is false of the code, the code is modelled as it is, and the exact condition under which
the claim holds is proved. The facts found this way:

- `MemoryManager::Allocate` rounds a size above 2^64 - 4096 to zero frames and returns a frame it does not reserve
  (`BlockCoversRequest`, `WrappedRequestExample`).
- `MemoryManager::Initialize` halts when no conventional region holds the bitmap, and also when the first that does begins
  at address 0, whatever follows (`BaseZeroIff`, `ZeroBaseExample`).
- `MapPage` maps its whole range exactly when the free frames cover the missing tables; `AllocateVirtual` reports success
  exactly when the free frames cover all pages and the tables of all pages but the last, so the last page may be left
  unmapped (`AllocateVirtual`, `AllocateUnmapped`).
- Freeing a process root is harmless to another root exactly when the two share none of the four tables it frees
  (`FreeIsSafe`). A root created with one to three free frames shares with the kernel the tables that were not copied;
  freeing it leaves kernel tables among the free frames, and with a single frame the kernel's first two gigabytes fault
  (`CreateAndFreeShort`, `PartialTeardownBreaksKernel`).
- An app task's memory takes 21 frames. With 4 to 20 the creation fails and all but the four frames of the copied tables
  are lost; the root is given back twice, which changes nothing (`CreateAppMemory`, `FreeTwice`).
- A directory name is found under the name it was created with exactly when it is not an eleven-character dotless name
  with something other than blanks in its last three characters (`LookupMatchesCreation`).
- `WriteFile` does not look for an existing entry: a second file of the same name is seen exactly when no earlier slot
  has the name (`WriteFile`, `FileSeen`, `WriteTwice`).
- `AppendFile` keeps the volume sound exactly when the free clusters suffice or the size it records, cut to 32 bits, fits
  the chain that was made. In the second case the file is cut off; if neither holds, no volume accounts for the result
  (`AppendFile`, `AppendShort`, `AppendCutOff`, `ShortAppendExamples`).
- `EnsureDirectory` returns 0 exactly when a file is in the way or the free clusters are fewer than the missing
  components. A second call returns the same and writes nothing exactly when the first made nothing, or the directory that
  lacked the first component had a vacant slot and no component it made is an eleven-character dotless name with a
  non-blank tail. Otherwise the path leads to none of what was made, and the second call fails or makes
  further directories (`EnsureTwice`, `StrayTwice`, `LongNameTwice`).
- `CreateDirectory` writes ".." with the cluster number it was passed. `EnsureDirectory` always passes a cluster, so the
  ".." of a directory it makes in the root names the root's cluster and not the 0 by which FAT32 denotes the root
  (`CreateDirectory`, `EnsureDirectory`).
- Formatting leaves the FAT copies in agreement exactly when a FAT has at least 128 sectors (`FormatPartitionFAT32`). That
  is from 130056 sectors to 1016 sectors short of four tebibytes, and again beyond each multiple of four tebibytes,
  because the size is computed in 32 bits (`FatSizeThreshold`).
- A task that blocks and is woken before the next switch, with nothing else queued, stays current: no amount of
  scheduling then switches (`YieldSwitchesIff`, `StallLasts`, `BlockWakeStalls`).
- A transfer ring survives an enqueue exactly when at most 30 requests are outstanding and the producer is not about to
  rewrite the link before which the consumer stands (`EnqueueIff`); otherwise the consumer is stranded (`UnsafeStrands`),
  as after 32 requests on a fresh ring (`OverrunExample`).

`dafny verify dfyconfig.toml` checks the whole project.

## Model
| member | source | states |
|---|---|---|
| `BitmapModel.TestsAgree` | kernel/memory/memory_manager.hpp:16-21 | masking a bit in place and shifting it down are the same test |
| `BitmapModel.MaskBits` | kernel/memory/memory_manager.hpp:24-36 | OR-ing a mask sets that bit and no other, AND-ing its complement clears that bit and no other |
| `BitmapModel.UsedAfterSet` | kernel/memory/memory_manager.hpp:24-36 | rewriting the byte of a frame changes the status of that frame only |
| `BitmapModel.FullByte` | kernel/memory/memory_manager.hpp:43-52 | a byte is 0xFF exactly when all its bits are set, so the early-out skips no free frame |
| `BitmapModel.Bitmap.Set` | kernel/memory/memory_manager.hpp:24-36 | exactly one frame enters or leaves the free set; an index outside is ignored |
| `BitmapModel.Bitmap.FindFreeFrame` | kernel/memory/memory_manager.hpp:39-55 | returns the lowest free frame, and -1 exactly when none is free |
| `FrameSets.FirstFitIsLowest` | kernel/memory/memory_manager.cpp:117-165 | naive first fit returns the lowest run of free frames, and none exactly when there is no run |
| `FrameSets.SkipAhead` | kernel/memory/memory_manager.cpp:138-152 | a used frame inside a candidate run rules out every start up to it, so the skip loses no run |
| `MemoryManagement.MemoryManager.Initialize` | kernel/memory/memory_manager.cpp:13-95 | the free frames are exactly those whose 4096 bytes lie in a region of type 7 of the memory map, except frame 0, the kernel image and the bitmap itself; for maps that are not page-aligned or wrap, the same by frame numbers in 64-bit arithmetic; it halts exactly when the base found for the bitmap is 0 |
| `MemoryManagement.ConventionalIs` | kernel/memory/memory_manager.cpp:57-72 | the frames the third pass frees are those with all their bytes in a region of type 7, for page-aligned regions that do not wrap |
| `MemoryManagement.BaseZeroIff` | kernel/memory/memory_manager.cpp:30-53 | the base is 0 exactly when no conventional region is large enough or the first that is begins at address 0 |
| `MemoryManagement.BaseIsFirst` | kernel/memory/memory_manager.cpp:30-46 | otherwise it is the start of the first region that is large enough |
| `MemoryManagement.RoomyIs` | kernel/memory/memory_manager.cpp:36-44 | a region is large enough when it is of type 7 and its bytes hold the bitmap |
| `MemoryManagement.BaseIsUsable` | kernel/memory/memory_manager.cpp:30-46 | the bitmap lies with all its bytes in one region of type 7 |
| `MemoryManagement.ZeroBaseExample` | kernel/memory/memory_manager.cpp:30-53 | a map for which it is 0 although a later region would hold the bitmap |
| `MemoryManagement.HoldsBytes` | kernel/memory/memory_manager.cpp:74-92 | the frames reserved for a byte range are exactly those with a byte of it |
| `MemoryManagement.MemoryManager.AllocateFrame` | kernel/memory/memory_manager.cpp:98-106 | takes the lowest free frame; fails exactly when none is free |
| `MemoryManagement.MemoryManager.FreeFrame` | kernel/memory/memory_manager.cpp:108-113 | adds exactly that frame to the free set if the bitmap has a bit for it; the allocator stays sound exactly for a frame of the managed range other than 0 or one past the bitmap |
| `MemoryManagement.MemoryManager.Allocate` | kernel/memory/memory_manager.cpp:117-165 | the skip-ahead search is first fit of ceil(size / 4096) frames and reserves exactly those; sizes that wrap reserve nothing |
| `MemoryManagement.MemoryManager.Free` | kernel/memory/memory_manager.cpp:167-177 | gives back exactly the frames of the block that the bitmap covers, and when the allocator stays sound |
| `MemoryManagement.FrameCountWraps` | kernel/memory/memory_manager.cpp:119-123 | the rounded frame count is exact up to 2^64 - 4096 bytes and zero above |
| `AllocatorRuns.BlockCoversRequest` | kernel/memory/memory_manager.cpp:117-165 | a block covers the bytes asked for exactly when the rounding does not wrap |
| `AllocatorRuns.WrappedRequestExample` | kernel/memory/memory_manager.cpp:117-165 | the frame returned for a wrapped size is handed out again |
| `AllocatorRuns.RunKeepsSplit` | kernel/memory/memory_manager.cpp:98-177 | over every run, live blocks are pairwise disjoint and inside the initially free frames, and free plus live frames is constant |
| `AllocatorRuns.Replay` | kernel/memory/memory_manager.cpp:98-177 | the bitmap allocator driven through a run holds exactly the free set of the abstract run |
| `AllocatorRuns.BootAndReplay` | kernel/memory/memory_manager.cpp:13-177 | from the memory map through any run of requests, live blocks lie in regions of type 7 with all their bytes, cover neither frame 0, the kernel image nor the bitmap, and are pairwise disjoint |
| `PageTables.PageOfNumber` | kernel/paging.cpp:62-69 | the four indices are the base-512 digits of the page number |
| `PageTables.RangeIsInjective` | kernel/paging.cpp:60-69 | up to 2^36 consecutive pages are pairwise different, in 64-bit arithmetic |
| `PageTables.ByteOnPage` | kernel/paging.cpp:60-69 | byte o of a page-aligned range lies on page o / 4096 of it |
| `EntryBits.SetAddressIs` | kernel/paging.hpp:41-51 | writing the address field of the word is writing the entry's frame, cut to 40 bits, and nothing else |
| `EntryBits.AddressRoundTrip` | kernel/paging.hpp:41-51 | the address read back is the one written without its page offset, to 52 bits |
| `EntryBits.EncodeInjective` | kernel/paging.hpp:12-52 | different entries have different words |
| `EntryBits.SplitWordIs` | kernel/paging.cpp:114-129 | the word operations of the split loop give the entry the model uses for small page k |
| `EntryBits.HardwareBits` | kernel/paging.hpp:12-52 | the word has the layout of the processor: bits 0 to 8 are the flags, the frame number starts at bit 12, no-execute is bit 63 |
| `EntryBits.LeafWord` | kernel/paging.cpp:152-158 | the final write sets the address and bits 0 to 2 as asked and no other bit: no-execute stays as it was |
| `EntryBits.NewLinkWord` | kernel/paging.cpp:72-92 | a new link sets the address, present and writable, and user as asked, and no other bit |
| `EntryBits.SplitLinkWord` | kernel/paging.cpp:131-145 | the link in place of a 2 MB entry has the new table's address, is present, has page size cleared and user set if asked, and no other bit changed |
| `PageTree.WalkIsView` | kernel/paging.cpp:54-162 | under the U and RW invariants the hardware walk ends at the leaf's own address and rights |
| `PageTree.LinkKeepsInv` | kernel/paging.cpp:72-92 | linking in a new table keeps the tree shape and both invariants |
| `PageTree.LinkView` | kernel/paging.cpp:72-92 | linking in an empty table changes no translation; linking in a page table changes exactly the 512 pages below it |
| `PageTree.LeafView` | kernel/paging.cpp:154-158 | a leaf write changes the translation of its own page only |
| `PageSteps.EnsureNewStep` | kernel/paging.cpp:72-92 | creating a missing table keeps every translation and takes one frame |
| `PageSteps.SplitStep` | kernel/paging.cpp:104-146 | splitting a 2 MB page keeps every translation, those of its 512 small pages included |
| `PageSteps.LeafStep` | kernel/paging.cpp:152-158 | the final write gives the page the requested frame and rights and no other page a change |
| `PageBoot.BootTree` | kernel/paging.cpp:164-222 | the boot tables satisfy the invariants and map every page below the filled gigabytes to itself, the rest to nothing |
| `Paging.PageManager.Initialize` | kernel/paging.cpp:164-222 | identity below 64 GB, nothing above, at the cost of exactly 66 frames |
| `Paging.PageManager.EnsureEntry` | kernel/paging.cpp:72-92 | returns the table below an entry, creating it; fails, with nothing changed, exactly when it is missing and no frame is free; no translation changes |
| `Paging.PageManager.SplitHugePage` | kernel/paging.cpp:104-146 | replaces a 2 MB entry by a page table with no translation changed; fails exactly when no frame is free |
| `Paging.PageManager.MapOne` | kernel/paging.cpp:62-160 | one page gets the requested translation, all others keep theirs; succeeds exactly when the free frames cover the missing tables |
| `Paging.PageManager.MapPage` | kernel/paging.cpp:54-162 | a prefix of the range is mapped and nothing else changes; the prefix is the whole range exactly when the frames suffice; then every byte of the range leads to the same byte of the physical range, and a page without such a byte keeps its translation; new tables appear on the walks of the range only |
| `Paging.AfterInside` | kernel/paging.cpp:54-162 | page i of a mapped range translates to page i of the physical range with the requested P, W and U |
| `Paging.AfterOutside` | kernel/paging.cpp:54-162 | a page outside the range keeps its translation |
| `Paging.PageManager.AllocateVirtual` | kernel/paging.cpp:21-52 | the pages get distinct, formerly free, zeroed frames that are no page tables of the root; the result is true exactly for an aligned range with frames for all pages and for the tables of all pages but the last; complete exactly when the frames suffice for all data and tables, and then every byte from vaddr to vaddr + size is backed with the rights asked for; a page without such a byte keeps its translation |
| `Paging.PageCountHolds` | kernel/paging.cpp:28 | the page count is the least that holds the size, for every size up to 2^64 - 4096; above it is 0 |
| `Paging.BacksBytes` | kernel/paging.cpp:21-52 | from pages to bytes: pages without a byte of the range keep their translation, and a complete allocation backs every byte, also where a range past 2^48 bytes meets the same place of the tree again |
| `Paging.MapsBytes` | kernel/paging.cpp:54-162 | the same for mapping: byte o of the range leads to byte o of the physical range |
| `Paging.PageManager.AllocateUnmapped` | kernel/paging.cpp:21-52 | with one free frame and a missing table, one page: the call reports success and no translation has changed |
| `PagingRuns.BootAndAllocate` | kernel/paging.cpp:21-52 | after boot and any allocations, pages outside the requested ranges still translate to themselves below 64 GB and to nothing above |
| `Paging.PageManager.CopyPageTable` | kernel/paging.cpp:234-245 | a copy of one table in a fresh frame; nothing else changes |
| `Paging.PageManager.CopyChild` | kernel/paging.cpp:311-352 | the new root gets its own copy of a child table when there is one and a frame is left; otherwise nothing changes |
| `Paging.PageManager.CreateProcessPageTable` | kernel/paging.cpp:298-358 | returns 0 exactly when no frame is free; otherwise a root that translates every address as the kernel's does, and no other root notices; which tables are copied follows from the number of free frames, and all others are the kernel's; the copy is complete exactly when four frames were free and the kernel has the four tables |
| `Paging.CopiedAll` | kernel/paging.cpp:298-358 | all four tables are copied exactly with four free frames and all four in the kernel |
| `Paging.PageManager.FreeProcessPageTable` | kernel/paging.cpp:370-426 | frees exactly the root's own tables; for a complete copy no other root loses a translation |
| `ProcessTrees.TornDownTwice` | kernel/paging.cpp:370-426 | a second teardown of the same root writes nothing and gives nothing more back |
| `Paging.PageManager.FreeTwice` | kernel/task/task_manager.cpp:134-136 | a failed creation and the termination of its task both free the root, with the effect of one teardown |
| `Paging.PageManager.CreateAndFree` | kernel/paging.cpp:298-426 | create then free restores the bitmap and every translation |
| `Paging.PageManager.CreateAndFreeShort` | kernel/paging.cpp:298-426 | with one to three free frames the free set gains exactly the kernel's tables that were not copied; with one, the kernel's first two gigabytes fault |
| `ProcessTrees.FreeIsSafe` | kernel/paging.cpp:370-426 | freeing a root's own tables takes no table from another root exactly when they share none of them |
| `ProcessTrees.PartialTeardownBreaksKernel` | kernel/paging.cpp:386-421 | freeing a root that still shares the kernel's first pointer table makes the kernel's first two gigabytes fault |
| `ProcessTrees.SysGrows` | kernel/paging.cpp:54-162 | growing one root's tree without touching tables of the others keeps the whole system and what the others see |
| `ProcessTrees.SysFree` | kernel/paging.cpp:370-426 | freeing a complete copy keeps the rest of the system |
| `SharedTrees.SharedView` | kernel/paging.cpp:54-162 | growing the tree of r changes page q under s as it does under r if they share a table on the walk to q, and not at all otherwise |
| `SharedTrees.UnsharedWalk` | kernel/paging.cpp:54-162 | where nothing is shared, the hardware walk under s is as before |
| `SharedTrees.JointKept` | kernel/paging.cpp:54-162 | growth neither adds nor removes sharing between any two roots |
| `SharedTrees.SysShared` | kernel/paging.cpp:54-162 | the system of roots stays sound exactly if every root that shares a user page with r lets the user through to it |
| `Paging.OpenedIff` | kernel/paging.cpp:72-92 | only the pages newly opened to the user matter for that |
| `SharedTrees.ForeignFrame` | kernel/paging.cpp:21-52 | a frame taken for data under r is a page table of no root |
| `Paging.HugeSlotApart` | kernel/paging.cpp:298-358 | a page that was part of a 2 MB leaf of the kernel when a process root was copied shares no page table with it |
| `Paging.PageManager.AllocateVirtualForProcess` | kernel/paging.cpp:428-458 | for any range: under every root exactly the pages whose walk shares a table with the target's change, as they do there; data frames are page tables of no root; the system stays sound exactly if the sharing roots let the user through; on isolated ranges no other root notices |
| `Paging.PageManager.KernelAllocateVirtual` | kernel/app/elf/elf_loader.cpp:95-110 | the same for allocation under the kernel root while processes live, as the loader does it |
| `Paging.PageManager.KernelMapPage` | kernel/paging.cpp:54-162 | the same for mapping given frames under the kernel root |
| `PagingRuns.CreateAppMemory` | kernel/task/task_manager.cpp:112-142 | fails exactly with fewer than 21 free frames; otherwise a root with the kernel's translations and sixteen zeroed frames for its stack; after a failure with 4 to 20 only the four frames of the tables are free and no root notices; with 1 to 3, kernel tables are left free |
| `IsolationRuns.StepGood` | kernel/paging.cpp:21-458 | creating, backing and destroying keep the system sound, the kernel without page tables in the process area, and all roots apart there |
| `IsolationRuns.Isolation` | kernel/paging.cpp:21-458 | over every run, what a root sees in the process area is what its own actions made of the kernel's translation, whatever the kernel and the other processes do |
| `IsolationRuns.KernelAreaKept` | kernel/paging.cpp:21-458 | over every run the kernel's own translation of the area stays |
| `IsolationRuns.DataSafe` | kernel/paging.cpp:21-458 | over every run no frame taken to back a page is free again, taken again or made a page table |
| `IsolationRuns.CreatedAlone` | kernel/paging.cpp:298-358 | a page that a new root does not share with the kernel it shares with no root |
| `IsolationRuns.StaysAlone` | kernel/paging.cpp:21-458 | over every run, with no condition on where the kernel maps, a page that a process root shares with nobody stays so while the root lives, with roots created later too, and is what the root's own actions make of it |
| `IsolationRuns.StepIsMove` | kernel/paging.cpp:21-458 | the steps inside and beside a process area are among the actions of those runs |
| `IsolationRuns.Boot` | kernel/paging.cpp:164-222 | the state after boot is the start of such runs, for any area |
| `IsolationRuns.CreateRoot` | kernel/paging.cpp:298-358 | with four free frames, creating a root is the create step |
| `IsolationRuns.BackProcess` | kernel/paging.cpp:428-458 | allocating for a process inside the area is a backing step |
| `IsolationRuns.BackKernel` | kernel/paging.cpp:21-52 | allocating under the kernel root, on any range, is an action of the general runs, and a backing step beside the area |
| `IsolationRuns.DestroyRoot` | kernel/paging.cpp:370-426 | freeing a complete root is the destroy step |
| `FatDisk.U32AfterPut` | kernel/fs/fat32/fat32_driver.cpp:99-100 | writing one word of a sector leaves the other 127 alone |
| `FatDisk.PutBytes` | kernel/fs/fat32/fat32_driver.cpp:99-100 | a word is stored lowest byte first and no other byte of the sector changes |
| `FatDisk.LbaApart` | kernel/fs/fat32/fat32_driver.cpp:48-52 | different clusters occupy disjoint sectors |
| `FatDisk.LbaSteps` | kernel/fs/fat32/fat32_driver.cpp:48-52 | cluster 2 is at the start of the data region and each cluster follows the one before |
| `FatDisk.FatWord` | kernel/fs/fat32/fat32_driver.cpp:86-109 | writing one word into both copies changes that word of the table, no data, and keeps the copies in step |
| `FatEntries.MakeEntryFields` | kernel/fs/fat32/fat32_driver.cpp:258-265 | the fields of a new entry read back as they were put in |
| `FatEntries.EntryLayout` | kernel/fs/fat32/fat32_driver.cpp:258-265 | the 32 bytes of a new entry one by one, as the FAT specification lays them out |
| `FatEntries.FindIsFirst` | kernel/fs/fat32/fat32_driver.cpp:307-329 | the scan finds the first live matching entry, whatever was deleted before it |
| `FatEntries.FindIff` | kernel/fs/fat32/fat32_driver.cpp:307-329 | the scan returns slot i exactly when it is the first whose bytes begin with neither 0 nor 0xE5, whose attribute is not 0x0F and whose eleven bytes are the name |
| `FatEntries.VacantIff` | kernel/fs/fat32/fat32_driver.cpp:252-256 | a new entry goes to slot i exactly when it is the first that begins with 0 or 0xE5 |
| `FatEntries.PutKeepsTail` | kernel/fs/fat32/fat32_driver.cpp:254-270 | taking the first vacant slot keeps the never-used slots together at the end, which the scan relies on |
| `FatNames.To83Format` | kernel/fs/fat32/fat32_driver.cpp:980-1009 | the directory form: eight and three characters in upper case, blank-padded, split at the first dot |
| `FatNames.UpperIs` | kernel/fs/fat32/fat32_driver.cpp:980-1009 | exactly the letters a to z change, each to its capital |
| `FatNames.DottedForm` | kernel/fs/fat32/fat32_driver.cpp:980-1009 | base, a dot and any extension become the two padded fields, for creation and lookup alike |
| `FatNames.ReadmeExample` | kernel/fs/fat32/fat32_driver.cpp:980-1009 | "readme.txt" byte by byte |
| `FatNames.IsNameEqual` | kernel/fs/fat32/fat32_driver.cpp:147-235 | holds exactly when the entry's bytes are the canonical form of the name |
| `FatNames.LookupMatchesCreation` | kernel/fs/fat32/fat32_driver.cpp:147-235 | lookup and creation agree on a name exactly when it is not an eleven-character dotless one with a non-blank tail |
| `FatNames.LongNameExample` | kernel/fs/fat32/fat32_driver.cpp:160-190 | a name on which they disagree |
| `FatNames.CanonHasNoLeadingDot` | kernel/fs/fat32/fat32_driver.cpp:147-235 | no name matches the "." and ".." entries |
| `FatChains.SweepStep` | kernel/fs/fat32/fat32_driver.cpp:128-145 | each round of the release loop shrinks the set of linked clusters or leaves the table |
| `FatChains.SweepDone` | kernel/fs/fat32/fat32_driver.cpp:128-145 | when the loop ends it has visited exactly the reachable clusters |
| `FatChains.ChainDistinct` | kernel/fs/fat32/fat32_driver.cpp:719-797 | a chain ended by the end mark is acyclic |
| `FatChains.ReachedIsChain` | kernel/fs/fat32/fat32_driver.cpp:128-145 | following links from the head of a chain meets exactly its members |
| `FatVolume.VolSame` | kernel/fs/fat32/fat32_driver.cpp:735-745 | updates outside the live clusters keep the volume and every content |
| `FatVolume.ExtendStep` | kernel/fs/fat32/fat32_driver.cpp:736-786 | one round of the write loops extends the chain by one free cluster |
| `FatVolume.ExtendedFree` | kernel/fs/fat32/fat32_driver.cpp:736-786 | each round takes exactly one free cluster |
| `FatUpdates.FileAdded` | kernel/fs/fat32/fat32_driver.cpp:792-793 | the entry of a chain of unowned clusters in a vacant slot adds the file and keeps the volume invariant |
| `FatUpdates.FileRemoved` | kernel/fs/fat32/fat32_driver.cpp:631-659 | zeroing a file's links and marking its slot removes it and nothing else |
| `FatUpdates.FileGrown` | kernel/fs/fat32/fat32_driver.cpp:886-971 | the grown chain and new size keep the invariant and the other files' contents |
| `FatUpdates.DirAdded` | kernel/fs/fat32/fat32_driver.cpp:343-377 | a free cluster with the two dot entries is an empty directory of the volume |
| `FatUpdates.PutKeepsDots` | kernel/fs/fat32/fat32_driver.cpp:357-371 | writing a slot behind the dot entries leaves them as they are, so ".." of every live subdirectory goes on naming its parent |
| `FatUpdates.DirRemoved` | kernel/fs/fat32/fat32_driver.cpp:631-659 | deleting a directory keeps the rest of the volume |
| `FatViews.FindAfterPut` | kernel/fs/fat32/fat32_driver.cpp:307-329 | what rewriting one slot does to every lookup |
| `FatViews.FileSeen` | kernel/fs/fat32/fat32_driver.cpp:719-797 | the new name leads to the data unless an earlier slot hides it; every other name leads where it led |
| `FatViews.FileGoneSeen` | kernel/fs/fat32/fat32_driver.cpp:592-669 | the deleted name leads nowhere if it was unique; every other name leads where it led |
| `FatViews.GrownSeen` | kernel/fs/fat32/fat32_driver.cpp:799-978 | the appended name leads to the bytes of the grown chain; every other name leads where it led |
| `FatViews.DirSeen` | kernel/fs/fat32/fat32_driver.cpp:339-384 | the new directory is empty and its name leads to it unless hidden; every other name leads where it led |
| `FatAppend.CeilGrown` | kernel/fs/fat32/fat32_driver.cpp:846-884 | the clusters an append takes are those of the data that does not fit into the last one |
| `FatAppend.GrownBytes` | kernel/fs/fat32/fat32_driver.cpp:846-919 | the grown chain reads as the old content followed by the data, at every alignment |
| `FatAppend.AppendShort` | kernel/fs/fat32/fat32_driver.cpp:889-925 | when the recorded size does not fit the chain that was made, no volume accounts for what the device holds |
| `FatAppend.AppendCutOff` | kernel/fs/fat32/fat32_driver.cpp:889-925 | when the size wrapped to a shorter one that fits, the volume is sound and the file is its old content cut off there |
| `FatPaths.WalksAgree` | kernel/fs/fat32/fat32_driver.cpp:529-580 | on paths without empty components the walks of `EnsureDirectory` and `GetFileEntry` lead to the same directory |
| `FatPaths.WalkAlong` | kernel/fs/fat32/fat32_driver.cpp:547-578 | a path that spells names of up to fifteen characters with slashes between them leads where the names lead, each looked up in the directory before it |
| `FatPaths.PathAlong` | kernel/fs/fat32/fat32_driver.cpp:529-580 | the same with the start: the root after a leading slash, the given directory otherwise |
| `Fat32.Fat32Driver.AllocateCluster` | kernel/fs/fat32/fat32_driver.cpp:54-84 | takes the lowest free cluster of 2..127 and marks it as a chain end in both copies; 0 exactly when there is none |
| `Fat32.Fat32Driver.LinkCluster` | kernel/fs/fat32/fat32_driver.cpp:86-109 | changes exactly one link, in both copies |
| `Fat32.Fat32Driver.GetNextCluster` | kernel/fs/fat32/fat32_driver.cpp:111-126 | the word of the cluster in the first FAT without its four highest bits |
| `Fat32.Fat32Driver.FreeChain` | kernel/fs/fat32/fat32_driver.cpp:128-145 | ends on every table whose links stay inside it, cyclic ones included, and zeroes exactly the reachable clusters |
| `Fat32.Fat32Driver.WriteClusters` | kernel/fs/fat32/fat32_driver.cpp:736-786 | stores the data in a new stretch of chain; completes exactly when the free clusters suffice |
| `Fat32.Fat32Driver.AddDirectoryEntry` | kernel/fs/fat32/fat32_driver.cpp:237-275 | writes the first vacant slot and nothing else; a full directory is left as it is |
| `Fat32.Fat32Driver.FindDirectoryEntry` | kernel/fs/fat32/fat32_driver.cpp:277-337 | succeeds exactly when a live entry has the canonical name, and returns the first |
| `Fat32.Fat32Driver.WriteFile` | kernel/fs/fat32/fat32_driver.cpp:719-797 | adds the file exactly when the data is not empty, the clusters suffice and a slot is vacant; the entry on the disk has the name, attribute 0x20, the head of the chain and the size; what each name leads to afterwards; otherwise no name changes |
| `Fat32.Fat32Driver.DeleteFile` | kernel/fs/fat32/fat32_driver.cpp:592-669 | succeeds exactly when the name is found; frees exactly its clusters and overwrites the first byte of its entry with 0xE5; what each name leads to afterwards |
| `Fat32.Fat32Driver.CreateDirectory` | kernel/fs/fat32/fat32_driver.cpp:339-384 | fails exactly when no cluster is free; the directory begins with "." naming its own cluster and ".." naming the parent as it was passed, both of size 0, is otherwise empty, and is named, with attribute 0x10, unless its parent is full |
| `Fat32.Fat32Driver.AppendFile` | kernel/fs/fat32/fat32_driver.cpp:799-978 | the name leads to the old content followed by the data if the clusters suffice; a missing name is written anew; the result is a volume exactly when the clusters suffice or the recorded 32-bit size fits the chain made |
| `Fat32.ShortAppendExamples` | kernel/fs/fat32/fat32_driver.cpp:889-925 | on a full disk, an append to a five-byte file that is unsound and one whose size wraps and cuts the file off |
| `Fat32.Fat32Driver.ReadFile` | kernel/fs/fat32/fat32_driver.cpp:671-717 | returns exactly the content the path leads to, if the buffer holds it |
| `Fat32.Fat32Driver.GetFileEntry` | kernel/fs/fat32/fat32_driver.cpp:529-580 | resolves a path component by component, to an entry of the file or directory it leads to |
| `Fat32.Fat32Driver.GetDirectoryCluster` | kernel/fs/fat32/fat32_driver.cpp:509-527 | the live directory a path leads to, or 0xFFFFFFFF |
| `Fat32.Fat32Driver.EnsureDirectory` | kernel/fs/fat32/fat32_driver.cpp:386-438 | 0 exactly when a file is in the way or the free clusters are fewer than the missing components, of which it takes exactly that many otherwise; returns the directory that was there without writing; if directories are made, the path leads to the last exactly when the first found a vacant slot and all are looked up under the names they are stored by, and in every other case a component is still missing; ".." of a directory made is never 0 |
| `FatPaths.NeededIff` | kernel/fs/fat32/fat32_driver.cpp:386-438 | directories have to be made exactly when the walk stops at a directory that lacks the next component, and then the path leads to none |
| `FatPaths.MissStays` | kernel/fs/fat32/fat32_driver.cpp:386-438 | a directory made under another name than it is looked up by does not help the walk on: it stops where it stopped |
| `FatPaths.LevelUnique` | kernel/fs/fat32/fat32_driver.cpp:386-438 | a directory lies at one depth below the root, so a walk never comes back to one |
| `FatFormat.FatSizeThreshold` | kernel/fs/fat32/fat32.cpp:32-34 | for every size, the FAT has 128 sectors or more exactly if the sector count modulo 2^33 is at least 130056 and less than 2^33 - 1016 |
| `FatFormat.FatSectorsHold` | kernel/fs/fat32/fat32.cpp:32-34 | the FAT has the fewest sectors that hold four bytes for each cluster of the partition, until the 32-bit size wraps to none |
| `FatFormat.BootLayout` | kernel/fs/fat32/fat32.cpp:41-78 | the fields all FAT types share, at their offsets |
| `FatFormat.BootLayout32` | kernel/fs/fat32/fat32.cpp:41-78 | the FAT32 fields at theirs, FAT size and root cluster among them, and the closing mark |
| `FatFormat.InfoLayout` | kernel/fs/fat32/fat32.cpp:85-96 | the information sector word by word |
| `FatFormat.FormatPartitionFAT32` | kernel/fs/fat32/fat32.cpp:13-155 | boot and information sectors with their backups, both FATs' first 128 sectors and the root cluster are written as computed, every other sector is untouched; the result is the empty volume and its parameters read back; the first 128 FAT sectors agree exactly when a FAT has at least 128 |
| `FatRuns.WriteAppendRead` | kernel/fs/fat32/fat32_driver.cpp:671-978 | a fresh name written and appended to any number of times reads as the concatenation of the pieces, under every path that spells the name; every other name leads where it led |
| `FatRuns.WriteThenDelete` | kernel/fs/fat32/fat32_driver.cpp:592-797 | write then delete of a fresh name restores the volume and, sector by sector, both FAT copies, if their first sectors agree |
| `FatRuns.FormatRunWriteDelete` | kernel/fs/fat32/fat32.cpp:13-155 | the same after a format and any run of operations |
| `FatRuns.WriteTwice` | kernel/fs/fat32/fat32_driver.cpp:719-797 | a name written twice still leads to the first content |
| `FatRuns.SecondHidden` | kernel/fs/fat32/fat32_driver.cpp:719-797 | a second entry of a name is hidden unless a slot before the first was vacant |
| `FatRuns.EnsureTwice` | kernel/fs/fat32/fat32_driver.cpp:386-527 | for every path, the second call writes nothing and returns the same, 0 included, exactly when the first failed, made nothing, or had a vacant slot for the first missing component and stored every component it made under the name it is looked up by; `GetDirectoryCluster` then agrees; otherwise the second result is another |
| `FatRuns.StrayTwice` | kernel/fs/fat32/fat32_driver.cpp:386-438 | two calls for a missing name that is stored under another one take two clusters and return two directories, and the name still leads nowhere |
| `FatRuns.LongNameTwice` | kernel/fs/fat32/fat32_driver.cpp:386-438 | the same at "LONGDIRNAME" |
| `FatRuns.LiveChains` | kernel/fs/fat32/fat32_driver.cpp:719-797 | live chains are acyclic, ended by the end mark, of length ceil(size / cluster bytes) and pairwise disjoint |
| `FatNamespace.NamesShown` | kernel/fs/fat32/fat32_driver.cpp:277-337 | every sound volume shows one map from directory and name to content or directory |
| `FatNamespace.GoIsWalk` | kernel/fs/fat32/fat32_driver.cpp:529-580 | a path leads in that map where it leads on the device |
| `FatNamespace.FileStep` | kernel/fs/fat32/fat32_driver.cpp:719-797 | writing a file enters its name, unless an older entry of the name hides it |
| `FatNamespace.DirStep` | kernel/fs/fat32/fat32_driver.cpp:339-384 | making a directory enters its name likewise and adds an empty directory |
| `FatNamespace.GoneStep` | kernel/fs/fat32/fat32_driver.cpp:592-669 | deleting removes the name, with the directory it led to; only a name that was entered twice can show another entry |
| `FatNamespace.GrowStep` | kernel/fs/fat32/fat32_driver.cpp:799-978 | appending replaces the content by the longer one |
| `FatNamespace.ToldIsFold` | kernel/fs/fat32/fat32_driver.cpp:592-978 | the names after a run are the fold of its operations |
| `FatRuns.Run` | kernel/fs/fat32/fat32_driver.cpp:592-978 | every run of writes, deletions, new directories and appends with enough clusters, full disks and directories included, keeps the volume invariant and the copies in step; what every name leads to is the fold of the operations over the names there were, and each operation fails exactly when the device it met had no room for it, or the name or directory was not there |
| `FatRuns.RoomIsEnough` | kernel/fs/fat32/fat32_driver.cpp:846-919 | counting free clusters and comparing lengths before the call decides, both ways, whether an append has enough clusters |
| `FatRuns.FormatAndRun` | kernel/fs/fat32/fat32.cpp:13-155 | the same from a freshly formatted partition on, which shows no names |
| `Tasks.TaskManager.GuardIff` | kernel/task/task_manager.cpp:227-231 | the membership guard is true exactly for queued tasks |
| `Tasks.TaskManager.AddToReadyQueue` | kernel/task/task_manager.cpp:222-246 | appends the task, ready, unless it is queued; no other task changes |
| `Tasks.TaskManager.RemoveFromReadyQueue` | kernel/task/task_manager.cpp:248-277 | removes the task from any position; nothing changes for an unqueued one |
| `Tasks.AppendSpells` | kernel/task/task_manager.cpp:233-245 | after the writes the links spell the longer queue in both directions |
| `Tasks.RemoveSpells` | kernel/task/task_manager.cpp:253-276 | after the writes the links spell the queue without the task |
| `Tasks.TaskManager.Forward` | kernel/task/task_manager.cpp:222-277 | following `next` from the head gives the queue |
| `Tasks.TaskManager.Backward` | kernel/task/task_manager.cpp:222-277 | following `prev` from the tail gives its mirror image |
| `Tasks.TaskManager.BlockTask` | kernel/task/task_manager.cpp:279-286 | is the block step of the state machine |
| `Tasks.TaskManager.WakeTask` | kernel/task/task_manager.cpp:288-297 | is the wake step |
| `Tasks.TaskManager.ExitCurrent` | kernel/sys/syscall.cpp:57-77 | is the exit step |
| `Tasks.Scheduler.Schedule` | kernel/task/scheduler.cpp:16-94 | is the schedule step, whose effect the next rows say |
| `RoundRobin.StepKeepsInv` | kernel/task/scheduler.cpp:16-94 | every step keeps: one running task at most, current and unqueued; queued tasks ready and distinct |
| `RoundRobin.OneRunning` | kernel/task/scheduler.cpp:16-94 | the same over every run |
| `RoundRobin.ScheduleConserves` | kernel/task/scheduler.cpp:59-70 | scheduling loses and duplicates no task |
| `RoundRobin.TurnComes` | kernel/task/scheduler.cpp:16-94 | the task at position k is still queued after k switches and current with the next, if nothing up to it blocks or ends |
| `RoundRobin.YieldSwitchesIff` | kernel/task/scheduler.cpp:36-46 | a yield switches exactly when a task is queued and the current one is not at the head |
| `RoundRobin.TickSwitchesIff` | kernel/task/scheduler.cpp:16-57 | a timer tick switches exactly when the scheduler is enabled, a task is queued, the current one is not at the head and is not a running app |
| `RoundRobin.SwitchEffect` | kernel/task/scheduler.cpp:59-94 | a switch runs the head of the queue, puts a task that was running at the end as ready, leaves one that was not out, and changes no other task |
| `RoundRobin.TickPreempts` | kernel/task/scheduler.cpp:16-94 | from a running kernel task with another one queued, a tick does switch |
| `RoundRobin.AppKeepsRunning` | kernel/task/scheduler.cpp:53-57 | over every run without a yield, an exit or a block of its own, a running app stays current |
| `RoundRobin.DisabledKeeps` | kernel/task/scheduler.cpp:16-35 | a disabled scheduler changes nothing |
| `RoundRobin.WakeIff` | kernel/task/task_manager.cpp:288-297 | waking changes something exactly for a blocked task, which is then ready at the end of the queue |
| `RoundRobin.BlockedIsOut` | kernel/task/task_manager.cpp:279-286 | a blocked task is in no queue; every other keeps its place and state |
| `RoundRobin.ExitIff` | kernel/sys/syscall.cpp:57-77 | the exit call ends the current task exactly if it is an app, and leaves no task current |
| `RoundRobin.StallLasts` | kernel/task/scheduler.cpp:42-46 | with the current task at the head, scheduling and enqueueing never switch |
| `RoundRobin.BlockWakeStalls` | kernel/task/task_manager.cpp:279-297 | blocking and waking the running task, with nothing queued, leads there |
| `NvmeProtocol.ReadyIff` | kernel/driver/nvme/nvme_driver.cpp:455-463 | the poll succeeds exactly when the completion of the command under way was posted |
| `NvmeProtocol.PollReadsOwn` | kernel/driver/nvme/nvme_driver.cpp:465-479 | the status read behind the new head is that command's |
| `NvmeProtocol.StepKeepsInv` | kernel/driver/nvme/nvme_driver.cpp:403-480 | every interleaving of host and controller steps keeps the queue invariant |
| `NvmeProtocol.EveryRun` | kernel/driver/nvme/nvme_driver.cpp:403-480 | over every run and any number of wraps, code k read is code k posted, for command k sent |
| `NvmeDriver.QueuePair.SendCommand` | kernel/driver/nvme/nvme_driver.cpp:403-480 | when the poll loop ends, the status is the one posted for this command; while it does not, none was posted |
| `NvmeDriver.ListFits` | kernel/driver/nvme/nvme_driver.cpp:271-281 | one list page suffices exactly up to 512 pages after the first |
| `NvmeDriver.PagesDescribe` | kernel/driver/nvme/nvme_driver.cpp:239-284 | consecutive page starts describe exactly the byte range, in order |
| `NvmeDriver.SetupPRPs` | kernel/driver/nvme/nvme_driver.cpp:239-284 | the two fields and the list describe exactly [addr, addr + size); a list is used only when three or more pages are touched |
| `XhciRing.ConsumerSees` | kernel/driver/usb/xhci.cpp:526-561 | the consumer, which holds an address, owns the block there exactly when a request is outstanding, and takes the oldest |
| `XhciRing.LinkDecides` | kernel/driver/usb/xhci.cpp:543-555 | a link that named any other address than the ring's would lead the consumer there |
| `XhciRing.ControlWords` | kernel/driver/usb/xhci.cpp:534-555 | the control words of both kinds of blocks bit by bit |
| `XhciRing.EnqueueIff` | kernel/driver/usb/xhci.cpp:534-555 | the ring invariant survives an enqueue exactly when it is safe |
| `XhciRing.UnsafeStrands` | kernel/driver/usb/xhci.cpp:534-555 | an unsafe enqueue leaves the consumer stopped with requests unseen |
| `XhciRing.OverrunExample` | kernel/driver/usb/xhci.cpp:534-555 | 32 requests on a fresh ring strand the consumer before the first |
| `XhciRing.ThirtyIsSafe` | kernel/driver/usb/xhci.cpp:534-555 | keeping at most 30 requests outstanding is always safe |
| `XhciRing.StopsOnlyWhenDone` | kernel/driver/usb/xhci.cpp:526-561 | a consumer that stops has seen everything sent |
| `XhciRing.SeenInOrder` | kernel/driver/usb/xhci.cpp:301-350 | over every run and any number of laps, a consumer that follows the link to the address in its parameter sees what was sent in order and once each, and stands at a block of the ring |
| `XhciRing.TransferRing.SendNormalTRB` | kernel/driver/usb/xhci.cpp:526-561 | is the enqueue step of the ring: writes the block at the index, and with the last one the link, whose parameter is the ring's own address, and flips the cycle |
| `Crc32.CalculateCRC32` | kernel/fs/gpt.cpp:8-29 | the bits of the result are the inverted remainder of the message, its bytes sent lowest bit first, its first 32 bits inverted and 32 zeros behind it, modulo the generator of CRC-32 |
| `PolyDivision.DivisionIs` | kernel/fs/gpt.cpp:8-29 | long division yields a quotient and a remainder: the polynomial is quotient times generator plus remainder |
| `PolyDivision.DivisionUnique` | kernel/fs/gpt.cpp:8-29 | and these are the only ones of their degrees |
| `Crc32.PolyIsGenerator` | kernel/fs/gpt.cpp:20 | the constant is x^32 + x^26 + x^23 + x^22 + x^16 + x^12 + x^11 + x^10 + x^8 + x^7 + x^5 + x^4 + x^2 + x + 1 without its leading term |
| `Crc32.FeedIsRemainder` | kernel/fs/gpt.cpp:13-27 | from any register, the register after a message is the remainder of the message with the register added to its head |
| `Crc32.CrcIsRemainder` | kernel/fs/gpt.cpp:8-29 | the same for the preset and the final inversion |
| `Crc32.StepInjective` | kernel/fs/gpt.cpp:18-25 | the bit step is one-to-one |
| `Crc32.StepLinear` | kernel/fs/gpt.cpp:18-25 | the bit step is linear |
| `Crc32.FourBytes` | kernel/fs/gpt.cpp:13-27 | four bytes are 32 steps from the register with their word added |
| `Crc32.BurstDetected` | kernel/fs/gpt.cpp:8-29 | buffers of any equal length that differ only within four consecutive bytes have different checksums |

## Left out
- Assembly, model-specific registers, CR3 loads, the TLB, memory-mapped and port I/O, PCI, APIC, GDT and IDT: effects of the hardware; page-table frames are addressed directly.
- Console, graphics, fonts, keyboard layouts, shells, logging and build scripts.
- ELF parsing and the copying of segments; the mappings the loader asks for are `KernelAllocateVirtual`.
- Buffers the FAT and NVMe drivers allocate and free for themselves, and device read and write errors: the disk is a sequence of sectors that always answers.
- Clusters beyond 127: the driver never allocates them, and the volume consists of clusters 2 to 127.
- Later updates of the FSInfo counts, which the driver does not make, `ListDirectory`, `GetFileSize` and `CopyFileFrom`.
- xHCI command, control and event rings, NVMe set-up, and the byte content of completion entries beyond the status word.
- `task_count_`, context contents and the argument strings freed by `TerminateTask`.
- Paging.PageManager.Initialize: stated for at least 66 free frames, because the source uses 65 of its allocations unchecked.
- Paging.PageManager.SplitHugePage: the no-execute bit and bits 52 to 62 of a split entry are dropped by the code; translations carry address, presence, write and user rights only.
- PagingRuns.CreateAppMemory: stated while the kernel still has a 2 MB page where the stack goes, as after boot; if it has a page table there, `AllocateVirtualForProcess` says who sees the stack.
- IsolationRuns.BackKernel: kernel pages open to the user are required to be so under the roots that share them, the exact condition under which the system stays sound.
- IsolationRuns.CreateRoot: has four free frames; with fewer, `CreateAndFreeShort` applies.
- Fat32.Fat32Driver.AppendFile: a name that leads to a directory, and a file of size 0, which this driver never makes, are excluded by the precondition and the invariant.
- Fat32.Fat32Driver.WriteFile: new entries get names that make a live entry, so the first byte is neither 0 nor 0xE5.
- Fat32.Fat32Driver.EnsureDirectory: paths of ASCII characters; a component that begins with 0xE5 would make an entry that counts as deleted.
- Fat32.Fat32Driver.FindDirectoryEntry: directories of one cluster, the only ones this driver makes.
- FatRuns.Run: the caller of the run skips appends to directories and appends for which the free clusters are too few; every other operation is carried out whatever the state of the disk.
- NvmeDriver.SetupPRPs: stated for at most 512 pages after the first, the capacity of the list page; the list page itself is taken as given.
- NvmeDriver.QueuePair.SendCommand: the poll loop of the source waits for ever; here it ends with the controller steps it is given.

# Verified models of the kernel's core

The kernel's allocators, caches, address spaces, synchronisation primitives and lookup structures, each as a Dafny
module. Code that updates objects in place is a class or a loop proved against a specification. Code whose point is
how threads interleave (mutex, object cache, slab allocator, ring buffer) is a state machine: one step is one critical
section or one access made outside a lock, a schedule says which thread moves when, and the theorems are about every
schedule of every number of threads. A failed assertion or panic of the kernel is an explicit outcome of a step.

| file | models | main results |
|---|---|---|
| CopyOnWrite.dfy, Regions.dfy, PageRefs.dfy, AddressSpaces.dfy, AddressRuns.dfy | regions, page faults, fork, mapping over, exit, page cache, frame and page reference counts | every run refines "each process owns its own bytes", in what is stored and in what every load returns, until it ends, runs out of frames or panics (`Execute`); when the callback of a mapping panics (`CutExactly`, `DropExactly`), and a condition on the run under which nothing does; when a file mapping shows the page asked for (`PageShown`) |
| ForkSharing.dfy, FileMappings.dfy | runs of the above | when fork shares anonymous memory (`SharedExactly`); runs that map over a file and fail |
| LruCache.dfy | the reference-counted object cache | no interleaving panics; exact reference counts; one initialiser per id; every object released once; reclaim takes the longest idle object |
| Buddy.dfy, BuddyBitmaps.dfy, BuddyAllocator.dfy | the physical page allocator, with its bitmaps as carved out of one area | free lists are the maximal free aligned blocks, and free memory is what they hold, exactly while no aligned quarter of memory is wholly given back (`RightExactly`); allocation succeeds exactly when a run exists |
| TimerWheel.dfy | the hierarchical timer wheel | closed form of every firing time, for one-shot and periodic timers |
| MutexHandOff.dfy | mutex over block lists | mutual exclusion, hand-off never fails, no lost wake-up |
| Slab.dfy | slab allocator | never panics exactly when a slab holds two objects or more; one owner per object; nothing lost in any state |
| PageTables.dfy | four-level x86_64 tables | the tables are a partial map from pages to mappings, for all three page sizes; mapping fails exactly if an entry is in the way, with or without pages under it |
| CharBuffer.dfy | ring buffer | bytes come out in order across wrap-around; no copy leaves a buffer or touches an unread byte |
| FlatTree.dfy, FlatTreeReader.dfy, FlatTreeEnds.dfy, FlatTreeRoundTrip.dfy | flattened device tree writer and reader | a tree that is written reads back as the same tree (`RoundTrip`); on which blobs the walk ends (`EndsExactly`) |
| Ext2.dfy, Ext2Write.dfy | block map, block bitmaps, page writes | set then get, other blocks unchanged; success exactly when there is room; after any run of page writes no block is used twice |
| PagedFile.dfy | file reads and writes over an evicting page cache | refines a flat, zero-extended array of bytes |
| IntrusiveList.dfy, HashTable.dfy | circular lists and the chained hash table | a finite map; iteration visits each element once, even while deleting |
| PathWalk.dfy | path resolution | agrees with a recursive walk; references balance on every return path |
| Checksum.dfy | IPv6 upper-layer checksum | right exactly when the accumulator does not wrap; self-checking for every packet |
| Common.dfy, Arith.dfy | | shared types, quotient and remainder facts |

`dafny verify dfyconfig.toml` checks the whole project.

## Where the code does less than it says

- A periodic timer of T ticks does not fire every T ticks. It fires every T - T mod 64^L ticks, where L is the wheel
  level of T (`TimerWheel.RefireGap`, `TimerWheel.PeriodicFires`); this is T exactly when T is a multiple of 64^L
  (`TimerWheel.PeriodExact`), and a timer of 100 ticks fires every 64 (`TimerWheel.PeriodShortExample`).
- A slab cache whose slabs hold fewer than two objects fails an assertion on its first allocation: with one object the
  slab is taken off a list that it is not on, with none the pop returns NULL (`Slab.SafeExactly`, `Slab.TooSmall`).
- `kobj_lru_put` by a holder fails exactly when the object has been removed from the cache and fewer than three
  references to it are left (`LruCache.PutExactly`); such a state is reachable (`LruCache.PutFails`).
- The checksum differs from section 8.1 of RFC 8200 exactly when the 32-bit accumulator wraps in the payload loop
  (`Checksum.RightExactly`, `Checksum.WrongExample`). Sender and receiver still agree (`Checksum.SelfCheck`).
- Mapping over pages of a file can panic. Cutting a page off a region moves the region's start and not its file
  offset, so the callback names the region's first file page for every page that goes, and puts a reference of that
  page. Unmapping a page fails exactly if it is the last entry of its frame and the page that its region names has no
  reference left (`AddressSpaces.Memory.UnmapPage`). Mapping over a whole region panics exactly if more of its pages are
  the last entry of their frame than there are references to its first page (`PageRefs.CutExactly`). Two touched pages
  are enough (`FileMappings.MapOverPanics`); or the reference of another process goes, and then the page cache fails its
  assertion (`FileMappings.EvictFails`) or the other process panics when it exits (`FileMappings.ExitPanics`,
  `PageRefs.DropExactly`). A run in which file mappings of more than one page are never mapped over has none of this
  (`AddressRuns.Execute`, with `Tidy`).
- For the same reason a touch of a file mapping brings in the file page that was asked for exactly if no page from the
  beginning of the mapping up to there has been mapped over since (`AddressRuns.PageShown`); with the first page mapped
  over, the second shows the first page of the file (`AddressRuns.WrongPage`).
- `munmap` removes nothing: the call of `map_region_remove` is commented out (kernel/sys/map.c:117-125).
- After fork, parent and child share an anonymous shared page exactly if the parent had touched it before
  (`ForkSharing.SharedExactly`): otherwise each gets a frame of its own, and a store by one is not seen by the other
  (`ForkSharing.NotSharedExample`).
- Tables that have lost their last page stay. A 2 MiB page cannot be mapped where a 4 KiB page was mapped and unmapped
  (`PageTables.EmptiedTable`); mapping fails exactly if there is an entry at the page's place (`PageTables.Tables.Map`).
- The bitmaps of the three highest orders of the buddy allocator have no bytes of their own. When the last page of an
  aligned quarter of memory is freed, the whole quarter leaves the free lists while `free_memory` goes on counting
  it; the lists and the count are right exactly while there is no such quarter
  (`BuddyAllocator.Allocator.RightExactly`, `BuddyAllocator.CanonicalExactly`). A boot that frees one quarter has all of
  its memory counted and none on a list (`BuddyAllocator.BootLosesRun`).
- The ext2 allocator cannot tell block 0 from a failure: it fails, leaving the bit set, exactly if block 0 is free
  (`Ext2.ZeroExactly`, `Ext2.ZeroExample`).
- Block numbers computed by the ext2 allocator leave out the first data block. The block handed out is the one whose bit
  was taken, for every bitmap, exactly if the first data block is 0 (`Ext2.RightBlockExactly`); otherwise a block in use
  can be handed out (`Ext2.HandsOutUsed`).
- An ext2 page write maps one block and writes as many as fit a page, so with blocks smaller than a page it overwrites
  other pages; whatever the number of pointers in a block, it leaves them alone exactly if a block is a page long
  (`Ext2Write.WritesApartExactly`).
- A hole in an ext2 file reads as block 0 of the disk, since the page is cleared before the read and not instead of it
  (drivers/ext2/ext2.c:201-216; `Ext2Write.Content`).
- The length of a device tree property can wrap the 32-bit offset of the next tag around. From an aligned offset
  the next tag is after the property exactly if the length is not between 2^32 - 12 - offset and 2^32 - 12
  (`FlatTree.NextTag`); with length 0xFFFFFFF4 at offset 0, `fdt_next_node` never returns
  (`FlatTreeReader.NeverEnds`). It returns exactly if its walk does not come back to an offset at the same depth, and
  then within as many turns as there are offsets and depths (`FlatTreeEnds.EndsExactly`).
- The bucket search of `hash_iter_next` reads one bucket past the table exactly when it leaves the last bucket; whatever
  it finds there, the iteration ends (`HashTable.Hash.FirstFull`, `HashTable.Hash.NextEntry`).

## Model

| member | source | states |
|---|---|---|
| AddressRuns.Execute | kernel/mapping.c:88-190 | Every run of mmap, map_region_remove, loads, stores, fork, exit and evictions on memory without mappings either ends, or stops because no frame is free, or panics; unless it panics, the state reached refines the specification in which each process has a private byte map of its own, zero at first, copied by fork and changed only by its own stores, and every region begins where its mapping did exactly if the mapping is intact; every load of the run, also before a panic, returned the byte of the specification; if references are right at the start and the run takes pages only from file mappings of one page, it does not panic |
| AddressRuns.Perform | kernel/mapping.c:298-394 | One operation has the effect of the specification on every page of every process, a load returns the byte that the page owns, and regions change as asked; mmap, map_region_remove, exit and eviction panic exactly when a callback or the assertion of the page cache does, fork into a new process, loads and stores never; when it runs out of memory no page loses its region or its bytes; while references are right and no file region of several pages is cut it does not panic, and they stay right |
| AddressRuns.EffectRefines | kernel/mapping.c:88-190 | If the state shows what the specification says and every page sees the effect of an operation, the new state shows what the specification says of the longer run |
| AddressRuns.ReadRefines | kernel/mapping.c:320-356 | A load in such a state returns what the specification says of the run |
| AddressRuns.TracksStep | kernel/mapping.c:50-141 | After every operation, every page is in a region with the protection, file and file offset it was mapped with, that begins where the mapping began if and only if no page from there up to it has been mapped over |
| AddressRuns.PageShown | kernel/fs/filesystem.c:60-69 | After every run, the file page that a touch of a file mapping brings in is the one at the mapping's offset if and only if no page from the beginning of the mapping up to there has been mapped over since |
| AddressRuns.WrongPage | kernel/mapping.c:98-104 | With two pages of a file mapped and memory mapped over the first, the second page of the mapping is the first page of the file |
| AddressRuns.TidyClean | kernel/mapping.c:88-141 | If the operations of a run map over file mappings of one page only, no operation takes a page from a file region of several pages |
| AddressRuns.ExactStep | kernel/mapping.c:88-190 | In such a run every file region is exactly as it was mapped |
| ForkSharing.SharedExactly | kernel/mapping.c:163-190 | For a writable anonymous shared page: after fork and any run that leaves the page mapped and neither panics nor runs out of frames, a store by the parent is read by the child if and only if the parent had the page mapped at the fork |
| ForkSharing.ForkThenRun | kernel/mapping.c:163-190 | After fork and any run that leaves the page mapped, whoever touches it, parent and child have one frame for it or never do, as the parent had it mapped or not |
| ForkSharing.LinkedStep | kernel/mapping.c:298-394 | No operation of any process changes whether two processes have such a page on one frame |
| ForkSharing.SeenIff | kernel/mapping.c:336-388 | A store by one process is seen by the other exactly when they have one frame |
| ForkSharing.NotSharedExample | kernel/mapping.c:163-190 | Mapping shared memory, fork, a store by the parent, a load by the child: the load gives zero |
| AddressSpaces.Memory.constructor | kernel/frame.c:29-38 | All frames are free, no process maps anything, and references are right |
| AddressSpaces.Memory.UnmapPage | kernel/mapping.c:31-38 | A mapped page loses its entry and its reference to the frame, so the count assertion of the release cannot fail; with the last entry of a cached frame the file page that the region names loses a reference, and the callback panics if and only if it has none; every other page keeps its bytes and its frame |
| AddressSpaces.Memory.Remove | kernel/mapping.c:88-120 | Panics exactly if a callback does on the way; otherwise exactly the pages from start up to start + len lose region, entry and bytes, all other pages of all processes keep theirs, and a region begins where it did exactly if no page from there on has gone; while references are right and only file regions of one page are cut it does not panic, and they stay right |
| AddressSpaces.Memory.RemovePage | kernel/mapping.c:92-117 | Splitting, cutting and dropping a region removes exactly one page, or the callback for it panics |
| AddressSpaces.Memory.CutFirst | kernel/mapping.c:98-115 | Moving the start of a region removes exactly its first page, and the region itself if it was the last, or the callback for it panics |
| AddressSpaces.Memory.Setup | kernel/mapping.c:122-141 | Panics exactly if removing what was mapped there does; otherwise the new region replaces whatever was mapped in its range, its pages are untouched, and nothing else changes; while references are right and only file regions of one page are cut it does not panic, and they stay right |
| AddressSpaces.Memory.Fork | kernel/mapping.c:163-190 | Every page of the parent has the same attributes, bytes, frame and region in the child; the parent and all other processes keep theirs; it does not panic if the child has no regions, nor while references are right and only file regions of one page are in the way, and they stay right |
| AddressSpaces.Memory.CopyPages | kernel/mapping.c:174-186 | The pages of one region are shared with the child one by one, private ones read-only on both sides, and no process loses bytes |
| AddressSpaces.Memory.MapZero | kernel/sys/map.c:14-19 | First touch of anonymous memory gives a zero page on a frame that no other page has, and changes no bytes of others; it fails only when no frame is free |
| AddressSpaces.Memory.MapCached | kernel/fs/filesystem.c:60-69 | First touch of a file page maps the cached frame of the page that the region names, with one more reference to it, and changes nobody's bytes; it fails only when no frame is free |
| AddressSpaces.Memory.GetPage | kernel/fs/inode.c:174-181 | The page is in the cache afterwards, or no frame is free; no mapped page changes |
| AddressSpaces.Memory.CopyPage | kernel/mapping.c:368-379 | A private write fault moves the page to a frame of its own with the same bytes and leaves every other page its frame and bytes |
| AddressSpaces.Memory.DirtyPage | kernel/mapping.c:380-387 | A shared write fault makes the entry writable, on the same frame, and changes no bytes |
| AddressSpaces.Memory.LoadPage | kernel/fs/inode.c:19-45 | A page of a file enters the cache on a free frame, and every mapped page stays as it is |
| AddressSpaces.Memory.Fault | kernel/mapping.c:298-394 | A fault is denied only when there is no region or the access is not allowed, and then always, unless memory runs out first; otherwise it fails only without free frames; it changes nobody's bytes, keeps every other page on its frame, and leaves a page that the access can use; it fails an assertion exactly when a write that is allowed is reported as a protection fault, and not as a missing page, on a page that is not mapped |
| AddressSpaces.Memory.RemoveRegion | kernel/mapping.c:40-48 | A region goes with all of its pages, and nothing else does, or a callback panics, exactly when DropRegion says; never while references are right |
| AddressSpaces.Memory.RemoveAll | kernel/mapping.c:143-161 | Exactly the regions in the thread-local-storage range stay, when they are to stay, and other processes keep everything, or a callback panics, exactly when DropAll says; never while references are right |
| AddressSpaces.Memory.Store | kernel/mapping.c:336-388 | A store that is allowed changes that byte of that page, as seen by every page on the same frame, and no byte that any other page has to itself |
| AddressSpaces.Memory.Load | kernel/mapping.c:320-356 | A load is denied exactly without a region, and returns the byte that the page owns and that its frame holds |
| AddressSpaces.Memory.Evict | kernel/fs/inode.c:47-58 | Dropping a cached page without references fails its assertion exactly if its frame is mapped; otherwise it frees the frame and changes no page; while references are right it does not fail, and they stay right |
| AddressSpaces.ZeroFault | kernel/sys/map.c:14-19 | A zero page on a fresh frame keeps all accounts and all bytes |
| AddressSpaces.CacheFault | kernel/fs/filesystem.c:60-69 | Mapping a cached page of a file counts one more reference and keeps all bytes |
| AddressSpaces.CopyFault | kernel/mapping.c:368-379 | A private write fault moves the page to a frame of its own with the same bytes |
| AddressSpaces.DirtyFault | kernel/mapping.c:380-387 | A shared write fault makes the entry writable and the frame dirty, and changes no bytes |
| PageRefs.SoundUnmaps | kernel/fs/filesystem.c:71-88 | While every page on a cached frame is named right by its region and every mapped file page has a reference, no unmapping fails, and both stay so |
| PageRefs.SoundCached | kernel/fs/filesystem.c:60-69 | Mapping the file page that the region names, with one more reference, keeps both |
| PageRefs.SoundDuplicated | kernel/mapping.c:174-186 | So does giving the page to a child, which takes no reference |
| PageRefs.SoundCut | kernel/mapping.c:92-117 | So does cutting a page of memory, or the only page of a file region |
| PageRefs.SoundEvict | kernel/fs/inode.c:47-58 | While both hold, a page without references is not mapped |
| PageRefs.CutPageCuts | kernel/mapping.c:92-117 | Cutting one page takes it out of its region and leaves every other page in a region that begins where it did exactly if the page cut is not before it in that region |
| PageRefs.CutExactly | kernel/mapping.c:88-120 | Mapping over a whole file region panics if and only if more of its pages are the last entry of their frame than there are references to the region's first page |
| PageRefs.DropExactly | kernel/mapping.c:40-48 | A file region that goes as a whole panics if and only if one of its pages is the last entry of its frame and the file page it shows has no reference |
| FileMappings.MapOverPanics | kernel/kobj_lru.c:317-325 | A process maps two pages of a file, touches both and maps over them: the second put panics |
| FileMappings.EvictFails | kernel/fs/inode.c:47-58 | Two processes map two pages of a file and touch one each; one maps over its mapping, which takes the other's reference; dropping the other's page from the cache then fails the assertion that it is not mapped |
| FileMappings.ExitPanics | kernel/mapping.c:143-161 | In the same run the exit of the other process panics |
| CopyOnWrite.FreedExactly | kernel/frame.c:40-48 | The frame of a page goes back to the free frames exactly when no other page maps it and it is not a page of the cache |
| CopyOnWrite.UnmapKeeps | kernel/mapping.c:31-38 | Unmapping keeps the accounts, frees the frame exactly with its last entry, and leaves every other page its bytes |
| CopyOnWrite.InstallKeeps | kernel/mapping.c:343-355 | A new entry, on a free frame or on one that nobody has privately writable, keeps all accounts and all other bytes |
| CopyOnWrite.StoreKeeps | kernel/mapping.c:347-387 | Writing through a writable entry changes the owner's byte and no page of private memory anywhere else |
| CopyOnWrite.StoreElsewhere | kernel/mapping.c:174-186 | A frame with a writable entry is never private memory of a second page |
| CopyOnWrite.ChattrKeeps | kernel/mapping.c:380-387 | Changing the permission of an entry, where allowed, keeps accounts and bytes |
| CopyOnWrite.CopyKeeps | kernel/mapping.c:174-186 | The child's page has the parent's bytes, everyone else keeps theirs, and no private frame stays writable in either |
| CopyOnWrite.CopiedKeeps | kernel/mapping.c:368-379 | Copying a page on write gives the writer the same bytes on a frame with count one and leaves all others alone |
| CopyOnWrite.LoadKeeps | kernel/fs/inode.c:19-45 | Filling a frame for the page cache keeps accounts and bytes |
| CopyOnWrite.EvictKeeps | kernel/fs/inode.c:47-58 | Freeing the frame of an unmapped cached page keeps accounts and bytes |
| Regions.SplitKeeps | kernel/mapping.c:50-71 | Splitting changes nothing that the list says about any page, and the page is then the first of its region |
| Regions.ShrinkRemoves | kernel/mapping.c:98-115 | Exactly one page leaves the list, which stays free of overlaps |
| Regions.InsertKeeps | kernel/mapping.c:122-141 | A region put where there was none is found for exactly its own pages, and all other pages are found as before |
| Regions.CutTwice | kernel/mapping.c:88-120 | Taking out pages in two goes is taking out all of them in one, for where the region of any other page begins |
| Regions.FindOnly | kernel/mapping.c:73-86 | In a list without overlaps the search returns the one region that covers the address, wherever it stands in the list |
| LruCache.NeverPanics | kernel/kobj_lru.c:95-339 | For every cache size, number of threads and interleaving, no assertion fails, no list removal misses and no freed object is used |
| LruCache.StepSafe | kernel/kobj_lru.c:95-339 | Every critical section and every access outside the lock keeps the accounts of every object and thread |
| LruCache.RunSafe | kernel/kobj_lru.c:95-339 | The accounts hold along every run |
| LruCache.CachedAccounts | kernel/kobj_lru.c:153-237 | A ready cached object has two references plus one for each that threads hold; it is on the lru list, once, exactly when nobody holds it, and active otherwise |
| LruCache.UncachedAccounts | kernel/slab.c:196-215 | An object outside the cache lives exactly as long as somebody holds a reference, with that many references, and is on no list |
| LruCache.OneInitialiser | kernel/kobj_lru.c:153-237 | Two threads never initialise an object for the same id |
| LruCache.SleeperIsServed | kernel/kobj_lru.c:95-125 | While a thread sleeps on an object, another is initialising it or is about to wake the sleepers |
| LruCache.ReleasedOnce | kernel/kobj_lru.c:127-150 | An object is freed having been released once if it was reclaimed, and never if it was removed or failed to initialise |
| LruCache.ReclaimsLongestIdle | kernel/kobj_lru.c:127-150 | In every run, reclaim takes the object that became idle before all others on the list |
| LruCache.RunOrder | kernel/kobj_lru.c:127-339 | The lru list stays ordered by the time since when its objects have been idle |
| LruCache.PutExactly | kernel/kobj_lru.c:317-339 | Putting a held object fails exactly when it is out of the cache with fewer than three references left |
| LruCache.PutFails | kernel/kobj_lru.c:305-339 | A run after which putting a removed object fails |
| LruCache.HitKeeps | kernel/kobj_lru.c:158-213 | A hit on a ready object takes it off the lru list if it was idle, hands out a reference, and never fails |
| LruCache.SleepKeeps | kernel/kobj_lru.c:169-181 | A hit on an object being initialised adds a sleeper with a reference of its own |
| LruCache.AdmitKeeps | kernel/kobj_lru.c:183-213 | A woken sleeper gets the object, or drops it to retry or to fail, without breaking the accounts |
| LruCache.MissKeeps | kernel/kobj_lru.c:214-235 | A miss puts a new object into the hash, referenced by the cache and its initialiser |
| LruCache.InitOkKeeps | kernel/kobj_lru.c:95-107 | Marking ready keeps the accounts |
| LruCache.InitErrKeeps | kernel/kobj_lru.c:109-125 | Marking failed takes the object out of the cache, and its three references pass to the initialiser |
| LruCache.WakerKeeps | kernel/kobj_lru.c:95-125 | Waking the sleepers moves every one of them and loses no reference |
| LruCache.ReclaimKeeps | kernel/kobj_lru.c:130-141 | The object chosen has exactly the cache's two references and nobody on it |
| LruCache.ReleaseKeeps | kernel/kobj_lru.c:142-143 | The release callback runs on an object that is still in the hash and that nobody can obtain |
| LruCache.UnhashKeeps | kernel/kobj_lru.c:144-149 | The released object leaves the hash with only the reclaimer's reference |
| LruCache.RemoveKeeps | kernel/kobj_lru.c:305-315 | Removing a held object takes both references of the cache and leaves every holder its own |
| LruCache.PutKeeps | kernel/kobj_lru.c:317-339 | Putting a cached object back makes it idle exactly with its last holder |
| LruCache.PutRefKeeps | kernel/slab.c:196-215 | Dropping a reference to an object outside the cache frees it exactly with the last one |
| Buddy.Canonical | kernel/pm_buddy.c:48-104 | A block is on its free list exactly when all of its pages are free and those of its parent are not: the lists hold the maximal free blocks |
| Buddy.SamePagesSameLists | kernel/pm_buddy.c:80-104 | The free pages alone decide every free list, so the order of frees does not matter |
| Buddy.ListsDetermined | kernel/pm_buddy.c:80-104 | The same free blocks mean the same lists up to order |
| Buddy.LeavesDisjoint | kernel/pm_buddy.c:48-104 | Free and allocated blocks are pairwise disjoint |
| Buddy.FreeRun | kernel/pm_buddy.c:48-78 | A block of order o or more is free exactly when some aligned run of 2^o pages is |
| Buddy.SearchBit | kernel/pm_buddy.c:80-104 | Climbing from order 0, the first set bit on the way is that of the allocated block |
| Buddy.BuddyBit | kernel/pm_buddy.c:80-104 | The buddy's bit is clear exactly when the buddy is free, and never at the top order |
| Buddy.MinPossibleOrder | kernel/pm_buddy.c:31-40 | The exponent of the largest power of two that divides the number, and 0 for 0 |
| BuddyBitmaps.BitsApart | kernel/pm_buddy.c:129-143 | The bits of two blocks of orders that have a bitmap are different bits of the area |
| BuddyBitmaps.BitInArea | kernel/pm_buddy.c:129-143 | The bit of every block is in the area, and in its last byte exactly for the top three orders |
| BuddyAllocator.Carve | kernel/pm_buddy.c:129-143 | The loop gives each order a bitmap half as long as the one before, all ones, and the last three orders the same byte, which stays zero |
| BuddyAllocator.LostExactly | kernel/pm_buddy.c:80-104 | An aligned quarter of memory is lost exactly when all of its pages have been given back |
| BuddyAllocator.FreeIsGiven | kernel/pm_buddy.c:48-104 | The pages of a block are on the free lists exactly if they have been given back and the quarter around them has not been as a whole |
| BuddyAllocator.GivenIs | kernel/pm_buddy.c:80-104 | A page is given back exactly when it is in no block that a caller has |
| BuddyAllocator.CanonicalExactly | kernel/pm_buddy.c:48-104 | The free lists hold the maximal aligned blocks of given-back pages exactly while no aligned quarter is wholly given back |
| BuddyAllocator.LostSizeExactly | kernel/pm_buddy.c:80-127 | Memory is counted as free without being on a list exactly when there is such a quarter |
| BuddyAllocator.SameGivenSameLists | kernel/pm_buddy.c:80-104 | The pages given back decide every free list, so the order of frees does not matter |
| BuddyAllocator.RoomExactly | kernel/pm_buddy.c:48-78 | A block of order o or more is on a list exactly when an aligned run of 2^o pages is given back and not lost |
| BuddyAllocator.Allocator.RightExactly | kernel/pm_buddy.c:80-143 | In every state of the allocator: the lists are canonical, and `free_memory` is what they hold, each exactly while no aligned quarter is wholly given back |
| BuddyAllocator.BootLosesRun | kernel/pm_buddy.c:115-143 | For every top order and each quarter: a boot that frees its pages ends with all of them counted as free, every list empty, and the next allocation failing |
| BuddyAllocator.Allocator.constructor | kernel/pm_buddy.c:129-143 | Every page counts as allocated, as a block of order 0, and no memory is free |
| BuddyAllocator.Allocator.Alloc | kernel/pm_buddy.c:48-78 | Fails, changing nothing, exactly when no block of that order or more is free; otherwise exactly one free block of that order becomes allocated, and no other page or allocation changes |
| BuddyAllocator.Allocator.Dealloc | kernel/pm_buddy.c:80-104 | Takes back exactly the block that a caller has at the address, returning the order it was allocated with; when no bit is set on the way up it returns -1 and changes nothing |
| BuddyAllocator.Allocator.PmmAllocate | kernel/pm_buddy.c:106-113 | Succeeds exactly when the length is a power of two and an aligned run of that length is given back and not lost; exactly that block goes to the caller, and free memory falls by the length |
| BuddyAllocator.Allocator.PmmDeallocate | kernel/pm_buddy.c:115-127 | Takes back exactly the outstanding block, free memory grows by its size, and an address past the end is ignored |
| BuddyAllocator.Allocator.AllocateThenFree | kernel/pm_buddy.c:106-127 | Allocating and freeing restores every free list and the amount of free memory |
| TimerWheel.OneShotFiresOnce | kernel/timer.c:20-34 | A one-shot timer of T ticks added at counter c fires at T + c - c mod 64^L and at no other tick, ever |
| TimerWheel.FireTimeWindow | kernel/timer.c:20-34 | It is never late, early by less than 64^L, and exact below 64 ticks |
| TimerWheel.PeriodicFires | kernel/timer.c:55-88 | A periodic timer fires at exactly the ticks of a closed-form sequence |
| TimerWheel.NthFireClosed | kernel/timer.c:55-88 | That sequence is arithmetic, starting at the one-shot time |
| TimerWheel.RefireGap | kernel/timer.c:55-88 | Re-arming at its own firing time makes the next firing T - T mod 64^L later |
| TimerWheel.PeriodExact | kernel/timer.c:55-88 | The real period is the requested one exactly when it is a multiple of 64^L, and otherwise shorter |
| TimerWheel.PeriodShortExample | kernel/timer.c:55-88 | A period of 100 ticks is really 64 |
| TimerWheel.StepKeepsDeadline | kernel/timer.c:55-88 | Moving down the levels never changes when a timer will fire, and it fires exactly when the counter gets there |
| TimerWheel.NotVisitedTwice | kernel/timer.c:55-88 | A timer moved in a tick is not on a list that the same tick visits later |
| TimerWheel.Wheel.constructor | kernel/timer.c:104-112 | An empty wheel |
| TimerWheel.Wheel.Link | kernel/timer.c:20-34 | The timer goes to the head of the list for its number of ticks, and every other list stays |
| TimerWheel.Wheel.Add | kernel/timer.c:36-44 | The timer is armed for the closed-form time, and no other timer changes |
| TimerWheel.Wheel.Remove | kernel/timer.c:46-53 | The timer leaves its list and no other timer changes |
| TimerWheel.Wheel.Visit | kernel/timer.c:67-83 | One entry is fired, re-armed or moved down as its remaining ticks say |
| TimerWheel.Wheel.CheckLevel | kernel/timer.c:62-85 | Exactly the timers of the level take one step, each once, though the loop changes the list that it walks |
| TimerWheel.Wheel.CheckTimers | kernel/timer.c:55-88 | Exactly the timers of the levels that are due take one step, and those that fire are listed once |
| TimerWheel.Wheel.Tick | kernel/timer.c:90-102 | Exactly the timers whose deadline is the new counter fire, once each, and all others keep their deadline |
| MutexHandOff.MutualExclusion | kernel/mutex.c:28-65 | For any number of threads and any interleaving no assertion fails and at most one thread is inside |
| MutexHandOff.SleepersAreServed | kernel/mutex.c:28-65 | While a thread sleeps, a thread that can move has the right to enter or is about to pass it on |
| MutexHandOff.HandOffFinds | kernel/mutex.c:54-65 | A release that saw waiters always finds a registered block point that is not flagged, even one whose thread has not counted itself yet |
| MutexHandOff.OldestFinds | kernel/blocklist.c:41-65 | The scan returns the longest-waiting entry that is not flagged, and fails only if all are |
| MutexHandOff.StepSafe | kernel/mutex.c:9-65 | Every step of every thread keeps the invariant, and none fails an assertion |
| MutexHandOff.RunSafe | kernel/mutex.c:9-65 | So does every run |
| Slab.SafeExactly | kernel/slab.c:107-163 | No run of any number of requests panics exactly when a slab holds at least two objects |
| Slab.TooSmall | kernel/slab.c:107-143 | With fewer, the first allocation panics: at the list removal with one object, at the pop with none |
| Slab.OneOwner | kernel/slab.c:107-163 | No object is handed to two requests, or is on its slab's stack while handed out |
| Slab.NothingLost | kernel/slab.c:107-163 | In every reachable state: the stack holds max - count objects, plus one for each request that has reserved and not popped or pushed and not unreserved; every object is on the stack or has one owner; the slab is once on the list that its count says, and on no other |
| Slab.QuietSlab | kernel/slab.c:107-163 | When no request is between its two steps, a slab's count is the number of its objects handed out and the others are on its stack |
| Slab.SlabBound | kernel/slab.c:80-105 | The number of slabs never exceeds what the number of requests needs |
| Slab.StepSafe | kernel/slab.c:107-163 | Every step keeps the accounts and none panics |
| Slab.RunSafe | kernel/slab.c:107-163 | So does every run |
| Slab.PopKeeps | kernel/slab.c:107-143 | A reserved place is always backed by an object, so the pop never returns NULL |
| Slab.PushKeeps | kernel/slab.c:145-163 | Returning an object before giving up its place keeps the accounts |
| Slab.ReserveKeeps | kernel/slab.c:107-143 | The slab chosen is on the list that it is taken from |
| Slab.UnreserveKeeps | kernel/slab.c:145-163 | The slab moves between the lists that its count says |
| Slab.GrowKeeps | kernel/slab.c:80-105 | A new slab is made only when all others are full |
| PageTables.Tables.Map | arch/x86_64/kernel/mmu.c:77-120 | For each page size: reports that something exists if and only if there is an entry at the page's place, a page or a table, with pages in it or not, and then changes nothing; when it succeeds nothing was mapped at the address, only the addresses of that page change, to the frame and flags given, and the tables on the way are there; without memory it may leave empty tables but no mapping |
| PageTables.EmptiedTable | arch/x86_64/kernel/mmu.c:77-158 | A 4 KiB page is mapped and unmapped, so that nothing is mapped anywhere; mapping a 2 MiB page there fails because something exists |
| PageTables.Tables.PutPage | arch/x86_64/kernel/mmu.c:112-119 | The entry is written exactly if it was zero |
| PageTables.Tables.MakeTables | arch/x86_64/kernel/mmu.c:87-111 | Missing tables are made on the way down, and no page appears, moves or disappears |
| PageTables.Tables.EnsureTable | arch/x86_64/kernel/mmu.c:98-101 | A missing table is a cleared page of its own; failing needs memory to be used up |
| PageTables.Tables.Unmap | arch/x86_64/kernel/mmu.c:122-158 | Returns the frame that was mapped and unmaps exactly its page, or returns zero and changes no mapping; every table stays, and no memory is given back |
| PageTables.Tables.GetMap | arch/x86_64/kernel/mmu.c:160-206 | Returns exactly the frame, flags and size that the partial map has for the address |
| PageTables.Tables.Chattr | arch/x86_64/kernel/mmu.c:208-245 | Succeeds exactly on a mapped address, and changes the flags of its page and nothing else |
| PageTables.Tables.Walk | arch/x86_64/kernel/mmu.c:129-154 | Ends at the first entry that is zero or a page |
| PageTables.FlagsRoundTrip | arch/x86_64/kernel/mmu.c:36-74 | Every flag but MAP_DIRTY survives being stored in an entry |
| PageTables.EntryBits | arch/x86_64/kernel/mmu.c:36-120 | Frame, size and flags can be read back from an entry whatever they are |
| PageTables.PathsDiffer | arch/x86_64/kernel/mmu.c:77-120 | Different pages of the 48-bit address space take different ways through the tables |
| PageTables.TableAdd | arch/x86_64/kernel/mmu.c:98-101 | A new table keeps the tables a tree without sharing |
| PageTables.LeafSet | arch/x86_64/kernel/mmu.c:112-114 | Writing a page entry changes that entry and no other in any table |
| PageTables.LeafDrop | arch/x86_64/kernel/mmu.c:122-158 | So does clearing one |
| PageTables.ChangedRemapped | arch/x86_64/kernel/mmu.c:77-158 | Changing one page in the tree changes the partial map under exactly that page |
| CharBuffer.Fifo | kernel/charbuffer.c:27-164 | At every moment of every run the pending count is right and within the capacity, the unread bytes stand in their slots across wrap-around, and the bytes taken are the front of the stream |
| CharBuffer.CallsAccount | kernel/charbuffer.c:27-164 | What a write call has put into the stream is, in order, a prefix of its buffer; what a read call returns is, in order, exactly what it has taken |
| CharBuffer.CopiesApart | kernel/charbuffer.c:27-81 | No slot that a writer copies into holds an unread byte |
| CharBuffer.CopiesUnread | kernel/charbuffer.c:95-164 | The slots that a reader copies out are those of the first unread bytes |
| CharBuffer.NeverFaults | kernel/charbuffer.c:27-164 | No copy goes out of the ring or out of the caller's buffer, and no amount is below zero |
| CharBuffer.StepSafe | kernel/charbuffer.c:27-193 | Every step of every call, and every termination, reset or end of file, keeps ring and stream in agreement |
| CharBuffer.RunSafe | kernel/charbuffer.c:27-193 | So does every run |
| CharBuffer.CommitKeeps | kernel/charbuffer.c:47-66 | Committing a chunk appends exactly the copied bytes |
| CharBuffer.TakeKeeps | kernel/charbuffer.c:114-138 | Taking a chunk takes exactly the copied bytes off the front |
| CharBuffer.ResetSafe | kernel/charbuffer.c:179-193 | A reset needs both locks, so no call is in the middle of a copy |
| FlatTreeRoundTrip.RoundTrip | lib/fdt/fdt_sw.c:88-288 | For every tree, buffer and property name: with enough room writing and finishing succeeds, and the walk over the nodes then returns the names, depths and property values of the tree, in preorder |
| FlatTreeRoundTrip.WriteNode | lib/fdt/fdt_sw.c:170-243 | The calls for a tree leave its tokens in the structure block; they succeed whenever the room is there |
| FlatTreeRoundTrip.WriteProps | lib/fdt/fdt_sw.c:223-243 | The same for the properties of a node |
| FlatTree.Writer.constructor | lib/fdt/fdt_sw.c:88-108 | An empty structure block and an empty string table |
| FlatTree.Writer.GrabSpace | lib/fdt/fdt_sw.c:73-86 | Space exactly if structure and string areas would not overlap |
| FlatTree.Writer.Begin | lib/fdt/fdt_sw.c:170-184 | Appends a node token exactly if there is room, without touching any token or name written before |
| FlatTree.Writer.PutTag | lib/fdt/fdt_sw.c:186-198 | The same for the end of a node |
| FlatTree.Writer.FindAddString | lib/fdt/fdt_sw.c:200-221 | Fails exactly if the name is not in the table and does not fit; otherwise the returned offset is that of the name, and the table grows only by a new name |
| FlatTree.Writer.Property | lib/fdt/fdt_sw.c:223-243 | Appends a property whose name offset leads to its name, exactly if there is room for both |
| FlatTree.Writer.Finish | lib/fdt/fdt_sw.c:245-288 | Fails exactly without room for the terminator; afterwards the string table follows the structure and the offset of every property counts from its start to the property's name |
| FlatTree.NextTag | lib/fdt/fdt.c:77-140 | On any bytes, a tag of the format or a failure; the next tag is after this one unless this is a property whose length wraps the offset to it or to a place before it, which happens for exactly the lengths from 2^32 - 12 - offset to 2^32 - 12 - offset mod 4; a property ends in the block exactly if its length does not wrap the offset; on a token that was laid out, that token and the start of the next |
| FlatTree.FindString | lib/fdt/fdt.c:228-238 | A place where the string stands with its zero byte, or no such place exists |
| FlatTree.Scan | lib/fdt/fdt.c:108-115 | The first zero byte, or the limit |
| FlatTree.WordRoundTrip | lib/fdt/fdt_sw.c:170-184 | Big-endian words read back as written |
| FlatTree.OpenMore | lib/fdt/fdt_sw.c:73-86 | Writing into the free room keeps all earlier tokens and names |
| FlatTree.StringAdded | lib/fdt/fdt_sw.c:200-221 | Growing the table downwards keeps every earlier offset right |
| FlatTree.TableMoved | lib/fdt/fdt_sw.c:261-265 | Moving the table down to the structure keeps structure and table |
| FlatTree.FixProp | lib/fdt/fdt_sw.c:268-281 | Correcting one offset changes that property's offset and nothing else |
| FlatTreeReader.ReadBelow | machine/virt/kernel/init.c:16-47 | Walking on from the first node, on any well-formed token sequence, sees exactly the nodes, depths and values that the tokens say |
| FlatTreeReader.NextNode | lib/fdt/fdt.c:160-198 | Does turn by turn what Turns says, on any blob; returns on every blob without a property that leads back, and never on one that starts with a property that leads to itself; on a blob that holds a tree, from a node, the next node in order with its depth, the way out of the starting node, or the end; from anything else, a failure |
| FlatTreeReader.NeverEnds | lib/fdt/fdt.c:160-198 | A blob with one property of length 0xFFFFFFF4, on which it is still at work after any number of turns |
| FlatTreeEnds.EndsExactly | lib/fdt/fdt.c:160-198 | On any blob, from any offset and depth, the loop ends if and only if it does not come back to an offset at the depth it had there, and if and only if it has ended after (size + 4) (depth + 1) turns, or size + 4 from a negative depth |
| FlatTreeEnds.Circles | lib/fdt/fdt.c:160-198 | A walk that came back is still at work after any number of turns |
| FlatTreeEnds.RunsOut | lib/fdt/fdt.c:160-198 | A walk that is still at work after that many turns has come back |
| FlatTreeReader.CheckNode | lib/fdt/fdt.c:142-149 | Succeeds exactly on a node, and then gives the offset after its name |
| FlatTreeReader.GetName | lib/fdt/fdt_ro.c:207-225 | The name of the node, or a failure on anything that is not a node |
| FlatTreeReader.StringEq | lib/fdt/fdt_ro.c:83-89 | Equal exactly if the string in the table is the name |
| FlatTreeReader.NextProp | lib/fdt/fdt_ro.c:108-130 | The property at hand, or "not found" where the properties end |
| FlatTreeReader.GetProp | lib/fdt/fdt_ro.c:266-308 | Returns on every blob without a property that leads back, and stays within every blob whose lengths do not wrap an offset; on a blob that holds a tree, the value of the node's first property of that name, or "not found" |
| FlatTreeReader.TreeVisited | lib/fdt/fdt.c:160-198 | On the tokens of a tree the walk is the preorder of the tree and then stops |
| FlatTreeReader.NodeProps | lib/fdt/fdt_ro.c:266-308 | A lookup in a written node sees the node's own properties only, never those of a subnode |
| Ext2.FileSystem.constructor | drivers/ext2/ext2.c:60-112 | An inode without blocks maps nothing |
| Ext2.FileSystem.SetBlock | drivers/ext2/ext2.c:148-199 | Every block index below 12 + n + n^2 + n^3 reads as before, except the one set, which reads the new block; it succeeds exactly if no indirect block is missing, or block 0 is in use and there are as many free blocks as indirect blocks missing; on failure all indices read as before; blocks in use stay in use, new indirect blocks were free, and only indirect blocks are written |
| Ext2.FileSystem.GetBlock | drivers/ext2/ext2.c:82-112 | Returns the pointer stored for the index, zero under a missing indirect block |
| Ext2.FileSystem.EnsureNode | drivers/ext2/ext2.c:165-178 | A missing indirect block is allocated, cleared and linked, and no data pointer changes |
| Ext2.FileSystem.AllocBlock | drivers/ext2/ext2.c:483-496 | Fails for want of space exactly if every group is full, and with an input/output error exactly if block 0 is free; otherwise returns the first free block of the first group that has one, which is now in use, no other block changes, and the number of free blocks falls by one |
| Ext2.ZeroExactly | drivers/ext2/ext2.c:461-496 | The first free block is block 0 exactly if block 0 is free |
| Ext2.ZeroExample | drivers/ext2/ext2.c:483-496 | A bitmap with free blocks on which allocation fails |
| Ext2.RightBlockExactly | drivers/ext2/ext2.c:461-496 | With groups of two or more blocks: the block handed out was free on disk, for every bitmap, if and only if the first data block is 0 |
| Ext2.HandsOutUsed | drivers/ext2/ext2.c:461-496 | For every other first data block, a bitmap for which a block in use is handed out |
| Ext2.FirstFreeIsFree | drivers/ext2/ext2.c:461-496 | The bit that allocation takes was clear |
| Ext2.FileSystem.AllocateFromGroup | drivers/ext2/ext2.c:461-481 | Takes the first clear bit of the group |
| Ext2.TakeOne | drivers/ext2/ext2.c:461-481 | Taking a bit keeps every group's free count equal to its clear bits, and the bit was clear; which block of the disk it stands for is in RightBlockExactly |
| Ext2.PathsDiffer | drivers/ext2/ext2.c:60-80 | Different block indices have different pointer paths |
| Ext2.DigitsNumber | drivers/ext2/ext2.c:60-80 | The indices taken at the levels determine the block index |
| Ext2.LinkKeeps | drivers/ext2/ext2.c:165-178 | A fresh indirect block changes no other pointer |
| Ext2.DataKeeps | drivers/ext2/ext2.c:190-194 | Writing a data pointer changes no other pointer, nor any free block |
| Ext2.FollowStored | drivers/ext2/ext2.c:82-112 | Following the pointers from any level reaches the pointer stored for the index |
| Ext2Write.WritePages | drivers/ext2/ext2.c:498-522 | After any run of page writes, each done or failed: every data block and every indirect block of the file is in use and has one place in it, every page reads as it was last written, where a page without a block reads as block 0 |
| Ext2Write.WritePage | drivers/ext2/ext2.c:498-522 | Succeeds exactly if the page has a block, or block 0 is in use and there are free blocks for the page and for every indirect block missing; then the page reads as written; every other page, and on failure every page, reads as before; blocks in use stay in use, and no block is used twice |
| Ext2Write.FreshSettled | drivers/ext2/ext2.c:60-80 | In a file without blocks no block is used twice |
| Ext2Write.ReloadClean | drivers/ext2/ext2.c:505-514 | When the block map cannot be extended, the inode on disk still has every block in one place, though indirect blocks may have been added |
| Ext2Write.PutClean | drivers/ext2/ext2.c:14-26 | Writing the block of a page changes the contents of no other page and no indirect block |
| Ext2Write.WritesApartExactly | drivers/ext2/ext2.c:498-522 | For pages of one to four blocks and blocks of any number of pointers: writing a page leaves every other page of every such file alone if and only if a page is one block |
| PagedFile.File.constructor | kernel/fs/ramfs.c:102-120 | An empty file reads as zero everywhere |
| PagedFile.File.Read | kernel/fs/inoderw.c:7-36 | Returns exactly the bytes of the file from the offset on, as many as lie before its end |
| PagedFile.File.Write | kernel/fs/inoderw.c:50-79 | The bytes written stand at the offset, all others are as before, the length is the larger of the old one and the end of the write |
| PagedFile.File.StorePart | kernel/fs/inoderw.c:65-71 | The same for the part of a write in one page |
| PagedFile.File.GetPage | kernel/fs/inode.c:174-181 | The page is cached, and the file reads as before |
| PagedFile.File.Reclaim | kernel/fs/inode.c:47-58 | Dropping any number of cached pages, written back if dirty, leaves the file reading as before |
| PagedFile.LoadKeeps | kernel/fs/inode.c:19-45 | Loading a page, cut at the end of the file, changes no byte |
| PagedFile.EvictKeeps | kernel/fs/inode.c:47-58 | Evicting a page changes no byte |
| PagedFile.StoreKeeps | kernel/fs/inoderw.c:65-71 | Bytes past the end stay zero in every cached and every stored page |
| HashTable.Hash.constructor | lib/ds/hash.c:22-33 | The empty map |
| HashTable.Hash.Insert | lib/ds/hash.c:65-81 | Fails exactly if the key is present, and otherwise adds it; the count is the size of the map |
| HashTable.Hash.Delete | lib/ds/hash.c:83-97 | Fails exactly if the key is absent, and otherwise removes it and nothing else |
| HashTable.Hash.Lookup | lib/ds/hash.c:99-114 | The element of the key, or none if it is absent |
| HashTable.Hash.Find | lib/ds/linkedlist.c:91-104 | The element of the list with that key, or none of the list has it |
| HashTable.Hash.Unlink | lib/ds/linkedlist.c:83-89 | The element leaves its list and the map, and all other lists stay |
| HashTable.Hash.FirstFull | lib/ds/hash.c:116-129 | The first list from there on that is not empty, or the end; it reads past the table exactly if it starts at its end, and is at the end whatever it finds there |
| HashTable.Hash.NextEntry | lib/ds/hash.c:131-146 | The iterator moves to the next element that is left, also when the current one has been deleted; it reads past the table exactly on leaving the last list |
| HashTable.Hash.Iterate | kernel/fs/ramfs.c:74-79 | A loop that deletes any of the elements it visits visits every element that was there, and leaves the map without exactly those it deleted |
| HashTable.VisitsOnce | lib/ds/hash.c:116-146 | The order of iteration has each element of the map exactly once |
| HashTable.InsertKeeps | lib/ds/hash.c:65-81 | Insertion keeps the rings, keys and map in agreement |
| HashTable.DeleteKeeps | lib/ds/hash.c:83-97 | Deletion does too, and the element is then in no list |
| IntrusiveList.InsertRing | lib/ds/linkedlist.c:66-81 | Insertion puts the entry right after the sentry of the same circle |
| IntrusiveList.RemoveRing | lib/ds/linkedlist.c:7-16 | Removal takes exactly that entry out of the circle |
| IntrusiveList.OtherRing | lib/ds/linkedlist.c:7-81 | Circles without an entry in common with the change stay as they are |
| PathWalk.Resolver.ResolvePath | kernel/fs/path.c:82-213 | Returns what the recursive walk over the components returns, at every link depth, and on every return path the references taken are those handed out plus those released |
| PathWalk.Resolver.WalkPath | kernel/fs/path.c:134-200 | The same for the loop over the components |
| PathWalk.Resolver.Step | kernel/fs/path.c:143-197 | The same for one component, found, created, refused or missing |
| PathWalk.Resolver.FollowLink | kernel/fs/path.c:173-193 | A symbolic link is resolved from its directory, up to 64 levels deep |
| PathWalk.Trim | kernel/fs/path.c:103-107 | Cutting off trailing slashes leaves the components of the path |
| PathWalk.Separator | kernel/fs/path.c:139-141 | The end of the component |
| PathWalk.TrailingSlash | kernel/fs/path.c:103-107 | A trailing slash makes no difference to the components |
| PathWalk.NextComponent | kernel/fs/path.c:138-200 | Cutting at the separator splits off exactly the first component, however many slashes follow |
| Checksum.RightExactly | kernel/net/ipv6.c:233-269 | The checksum is that of section 8.1 of RFC 8200 exactly when the accumulator does not wrap in the payload loop |
| Checksum.WrongExample | kernel/net/ipv6.c:233-269 | A packet for which it is not |
| Checksum.SelfCheck | kernel/net/ipv6.c:271-284 | For every packet, storing the checksum over a zero field at an even offset makes recomputing it give zero |
| Checksum.GenChecksum | kernel/net/ipv6.c:233-269 | The loops compute the folded, complemented sum of header and payload modulo 2^32 |
| Checksum.AddressSum | kernel/net/ipv6.c:238-246 | The loop over both addresses, with end-around carries |
| Checksum.PayloadSum | kernel/net/ipv6.c:256-264 | The loop over the payload adds its 16-bit words, an odd last byte included, modulo 2^32 |
| Checksum.Fold | kernel/net/ipv6.c:266-267 | Folding any 32-bit sum gives its one's-complement value in 16 bits |
| Checksum.HeaderSame | kernel/net/ipv6.c:237-254 | Adding 32-bit words with end-around carry gives the one's-complement sum of the pseudo-header's 16-bit words |

## Left out

- AddressSpaces: regions are page-aligned with the base page size; changing protection, resizing and moving mappings are left out, and so is the range check of mmap.
- AddressSpaces.Memory.Evict: requires that no mapping references the page, as the page cache drops only idle pages; writing dirty pages back is left out.
- AddressSpaces.Memory.UnmapPage: when the callback has to load the page that it names in order to put it, the load is left out, since the panic follows.
- AddressRuns: removing a region without mapping another is an operation of its own, although no system call does it.
- AddressSpaces.Memory.Fault: the map lock is held throughout, and the processor's own tables are those of the model.
- AddressSpaces.Memory.RemoveRegion: the pages are unmapped before the region leaves the list, where the source does it after; the map lock is held for both.
- LruCache: put and remove are for objects still in the cache and a plain reference drop is for removed ones, as kernel/fs/inode.c:160-172 does; what happens otherwise is stated by PutExactly. Releasing the whole cache and the proc file are left out.
- BuddyAllocator: the top order is a parameter of at least 3, and every order below the last three has a bitmap of whole bits, which for the source's sizes are whole bytes. Widths of C integers in shifts are not modelled.
- BuddyAllocator.Allocator.PmmDeallocate: requires an address inside memory to be that of an outstanding block, as the callers do; for a free page the source would clear the bit of a split block around it, and with memory that starts above 0 the addresses from 2^top up to start + 2^top pass its guard and index past the ends of the bitmaps.
- TimerWheel.Wheel.Add: requires fewer than 64^8 ticks, the range of the wheel, and a timer that is not on a list.
- TimerWheel.Wheel.Remove: a second removal of the same timer is a caller's error, as the source leaves the level set; timers re-added from inside their own callback are left out.
- MutexHandOff: timeouts and signals do not occur on this path, since the mutex sleeps uninterruptibly; thread flags and the run queue are left out.
- Slab: the number of objects in a slab is a parameter; constructors, reference counts and the proc file are left out.
- PageTables.Tables.Map: requires that no larger page covers the address, since the source would walk into that page's frame as if it were a table; invalidating translations and the kernel's half of the tables are left out.
- CharBuffer: wake-ups are steps that may always happen, so no liveness is stated; the capacity is 4096 as the source demands.
- FlatTree: header fields are kept beside the bytes; the memory reserve map and moving to another buffer are left out; a blob is shorter than 2^31 - 3 bytes, so that every offset in it is an int.
- FlatTreeReader: device trees of a version below 17, for which the source does not check offsets against the size of the structure block.
- FlatTreeReader.NextNode: counts the turns of its loop, since on some blobs the source's loop does not end.
- FlatTreeReader.GetProp: reading past the end of the blob is an outcome of its own; which blobs with wrapped lengths keep it is not stated.
- FlatTree.Writer.Property: requires a value shorter than 2^31 bytes and a name without zero bytes, as C strings and int lengths are.
- Ext2: free blocks are assumed to read as zero; block numbers are unbounded; directories, inode allocation and the 32-bit count of free blocks are left out. The source never frees a block.
- Ext2.FileSystem.AllocBlock: numbers blocks as the source does, without the first data block; what that means for the disk is in RightBlockExactly.
- Ext2Write.WritePage: requires blocks as large as pages; WritesApartExactly says what happens otherwise. The data block taken by a write that then fails stays in use.
- PagedFile: truncation and failures to load a page are left out; the backing store is the ram file system, which never fails.
- PathWalk: the file system does not change during a resolution, creation and lookup are an oracle for it, and the byte before an empty path is taken not to be a slash; permissions are part of the oracle.
- Checksum: a little-endian host.
- TCP, sockets, signals, system-call dispatch, poll, the scheduler, ELF loading, proc files, drivers, interrupts, context switches and the aarch64 port.

# A verified model of the kernel's memory, file system and scheduling core

This project models the parts of a small uniprocessor teaching kernel that carry
its hardest bookkeeping, and proves properties of the model for all inputs, all
runs and all reachable states. The kernel is not preempted: a trap reschedules
only on the way back to user mode (code/kern/trap/trap.c:231-236). What lies
between two blocking calls is therefore one atomic step, and a state machine
whose steps are such stretches of code describes every interleaving.

`dafny verify dfyconfig.toml` checks everything.

| files | what they model |
|---|---|
| RbShape, RbTree | the red-black tree: trees and one-hole contexts as values; the node heap with parent pointers, `nil` sentinel and header node as a class |
| VmState, VmPrims, VmOps, VmRun, SwapDaemon | copy-on-write fork, page faults and the swap cache: the state and its invariant, single updates, the operations, whole runs, and the loops of pmm.c and swap.c |
| BuddyMath, Buddy | the buddy allocator |
| Bytes, Sequences | bytes, optional values and lists without repetition |
| VmaSpec, VmaSet | the areas of an address space: the address-to-flags map, and list, red-black tree and cache behind it |
| SfsDisk, SfsMap, SfsGrow, SfsShrink, SfsFile, SfsSpec, SfsTail, Sfs | the file system: blocks and index entries, the three-level block map and block ownership, growing and shrinking files, files as byte sequences, the bytes behind the end of a file, the operations |
| Words, Bitmap, Freemap, Mount | the free map as 32-bit words, in memory and on disk, and mounting |
| ImageBuilder | the image builder mksfs |
| SfsLinks, SfsPaths, SfsDirs | directories, link counts and the way up to the root |
| InodeLife, InodeLoads, RemovedParents | references, lookups and reclaims of in-memory inodes; the order of loads; the load that can fail |
| Timers, RunQueues, Pids | timer list, MLFQ run queues, process ids |
| Pipes, Semaphores | pipes and kernel semaphores |

The main results:

* **Red-black tree.** Insertion and deletion keep every invariant the source's
  own check function states, and add or remove exactly one node; both fix-up
  loops terminate. Deletion relinks nodes, and the root is cached before
  rotations: `Pending` in RbTree.dfy says why that cached root is safe.
* **Private memory.** Any interleaving of fork, faults, unmapping, swap-out,
  laundering and refilling is a run of a machine in which each address space has
  memory of its own that byte stores change and a first access fills with what
  the frame held, while `page->ref` and `mem_map` count exactly the page table
  entries (`VmRun.RunOk`).
* **Buddy allocator.** The free lists are always the unique maximal aligned
  decomposition of the free pages (`Buddy.Unique`), so an allocation fails
  exactly if no aligned free run exists.
* **Areas.** `mm_unmap` subtracts exactly an interval from the address-to-flags
  map; `find_vma` gives the same answer by cache, tree and list;
  `user_mem_check` and `get_unmapped_area` are characterised by an if and only
  if. The tree inside `VmaSet.Mm` is the verified red-black tree.
* **SFS.** Every block in use has exactly one owner after every operation,
  successful or not; reading and writing refine a flat byte sequence;
  reclaiming an inode returns exactly its footprint; the image builder's images
  satisfy the same invariant and map each appended block where the kernel looks
  for it.
* **Directories, inodes.** Link counts equal what the entries and parent fields
  say, and every live directory stays under the root exactly if no rename moves
  one below itself; the reclaim counter protocol kills an inode only when nothing
  can find it and loses no block; on every run every load finds its inode, but for
  the parent of a directory that was already removed.
* **Timers, ids, queues, pipes.** Deadlines are met to the tick, ids are fresh,
  each ready process is queued exactly once, and no wake-up is lost.

## Conventions

* A protocol or a data structure that the source updates in place is a class;
  each method states its effect through a function or predicate on values, and
  the lemmas about those are the proofs. `hide` statements only keep the solver
  from unfolding definitions it does not need.
* Memory allocation, disk space in swap, device writes and the like are
  parameters of an operation (a frame that may be absent, a flag that says
  whether a write succeeds), so every outcome is covered.
* Numbers are unbounded except where the width matters: file offsets and user
  addresses wrap at 32 bits, timer counts and pipe positions are shown or
  required to stay below their limits, index entries are four little-endian
  bytes of a 4096-byte block, free map words are 32-bit vectors.
* In VmState a page's contents are 4096 bytes, a page table is a map from pages
  to entries, and a fault handler and the access it is for are one step: the
  handler's same-page path rewrites an entry without its old dirty bit
  (code/kern/mm/pmm.c:434-442), which is harmless only if the retried access
  follows at once. A stack guard page is a page that allows neither access.
* In the SFS model an inode's record is a value beside its block; the inode's
  block itself is owned but its bytes are not interpreted. `Fs.disk` maps block
  numbers to blocks, and the disk always works.
* In InodeLife `links` has the inodes whose blocks are in use, and a new inode
  gets a block that is not. The assertions are those of the modelled steps: of
  `inode_ref_dec`, `inode_open_dec`, `sfs_load_inode`, `sfs_reclaim`,
  `pipe_inode_reclaim` and `inode_kill`. A step whose assertion fails ends the
  run, as a panic does.
* InodeLoads adds who loads: directory locks, the mutex of unlink and rename, and
  a queue of loads served in the order of arrival, which is what the semaphore
  does (`Semaphores.Semaphore.Up`). Other users of the lock (reclaim, new inodes)
  may come in at any time, and references may be dropped by anyone, so the model
  has more runs than the kernel. A directory is known by slots; a rename inside
  one directory leaves the slot and is no step.
* Address spaces are numbered below twice MAX_PROCESS: one for each process and
  one for each fork under way (code/kern/process/proc.c:507-547).
* `Builder.disk` is the image with its cached blocks flushed.

## Findings

* `sfs_rename2_nolock` restores the old entry when the new one cannot be written.
  If that fails too, a renamed directory stays alive without a name and its old
  parent has lost a link (`SfsDirs.LostLink`, stated as an if and only if).
* Nothing stops a rename of a directory to a place below itself
  (code/kern/fs/sfs/sfs_inode.c:818-867, code/kern/fs/vfs/vfsfile.c:110-131): /a to
  /a/b/c. The link counts survive, but both directories are cut off in a circle. A
  rename keeps every live directory under the root exactly if the new parent is
  not the directory or below it (`SfsPaths.MoveDirConnected`, `SfsDirs.Tree.Rename`;
  the tree of the example is in `SfsDirs.Nested`); all other operations keep it. A
  directory moved into itself cannot be removed: unlink then waits for the lock
  that it holds (code/kern/fs/sfs/sfs_inode.c:1215, `SfsDirs.Tree.Unlink`).
* `pgdir_alloc_page` (code/kern/mm/pmm.c:460-469) maps a frame that nothing
  clears, so an address space reads what another left there. "Reads back only its
  own writes" holds exactly for pages with contents; an untouched page shows
  `s.data` of its frame (`VmOps.FaultReadOk`, `VmRun.FreshPageLeaks`, and a run
  from start-up in `VmRun.LeakAtStart`).
* Extending a file with `sfs_truncfile` exposes the bytes that its last block
  already holds behind the old size; only whole new blocks are zero. The new part
  is zero exactly if those bytes are (`SfsTail.ExtensionZero`, `LastBlock`). Only
  a cut inside a block leaves such bytes (`CutClean`; writes and extensions do
  not: `WriteClean`, `GrowClean`), and they come back (`CutThenExtend`; 5000
  bytes cut to 4100 and extended again: `OldBytesBack`, `OldBytesShown`). A write
  from behind the size has the same condition (`GapZero`). In this tree nothing
  cuts inside a block: `vop_truncate` is called with 0 (code/kern/fs/vfs/vfsfile.c:61) and by
  `sfs_tryseek` above the size, so files stay clean on every run (`AlwaysClean`,
  `AlwaysZero`).
* A write that starts inside the block behind the last one and finds the disk
  full stores nothing and still raises the size to its offset
  (code/kern/fs/sfs/sfs_inode.c:632): the size then passes the mapped blocks
  (`SfsSpec.FilledBacked`, an if and only if; `SfsTail.SizeWithoutBlock`).
* An inode whose sync fails during reclaim stays in memory without references and
  without a pending reclaim until the next lookup (`InodeLife.ForgottenIff`, an if
  and only if; `ForgottenStays`; a run that ends there in `ForgottenRun`). The disk
  driver of this tree panics instead of returning a write error
  (code/kern/fs/devs/dev_disk0.c:50-58), so it takes another device.
* `sfs_load_inode` asserts that its block is in use and that the inode has links.
  Its callers learn the number first and then wait for the lock. A load by name is
  safe: the removal of the name holds the directory's lock and queues its own load
  behind (`InodeLoads.LoadBegins`, `LoadEnds`). So is a load of the parent of a
  directory that is not removed when the parent field is read. For a removed
  directory that is still in use it is not (`RemovedParents.ParentGone`): with
  /a/b as current directory, remove b, then a, and ask for the directory's name
  while a is reclaimed, or later (`SfsDirs.ParentGone`). No other load can fail
  (`InodeLoads.StepAsserts`, `EveryRun`).
* mksfs files every cached block under the hash of 0, so a search for one whose
  number does not hash like 0 fails its assertion
  (`ImageBuilder.Builder.UpdateCache`, an if and only if; `Misfiled`). No append
  searches: the block it needs is the one in hand (`ImageBuilder.Cached`).

## Model

| member | source | states |
|---|---|---|
| `RedBlackTree.RbTree.Rotate` | code/kern/libs/rb_tree.c:79-108 | a rotation in either direction relinks parent, child and grandchild pointers so that the heap holds the rotated tree at the same place, nothing else moved |
| `RedBlackTree.RbTree.InsertBinary` | code/kern/libs/rb_tree.c:113-130 | the new node becomes a leaf behind every node that compares less or equal and before every greater one |
| `RedBlackTree.RbTree.InsertFixup` | code/kern/libs/rb_tree.c:133-172 | from any tree with one red node out of place, the loop ends in a red-black tree with the same in-order sequence |
| `RedBlackTree.RbTree.Insert` | code/kern/libs/rb_tree.c:133-172 | a valid tree stays valid (parent links, black root, no red-red, equal black heights, sorted) and gains exactly that node, after all nodes that compare less or equal |
| `RedBlackTree.RbTree.FixupRound` | code/kern/libs/rb_tree.c:250-287 | one round of the deletion fix-up either ends with a red-black tree, moves the deficit up, or stands on a red node; the in-order sequence stays, also when the cached root was rotated away |
| `RedBlackTree.RbTree.DeleteFixup` | code/kern/libs/rb_tree.c:246-289 | from any tree short of one black node on a path, the loop terminates in a red-black tree with the same in-order sequence |
| `RedBlackTree.RbTree.DeleteSingle` | code/kern/libs/rb_tree.c:295-328 | a node with at most one child is bypassed and the balance restored |
| `RedBlackTree.RbTree.DeleteDouble` | code/kern/libs/rb_tree.c:295-328 | a node with two children is replaced by relinking its in-order successor, also when the successor is its right child |
| `RedBlackTree.RbTree.Delete` | code/kern/libs/rb_tree.c:295-328 | a valid tree stays valid and loses exactly that node |
| `RedBlackTree.RbTree.Next` | code/kern/libs/rb_tree.c:352-356 | the in-order neighbour after the node, or nil at the end |
| `RedBlackTree.RbTree.Prev` | code/kern/libs/rb_tree.c:342-346 | the in-order neighbour before the node, or nil at the start |
| `RedBlackTree.RbTree.Search` | code/kern/libs/rb_tree.c:232-240 | finds a node equal to the key, and nil only if there is none |
| `RedBlackTree.RotateFocus` | code/kern/libs/rb_tree.c:79-108 | the rotated heap represents the rotated tree, with every parent pointer right |
| `RedBlackTree.SortedInsert` | code/kern/libs/rb_tree.c:113-130 | putting a node behind all smaller or equal ones keeps the sequence sorted, for any total preorder |
| `RbShape.RotatedInOrder` | code/kern/libs/rb_tree.c:79-108 | a rotation keeps the in-order sequence |
| `RbShape.PushRedUpOk` | code/kern/libs/rb_tree.c:143-148 | red uncle: recolouring moves the only violation two levels up |
| `RbShape.LiftParentOk` | code/kern/libs/rb_tree.c:149-157 | black uncle: one rotation and two repaintings remove the violation |
| `RbShape.SwapSiblingOk` | code/kern/libs/rb_tree.c:253-258 | red sibling: after the rotation the sibling is black and the deficit is where it was |
| `RbShape.RedSiblingOk` | code/kern/libs/rb_tree.c:259-262 | black nephews: painting the sibling red moves the deficit to the parent |
| `RbShape.FarSiblingOk` | code/kern/libs/rb_tree.c:264-269 | red near nephew: the rotation makes the far nephew red |
| `RbShape.PayDeficitOk` | code/kern/libs/rb_tree.c:270-275 | red far nephew: the rotation pays the deficit and the tree is red-black |
| `VmOps.RemovePteOk` | code/kern/mm/pmm.c:385-407 | removing an entry, present or swapped, keeps all counts and lists right and takes exactly that page out of its memory |
| `VmOps.DropSwappedOk` | code/kern/mm/swap.c:335-350 | dropping a reference to a slot takes exactly that page out of its memory and counts the slot down; slot and idle cached page become free exactly when the last reference goes |
| `VmOps.SwapInOk` | code/kern/mm/swap.c:373-418 | swap-in finds the cached page or reads the slot; memory stays as it is and the frame becomes the only one cached for the slot |
| `VmOps.FaultReadOk` | code/kern/mm/vmm.c:698-824 | a read fault leaves every page with contents alone, its own included; an untouched page shows whatever the frame it gets held before; it succeeds if frames are found |
| `VmOps.FaultWriteOk` | code/kern/mm/vmm.c:698-824 | a write fault ends with a frame nobody else can reach, holding the contents the page had in memory, in the cache or on disk; an untouched page holds what its frame held before |
| `VmOps.CopiedWhenShared` | code/kern/mm/vmm.c:779-808 | the page is copied to the new frame exactly when its total count, of references to the frame and to its slot, is above one |
| `VmOps.CopyEntryOk` | code/kern/mm/pmm.c:505-541 | fork copies an entry: both sides hold the same contents, a writable page loses its write bit on both sides, and all counts grow by one |
| `VmOps.SwapOutPageOk` | code/kern/mm/swap.c:528-579 | unmapping a page into a slot keeps its contents, in the cached frame while it is dirty |
| `VmOps.LaunderPageOk` | code/kern/mm/swap.c:468-507 | laundering one inactive page keeps all memory; the frame is freed exactly if nothing refers to it and its slot is unused, it is clean or the write succeeds, and the disk is written exactly in the last case |
| `VmOps.StepOk` | code/kern/mm/vmm.c:779-816 | every step keeps the reference counts, swap map, cache and lists right and is a step of a machine in which each address space has private memory: a store changes one byte of one page, a load nothing but an untouched page |
| `VmOps.WriteOk` | code/kern/mm/vmm.c:779-816 | an allowed store that finds memory changes exactly that byte of that page of that address space; the rest of the page is what it was, or what the frame held if the page was untouched |
| `VmOps.ReadOk` | code/kern/mm/vmm.c:779-816 | an allowed load that finds memory shows what the page holds, or what the frame held if the page was untouched, and changes nothing else |
| `VmRun.RunOk` | code/kern/mm/vmm.c:698-824 | on every interleaving of mapping, faults, fork, unmapping, swap-out, laundering and refilling: counts are conserved and the memories evolve like private memories |
| `VmRun.ReadsBack` | code/kern/mm/swap.c:468-579 | a page reads back the same after any run in which its own address space neither writes nor unmaps it |
| `VmRun.WriteThenRead` | code/kern/mm/vmm.c:779-816 | after any such run a byte stored is read back, and with it the rest of the page as it was before the store, through copying, swapping and laundering |
| `VmRun.ForkIsolates` | code/kern/mm/pmm.c:505-541 | after a fork neither side sees the other's writes, over any run |
| `VmRun.FreshPageLeaks` | code/kern/mm/pmm.c:460-469 | a page written by one address space and unmapped is read, byte for byte, by the first load of another that gets the frame |
| `VmRun.LeakAtStart` | code/kern/mm/pmm.c:460-469 | such a run from every start-up state with two frames: two areas are mapped, one is written and unmapped, the other read |
| `VmRun.InitialOk` | code/kern/mm/swap.c:158-189 | the state after start-up satisfies the invariant |
| `VmPrims.FewHolders` | code/kern/mm/swap.c:363-369 | a slot is held at most once by each address space, because a private page spreads only by fork to the same address; so the assertion of swap_duplicate holds |
| `VmRun.SlotsCountable` | code/kern/mm/swap.c:363-369 | hence on every run |
| `SwapDaemon.Swap.HashFind` | code/kern/mm/swap.c:275-285 | finds the cached page of a slot exactly if there is one |
| `SwapDaemon.Swap.PageRemovePte` | code/kern/mm/pmm.c:385-407 | the entry goes, with all its consequences for counts, cache and free frames |
| `SwapDaemon.Swap.SwapRemoveEntry` | code/kern/mm/swap.c:335-350 | as the value operation: slot count down, cached page freed when idle, slot unused when none is left |
| `SwapDaemon.Swap.TryAllocSwapEntry` | code/kern/mm/swap.c:288-331 | returns 0 exactly if no slot is unused or held by the cache alone; otherwise a slot nobody refers to, evicting at most its own cached page |
| `SwapDaemon.Swap.UnmapRange` | code/kern/mm/pmm.c:471-487 | exactly the pages of the range go, skipping whole missing page tables |
| `SwapDaemon.Swap.CopyRange` | code/kern/mm/pmm.c:505-541 | the pages of the range are copied in order, all of them or up to the first page whose page table cannot be allocated |
| `SwapDaemon.Swap.RefillInactiveScan` | code/kern/mm/swap.c:510-525 | moves exactly the active pages without references to the inactive list |
| `SwapDaemon.Swap.PageLaunder` | code/kern/mm/swap.c:468-507 | frees every inactive page without references whose write succeeds, counts what it freed, and changes no memory |
| `SwapDaemon.Swap.Drain` | code/kern/mm/swap.c:468-525 | with everything unmapped, one refill and one launder leave every slot unused and every frame free |
| `Buddy.Largest` | code/kern/mm/buddy_pmm.c:156-184 | every aligned run of free pages lies inside one free block |
| `Buddy.Unique` | code/kern/mm/buddy_pmm.c:156-184 | two sets of blocks that decompose the same free pages without free buddies are equal |
| `Buddy.Allocator.InitMemmap` | code/kern/mm/buddy_pmm.c:51-75 | a new zone of any size is cut into maximal aligned blocks and all its pages become free |
| `Buddy.Allocator.GetOrder` | code/kern/mm/buddy_pmm.c:78-87 | the least order whose blocks hold n pages |
| `Buddy.OneOrder` | code/kern/mm/buddy_pmm.c:78-87 | there is only one such order |
| `Buddy.Allocator.AllocSub` | code/kern/mm/buddy_pmm.c:91-116 | takes an aligned block of the order, splitting larger ones; fails exactly if no aligned free run exists |
| `Buddy.Allocator.Split` | code/kern/mm/buddy_pmm.c:100-113 | the halves that are not used return to their lists |
| `Buddy.Allocator.Alloc` | code/kern/mm/buddy_pmm.c:119-128 | fails exactly if there is no aligned free run of 2^getorder(n) pages; otherwise exactly n pages leave the free set, and the number of free pages drops by n |
| `Buddy.Allocator.FreeSub` | code/kern/mm/buddy_pmm.c:156-184 | merges with free buddies as long as there are any; exactly the block's pages become free |
| `Buddy.Allocator.Free` | code/kern/mm/buddy_pmm.c:187-215 | any range of pages in use is cut into aligned blocks and becomes free, and the number of free pages grows by n; the order assertion fails exactly if 2048 pages or more lie behind the first multiple of 2048 |
| `Buddy.Allocator.NrFreePages` | code/kern/mm/buddy_pmm.c:218-225 | the number of free pages |
| `BuddyMath.Nested` | code/kern/mm/buddy_pmm.c:132-140 | two aligned blocks are disjoint or one contains the other |
| `BuddyMath.BuddyOk` | code/kern/mm/buddy_pmm.c:143-184 | flipping the order bit gives the other half of the parent block |
| `VmaSet.Mm.FindRb` | code/kern/mm/vmm.c:125-143 | the descent of the red-black tree finds the lowest area that ends above the address |
| `VmaSet.Mm.FindList` | code/kern/mm/vmm.c:156-168 | so does the scan of the list |
| `VmaSet.Mm.FindVma` | code/kern/mm/vmm.c:146-175 | and so does find_vma by cache, tree or list; only the cache changes |
| `VmaSet.CacheHit` | code/kern/mm/vmm.c:150-151 | a cached area that holds the address is the one the searches find |
| `VmaSet.DescentEnds` | code/kern/mm/vmm.c:125-143 | where the descent ends the remembered node is the answer |
| `VmaSet.InsertRb` | code/kern/mm/vmm.c:204-212 | the tree's predecessor tells the place in the list |
| `VmaSet.BuildTree` | code/kern/mm/vmm.c:252-263 | the tree built from a long list has the list as its in-order sequence |
| `VmaSet.Mm.InsertVma` | code/kern/mm/vmm.c:215-264 | sorted, disjoint, tree equal to list and map_count are kept, and exactly the area's addresses gain its flags |
| `VmaSet.Mm.RemoveVma` | code/kern/mm/vmm.c:267-279 | exactly the area's addresses lose their flags; list, tree, cache and count agree |
| `VmaSet.Mm.Map` | code/kern/mm/vmm.c:303-332 | -E_INVAL exactly if the range is no user range or meets an area; -E_NO_MEM exactly without memory; otherwise exactly the range gains the flags |
| `VmaSet.Mm.Split` | code/kern/mm/vmm.c:380-390 | cutting a range out of the middle of an area |
| `VmaSet.Mm.Subtract` | code/kern/mm/vmm.c:393-426 | every area that meets the range is taken out and the outer remains are put back |
| `VmaSet.Mm.Unmap` | code/kern/mm/vmm.c:366-427 | exactly the range loses its flags, everything else keeps them, and the page table ranges cleared are exactly the mapped part of the range; it runs out of memory exactly if the range lies inside one area and no area can be allocated |
| `VmaSet.Mm.Brk` | code/kern/mm/vmm.c:493-515 | the range becomes readable and writable, whatever was there; a failure leaves it unmapped or untouched |
| `VmaSet.Mm.DupFrom` | code/kern/mm/vmm.c:429-454 | the copy has the same address-to-flags map as the original and copy_range ran over each of its areas, or memory ran out and exactly the last areas are there |
| `VmaSpec.LookupFirst` | code/kern/mm/vmm.c:146-175 | the area find_vma gives tells the flags of an address, or that it has none |
| `VmaSet.Mm.UserMemCheck` | code/kern/mm/vmm.c:519-539 | with an address space: true exactly if the range is a user range whose every byte lies in an area with the needed flag and, for writes, outside stack guard pages |
| `VmaSet.UserMemCheck` | code/kern/mm/vmm.c:517-542 | with or without an address space, and no range that wraps around passes |
| `VmaSet.Mm.GetUnmappedArea` | code/kern/mm/vmm.c:471-491 | the highest start of a free user range, 0 exactly if there is none |
| `VmaSpec.InsertOk` | code/kern/mm/vmm.c:196-201 | adding an area to a vacant range keeps the areas sorted and disjoint and adds exactly its addresses |
| `VmaSpec.VacantIff` | code/kern/mm/vmm.c:315-318 | the one area find_vma gives decides whether a range is vacant |
| `VmaSpec.PutBackStep` | code/kern/mm/vmm.c:403-425 | putting one remainder back restores exactly the addresses outside the range |
| `VmaSpec.SweepStep` | code/kern/mm/vmm.c:409-425 | the page table ranges cleared so far are the mapped part of the range above the areas still to come |
| `SfsMap.LinkOk` | code/kern/fs/sfs/sfs_inode.c:72-82 | giving a free block to an owner without one keeps every block in use owned exactly once |
| `SfsMap.UnlinkOk` | code/kern/fs/sfs/sfs_inode.c:84-89 | taking a block from its owner and freeing it keeps that too |
| `SfsMap.SetIndirectEntry` | code/kern/fs/sfs/sfs_inode.c:182-188 | an entry of an indirect block maps one index and no other, of this file or another |
| `SfsMap.SetSecondEntry` | code/kern/fs/sfs/sfs_inode.c:244-248 | an entry of a second-level block maps one index and no other |
| `SfsGrow.GrowIndirectFresh` | code/kern/fs/sfs/sfs_inode.c:159-202 | index block and data block allocated together: the file grows by one zeroed block |
| `SfsGrow.GrowDbFresh` | code/kern/fs/sfs/sfs_inode.c:234-243 | double-indirect and second-level block allocated together: no data block moves |
| `SimpleFs.Sfs.BlockAlloc` | code/kern/fs/sfs/sfs_inode.c:72-82 | the lowest free block of the free map's words, zeroed through the shared buffer, or failure exactly if none is free; unused_blocks counts the set bits |
| `SimpleFs.Sfs.BlockFree` | code/kern/fs/sfs/sfs_inode.c:84-89 | the block becomes free and is counted |
| `SimpleFs.Sfs.BmapGetSub` | code/kern/fs/sfs/sfs_inode.c:159-202 | reads or creates an entry; a failure frees what it had allocated |
| `SimpleFs.Sfs.BmapGet` | code/kern/fs/sfs/sfs_inode.c:204-254 | the block of an index at any of the three levels; creating fails exactly if there are fewer free blocks than missing levels, and leaves every block owned |
| `SimpleFs.Sfs.BmapFree` | code/kern/fs/sfs/sfs_inode.c:274-310 | the block of exactly that index is unmapped and freed |
| `SimpleFs.Sfs.BmapLoad` | code/kern/fs/sfs/sfs_inode.c:312-330 | inside the file nothing changes; at its end the file grows by one zeroed block |
| `SimpleFs.Sfs.BmapTruncate` | code/kern/fs/sfs/sfs_inode.c:332-343 | exactly the last block goes |
| `SimpleFs.Sfs.ReadBuf` | code/kern/fs/sfs/sfs_io.c:43-55 | each byte asked for is the disk's, whatever the shared buffer held, and the disk does not change |
| `SimpleFs.Sfs.WriteBuf` | code/kern/fs/sfs/sfs_io.c:57-70 | read, change and write back: the place then reads as the bytes written, the other bytes of the block and all other blocks as before |
| `SimpleFs.Sfs.ClearBlock` | code/kern/fs/sfs/sfs_io.c:91-106 | the block becomes zero and no other changes |
| `SimpleFs.Sfs.Transfer` | code/kern/fs/sfs/sfs_inode.c:588-628 | head, whole blocks and tail together copy exactly the bytes of the range, or a prefix of it when the disk is full |
| `SimpleFs.Sfs.Io` | code/kern/fs/sfs/sfs_inode.c:555-637 | a write replaces exactly bytes offset .. offset + alen and extends the size, also from behind the size inside or right behind the last block; a read returns exactly the clipped slice and changes nothing; -E_INVAL exactly for the offsets and lengths that do not fit; a write stops short only with fewer than three free blocks left; the blocks reach the new size unless a write behind them stored nothing |
| `SimpleFs.Sfs.TruncFile` | code/kern/fs/sfs/sfs_inode.c:1101-1145 | the file has the new size and as many blocks, old blocks kept and new ones zeroed; it fails only with fewer than three free blocks left, and then size and old blocks stay |
| `SfsSpec.FitContent` | code/kern/fs/sfs/sfs_inode.c:1101-1145 | truncation and extension keep every byte below both sizes |
| `SfsSpec.FilledContent` | code/kern/fs/sfs/sfs_inode.c:630-635 | a write that starts at or before the end gives the old byte sequence with the range overwritten |
| `SfsSpec.FilledBacked` | code/kern/fs/sfs/sfs_inode.c:630-635 | after a write the blocks reach the size exactly if it stored something or started at or before their end |
| `SfsTail.SizeWithoutBlock` | code/kern/fs/sfs/sfs_inode.c:630-635 | an input where they do not |
| `SfsTail.ExtensionZero` | code/kern/fs/sfs/sfs_inode.c:1101-1145 | after an extension the new bytes read as zero exactly if the bytes the file already held there, behind its size, are zero |
| `SfsTail.LastBlock` | code/kern/fs/sfs/sfs_inode.c:1101-1145 | for a file with just the blocks it needs those are the rest of the last block, and there are none if the size is a multiple of the block size |
| `SfsTail.CutThenExtend` | code/kern/fs/sfs/sfs_inode.c:1101-1145 | a file cut and extended again shows its old bytes up to the end of the block it was cut in, and zero behind |
| `SfsTail.OldBytesBack` | code/kern/fs/sfs/sfs_inode.c:1101-1145 | 5000 bytes cut to 4100 and extended to 5000 are the old ones again |
| `SfsTail.OldBytesShown` | code/kern/fs/sfs/sfs_inode.c:1101-1145 | such a file of sevens, which was clean before the cut |
| `SfsTail.CutClean` | code/kern/fs/sfs/sfs_inode.c:1101-1145 | a cut leaves bytes behind the end exactly if those it cuts from the last block are not all zero; a cut at a block boundary never does |
| `SfsTail.WriteClean` | code/kern/fs/sfs/sfs_inode.c:555-637 | a write never leaves bytes behind the end |
| `SfsTail.GrowClean` | code/kern/fs/sfs/sfs_inode.c:1101-1145 | neither does an extension, successful or not |
| `SfsTail.GapZero` | code/kern/fs/sfs/sfs_inode.c:555-637 | a write from behind the size shows zero in the gap exactly if the bytes held there are zero |
| `SfsTail.AlwaysClean` | code/kern/fs/vfs/vfsfile.c:59-66 | over every run of writes with any outcome, seeks beyond the end and O_TRUNC no byte is left behind the end |
| `SfsTail.AlwaysZero` | code/kern/fs/sfs/sfs_inode.c:1088-1099 | so after every such run an extension reads as zero |
| `SimpleFs.Sfs.CreateInode` | code/kern/fs/sfs/sfs_inode.c:476-507 | a new empty file, or nothing changed |
| `SimpleFs.Sfs.Reclaim` | code/kern/fs/sfs/sfs_inode.c:1034-1062 | destroying an unlinked inode frees exactly its footprint (data, inode, indirect, second-level and double-indirect blocks) and no other file changes |
| `SfsSpec.Footprint` | code/kern/fs/sfs/sfs_inode.c:1034-1062 | with single ownership before and after, the blocks that became free are those whose owners belong to the inode |
| `SfsSpec.WrapTest` | code/kern/fs/sfs/sfs_inode.c:559-563 | the overflow test on 32-bit offsets refuses exactly the transfers that end at 2^31 or above |
| `SfsFile.WroteMore` | code/kern/fs/sfs/sfs_inode.c:588-628 | one more piece of a transfer extends the written range by exactly its bytes |
| `SfsFile.WroteContent` | code/kern/fs/sfs/sfs_inode.c:630-635 | block contents and size read as one byte sequence with the range overwritten |
| `SfsFile.ExtendOk` | code/kern/fs/sfs/sfs_inode.c:312-330 | mapping one more block and incrementing `blocks` adds exactly that block to the file |
| `SfsFile.TruncateOk` | code/kern/fs/sfs/sfs_inode.c:332-343 | unmapping the last block and decrementing `blocks` removes exactly that block |
| `Bitmaps.Bitmap.constructor` | code/kern/fs/sfs/bitmap.c:17-49 | every bit below nbits is set, the left-over bits of the last word are not |
| `Bitmaps.Bitmap.Alloc` | code/kern/fs/sfs/bitmap.c:51-69 | clears and returns the lowest set bit; fails exactly if none is set |
| `Bitmaps.Bitmap.FirstIn` | code/kern/fs/sfs/bitmap.c:57-64 | the inner loop finds the lowest bit of a word that is not zero |
| `Bitmaps.Bitmap.Test` | code/kern/fs/sfs/bitmap.c:79-84 | whether the bit is set |
| `Bitmaps.Bitmap.Free` | code/kern/fs/sfs/bitmap.c:86-92 | sets exactly that bit |
| `Bitmaps.Toggled` | code/kern/fs/sfs/bitmap.c:60-61 | xor with a mask flips one bit of the map and no other |
| `Words.ZeroWord` | code/kern/fs/sfs/bitmap.c:56-57 | a word is zero exactly if it has no bit |
| `SfsDirs.Tree.Search` | code/kern/fs/sfs/sfs_inode.c:430-460 | the slot of the name, and an empty or new slot |
| `SfsDirs.Tree.Create` | code/kern/fs/sfs/sfs_inode.c:1147-1198 | a new file under a new name, the existing file, or an error and nothing changed, with the exact condition for success; the link invariant holds |
| `SfsDirs.Tree.Link` | code/kern/fs/sfs/sfs_inode.c:771-800 | one more name and one more link; directories and existing names are refused |
| `SfsDirs.Tree.Mkdir` | code/kern/fs/sfs/sfs_inode.c:722-769 | a live, empty directory with its parent set, under a new name |
| `SfsDirs.Tree.Rename1` | code/kern/fs/sfs/sfs_inode.c:802-816 | within a directory exactly the one name changes |
| `SfsDirs.Tree.Rename2` | code/kern/fs/sfs/sfs_inode.c:818-867 | between directories exactly one name moves, parent and counts follow; a rolled back failure changes nothing; when the rollback fails the name is lost, and the link invariant with it exactly if it named a directory |
| `SfsDirs.Tree.Rename` | code/kern/fs/sfs/sfs_inode.c:869-898 | both cases with the checks on the names, and the exact condition for success; every live directory stays under the root exactly if none is moved below itself |
| `SfsDirs.Tree.Unlink` | code/kern/fs/sfs/sfs_inode.c:1200-1257 | exactly that name goes, under the exact condition for success; a directory must be empty and ends removed with no links; the call blocks on its own lock exactly for a directory entered in itself |
| `SfsDirs.Tree.Forget` | code/kern/fs/sfs/sfs_inode.c:1020-1070 | an inode without links has no names left anywhere, so removing it changes no name |
| `SfsLinks.LinkFileOk` | code/kern/fs/sfs/sfs_inode.c:385-396 | a new link keeps: nlinks is the number of entries (plus one and the subdirectories, for a directory), slots counts entries, names are distinct |
| `SfsLinks.UnlinkFileOk` | code/kern/fs/sfs/sfs_inode.c:398-410 | so does removing a file's entry |
| `SfsLinks.MkdirOk` | code/kern/fs/sfs/sfs_inode.c:722-751 | so does mkdir, with the dot and dot-dot links |
| `SfsLinks.RmdirOk` | code/kern/fs/sfs/sfs_inode.c:1216-1228 | so does removing an empty directory, which ends with nlinks 0 |
| `SfsLinks.MoveDirOk` | code/kern/fs/sfs/sfs_inode.c:818-867 | so does moving a directory, also into itself |
| `SfsLinks.RollbackIsNothing` | code/kern/fs/sfs/sfs_inode.c:846-853 | unlinking and linking again restores the state exactly |
| `SfsDirs.LostLink` | code/kern/fs/sfs/sfs_inode.c:846-853 | when the old entry cannot be restored either, the inode loses that name and nothing else, and the link invariant survives exactly if a file was moved |
| `SfsLinks.ParentThere` | code/kern/fs/sfs/sfs_inode.c:509-512 | the parent of a live directory is there and has links, so loading it passes the assertions of sfs_load_inode |
| `SfsDirs.ParentGone` | code/kern/fs/sfs/sfs_inode.c:912-921 | a removed directory that is still in use outlives its parent when that is removed and reclaimed: its parent field then names a free block |
| `SfsDirs.Nested` | code/kern/fs/sfs/sfs_inode.c:722-769 | a tree to which that applies, and in which a directory can be moved below itself |
| `SfsPaths.MoveConnected` | code/kern/fs/sfs/sfs_inode.c:855-861 | moving a directory keeps every live directory under the root exactly if the new place is not the directory itself or below it |
| `SfsPaths.MoveDirConnected` | code/kern/fs/sfs/sfs_inode.c:818-867 | the same for the rename of a directory as the source does it |
| `SfsPaths.MovedInside` | code/kern/fs/sfs/sfs_inode.c:855-861 | moved below itself, a directory never reaches the root, however far one goes up |
| `SfsPaths.KeptConnected` | code/kern/fs/sfs/sfs_inode.c:722-769 | an operation that adds or removes one directory, or changes no parent, keeps every live directory under the root |
| `SfsDirs.RootAlone` | code/tools/mksfs.c:231-237 | the root of a new image satisfies the invariant |
| `InodeLife.StepAsserts` | code/kern/fs/sfs/sfs_inode.c:122-156 | of the assertions at the modelled steps (references, open counts, reclaim counts, loads, kills) only those of a load can fail: exactly if the block is free, or in use without a link |
| `InodeLife.StepOk` | code/kern/fs/sfs/sfs_inode.c:1020-1070 | every step whose assertions hold keeps the counters exact |
| `InodeLife.RunOk` | code/kern/fs/vfs/inode.c:60-70 | hence so does every run |
| `InodeLife.EveryRun` | code/kern/fs/sfs/sfs_inode.c:105-120 | on every interleaving of drops, lookups, loads, links and blocked reclaims, with the lock granted in any order: reclaim_count is the number of pending reclaims plus one if referenced, inodes are killed only without references and pending reclaims, at most one inode in memory stands for a disk inode, a block in use without links has an inode in memory that will free it, and only a load can fail an assertion (InodeLoads.EveryRun says which) |
| `InodeLife.LoadSafe` | code/kern/fs/sfs/sfs_inode.c:122-156 | a load whose inode had a link when it began to wait passes both assertions, unless a link is removed meanwhile |
| `InodeLife.LoadPasses` | code/kern/fs/sfs/sfs_inode.c:136-141 | whether a load passes is settled when it gets the lock: exactly if the inode has a link then, whatever runs while it reads |
| `InodeLife.NamelessLoad` | code/kern/fs/sfs/sfs_inode.c:476-507 | a block in use without a link that is not in the hash belongs to an inode just being created |
| `InodeLoads.LinksOk` | code/kern/fs/sfs/sfs_inode.c:385-410 | nlinks is the number of slots, dots and dot-dots that name the inode after every link, mkdir, unlink, rmdir and half of a rename, and the assertions on nlinks there hold |
| `InodeLoads.StepOk` | code/kern/fs/sfs/sfs_inode.c:514-527 | every step of lookups, creates, links, mkdirs, unlinks, renames and loads keeps: directories are placed as their parents say, no load by name of a directory waits behind the load of the removal that holds its lock, and a waiting load of a parent has a live parent |
| `InodeLoads.StepAsserts` | code/kern/fs/sfs/sfs_inode.c:122-156 | every assertion holds at every step but those of the load of the parent of a directory that was removed before its parent field was read; these hold exactly if the parent's block is in use, and has a link |
| `InodeLoads.EveryRun` | code/kern/fs/sfs/sfs_inode.c:122-156 | hence on every run from a mounted file system, with the lock granted to loads in the order of arrival |
| `InodeLoads.LoadBegins` | code/kern/fs/sfs/sfs_inode.c:509-527 | a load by name, by the remover, of the root, or of the parent of a directory that is not removed passes the assertion on its block however long it waits and whatever runs meanwhile |
| `InodeLoads.LoadEnds` | code/kern/fs/sfs/sfs_inode.c:136-141 | and the one on nlinks after it has read the inode |
| `RemovedParents.RemovedNameless` | code/kern/fs/sfs/sfs_inode.c:1216-1228 | a removed directory has no links |
| `RemovedParents.RmdirRun` | code/kern/fs/sfs/sfs_inode.c:1200-1257 | the run of one rmdir of a directory in use |
| `RemovedParents.ParentGone` | code/kern/fs/sfs/sfs_inode.c:912-921 | from every state with an otherwise empty /a/b in use: b removed, a removed, a being reclaimed while its child's user asks for the parent, and the load finds the block free |
| `RemovedParents.ExampleNested` | code/kern/fs/sfs/sfs_inode.c:722-769 | such a state |
| `InodeLife.ForgottenIff` | code/kern/fs/sfs/sfs_inode.c:1040-1044 | with no reclaim waiting or under way, an inode in the hash is without references exactly if its last reclaim failed to sync it and no lookup has come since |
| `InodeLife.ForgottenStays` | code/kern/fs/sfs/sfs_inode.c:1040-1044 | such an inode stays in memory over every run without a lookup of it |
| `InodeLife.ForgottenRun` | code/kern/fs/sfs/sfs_inode.c:1040-1044 | a run that ends there: load, drop, reclaim, failed sync |
| `InodeLife.RevivedSurvives` | code/kern/fs/sfs/sfs_inode.c:1028-1031 | a reclaim that finds the inode revived only counts itself off |
| `InodeLife.PipeAsSfs` | code/kern/fs/pipe/pipe_inode.c:92-110 | the extra reference test of pipe_inode_reclaim never decides: pipes follow the same protocol |
| `Timers.TimerList.Add` | code/kern/schedule/sched.c:108-128 | the new timer has its timeout left, every other timer what it had; the head is positive |
| `Timers.TimerList.Del` | code/kern/schedule/sched.c:130-147 | exactly that timer goes |
| `Timers.TimerList.Run` | code/kern/schedule/sched.c:149-179 | wakes exactly the timers with one tick left, once each, and brings all others one tick nearer |
| `Timers.InsertDue` | code/kern/schedule/sched.c:114-124 | splitting a delta leaves all deadlines as they were |
| `Timers.RemoveDue` | code/kern/schedule/sched.c:135-143 | merging a delta leaves all deadlines as they were |
| `Timers.WokenOnTime` | code/kern/schedule/sched.c:149-179 | on the ticks left, as the three operations change them: a timer with t ticks left is woken on exactly the t-th later tick, whatever happens to others |
| `Timers.Drive` | code/kern/schedule/sched.c:108-179 | over any run of add, delete and tick calls on a real list, a timer added with timeout t and left alone is woken by exactly the t-th later tick |
| `Pids.Table.GetPid` | code/kern/process/proc.c:173-205 | with fewer than MAX_PID - 1 processes, returns an unused id in 1 .. MAX_PID - 1 by either path, keeping ids strictly between last_pid and next_safe unused |
| `Pids.Table.Scan` | code/kern/process/proc.c:184-203 | the scan restarts finitely often and ends on an unused id |
| `Pids.Table.Fork` | code/kern/process/proc.c:543-547 | the new process has an id nobody has |
| `Pids.Drive` | code/kern/process/proc.c:173-205 | over any run of forks and reaps every id handed out is unused at that moment |
| `RunQueues.Scheduler.Enqueue` | code/kern/schedule/sched_MLFQ.c:21-32 | one queue down after a full slice, the first queue otherwise, with a slice that fits |
| `RunQueues.Scheduler.PickNext` | code/kern/schedule/sched_MLFQ.c:40-51 | the head of the first queue that is not empty |
| `RunQueues.Scheduler.Wakeup` | code/kern/schedule/sched.c:64-82 | the process is runnable and, unless it is running, in exactly one queue |
| `RunQueues.Scheduler.Schedule` | code/kern/schedule/sched.c:84-106 | the whole new state: runs the FIFO head of the first busy queue once the old process is back; each ready process is in exactly one queue, nothing else is, and the counts match |
| `RunQueues.Scheduler.Tick` | code/kern/schedule/sched_RR.c:40-48 | the running process uses its slice and asks for rescheduling at its end |
| `RunQueues.Scheduler.Leave` | code/kern/sync/wait.c:114-121 | a running process that goes to sleep or ends is in no queue |
| `RunQueues.Scheduler.Spawn` | code/kern/process/proc.c:100-127 | a new process is in no queue until it is woken |
| `RunQueues.BackOk` | code/kern/schedule/sched.c:90-93 | with the running process back in its queue everything ready is queued |
| `RunQueues.PickOk` | code/kern/schedule/sched.c:94-96 | taking the head of a queue leaves everything else queued |
| `Pipes.Pipe.TryRead` | code/kern/fs/pipe/pipe_state.c:133-161 | delivers the next accepted bytes in order, sleeps exactly if empty and open, and wakes writers whenever it made room |
| `Pipes.Pipe.TryWrite` | code/kern/fs/pipe/pipe_state.c:163-190 | accepts bytes in order up to the room there is, sleeps exactly if some are left and the pipe is open, and wakes readers |
| `Pipes.Pipe.Close` | code/kern/fs/pipe/pipe_state.c:113-119 | nobody sleeps on a closed pipe |
| `Pipes.Pipe.Interrupt` | code/kern/fs/pipe/pipe_state.c:64-78 | a caller woken by something else leaves its queue; everybody else sleeps on for the same reason |
| `Pipes.Pipe.Size` | code/kern/fs/pipe/pipe_state.c:121-131 | what is accepted and not delivered, or the room left |
| `Pipes.Turn` | code/kern/fs/pipe/pipe_state.c:150-152 | positions less than a buffer apart have different places in the ring |
| `Semaphores.Semaphore.Down` | code/kern/sync/sem.c:76-113 | takes a unit or joins the end of the queue; units got and left are the initial ones plus those given |
| `Semaphores.Semaphore.Up` | code/kern/sync/sem.c:59-75 | by any caller: the first call that asked and has no unit gets it, so units are granted in the order they were asked for and none lies idle while somebody waits |
| `Semaphores.Semaphore.Leave` | code/kern/sync/sem.c:92-101 | a waiter that gives up leaves the order of all others |
| `Semaphores.Semaphore.TryDown` | code/kern/sync/sem.c:115-124 | takes a unit exactly if one is free, and then nobody was waiting |
| `ImageBuilder.Builder.constructor` | code/tools/mksfs.c:239-271 | a new image satisfies the kernel's block ownership invariant |
| `ImageBuilder.Builder.AllocIno` | code/tools/mksfs.c:181-188 | blocks are handed out in ascending order and counted off |
| `ImageBuilder.Builder.UpdateCache` | code/tools/mksfs.c:399-412 | a new zeroed index block, the one in hand, or one found among the cached blocks; its assertion fails exactly if the block is not in hand and does not hash like number 0, or is not cached |
| `ImageBuilder.Builder.SearchCache` | code/tools/mksfs.c:200-207 | finds a cached block exactly if its number hashes like 0, under which all are filed |
| `ImageBuilder.Builder.NewInode` | code/tools/mksfs.c:209-220 | a new inode keeps the invariant |
| `ImageBuilder.Builder.AppendBlock` | code/tools/mksfs.c:414-441 | the block becomes the next of the file through the index blocks on its way, and nothing else moves |
| `ImageBuilder.Builder.AppendData` | code/tools/mksfs.c:547-561 | one block allocated, written and appended: the image stays one the kernel can mount and the file is one block longer |
| `ImageBuilder.Builder.AppendAll` | code/tools/mksfs.c:547-561 | after appending any number of blocks, the kernel's block map of index i on the flushed image is the i-th appended block, and the file holds exactly the appended contents; it fails only at the file limit or with no block left |
| `Freemap.Close` | code/tools/mksfs.c:330-352 | the free map written marks exactly the blocks not handed out |
| `Mounting.BitOfBlock` | code/kern/fs/sfs/sfs_fs.c:138-151 | bit i of the bitmap read block by block is bit i of the free map on disk |
| `Mounting.InitFreemap` | code/kern/fs/sfs/sfs_fs.c:138-151 | the bitmap holds exactly the bits of the free map on disk |
| `Mounting.CountFree` | code/kern/fs/sfs/sfs_fs.c:253-258 | counts the set bits |
| `Mounting.CloseAndMount` | code/kern/fs/sfs/sfs_fs.c:243-262 | closing a valid image and mounting it: the count equals super.unused_blocks, the kernel's invariant holds, every file is as built, and exactly the blocks not handed out are free |

## Left out

- Shared memory areas (VM_SHARE, shmem.c): splitting a shared area and mapping a swapped shared entry do not keep the counts.
- Page-table pages: only user frames are counted.
- VmOps.SwapOutPageOk: models one page of the loop in `swap_out_vma`; which pages the loop visits, `swap_out_mm` and the policy of kswapd are not modelled.
- swap_copy_entry and the exclusive swap-in of shared entries: used for shared areas only.
- Swap hash buckets: the cached pages are one list; the page counters of the two lists are their lengths.
- Preemption between a fault and the retried access: see Conventions.
- RedBlackTree.RbTree.Insert: the allocation of nodes and the recursive destruction of a tree are not modelled.
- SimpleFs.Sfs.Io: requires that the blocks reach the size, which a failed write can break (see Findings), and, of a write, that it starts in a mapped block or the next one, which the source asserts.
- SimpleFs.Sfs.TruncFile: a file whose size is already the new one has as many blocks as the size needs, as the source asserts.
- Device errors in SFS: the device always works; only the disk can be full.
- ImageBuilder.Builder.AppendData: the contents of directory entries and the link counts that mksfs writes are not modelled.
- Contents of directory slots on disk: a directory is a sequence of slots; the block map below it is the one of SfsMap.
- Inode protocol: anonymous pipes, which are never looked up, and the self-deadlock of an exclusive pipe_root_create on a pipe whose reclaim is pending are not modelled.
- Pids.Table.Fork: the parent and sibling pointers that `set_links` maintains are not modelled.
- RunQueues: fairness and starvation; the source has no ageing.
- Pipes.Pipe.TryWrite: totals stay below the wrap-around of the position counters.
- VmaSet.Mm.DupFrom: says over which areas the pages are copied; what one copy does is `SwapDaemon.Swap.CopyRange`.
- InodeLoads.StepOk: a rename whose rollback fails (`SfsDirs.LostLink`) is not among the steps; it takes a device that returns write errors.
- Semaphores: the queue of user semaphores per process and the time a timed wait has left.
- slab.c, boot code, drivers, the virtual file system's dispatch, system calls, ELF loading and user programs: not modelled.

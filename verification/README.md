# notux: file system, memory and processes

A Dafny model of three parts of the notux kernel and of its image builder, with proofs of what
they keep over every run. `dafny verify dfyconfig.toml` checks everything.

**The file system** (`kernel/xv6fs/fs.c`, `kernel/Xjail/xv6/xv6fs_ops.c`, `mkfs.c`). `DiskFormat` is
the disk as raw sectors and as the image they decode to: bitmap bits, dinodes, blocks as bytes
and as block numbers; `DiskLayout` says byte by byte where each of them lies. `BlockTree` states
exact, disjoint ownership of blocks by labelling each block with the one place (inode, slot) it
hangs at. `Inodes` is the inode layer as a class over the disk: allocation, the block map,
truncation, the cache, reading and writing, with files as flat byte strings. `Dirents`,
`Directory`, `Paths` and `PathWalk` are directories and path walks; `Tree`, `NameTree` and
`Namespace` the name space as a tree with exact link counts; `References` and `CreateUnlink` the
two operations that change it, neutral on every exit, and `PathEffects` what they mean for every
path. `Mkfs`, `ImageSize` and `MkfsImage` build an image of which all those invariants hold.
`BufferCache` shows separately that the write-through cache below is a plain disk.

**Memory** (`kernel/pmm.c`, `kernel/vmm.c`, `kernel/paging.c`, `kernel/onion.c`, `sys_brk`). `Pmm`
is the frame bitmap, `PageTables` the four-level walk (section 4.5 of the Intel SDM, volume 3A)
over memory as frames of 512 entries, `Vmm` the mapping code, `Paging` the boot tables and the
user copy of the kernel tree, `Isolation` what the sharing means over time, `FrameBytes` bytes
in frames, `Elf` the program loader (chapter 5 of the System V gABI) and `Heap` the break;
`ProcessImage` puts them together from boot to a loaded process, and `Separation` keeps many
address spaces apart over every run. Table frames are labelled by their position in the tree,
which makes a fresh frame visibly no live table. vmm_map_page does not tell when it finds no frame;
`FrameNeeds` counts the frames a range of pages takes, and loader and break are stated exactly in
those counts: when they are complete, when they report success, and what is missing when the two
differ.

**Processes and descriptors** (`kernel/process.c`, `kernel/syscall.c`). `Processes` gives each
step of the process table as a function and the trace it leaves, `Scheduling` what holds over
every run of steps, `ProcessTables` the C functions on the array, proved to be those steps.
`OpenFiles` and `Descriptors` put table and file system together: every cache slot has at least
as many references as descriptors and the current directory hold, so nothing held is freed or
replaced. The current directory itself may be removed; `RemovedDirectory` says what a walk from
there meets. `Execve` is execve from the path to what the new process sees.

A panic is an outcome (`Halted`, `Stopped`, `None`) whose contract says what ran out. System
calls enter through an interrupt gate, so each is one atomic step.

Where the documentation and the code differ, the model follows the code: link counts of
directories made by `mkfs.c` are one higher than those the kernel makes (mkfs.c:224-235), so such
a directory is not freed when it is unlinked (`MkfsImage.EtcLeaks`); and the comment that O_TRUNC leaks blocks
(kernel/syscall.c:617-626) describes blocks that stay owned by the file and are used again by the
next write.

## Model

| member | source | states |
|---|---|---|
| `Pmm.FrameAllocator.BitmapSet` | kernel/pmm.c:5-11 | setting a bit adds exactly that frame to the used ones, and nothing beyond the last frame |
| `Pmm.FrameAllocator.BitmapClear` | kernel/pmm.c:12-18 | clearing a bit frees exactly that frame |
| `Pmm.FrameAllocator.BitmapTest` | kernel/pmm.c:19-26 | a frame tests used exactly when it is; frames out of range count as used |
| `Pmm.FrameAllocator.Init` | kernel/pmm.c:27-40 | after initialisation exactly the reserved frames are used |
| `Pmm.FrameAllocator.ReserveRegion` | kernel/pmm.c:41-63 | every frame a physical region touches becomes used, no other changes |
| `Pmm.FrameAllocator.AllocPage` | kernel/pmm.c:64-78 | the lowest free frame is taken; 0 only when every frame is used |
| `Pmm.FrameAllocator.FreePage` | kernel/pmm.c:79-90 | exactly the frame of the address is free again |
| `Vmm.AddressSpaces.GetNextLevel` | kernel/vmm.c:16-44 | the table below an entry, made empty and linked in if asked for; no translation changes |
| `Vmm.AddressSpaces.SplitHugePde` | kernel/vmm.c:45-88 | a 2 MiB entry becomes a table of 512 pages with the same translations; no address changes its translation |
| `Vmm.AddressSpaces.MapPage` | kernel/vmm.c:103-172 | exact update: one page then translates to the frame given and every other 48-bit address is as before, or, exactly when frames are short, no translation changes; the tree stays well formed |
| `Vmm.AddressSpaces.UnmapPage` | kernel/vmm.c:173-221 | exactly one page loses its translation; it fails only when a 2 MiB entry cannot be split, and then changes no translation |
| `Vmm.AddressSpaces.VirtToPhys` | kernel/vmm.c:222-266 | the software walk computes the translation the page tables define |
| `PageTables.FourLevels` | kernel/vmm.c:222-266 | the walk spelled out: nine address bits a level, three links, the frame of the last entry and twelve bits of offset, writable and user where all four entries say so |
| `PageTables.ThreeLevels` | kernel/vmm.c:222-266 | and for a 2 MiB page |
| `PageTables.WalkElsewhere` | kernel/vmm.c:103-172 | an entry written in an owned table changes the translation of no address that does not pass through that entry |
| `PageTables.LinkKeepsTree` | kernel/vmm.c:16-44 | linking a fresh table keeps the table frames distinct and labelled by their position |
| `PageTables.WalkAcrossEmpty` | kernel/vmm.c:16-44 | an empty table in place of an absent entry translates nothing either |
| `PageTables.WalkAcrossSplit` | kernel/vmm.c:45-88 | a split entry and its 512 pages translate every address alike |
| `PageTables.LeafWriteKeepsTree` | kernel/vmm.c:103-172 | writing a last-level entry keeps the tree |
| `PageTables.WalkToWrittenLeaf` | kernel/vmm.c:103-172 | the written entry decides the translation of its page and of no other |
| `PageTables.WalkUntouched` | kernel/vmm.c:103-172 | a tree whose frames are not written translates as before |
| `PageTables.LabelsExact` | kernel/vmm.c:103-172 | the labels of a tree are exactly the positions where the walk finds a table |
| `Vmm.NeededIsMissing` | kernel/vmm.c:103-172 | the frames vmm_map_page allocates before it can write an entry are the tables missing on the way, a 2 MiB page counting as a missing page table |
| `Paging.BootTree` | kernel/paging.c:15-46 | the boot tables form a well-formed tree |
| `Paging.BootIdentity` | kernel/paging.c:15-46 | they translate every address below 4 GiB to itself and nothing above |
| `Paging.PagingInit` | kernel/paging.c:15-46 | the loops build those tables |
| `Paging.CreateUserPml4` | kernel/vmm.c:267-340 | a new user tree, with frames of its own for the root and the tables it will change, or 0 when frames run out |
| `Paging.UserTree` | kernel/vmm.c:267-340 | the copied tree is well formed over its own and the shared tables |
| `Paging.UserTranslation` | kernel/vmm.c:267-340 | it translates every 48-bit address as the kernel tree does, save that the entries of the lowest table from 4 GiB up are not carried over (the boot tables have none there) |
| `Isolation.KernelKeepsTranslation` | kernel/vmm.c:267-340 | over every run of page edits through the user tree the kernel translates an address as at the start, if its directory entry was 2 MiB or absent when copied, or its root entry absent |
| `Isolation.SharedFollows` | kernel/vmm.c:330-340 | below a root entry both trees have the kernel translates as the user tree does |
| `Isolation.SharedPageShows` | kernel/vmm.c:330-340 | so a page mapped there through the user tree is mapped for the kernel as well |
| `FrameNeeds.OnTheWay` | kernel/vmm.c:103-148 | the tables counted for a range are those on the way to one of its pages |
| `FrameNeeds.OnePage` | kernel/vmm.c:103-172 | for one page the frames counted are its own and what vmm_map_page allocates on the tree |
| `FrameNeeds.SpentTurn` | kernel/syscall.c:379-402 | in a loop that maps fresh frames page by page a mapping that fails leaves no frame, so the next page is noticed |
| `Elf.LoadElf` | kernel/onion.c:116-267 | returns 0 exactly for a file that passes the checks when there are frames for all pages and for all tables but those of the very last page; with those too every page holds what the last segment over it says, without them the last page alone is as before; no copy leaves the file or its frame |
| `Elf.LoadSegment` | kernel/onion.c:193-255 | one PT_LOAD header: exactly when there are frames for its pages and the tables missing on the way to them, every page gets a fresh frame with the bytes of the segment; what is noticed of a shortage, and how many frames are spent |
| `Elf.LoadPage` | kernel/onion.c:222-254 | one page: a zeroed fresh frame, mapped, with the part of the file that falls into it; the late offset checks cannot fail |
| `Elf.LoadedByte` | kernel/onion.c:193-255 | for segments on disjoint pages, every address in [p_vaddr, p_vaddr+p_memsz) is user-accessible, writable as PF_W says, and holds the file byte below p_filesz and 0 above |
| `Elf.UnloadedPage` | kernel/onion.c:193-255 | an address on no segment page translates as before the load |
| `Elf.PageMissing` | kernel/onion.c:233-236 | when segments share no page, a load that found too few frames and yet returned 0 has left a page of the file out |
| `Elf.CompleteOrNot` | kernel/onion.c:233-236 | so for such files returning 0 and being complete differ exactly by the frames of the last page's tables |
| `FrameBytes.LoadAfterStore` | kernel/onion.c:225-254 | a byte stored in a frame is read back, and no other byte changes |
| `Heap.SysBrk` | kernel/syscall.c:345-420 | whatever frames are left, the heap pages recorded are exactly those mapped, on distinct frames, and no translation outside the heap changes; the pages below both breaks keep their frames and bytes; the break moves unless the value is below the heap or the loop finds no frame; the heap invariant survives the move exactly when there are frames for the new pages and all tables missing on the way |
| `Heap.Grow` | kernel/syscall.c:379-402 | the pages of the range get fresh frames, one each, exactly when there are frames for them and their tables, all other pages keep theirs; success is reported exactly when all but the last page's tables are |
| `Heap.Shrink` | kernel/syscall.c:403-417 | exactly the pages of the range lose their translation, with no frame needed, all other pages keep their frames |
| `Heap.FirstByteUnmapped` | kernel/syscall.c:379-402 | with one to three frames left the first byte of a heap is granted and not mapped |
| `Elf.OneMoreFrame` | kernel/onion.c:204-240 | no two pages of a load share a frame, and none lies on a frame that was in use |
| `ProcessImage.Boot` | kernel/paging.c:15-46 | after paging_init and vmm_init the kernel sees [0, 4 GiB) at itself and nothing else |
| `ProcessImage.Fork` | kernel/vmm.c:267-340 | a tree forked from the boot tables sees what the kernel sees, is made only of frames that were free, and costs six; it fails exactly when fewer are free |
| `ProcessImage.StartProcess` | kernel/onion.c:470-481 | succeeds exactly for a file that passes the checks when there are six frames and those the loader notices; for segments on disjoint pages below the heap the process then has an empty heap region and sees, at every 48-bit address, the byte the file puts there or else the identity map, if the last page's tables were there too, and otherwise lacks a page; nothing in use before is written |
| `ProcessImage.SevenFrames` | kernel/onion.c:233-236 | with seven frames left a one-page program at 4 MiB is started and its page is missing |
| `ProcessImage.OnePageFrames` | kernel/onion.c:193-255 | such a program takes its page and one split page table; the loader notices only the page |
| `ProcessImage.SmallProgramLoads` | kernel/onion.c:116-192 | a file of 122 bytes that is such a program: one segment of four bytes at 4 MiB, of which the file gives the first two |
| `Elf.HeaderBytes` | kernel/onion.c:133-190 | the checks on the file header, byte by byte |
| `Elf.SegmentLayout` | kernel/onion.c:182-195 | the i-th program header is at e_phoff + 56 i, and which of its bytes are type, flags, offset, address and the two sizes |
| `Elf.PagesOfSegment` | kernel/onion.c:214-227 | the pages loaded for a segment are exactly those that hold one of its addresses |
| `FrameBytes.WordOfBytes` | kernel/onion.c:225-254 | a word of a frame is the little-endian number of its eight bytes, for program bytes and table entries alike |
| `Heap.HeapAddress` | kernel/syscall.c:345-420 | an address of the heap region is mapped, for user reads and writes, exactly when its page starts below the break |
| `ProcessImage.LoadedAddress` | kernel/onion.c:193-255 | what a complete load into a forked tree makes of any one address |
| `Separation.OthersUndisturbed` | kernel/vmm.c:103-172 | an operation on one address space changes no translation, no table and no page of another |
| `Separation.StepKeepsWorld` | kernel/pmm.c:64-78 | address spaces share no frame with each other or with the kernel tables, and every operation keeps it so |
| `Separation.RunLeavesOthers` | kernel/syscall.c:345-420 | over every run of creations, loads and heap moves on other processes, a process keeps every translation and the contents of all its tables and pages, and the kernel keeps its map |
| `Separation.StillThere` | kernel/syscall.c:345-420 | an undisturbed process keeps its heap pages and its loaded bytes |
| `Separation.StartStep` | kernel/onion.c:470-481 | creating and loading a process, successful or not, is a step of such a run |
| `Separation.BrkStep` | kernel/syscall.c:345-420 | sys_brk is a step of such a run, whether frames suffice or not |
| `DiskFormat.DinodeRoundTrip` | kernel/xv6fs/fs.c:139-153 | a dinode read back from its 68 bytes is the one written, negative shorts included |
| `DiskFormat.DinodeWritten` | kernel/xv6fs/fs.c:139-153 | writing one dinode in its sector changes no other dinode, bitmap bit or data block |
| `DiskFormat.BitWritten` | kernel/xv6fs/fs.c:44-82 | setting or clearing a bit in the bitmap changes that block's bit alone |
| `DiskFormat.DataWritten` | kernel/Xjail/xv6/xv6fs_bridge.c:92-106 | writing a block above the metadata changes no dinode and no bit |
| `DiskFormat.WordWritten` | kernel/xv6fs/fs.c:244-292 | a block number stored in a table block changes that entry alone |
| `DiskFormat.Disk.PutDinode` | kernel/xv6fs/fs.c:139-153 | the raw write has that effect on the decoded disk |
| `DiskFormat.Disk.SetBit` | kernel/xv6fs/fs.c:44-69 | the raw read-modify-write sets that bit of the decoded disk |
| `DiskFormat.Disk.ClearBit` | kernel/xv6fs/fs.c:70-82 | and clears it |
| `DiskLayout.DinodeLayout` | kernel/Xjail/xv6/fs.h:21-28 | which bytes of the 68 are type, major, minor, link count, size and the fourteen block numbers |
| `DiskLayout.DinodeOnDisk` | kernel/Xjail/xv6/fs.h:29-30 | inode i of the decoded disk is the (i mod 7)-th dinode of sector inodestart + i / 7 |
| `DiskLayout.BitOnDisk` | kernel/Xjail/xv6/fs.h:31-32 | a block is in use when its one bit of the raw bitmap sectors is set |
| `DiskLayout.DirentLayout` | kernel/Xjail/xv6/fs.h:33-37 | which bytes of the 16 are inode number and name |
| `DiskLayout.ContentsOnDisk` | kernel/xv6fs/fs.c:244-292 | every byte of a file, read off the raw sectors by following the block numbers of its dinode through the direct, single and double indirect ranges |
| `Inodes.EmptiedIsEmpty` | kernel/syscall.c:617-650 | after the truncation of open the file has no bytes, keeps its blocks, and every other file is as it was |
| `Inodes.ReloadLosesNothing` | kernel/xv6fs/fs.c:188-210 | a loaded inode forgotten and loaded again is the same: memory and disk agree |
| `BlockTree.OneOwner` | kernel/xv6fs/fs.c:244-292 | no two places of any inodes' trees hold the same block, none holds metadata, and every held block is marked in the bitmap |
| `BlockTree.BitmapExact` | kernel/xv6fs/fs.c:44-82 | above the metadata the set bits are exactly the blocks some tree reaches |
| `BlockTree.GraftOwned` | kernel/xv6fs/fs.c:244-292 | linking a marked block in at one empty place keeps exact disjoint ownership |
| `BlockTree.SamePtr` | kernel/xv6fs/fs.c:244-292 | what a block holds matters only to the places below it |
| `BlockTree.ReleaseOne` | kernel/xv6fs/fs.c:293-340 | in the order itrunc frees, the block at the next place is still marked, so a free block is never freed |
| `BlockTree.OwnedWithout` | kernel/xv6fs/fs.c:293-340 | with everything freed and the addresses zeroed, all other ownership stands |
| `Inodes.FileSystem.Balloc` | kernel/xv6fs/fs.c:44-69 | the lowest free block, marked and cleared; the panic only when every bit is set |
| `Inodes.FileSystem.Bfree` | kernel/xv6fs/fs.c:70-82 | the bit of a marked block is cleared |
| `Inodes.FileSystem.Ialloc` | kernel/xv6fs/fs.c:116-138 | the lowest free inode number is claimed; the panics only without a free inode or a free cache slot |
| `Inodes.FileSystem.Iupdate` | kernel/xv6fs/fs.c:139-153 | the dinode on disk becomes the inode in memory |
| `Inodes.FileSystem.Iget` | kernel/xv6fs/fs.c:155-179 | the one live slot of the inode, or the first free slot; at most one slot ever holds an inode |
| `Inodes.FileSystem.Idup` | kernel/xv6fs/fs.c:180-187 | one more reference, nothing else |
| `Inodes.FileSystem.Ilock` | kernel/xv6fs/fs.c:188-210 | the slot is locked and agrees with the dinode, loaded if it was not |
| `Inodes.FileSystem.Iunlock` | kernel/xv6fs/fs.c:211-216 | the lock is gone, nothing else |
| `Inodes.FileSystem.Iput` | kernel/xv6fs/fs.c:218-236 | drops one reference; exactly when it is the last one to a loaded inode without links, the inode and all its blocks are freed |
| `Inodes.FileSystem.Bmap` | kernel/xv6fs/fs.c:244-292 | the block of a file block number through the direct, single and double indirect ranges; what is missing is allocated, what is there is found without any change |
| `Inodes.FileSystem.Itrunc` | kernel/xv6fs/fs.c:293-340 | exactly the blocks reachable from the inode are freed, each once; all other bits are unchanged; memory and disk both end with no blocks and size 0 |
| `Inodes.FileSystem.Readi` | kernel/xv6fs/fs.c:350-371 | exactly the clipped slice of the flat byte string; nothing is allocated or changed |
| `Inodes.FileSystem.Writei` | kernel/xv6fs/fs.c:372-398 | exactly [off, off+n) of the flat byte string is overwritten or appended; no other file's bytes or dinode change; memory and disk agree again; it halts only for want of blocks past the old size |
| `Inodes.FileSystem.ResetSize` | kernel/syscall.c:617-650 | the truncation of open: the file is empty, its blocks stay owned, all invariants hold |
| `Inodes.WrittenContents` | kernel/xv6fs/fs.c:372-398 | the flat contents of every file after the loop of a write, with no holes below the new size |
| `Inodes.LongerFile` | kernel/xv6fs/fs.c:372-398 | a write past the end brings memory and disk together again |
| `Inodes.SameLength` | kernel/xv6fs/fs.c:372-398 | a write inside the file finds every block there, so the dinode need not be written |
| `Inodes.ChunkOfContents` | kernel/xv6fs/fs.c:350-371 | the bytes of one block are the bytes of the file at its place |
| `Dirents.EntryRoundTrip` | kernel/xv6fs/fs.c:425-446 | a directory entry read back from its 16 bytes is the one written |
| `Dirents.EntryWritten` | kernel/xv6fs/fs.c:425-446 | 16 bytes written at an entry's offset change that entry alone |
| `Dirents.BindName` | kernel/xv6fs/fs.c:425-446 | filling a free entry with an unused name adds exactly that binding and keeps names distinct |
| `Dirents.UnbindName` | kernel/Xjail/xv6/xv6fs_ops.c:111-117 | clearing an entry removes exactly that binding |
| `Directory.Dirlookup` | kernel/xv6fs/fs.c:404-424 | the first used entry of that name, as an inode reference and an offset |
| `Directory.Dirlink` | kernel/xv6fs/fs.c:425-446 | the name goes into the first free entry or at the end, or -1 when it is there already |
| `Paths.SkipElem` | kernel/xv6fs/fs.c:447-471 | the first slash-separated element cut to 14 bytes, and the rest past its slashes |
| `Paths.FirstElement` | kernel/xv6fs/fs.c:447-471 | that element heads the list of elements of the path |
| `Paths.JoinedComponents` | kernel/xv6fs/fs.c:447-471 | a slash between two paths joins their elements |
| `Paths.ComponentsOfNames` | kernel/xv6fs/fs.c:447-471 | the elements of a path made of names are those names, each cut to 14 bytes |
| `PathWalk.Namex` | kernel/xv6fs/fs.c:472-502 | from the root for an absolute path, else from the current directory: the fold of directory lookups over the elements; success leaves one reference more, on the result alone, failure none; nothing stays locked; no lock it takes is held |
| `PathWalk.ResolveBoth` | kernel/xv6fs/fs.c:480-496 | walking one list of names and then another is walking both at once |
| `PathWalk.RelativePath` | kernel/xv6fs/fs.c:476-479 | when the absolute path p leads to directory d, a relative path q walked from d leads where p/q leads |
| `PathEffects.ParentThenName` | kernel/xv6fs/fs.c:503-513 | namei is nameiparent and one lookup of the last name |
| `PathEffects.CreatedPath` | kernel/Xjail/xv6/xv6fs_ops.c:10-60 | after create the path leads to the new inode, before it led nowhere, and what any path led to it still leads to |
| `PathEffects.UnlinkedPath` | kernel/Xjail/xv6/xv6fs_ops.c:61-130 | after unlink the path leads nowhere, and no path leads anywhere it did not lead before |
| `PathWalk.StepInto` | kernel/xv6fs/fs.c:480-496 | one turn of the walk, neutral but for the reference it moves |
| `PathWalk.ResolveStep` | kernel/xv6fs/fs.c:472-502 | looking up the first name and resolving the rest is resolving all |
| `Tree.LinksChange` | kernel/Xjail/xv6/xv6fs_ops.c:27-57 | when one directory changes, the number of entries naming an inode changes by that directory's share |
| `Tree.EntryLinked` | kernel/xv6fs/fs.c:404-424 | what an entry of the tree names exists, has links, and is in the tree if it is a directory |
| `Tree.FreeUnlinked` | kernel/Xjail/xv6/xv6fs_ops.c:27-57 | nothing names a free inode |
| `NameTree.CreateKeepsTree` | kernel/Xjail/xv6/xv6fs_ops.c:27-57 | a new file or directory at an unused name keeps one tree of duplicate-free directories with exact link counts |
| `NameTree.UnlinkKeepsTree` | kernel/Xjail/xv6/xv6fs_ops.c:77-129 | so does removing a file, or a directory without entries past its first two: nothing is orphaned |
| `NameTree.EmptyByName` | kernel/Xjail/xv6/xv6fs_ops.c:94-110 | the scan past the first two entries finds nothing exactly when no name but "." and ".." is bound |
| `NameTree.FreeKeepsTree` | kernel/xv6fs/fs.c:218-236 | and freeing an inode without links |
| `NameTree.CreatedBinding` | kernel/Xjail/xv6/xv6fs_ops.c:27-57 | create adds one binding; every other lookup in every directory is as before |
| `NameTree.UnlinkedBinding` | kernel/Xjail/xv6/xv6fs_ops.c:111-129 | unlink removes one; every other lookup in every directory is as before |
| `NameTree.CreateLinks` | kernel/Xjail/xv6/xv6fs_ops.c:27-57 | the entries naming each inode change by exactly what create adds to its link count |
| `NameTree.UnlinkLinks` | kernel/Xjail/xv6/xv6fs_ops.c:111-129 | the entries naming each inode change by exactly what unlink takes off its link count |
| `NameTree.CreateKeepsSurplus` | kernel/Xjail/xv6/xv6fs_ops.c:27-57 | create leaves the difference between link count and entries naming it as it was, for every inode; a new inode starts at 0 |
| `NameTree.UnlinkKeepsSurplus` | kernel/Xjail/xv6/xv6fs_ops.c:111-129 | unlink too, for every inode, the removed one included |
| `NameTree.RemovedDirectoryLinks` | kernel/Xjail/xv6/xv6fs_ops.c:94-129 | a directory that can be removed has one link and its surplus |
| `Namespace.NamespaceClosed` | kernel/xv6fs/fs.c:472-502 | in a tree of directories every walk stays among whole directories and existing inodes |
| `Namespace.ReachableFromRoot` | kernel/Xjail/xv6/xv6fs_ops.c:77-118 | every directory of the tree is reached from the root by some path |
| `Namespace.FreedKeepsNamespace` | kernel/xv6fs/fs.c:218-236 | freeing an inode without links keeps the name space |
| `Namespace.WriteKeepsNamespace` | kernel/xv6fs/fs.c:372-398 | writing a file keeps the name space |
| `References.FreedAtLastReference` | kernel/xv6fs/fs.c:218-236 | iput frees an inode exactly when it has no links and the reference is the last one |
| `CreateUnlink.MakeInode` | kernel/Xjail/xv6/xv6fs_ops.c:27-49 | a claimed inode with one link and, for a directory, its two entries and the parent's extra link |
| `CreateUnlink.Create` | kernel/Xjail/xv6/xv6fs_ops.c:10-60 | the new name bound to the lowest free inode in the first free entry, or the existing file; returned locked with one reference; every failure leaves every reference, lock and byte as it was |
| `CreateUnlink.IsEmptyDir` | kernel/Xjail/xv6/xv6fs_ops.c:94-110 | a directory passes exactly when every entry past the first two is free |
| `CreateUnlink.Unlink` | kernel/Xjail/xv6/xv6fs_ops.c:61-130 | succeeds exactly for a bound name other than "." and ".." of a file, or of a directory in which no other name is bound; the inode is freed exactly when that was its last link and nobody holds it; every exit leaves references and locks as they were |
| `CreateUnlink.LastNameGone` | kernel/Xjail/xv6/xv6fs_ops.c:94-129 | when the last name of a directory is unlinked the directory can be unlinked itself |
| `CreateUnlink.FreedDirectory` | kernel/Xjail/xv6/xv6fs_ops.c:111-129 | a removed directory is freed exactly when it has no surplus link and nobody holds it; otherwise it keeps its surplus as links |
| `BufferCache.Cache.BcacheGet` | kernel/Xjail/xv6/xv6fs_bridge.c:50-72 | the block's valid buffer, or the next victim, written back if dirty |
| `BufferCache.Cache.Bread` | kernel/Xjail/xv6/xv6fs_bridge.c:73-86 | a valid buffer of the block with the bytes its readers see; at most one valid buffer a block; readers of all blocks see what they saw, except that recycling a buffer with an unlogged change loses exactly that change |
| `BufferCache.Cache.LogWrite` | kernel/Xjail/xv6/xv6fs_bridge.c:92-106 | the block on disk becomes the buffer; readers see no difference |
| `BufferCache.Cache.WriteBlock` | kernel/Xjail/xv6/xv6fs_bridge.c:73-106 | a logged modification through the cache is a write of the plain disk |
| `BufferCache.Cache.ReadBlock` | kernel/Xjail/xv6/xv6fs_bridge.c:73-86 | a read through the cache is a read of the plain disk |
| `BufferCache.NothingPending` | kernel/Xjail/xv6/xv6fs_bridge.c:50-106 | with every change logged the cache hides nothing: what readers see is the disk |
| `BufferCache.StaysBound` | kernel/Xjail/xv6/xv6fs_bridge.c:50-72 | a buffer keeps its block and bytes through as many misses as there are victims before it |
| `BufferCache.FilledIsSafe` | kernel/Xjail/xv6/xv6fs_bridge.c:50-86 | a buffer filled by a miss is safe through the next 63 misses |
| `BufferCache.RecycledNext` | kernel/Xjail/xv6/xv6fs_bridge.c:50-72 | and the bound is exact: the miss after takes it |
| `BufferCache.HitIsNotSafe` | kernel/Xjail/xv6/xv6fs_bridge.c:50-72 | a buffer found by a hit may be recycled by the very next miss |
| `ProcessTables.ProcessTable.SchedulerInit` | kernel/process.c:14-44 | the empty table |
| `ProcessTables.ProcessTable.GetProcessByPid` | kernel/process.c:51-67 | the first slot in use with that pid |
| `ProcessTables.CreatedByPid` | kernel/process.c:51-67 | which is the process just created |
| `ProcessTables.ProcessTable.CreateProcess` | kernel/process.c:68-171 | the first free slot READY with the next pid, fifteen zero registers below the five words of the return to user mode; nothing happens exactly without a free slot or a page table |
| `ProcessTables.ProcessTable.SetProcessEntry` | kernel/process.c:172-185 | the process will start at that address; its frame is otherwise the same |
| `ProcessTables.ProcessTable.SetProcessArgv` | kernel/process.c:186-200 | argc and argv go to the registers of its arguments |
| `ProcessTables.ProcessTable.ActivateProcess` | kernel/process.c:201-222 | the slot runs, on its own kernel stack and page table |
| `ProcessTables.ProcessTable.Schedule` | kernel/process.c:223-291 | the running process's stack pointer put away, the nearest READY slot ahead resumed at its own; only states and that stack pointer change, in those two slots |
| `ProcessTables.ProcessTable.ExitCurrentProcess` | kernel/process.c:292-307 | the current slot is a zombie with its exit code |
| `ProcessTables.ProcessTable.Wait4` | kernel/syscall.c:980-1031 | the first zombie whose recorded parent is the caller gives its pid and code and its slot is free, no other slot changing; nothing exactly when there is none |
| `Scheduling.StepKeepsInv` | kernel/process.c:68-316 | every step keeps: at most one RUNNING slot, the current one; distinct live pids; the processor set up for the current slot |
| `Scheduling.StepTracks` | kernel/process.c:223-307 | every step extends the history by nothing it forbids |
| `Scheduling.EveryRun` | kernel/process.c:223-316 | over every run from boot: those invariants; a history in which each process is made once, resumes only where it was last put away, exits once and is reaped at most once, by its creator; and no process lost: each one started and not exited is in exactly one slot, READY or RUNNING |
| `Scheduling.ReapedOnce` | kernel/syscall.c:980-1031 | no exit code is reaped twice |
| `Scheduling.ReapedIsExited` | kernel/syscall.c:980-1031 | a reaped code is one a process exited with before, and its reaper the process that had made it |
| `Scheduling.WaitReaps` | kernel/syscall.c:980-1031 | wait4 of a running process reaps one of the processes it made that have exited, with the code left, and none exactly when there is none |
| `Scheduling.SpawnExitWait` | kernel/process.c:143-152 | over every run from boot: when a process has spawned a child and that has exited unreaped, a wait4 of the process reaps it or another such child |
| `Scheduling.NobodyStarves` | kernel/process.c:223-291 | at any point of any run each process started and not exited, running, preempted or new, is resumed or exits within the next eight schedule calls |
| `Scheduling.PreemptedReturns` | kernel/process.c:252-273 | a preempted process runs again within the seven schedule calls after that, from the stack pointer put away |
| `Scheduling.BoundedWaiting` | kernel/process.c:223-273 | a READY process is dispatched at the latest at the schedule call numbered by its distance, at most seven, whatever happens in between |
| `OpenFiles.PutRef` | kernel/xv6fs/fs.c:218-236 | dropping a counted reference leaves every inode still held, and its bytes, as they are |
| `OpenFiles.LookupRef` | kernel/xv6fs/fs.c:503-508 | namei with holders counted, from the root or a current directory of the tree: one reference more, on the result |
| `OpenFiles.CreateRef` | kernel/syscall.c:605-631 | create and the size reset of open, with holders counted |
| `OpenFiles.UnlinkHeld` | kernel/Xjail/xv6/xv6fs_ops.c:61-130 | unlink leaves every inode somebody holds as it is, directories included, and a held file's bytes; the current directory stays in the tree or out of it, unless it is the one removed |
| `OpenFiles.EnteredAndRemoved` | kernel/Xjail/xv6/xv6fs_ops.c:94-129 | a directory just made under the root and entered can be removed by its path: the current directory is then outside the tree |
| `Descriptors.System.constructor` | kernel/Xjail/xv6/xv6fs_bridge.c:115-124 | after mounting, the root is the current directory and the invariant holds |
| `Descriptors.System.Open` | kernel/syscall.c:581-703 | the inode the path names, or a new one, in the lowest free descriptor from 3 on; it fails exactly when there is nothing to open or no descriptor is free; what it does to the file system is stated in full, and everything held stays but for the file truncated on purpose |
| `Descriptors.FlagBits` | kernel/syscall.c:64-68 | of a word of open flags O_CREAT is bit 6 and O_TRUNC bit 9, whatever the others are |
| `Descriptors.OpenTruncates` | kernel/syscall.c:605-650 | with O_TRUNC the file opened has no bytes afterwards; without it, opening what is there changes nothing in the file system |
| `Descriptors.System.Close` | kernel/syscall.c:704-732 | the descriptor is free and its reference given back, which frees the inode exactly when it was the last one and no name is left |
| `Descriptors.System.Dup` | kernel/syscall.c:800-853 | a second descriptor, offset and flags included, with a reference of its own |
| `Descriptors.System.Dup2` | kernel/syscall.c:854-908 | newfd becomes oldfd; dropping its old inode first is safe even when both are the same one |
| `Descriptors.System.Chdir` | kernel/syscall.c:1032-1067 | the directory becomes current, which puts the process into the tree; the old one is let go of, and if it was removed it is freed exactly at its last reference without links |
| `Descriptors.System.OpenBelow` | kernel/syscall.c:1032-1067 | chdir(p) and then open(q) with q relative opens what p/q leads to |
| `Descriptors.System.Mkdir` | kernel/syscall.c:1068-1103 | the directory is made and no reference is left |
| `Descriptors.System.UnlinkPath` | kernel/syscall.c:1104-1120 | the name goes; what is open stays open, an open directory too; the current directory leaves the tree exactly if it is the one removed |
| `Descriptors.System.LeaveTheTree` | kernel/syscall.c:1104-1120 | mkdir, chdir and unlink of the same path all succeed and leave the process in a directory outside the tree |
| `RemovedDirectory.NeverFromTree` | kernel/xv6fs/fs.c:472-502 | a walk from a directory of the tree never asks ilock for a free inode |
| `RemovedDirectory.RemovedIsBare` | kernel/Xjail/xv6/xv6fs_ops.c:94-129 | a removed directory still held has its two own names and no other, ".." naming the directory it was removed from |
| `RemovedDirectory.FromBare` | kernel/xv6fs/fs.c:472-502 | from such a directory a walk meets a free inode exactly when it climbs and meets one from the parent on |
| `RemovedDirectory.FromBareInTree` | kernel/xv6fs/fs.c:472-502 | so never while the parent is in the tree |
| `RemovedDirectory.FromBareGone` | kernel/xv6fs/fs.c:188-210 | and, once the parent is freed, exactly when the path climbs: then ilock panics |
| `RemovedDirectory.ParentFreed` | kernel/xv6fs/fs.c:188-210 | mkdir /d, mkdir /d/d, chdir /d/d, unlink /d/d, unlink /d: the ".." the process is left with names a free inode |
| `Descriptors.System.Exit` | kernel/syscall.c:972-979 | the process is a zombie; its descriptors stay counted |
| `Descriptors.System.Wait4` | kernel/syscall.c:980-1031 | the child is reaped; its descriptors stay counted |
| `Descriptors.System.TimerTick` | kernel/process.c:223-291 | a schedule call touches no descriptor |
| `Descriptors.System.Inherit` | kernel/syscall.c:249-276 | the caller's first three descriptors, each with a reference of its own for the child |
| `Descriptors.System.ReadProgram` | kernel/syscall.c:133-181 | succeeds exactly for an existing file of 1 byte to 256 KiB, whose bytes it returns; every exit gives back the reference |
| `Descriptors.System.MakeProcess` | kernel/syscall.c:223-300 | process made by the caller, its first three descriptors inherited as they are, and entry point, or the slot given up |
| `Execve.SpawnFromXv6fs` | kernel/syscall.c:121-344 | from the path to the process: succeeds exactly for a file of acceptable size that passes the loader's checks, with a free slot, a pid below 2^31 and the frames the loader notices; the process's first frame resumes at the address in bytes 24 to 31 of the file, it is a child of the caller with its standard descriptors, and it sees the file's bytes as on disk; everything held stays held |
| `Execve.SmallProgramStarts` | kernel/syscall.c:296-299 | the small program starts at 4 MiB, in its segment, at the bytes its file gives |
| `Descriptors.HeldThroughout` | kernel/syscall.c:581-732 | over any run in which a slot stays held it holds one inode, never freed, and its bytes change only by truncating that file |
| `Mkfs.SuperRoundTrip` | mkfs.c:251-283 | the superblock sector read field by field is the layout of main |
| `Mkfs.SuperLayout` | kernel/Xjail/xv6/fs.h:11-20 | which words of the sector the kernel takes for what |
| `Mkfs.ImageNumbers` | mkfs.c:251-283 | 8192 blocks, 200 inodes from block 32 on, the bitmap from block 61 on, 64 blocks of metadata |
| `Mkfs.SuperRead` | kernel/xv6fs/fs.c:93-112 | what mkfs writes to sector 1 the kernel reads as the layout of the image |
| `Mkfs.Builder.constructor` | mkfs.c:251-283 | the zeroed image is sound with only metadata used, and its sector 1 reads as the layout |
| `Mkfs.Builder.Ialloc` | mkfs.c:112-122 | the next inode with one link |
| `Mkfs.Builder.BlockFor` | mkfs.c:159-195 | blocks handed out at the places the kernel's bmap uses, ownership kept, no block for anything else |
| `Mkfs.Builder.Iappend` | mkfs.c:150-212 | the bytes follow those the file had, as the kernel reads it; no other file changes; it takes exactly the blocks and tables the growth needs |
| `ImageSize.BlocksNext` | mkfs.c:159-195 | the blocks of a file in closed form: its data blocks and the tables on the way |
| `Mkfs.Builder.AppendAll` | mkfs.c:150-212 | any sequence of chunks appended to a file is their concatenation |
| `Mkfs.Builder.BallocMarkUsed` | mkfs.c:124-144 | the bitmap written has exactly the bits below used set |
| `MkfsImage.Dirlink` | mkfs.c:214-221 | one entry appended to a directory |
| `MkfsImage.MakeDirUnderRoot` | mkfs.c:224-235 | a directory under the root whose link count exceeds the entries naming it by one |
| `MkfsImage.SurplusLink` | mkfs.c:224-235 | a surplus link is kept account of as the difference of that directory |
| `MkfsImage.BuildImage` | mkfs.c:237-349 | the whole image: sector 1 the superblock still, ownership sound with the bitmap as written, the name space a tree with exact counts and surplus, the files holding what was put in; built exactly when metadata, four directory blocks and the blocks of the files are at most 4096 |
| `MkfsImage.EtcLeaks` | mkfs.c:224-235 | /etc of a built image, removed, is not freed: it keeps its inode with one link |
| `MkfsImage.Mount` | kernel/xv6fs/fs.c:87-113 | sector 1 is read; the mount fails exactly for a wrong magic word, and otherwise works by what the sector says, with all invariants of the kernel in force |
| `MkfsImage.BuiltMounts` | kernel/xv6fs/fs.c:87-113 | an image mkfs built is mounted with the layout it was built with |
| `MkfsImage.ReadWhole` | kernel/xv6fs/fs.c:350-371 | a whole file read by the kernel is its contents, or no cache slot is left |

## Left out

- Execve.SpawnFromXv6fs: the kernel tree is the boot tables, and the segments' addresses lie below 2^48; what the load buffer held before is a parameter, since a file shorter than a program header is checked on stale bytes; a program at the path of a device file is excluded.
- Descriptors.System.Open: O_TRUNC on a directory is excluded by a precondition, since it bypasses the name space operations.
- PathWalk.Namex: a relative path is not walked from a removed current directory, where ".." may name a freed inode and a create would add to a directory nobody reaches; `RemovedDirectory` says when such a walk reaches the panic. Absolute paths and all calls without a path are modelled there too. The same holds of CreateUnlink.Create, CreateUnlink.Unlink and the calls that take a path.
- CreateUnlink.Create: the parent of a new directory has fewer than 32767 links; the short would wrap.
- Vmm.AddressSpaces.MapPage: 1 GiB pages, the no-execute bit and flags above the low twelve bits are not modelled, and virtual addresses lie below 2^48.
- Elf.LoadElf: virtual addresses of segments lie below 2^48.
- Heap.SysBrk: break values lie below 2^47.
- ProcessImage.Fork: the kernel tree is the one paging_init builds; pages the AHCI driver adds to it (kernel/ahci/onahci.c:42) would be page tables shared by all processes, which `Paging.CreateUserPml4` allows and this member and `Separation` do not.
- Separation.RunLeavesOthers: steps are operations of the kernel; what a program writes through the identity map, which is user-accessible (kernel/paging.c:15-46), is not part of a run.
- Mkfs.Builder.BallocMarkUsed: more than 4096 used blocks overrun the one sector buffer of its first loop (mkfs.c:131-133), so the image is refused beyond that.
- Descriptors.System.ReadProgram: a program at the path of a device file is excluded.
- Inodes.FileSystem.Readi: device inodes are excluded, and so in Inodes.FileSystem.Writei.
- Inodes.FileSystem.Iget: asked only for inodes that exist, as every caller in the tree does; the code would also cache a free one, which ilock then panics on.
- Directory.Dirlookup: entries of the directory name inodes that exist.
- Directory.Dirlink: entries of the directory name inodes that exist.
- ProcessTables.ProcessTable.SetProcessEntry: called for a process not yet run, whose saved stack pointer is at its first frame.
- ProcessTables.ProcessTable.SetProcessArgv: called for a process not yet run.
- Mkfs.Builder.Iappend: running past the end of the image is reported instead of writing beyond it.
- Scheduling.EveryRun: fewer than 2^32 processes are created; the pid is a 32-bit field of a wider counter.
- Held buffers: brelse does nothing (kernel/Xjail/xv6/xv6fs_bridge.c:87-91), so bmap and itrunc hold a buffer across other reads without pinning it. The file system is modelled over a plain disk; composing it with the cache needs the premise that a held buffer is not recycled, which 63 misses after a miss do not break and a hit does not secure.
- Reference counts and pids in memory are natural numbers; a count would need 2^31 holders to wrap.
- Frame 0 is reserved, because 0 also means "none"; physical memory is addressed directly, as under the kernel's identity map.
- Several devices, device files (T_DEV, devsw) and the log, which is never used: one disk, files and directories only.
- The lazy set-up of the current directory in myproc(): it is set when the system is put together.
- Reading and writing through descriptors, lseek: thin wrappers around readi and writei; raw writes to a directory would bypass the name space.
- Copying argv strings, the fallback to the RAM file system, standard input and output on the console.
- AHCI, PCI, video, console, interrupt controllers, descriptor tables, assembly stubs, CR3 loads and invlpg; sector reads and writes are atomic and succeed.
- Locks of several processors: a spinlock or sleeplock found held halts, so a lock is a flag that every operation is proved to find clear.
- Memory not given back when a user tree or a load fails half-way, orphaned processes, descriptors not closed on exit: the code provides nothing to state.

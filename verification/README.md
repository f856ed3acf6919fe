# A verified model of egos-2000-d1

egos-2000-d1 is a teaching operating system for the Allwinner D1 (RISC-V). This project models its
four connected parts that carry state across operations, and two small parsers, in Dafny:

- **The treedisk file system.** Many sparse files on one block device: a superblock, inode blocks, a
  free list of blocks full of references, and per file a radix tree with 128 references per block that
  grows taller on demand and has holes. The theorem is that all this is an array of files: for every
  valid device and every run of writes, reads give what the abstract array of files says, every block
  has exactly one owner at every operation boundary, and the blocks a write takes are counted exactly.
- **The memory management unit.** A frame allocator under two translation mechanisms: page copying
  (SOFT_TLB) and Sv39 page tables (PAGE_TABLE, RISC-V Privileged Architecture version 1.10, sections
  4.3.2 and 4.4). The theorem is that every run gives the same loads under both, because both present a
  private memory per process.
- **The kernel.** Sixteen process slots, a round-robin scheduler and rendezvous messages, as a state
  machine over system calls, exceptions, interrupts, kills and process management, and as handlers on an
  array of slots and on the memory behind the translation mechanism. The theorems are about all runs
  from boot, under either mechanism: one running process with its own memory selected, no lost wakeup,
  bounded waiting, exactly-once delivery from the memory of the sender to that of the receiver, and
  resumption with the process's own context.
- **The ELF loader.** A file's segment, the arguments and the stack become pages of a new process; the
  theorem is about what the new process then sees in its own memory, under either mechanism.
- **The shell's request parser and the directory lookup**, each against an independent specification.

## How the files fit together

| files | part |
|---|---|
| `Radix`, `TreeLayout`, `TreeSteps`, `WriteSpec`, `Treedisk`, `LayoutUnique`, `Mkfs` | file system |
| `Pages`, `SoftTlb`, `Sv39`, `PageTables`, `PtMmu`, `Equivalence` | memory management unit |
| `Bytes`, `Earth` | its interface to grass and the loader, with memory in bytes |
| `KernelModel`, `KernelSafety`, `KernelFairness`, `KernelHistory`, `KernelCalls`, `KernelDelivery`, `KillRun` | kernel as a state machine |
| `SyscallArea`, `KernelMemory`, `Kernel`, `System`, `UserCalls` | kernel on memory, and the user's side of a call |
| `ElfLoader` | loader |
| `Tokens`, `Directory` | parsers |
| `Options` | a value or nothing |

**File system.** `TreeLayout.FsInv` ties a device to a layout: a role for every block past the inode
area (a place in one file's tree, a node of the free list, or an entry of such a node), a table of tree
places, the free-list stack and the tree heights. The invariant is local: each indirect block holds
exactly the references of the table for its children, a place not in the table is a hole. `Files` reads
the contents off the device alone, without the layout, and `LayoutUnique` shows that the layout is
determined by the device. During a write the parent block lives in memory and a fresh indirect block is
not yet on disk; `TreeSteps.Overlay` is the device with the block in memory put back, the tree invariant
holds of that and the free-list invariant of the real device. `WriteSpec` composes the steps.

**Memory management unit.** `SoftTlb` keeps which frame holds which page; `PageTables.PtInv` says that
the page tables form an unshared forest whose entries are exactly the recorded translations, and
`HardwareAgrees` that the walk of the privileged architecture finds exactly those. `Spaces()` is the
private memories, in both. A page is any value in `SoftTlb` and 512 words in the page-table part; `Earth`
puts both behind the function pointers that the rest of the system calls, with pages of 4096 bytes and
contracts that speak of the private memories alone.

**Kernel.** `KernelModel` is the machine as functions. `KernelHistory` reads the history of a run off its
events and states alone: a message is sent when a process traps with a send request in its area and a
slot with the receiver's number exists, it has arrived when it is in the receiver's area after the step,
and a process has last entered the kernel with the context of its last exception or interrupt. The
machine also keeps a log, for the proofs; `LogIsHistory` shows that it is that history, and the theorems about
runs are stated over the history. `Kernel` is the handlers: they switch, load, store and free through
`Earth`, and find the system call area as bytes at one address in whatever memory is selected.
`SyscallArea.AreasAre` ties the machine's system call areas to those bytes, `KeptBut` says which bytes of
which memories a call may write, each handler is proved to do what the machine does, `System` runs the
handlers from boot on any inputs and concludes the theorems for the bytes in memory, and `UserCalls` is
sys_send and sys_recv from the bytes that a process stores to those that another one reads.

A fatal error or panic does not return. It is an outcome (`None`, `Panicked`, `ok == false`) after which
nothing is said about the state, and where it can be, the contract says exactly when it happens.

## Where the code does not do what one would expect

- The condition in `excp_entry` is always true, so every exception is taken as a system call and the branch that kills
  a faulting process cannot be reached (grass/kernel.c:34). The model follows the code.
- A Ctrl+C kill sets the shell runnable whatever it was doing (grass/kernel.c:85). `KillInOrderIff` proves
  that message delivery, saved contexts and memory are in order afterwards if and only if the shell was
  runnable already, and `ShellReturnsWithoutMessage` gives runs from boot in which the shell comes back
  from a receive without a message. The theorems about delivery are for runs in which the shell is
  runnable at every kill, the safety theorems for all runs.
- A write at offset 2^32 - 1 makes the size wrap to 0 (library/file/file.c:247). `WrittenOffsetInside`
  proves that a written offset is inside the new size if and only if it is not that one,
  `LastOffsetEmptiesFile` that the file is then empty, and `RootWithoutSizeIsInvalid` that the device with
  the new root is no longer valid.
- The system call structure is 1040 bytes long (grass/syscall.h:15-25) and its area 1024
  (library/egos.h:84), so its last 16 bytes are the lowest of the application stack. They are in the same
  page, and a process may write anything there in the model.
- The loader divides `p_offset` by the block size (library/elf/elf.c:43). `LoadsFromOffsetIff` proves
  that the segment comes from `p_offset`, for every file, if and only if that is a multiple of 512 or
  nothing is loaded.
- A directory lookup also matches inode numbers (apps/system/sys_dir.c:20-23). `LookupFinds` gives the
  result for every name without a space, and `LookupRightIff` proves that it is the right one in all
  directories if and only if the name is not the decimal of a number below 1000.
- With page tables a data frame has no owner (earth/cpu_mmu.c:226), so freeing a process returns its six
  table frames and never its data frames. `PtMmu.Free` states exactly that.

## Model

| member | source | states |
|---|---|---|
| `Radix.ShiftRemovesDigits` | library/file/file.c:70-75 | the guarded right shift by 7 times l bits removes exactly l base-128 digits, for every 32-bit word and every l, including shifts of the word width and more |
| `Radix.HeightCovers` | library/file/file.c:234-256 | a tree of the computed height covers the file and one level less would not |
| `Radix.HeightIsLeast` | library/file/file.c:183-189 | the height is the least l with n at most 128^l, both directions, and at most 5 for 32-bit sizes |
| `Radix.HeightMonotone` | library/file/file.c:242-256 | a larger file never has a lower tree |
| `Radix.DigitsDetermineOffset` | library/file/file.c:210-216 | two offsets below 128^l that follow the same indices from the root are equal |
| `Radix.PrefixZero` | library/file/file.c:187-188 | no digits are left after removing l of them exactly if the offset is below 128^l |
| `Radix.ComputeLogRpb` | library/file/file.c:332-338 | the loop ends with 7 |
| `Radix.CountLevels` | library/file/file.c:183-189 | the level-counting loop ends, with the tree height for a last block number x |
| `TreeLayout.HolesAreClosed` | library/file/file.h:24-26 | below a hole on the path to an offset there are only holes |
| `TreeLayout.LookupIsContent` | library/file/file.c:191-217 | walking down by digits from any place on the path gives the contents of the data place of the offset |
| `TreeLayout.FileIsContent` | library/file/file.h:15-26 | the file read off the device is, block by block, what the tree table says, holes being zero |
| `TreeSteps.AllocEntry` | library/file/file.c:136-142 | taking a reference out of the first free-list block keeps the free list and frees no other block |
| `TreeSteps.AllocHead` | library/file/file.c:129-135 | taking the emptied first free-list block itself keeps the free list |
| `TreeSteps.SlotHoldsReference` | library/file/file.c:291-299 | the word the walk looks at holds the reference of the place it is at, at the root as in indirect blocks |
| `TreeSteps.AttachTree` | library/file/file.c:299-306 | filling a hole with a fresh block, zeroed if it is indirect, keeps the trees of all files and all sizes |
| `TreeSteps.AttachData` | library/file/file.c:299-306 | filling a hole changes the contents of no other data place of any file |
| `TreeSteps.GrowTree` | library/file/file.c:263-278 | a new root above the old one keeps the trees of all files and all sizes |
| `TreeSteps.GrowData` | library/file/file.c:263-278 | growing a tree changes no contents, so older offsets keep their blocks |
| `TreeSteps.ResizeTree` | library/file/file.c:246-248 | enlarging the size alone keeps the trees, and every other file's size |
| `TreeSteps.ResizeData` | library/file/file.c:246-248 | enlarging the size changes no contents |
| `TreeSteps.AllocKeepsTree` | library/file/file.c:106-145 | an allocation in the middle of a write changes neither trees nor contents, with the parent block in memory |
| `TreeSteps.GrowStep` | library/file/file.c:263-278 | a round of the growth loop restores ownership, free list and trees with the inode block in memory |
| `TreeSteps.FillStep` | library/file/file.c:299-306 | a round of the walk that fills a hole does the same, although the fresh indirect block is not on disk yet |
| `TreeSteps.ProgressTrans` | library/file/file.c:258-321 | what the rounds of a write preserve adds up over the whole write |
| `WriteSpec.WriteBlock` | library/file/file.c:221-256 | the specification: the file has max(size, offset + 1) blocks and the given one at the offset |
| `WriteSpec.NoneFree` | library/file/file.c:111-112 | the superblock's free-list word is 0 exactly if no block at all is free |
| `WriteSpec.GrownMissing` | library/file/file.c:258-321 | once the tree has grown, exactly the new height many blocks are missing on the path |
| `WriteSpec.CostOfWrite` | library/file/file.c:234-321 | growing and walking together take exactly the cost of the write |
| `WriteSpec.WriteRestoresInvariant` | library/file/file.c:323-325 | writing the data block last restores the whole invariant |
| `WriteSpec.WriteMeaning` | library/file/file.c:221-326 | the files afterwards are those of the specification: one block written, padding zero, all else unchanged |
| `WriteSpec.WriteDone` | library/file/file.c:281-326 | the walk and the data write complete what the growth began: invariant and meaning together |
| `WriteSpec.PastEnd` | library/file/file.c:165-219 | past the end of a file there are only zero blocks |
| `WriteSpec.CostBounds` | library/file/file.c:234-321 | raising the height from l to l' takes exactly (l' - l) + l' blocks, a first write at offset 0 one, any other write at most l, so max(1, 2 l') free blocks always suffice |
| `WriteSpec.CostAtMostTen` | library/file/file.c:234-321 | no write takes more than ten blocks |
| `WriteSpec.WrittenOffsetInside` | library/file/file.c:246-247 | the written offset is inside the stored size if and only if it is not 2^32 - 1, for which the size becomes 0 |
| `WriteSpec.LastOffsetEmptiesFile` | library/file/file.c:246-247 | with the size that a write at offset 2^32 - 1 stores, the file reads as empty, whatever it held |
| `WriteSpec.RootWithoutSizeIsInvalid` | library/file/file.c:258-300 | and with the root that this write leaves no layout fits the device |
| `WriteSpec.EmptyFileHasNoRoot` | library/file/file.h:46-55 | a file without blocks has root 0 |
| `WriteSpec.NoReferencePastEnd` | library/file/file.c:242-279 | every reference whose offsets start at or past the end of the file is 0, in indirect blocks and in the inode |
| `WriteSpec.Conservation` | library/file/file.c:106-145 | free blocks plus tree blocks are exactly the blocks past the inode area |
| `LayoutUnique.LayoutIsUnique` | library/file/file.h:8-31 | a device has at most one layout: ownership and free list are facts about the device |
| `Treedisk.BlockStore.Read` | tools/mkfs.c:135-138 | a read of the store below gives the block last written there |
| `Treedisk.BlockStore.Write` | tools/mkfs.c:140-143 | a write to the store below changes one block |
| `Treedisk.Treedisk.GetSnapshot` | library/file/file.c:80-102 | fails exactly for inode numbers out of range, else gives copies of the superblock and of the inode's block |
| `Treedisk.Treedisk.AllocBlock` | library/file/file.c:106-145 | panics exactly if no block is free, else takes the last reference of the first free-list block, or that block once it has none, and changes nothing else |
| `Treedisk.Treedisk.ReadPath` | library/file/file.c:191-218 | the walk gives the contents at the offset, whichever level a hole is at |
| `Treedisk.Treedisk.Read` | library/file/file.c:167-219 | gives the block of the abstract file, and fails exactly for an inode or offset out of range |
| `Treedisk.Treedisk.GrowOnce` | library/file/file.c:263-278 | one more level for one block, panics exactly if none is free, loses no contents |
| `Treedisk.Treedisk.GrowLevels` | library/file/file.c:262-279 | the loop reaches the new height for exactly the difference in blocks, and panics exactly if there are fewer |
| `Treedisk.Treedisk.FillHole` | library/file/file.c:299-306 | a hole gets a block, the parent on disk refers to it, and panics exactly if none is free |
| `Treedisk.Treedisk.NextBlock` | library/file/file.c:295-312 | gets or allocates the next block on the path, for no block or one |
| `Treedisk.Treedisk.WalkLevel` | library/file/file.c:295-321 | one level down, with the word to look at next in the right block |
| `Treedisk.Treedisk.WalkToParent` | library/file/file.c:288-321 | the loop down to the parent of the data block fills exactly the missing places |
| `Treedisk.Treedisk.WalkDown` | library/file/file.c:288-321 | reaches the data block for exactly the missing blocks on the path, and panics exactly if there are fewer |
| `Treedisk.Treedisk.Resize` | library/file/file.c:234-256 | old and new height, and the new size in memory |
| `Treedisk.Treedisk.Prepare` | library/file/file.c:234-286 | the size is set and the tree grown on disk for exactly the difference in height, with all contents kept |
| `Treedisk.Treedisk.Write` | library/file/file.c:223-326 | the array of files changes as specified and the device stays valid; fails exactly for an inode out of range; panics exactly if fewer blocks are free than the write costs, and otherwise takes exactly that many |
| `Mkfs.FillLink` | library/file/file.c:373-379 | the inner loops give a link to the previous block, the following blocks, then zeros |
| `Mkfs.SetupFreelist` | library/file/file.c:367-385 | every 128th block from the first on becomes a link with the blocks after it, no other block changes, and the last link is the head |
| `Mkfs.Create` | library/file/file.c:389-437 | refuses a device that is too small, leaves a formatted one alone, formats any other |
| `Mkfs.FormattedIsEmpty` | library/file/file.c:411-428 | formatting any device gives a valid file system: all files empty, and each block past the inodes free exactly once |
| `Mkfs.CreateTwice` | library/file/file.c:405-434 | creating again changes nothing, on every device and also with no inodes |
| `Mkfs.CreateKeepsFileSystem` | library/file/file.c:405-434 | on a valid file system creating changes no block if and only if there is a file, the device is too small, or it already is what formatting gives |
| `Mkfs.WriteInRun` | library/file/file.c:223-326 | a write in a run, with its bound of ten blocks |
| `Mkfs.RunWrites` | library/file/file.c:223-326 | any run of writes on any valid device is the same run on the array of files, and ten free blocks per write are enough for it |
| `Mkfs.RunWritesThenCreate` | library/file/file.c:389-437 | on any valid file system with inodes, after any run of writes and then a create the files are still those of the writes |
| `Mkfs.LastWriteWins` | library/file/file.c:165-326 | after any run of writes each block is the last one written there, else the old one, else zero; nothing shrinks |
| `Mkfs.EmptyFileSystem` | tools/mkfs.c:104-106 | a new device: valid, all files empty, all blocks past the inodes free |
| `Mkfs.WriteWhole` | tools/mkfs.c:124-125 | writing a new file block by block gives that file and changes no other |
| `Mkfs.MakeFileSystem` | tools/mkfs.c:103-128 | the device then holds exactly the given files, and it is made whenever it has ten blocks per file block |
| `SoftTlb.SoftTlb.constructor` | earth/cpu_mmu.c:24-29 | initially no frame is in use and no process has memory |
| `SoftTlb.SoftTlb.Alloc` | earth/cpu_mmu.c:31-40 | the first frame not in use, fatal exactly if all are; no process's memory changes |
| `SoftTlb.SoftTlb.Free` | earth/cpu_mmu.c:42-48 | the process loses its memory, exactly its frames come back, nobody else's memory changes |
| `SoftTlb.SoftTlb.Map` | earth/cpu_mmu.c:51-54 | the frame becomes that page of that process, which for the resident process is what is in memory there; no other memory changes |
| `SoftTlb.SoftTlb.NewPage` | library/elf/elf.c:49-50 | allocating and mapping gives the process one more page, fatal exactly if no frame is free |
| `SoftTlb.SoftTlb.Fill` | earth/dev_page.c:31-33 | writing through the frame's address changes only the page in that frame |
| `SoftTlb.SoftTlb.FillPage` | earth/dev_page.c:31-33 | for a process that is not resident that is a write to its private memory |
| `SoftTlb.SoftTlb.CopyOut` | earth/cpu_mmu.c:60-63 | every page of the resident process is saved in its frame, other frames keep theirs |
| `SoftTlb.SoftTlb.CopyIn` | earth/cpu_mmu.c:65-68 | every page of the new process is at its address, all other memory stays |
| `SoftTlb.SoftTlb.Switch` | earth/cpu_mmu.c:56-70 | every process keeps its view of all its pages, so any chain of switches does |
| `SoftTlb.SoftTlb.Load` | earth/cpu_mmu.c:65-70 | the resident process reads its own private memory |
| `SoftTlb.SoftTlb.Store` | earth/cpu_mmu.c:65-70 | a store changes one page of the resident process and no other process's memory |
| `Sv39.PteRoundTrip` | earth/cpu_mmu.c:87-91 | encoding a page-aligned address and flags into an entry loses neither |
| `Sv39.SatpRoundTrip` | earth/cpu_mmu.c:99-101 | the hardware finds the root that MAKE_SATP was given, in Sv39 mode |
| `Sv39.EntriesAreEncoded` | earth/cpu_mmu.c:87-97 | the entries of the model are those that the macros build |
| `Sv39.LeafBits` | earth/cpu_mmu.c:93-97 | what the flag constants mean bit by bit: V, R, W, X, A, D, and U only for user pages |
| `Sv39.TableTarget` | earth/cpu_mmu.c:137 | an entry for a table is valid, is no leaf, and leads to the frame of the table |
| `Sv39.WalkEntries` | earth/cpu_mmu.c:87-97 | the walk faults at an empty entry, descends at a table entry, stops at a leaf entry |
| `PageTables.EncodeMeaning` | earth/cpu_mmu.c:165-168 | the user bit tells user pages from system pages, the address which frame or page |
| `PageTables.WalkFinds` | earth/cpu_mmu.c:110-153 | from any table on its path, the three-level walk of a page ends in exactly its recorded entry, or a fault |
| `PageTables.NoTableNoPage` | earth/cpu_mmu.c:126-150 | a mapped page has all tables on its path |
| `PageTables.AddStep` | earth/cpu_mmu.c:118-124 | a zeroed frame entered in its parent, or as a root, is a table without entries; tables stay an unshared forest |
| `PageTables.LeafStep` | earth/cpu_mmu.c:165-168 | entering a leaf entry changes that page's record and no other |
| `PageTables.RemoveStep` | earth/cpu_mmu.c:42-48 | freeing a process removes exactly the frames of its tables and leaves all other tables intact |
| `PtMmu.PtMmu.Alloc` | earth/cpu_mmu.c:31-40 | the first frame not in use, fatal exactly if all are; no table or translation changes |
| `PtMmu.PtMmu.RootTable` | earth/cpu_mmu.c:118-126 | the root of the process, set up for one frame exactly if there was none |
| `PtMmu.PtMmu.NextTable` | earth/cpu_mmu.c:128-138 | the next table on the path, set up for one frame exactly if there was none; the leaf level is the same code at :140-150 |
| `PtMmu.PtMmu.WalkPageTables` | earth/cpu_mmu.c:110-153 | gives the leaf table, adds exactly the missing tables, each in a frame of its own, and changes no translation or data |
| `PtMmu.PtMmu.SetupIdentityRegion` | earth/cpu_mmu.c:158-170 | the pages are mapped onto themselves; fatal exactly if frames are lacking or the region leaves its table |
| `PtMmu.PtMmu.IdentityMapping` | earth/cpu_mmu.c:172-202 | exactly the six tables exist afterwards, fatal exactly if too few frames are free |
| `PtMmu.IdentityAt` | earth/cpu_mmu.c:172-202 | exactly the device, earth, grass, stack and interface pages (and for two processes more) are mapped onto themselves without the user bit, nothing else changes |
| `PtMmu.PtMmu.Map` | earth/cpu_mmu.c:208-228 | the page goes to the frame, with a first call also the identity mappings; no other translation of any process, no table and no data frame changes; fatal exactly for pid 32 and up or if frames for the lacking tables are |
| `PtMmu.MapTranslation` | earth/cpu_mmu.c:208-228 | what the hardware makes of every page of every live process before and after a mapping |
| `PtMmu.PtMmu.Free` | earth/cpu_mmu.c:42-48 | exactly the table frames of the process come back; no other process's tables or translations change |
| `PtMmu.PtMmu.Switch` | earth/cpu_mmu.c:230-238 | the register selects the root of the process from then on |
| `PtMmu.PtMmu.Init` | earth/cpu_mmu.c:267-270 | the system's identity mapping is set up and selected |
| `PtMmu.HardwareAgrees` | earth/cpu_mmu.c:110-153 | for every page of every live process the hardware walk finds the recorded entry and otherwise faults |
| `PtMmu.Isolation` | earth/cpu_mmu.c:204-228 | pages that the hardware lets users reach, in any two live processes, go to different frames, never to a page table |
| `PtMmu.UserAccess` | earth/cpu_mmu.c:230-238 | a user page is reached through the selected root, with the user bit, at its own frame |
| `PtMmu.PtMmu.Load` | earth/cpu_mmu.c:230-238 | a load through the hardware walk gives the process's private memory |
| `PtMmu.PtMmu.Store` | earth/cpu_mmu.c:230-238 | a store changes that page of that process, no other memory and no table |
| `PtMmu.PtMmu.Fill` | earth/dev_page.c:31-33 | writing through the address of a data frame keeps all tables |
| `PtMmu.MapSpaces` | earth/cpu_mmu.c:208-228 | a mapping adds one page to one private memory |
| `PtMmu.FreeSpaces` | earth/cpu_mmu.c:42-48 | a free removes one private memory |
| `PtMmu.SixAfterMap` | earth/cpu_mmu.c:172-228 | address spaces that consist of exactly six tables still do after an application page is mapped |
| `PtMmu.LackingNoneOrSix` | earth/cpu_mmu.c:172-228 | a mapping takes no frame for tables, or exactly six for a new address space |
| `PtMmu.SystemPagesAreProtected` | earth/cpu_mmu.c:172-202 | if users have only application pages, no page of earth, grass, their stack or interfaces has the user bit |
| `PtMmu.SixFrames` | earth/cpu_mmu.c:118-150 | the six tables are in six different frames, so with PtMmu.Free six frames come back |
| `Equivalence.SoftStep` | earth/cpu_mmu.c:31-81 | every operation under page copying does to the private memories what the abstract machine does |
| `Equivalence.PtStep` | earth/cpu_mmu.c:110-238 | and so does every operation under page tables |
| `Equivalence.PtMapPage` | earth/cpu_mmu.c:208-228 | a page with contents is added to a private memory for one frame, or seven for a new address space; fatal exactly for pid 32 and up or with fewer frames |
| `Equivalence.RunBoth` | earth/cpu_mmu.c:31-238 | every run gives the same loads under both mechanisms, those of the private memories, and ends with the same private memories, all in application pages, six tables per address space and all table invariants intact; it stops early only for a pid of 32 and up or for want of frames, one or seven a page |
| `Equivalence.Boot` | earth/cpu_mmu.c:240-275 | both mechanisms start with no process memory, all frames free but for the six tables of the system |
| `Equivalence.Protection` | earth/cpu_mmu.c:204-228 | users reach exactly their own pages, no two of them in one frame and none in a page table |
| `Equivalence.RunFromBoot` | earth/cpu_mmu.c:31-275 | at the end of every run from boot the hardware finds the user bit for exactly the pages that live processes were given, all of them application pages, in frames of their own that are no page tables, and each address space is in exactly six table frames |
| `Bytes.BytesRoundTrip` | library/elf/elf.c:74-79 | a number stored in n bytes is read back |
| `Bytes.IntRoundTrip` | grass/syscall.h:15-25 | so is a C int, negative ones included |
| `Bytes.PageRoundTrip` | earth/dev_page.c:25-33 | bytes put into a frame of words are the bytes read from it |
| `Bytes.FrameRoundTrips` | earth/dev_page.c:25-33 | and words seen as bytes are the same words again |
| `Earth.Earth.constructor` | earth/cpu_mmu.c:240-275 | under either mechanism no process has memory at first, and the frames are counted |
| `Earth.Earth.NewPage` | library/elf/elf.c:49-50 | mmu_alloc and mmu_map give a process one more page under either mechanism; fatal exactly if frames are lacking, six more for tables with the first page, or pid is 32 and up with page tables |
| `Earth.Earth.WriteBytes` | library/elf/elf.c:52-62 | bytes written through a frame's address are bytes of that page of that process, under either mechanism |
| `Earth.Earth.Switch` | earth/cpu_mmu.c:56-81 | mmu_switch selects a process and every process keeps its memory, under either mechanism (page tables at :230-238) |
| `Earth.Earth.Load` | earth/cpu_mmu.c:230-238 | the selected process reads its own private memory |
| `Earth.Earth.Store` | earth/cpu_mmu.c:230-238 | and writes it and no other |
| `Earth.Earth.Free` | earth/cpu_mmu.c:42-48 | mmu_free takes away one private memory |
| `KernelSafety.YieldSafe` | grass/kernel.c:117-160 | the scheduler leads from inside the kernel to a state with one running process, the current one, in its own address space |
| `KernelSafety.SendSafe` | grass/kernel.c:162-190 | a send leaves nobody waiting to send to a waiting receiver |
| `KernelSafety.RecvSafe` | grass/kernel.c:192-216 | nor does a receive |
| `KernelSafety.SyscallSafe` | grass/kernel.c:218-235 | nor any system call |
| `KernelSafety.InterruptSafe` | grass/kernel.c:72-100 | nor any interrupt, kills included |
| `KernelModel.EveryExceptionIsSyscall` | grass/kernel.c:33-55 | the test in excp_entry holds for every exception number, so every exception is taken as a system call |
| `KernelSafety.StepSafe` | grass/kernel.c:30-235 | every event keeps the machine safe |
| `KernelSafety.HandleStatus` | grass/kernel.c:30-235 | before it reschedules, a handler leaves the status of every other slot or makes it runnable |
| `KernelSafety.RunSafe` | grass/kernel.c:30-235 | so does every run |
| `KernelSafety.AlwaysSafe` | grass/kernel.c:102-216 | in every state reachable from boot exactly the current slot is running, its address space is selected, nonzero process numbers are unique, and no process waits to send to one that waits to receive |
| `KernelFairness.FindNextBefore` | grass/kernel.c:119-127 | the scan finds a slot no further away than any slot that can run |
| `KernelFairness.YieldApproaches` | grass/kernel.c:117-134 | a yield succeeds if any slot can run, and chooses it or comes strictly closer to it |
| `KernelFairness.StaysSchedulable` | grass/kernel.c:30-235 | no event takes another process that can run off the scheduler's list before it yields |
| `KernelFairness.BoundedWaiting` | grass/kernel.c:117-134 | in every run through which a process can run but does not, the scheduler runs fewer than MAX_NPROCESS times |
| `KernelFairness.YieldsToNearest` | grass/kernel.c:117-160 | a process that gives up the processor though it could go on stays runnable, and the nearest slot after it that can run is chosen |
| `KernelFairness.TimerPreempts` | grass/kernel.c:73-98 | a timer interrupt that is not a kill leaves the servers running as they are; any other process has exactly the interrupted context in its slot and the nearest slot that can run gets the processor |
| `KernelFairness.OtherInterruptsAreFatal` | grass/kernel.c:88-96 | interrupts other than timer and software interrupts are fatal unless they are kills |
| `KernelHistory.SyscallRecorded` | grass/kernel.c:162-235 | a system call does what the slots and the area at the trap say: a send to an existing process counts as sent, and arrives exactly if the receiver waits; a receive gets a message exactly if someone waits to send |
| `KernelHistory.StepRecorded` | grass/kernel.c:30-235 | every step adds to the log exactly what its event and the states before and after it say: sends, arrivals, receives, saved contexts and calls not returned from |
| `KernelHistory.LogIsHistory` | grass/kernel.c:30-235 | in every run from boot the log is the history read off the events and states of the run |
| `KernelCalls.SendOutcome` | grass/kernel.c:162-190 | a send returns -1 at once and touches no other slot or area if nobody has the receiver's number; hands over the message and lets both run if the receiver waits; else the sender waits with the message in its own area |
| `KernelCalls.RecvOutcome` | grass/kernel.c:192-216 | a receive has the message of the process in the highest slot that waits to send to it, and both can run; without one it waits |
| `KernelCalls.CallGoesOn` | grass/kernel.c:117-134 | a send or receive does not end the machine if another process can run |
| `KernelCalls.RunStamps` | grass/kernel.c:162-190 | in every run, kills included, whoever waits to send has its own number and the receiver it waits for in the message in its own area |
| `KernelDelivery.SendExact` | grass/kernel.c:162-190 | in every outcome of a send, what is sent, delivered and waiting stays in step for every process |
| `KernelDelivery.RecvExact` | grass/kernel.c:192-216 | the same for a receive, whose message has the true sender and receiver |
| `KernelDelivery.KillInOrderIff` | grass/kernel.c:79-87 | when the scheduler runs after a kill, deliveries, contexts and memory are in order for all processes if and only if the shell, if there is one, was runnable |
| `KillRun.ShellReturnsWithoutMessage` | grass/kernel.c:79-87 | runs from boot, for any message buffer and context, in which the shell runs again after one receive call though no message was ever delivered to it |
| `KernelDelivery.AllocExact` | grass/process.c:24-34 | a new process number has no history |
| `KernelDelivery.StepExact` | grass/kernel.c:30-235 | every event except a kill that wakes the shell out of a call keeps everything in step |
| `KernelDelivery.RunExact` | grass/kernel.c:30-235 | so does every run without such a kill |
| `KernelDelivery.DeliveredExactlyOnce` | grass/kernel.c:162-216 | in every such run, by its history: what arrived in receivers' areas from a process is in order exactly what it asked to be sent to processes that exist, with its number, receiver and contents, but for the one it waits to send, which is in its own area; and a process has got one message per completed receive |
| `KernelDelivery.ResumesOwnContext` | grass/kernel.c:102-160 | whenever such a run, by any exception or interrupt, resumes a process that has run before, it has the stack and program counter of its last kernel entry in the run's events (past the instruction for an exception), a call it was in returns 0, or -1 for a send to nobody, and a receive has the last message that arrived for it |
| `SyscallArea.DecodeTaken` | grass/kernel.c:221-223 | clearing type and return value in memory clears them in the structure and nothing else |
| `SyscallArea.DecodeWithSender` | grass/kernel.c:163 | so does stamping the sender |
| `SyscallArea.DecodeWithRetval` | grass/kernel.c:189 | and setting the return value |
| `SyscallArea.DecodeWithMsg` | grass/kernel.c:173-180 | copying the bytes of a message copies sender, receiver and contents |
| `SyscallArea.DecodeSendRequest` | grass/syscall.c:24-26 | type 2, receiver and bytes stored by a process are, to the kernel, a send of those bytes to that receiver |
| `SyscallArea.CallerKept` | grass/kernel.c:163-189 | stamping the sender and setting type or return value write those four bytes of the caller and no other byte of any memory |
| `SyscallArea.PartnerKept` | grass/kernel.c:172-180 | copying a message in writes the message of one process and no other byte of any memory |
| `KernelMemory.YieldMemory` | grass/kernel.c:117-160 | after a yield still exactly the processes that are ready or have run have memory |
| `KernelMemory.LoadMemory` | grass/process.c:20-34 | loading gives memory to exactly one process, whose number is fresh |
| `KernelMemory.KilledMemory` | grass/kernel.c:79-87 | a kill keeps all that if the shell has memory |
| `Kernel.Kernel.constructor` | grass/grass.c:39-43 | the handlers start in the boot state of the machine, with the system call area of the process server in its memory |
| `Kernel.Kernel.ReadArea` | grass/kernel.c:219-221 | reading at SYSCALL_ARG gives the area of the selected process |
| `Kernel.Kernel.WriteArea` | grass/kernel.c:222-223 | writing there changes that page of the selected process and no other page of any memory |
| `Kernel.Kernel.SetStatus` | grass/process.c:15-18 | the slots with the number get the status, in place |
| `Kernel.Kernel.ProcYield` | grass/kernel.c:117-160 | does what the machine's scheduler does, fatal in the same states; all memories are the same after the switch |
| `Kernel.Kernel.CopyMessage` | grass/kernel.c:172-180 | two switches and two copies at one address make the receiver's message the same bytes as the sender's, and change no other byte of any memory |
| `Kernel.Kernel.ProcSend` | grass/kernel.c:162-190 | does what the machine's send does, including the final yield; of all memories only the caller's sender and return value and the receiver's message may change |
| `Kernel.Kernel.ProcRecv` | grass/kernel.c:192-216 | does what the machine's receive does: the scan ends with the highest waiting slot; of all memories only the caller's area may change |
| `Kernel.Kernel.ProcSyscall` | grass/kernel.c:218-235 | does what the machine's system call does; of all memories only the caller's type, sender and return value and the partner's message may change |
| `Kernel.Kernel.SaveContext` | grass/kernel.c:102-106 | the context goes into the current slot |
| `Kernel.Kernel.ExcpEntry` | grass/kernel.c:30-64 | is the machine's step for an exception of any number, and changes no other byte of any memory than a system call may |
| `Kernel.Kernel.IntrEntry` | grass/kernel.c:72-100 | is the machine's step for an interrupt; a system call changes the bytes it may, a kill takes away one memory and leaves the others the same, anything else changes no memory |
| `Kernel.Kernel.Kill` | grass/kernel.c:79-87 | the running process's slot is free and its memory gone, the shell is runnable, no other slot and no other memory changes |
| `Kernel.Kernel.ProcAlloc` | grass/process.c:24-34 | one slot that was free is loading, with a number never used before, and the others are the same; fatal exactly if all slots are in use |
| `Kernel.Kernel.ProcFree` | grass/process.c:36-50 | frees one process, or with -1 all with numbers from 5 on: those slots are free and have no page of memory, all other slots are the same and all other memories have the same pages and contents |
| `System.LoadReady` | apps/system/sys_proc.c:72-77 | elf_load and proc_set_ready are the machine's load step, fatal exactly if there are too few frames; the process is ready and has exactly its pages, with the image of its program, and no other slot or memory changes |
| `System.Store` | grass/syscall.c:21-39 | a store of the running process to one of its pages is a step of the machine; that page has the stored contents and no other page of any memory changes |
| `System.FreeProcesses` | apps/system/sys_proc.c:49-59 | the process server's frees are the machine's, the freed processes have no memory and all others keep theirs |
| `System.Handle` | grass/kernel.c:30-235 | every input is a step of the machine and does to the memories, byte by byte, no more than it should; it halts exactly if the step is fatal or memory for loading is lacking |
| `System.Run` | grass/kernel.c:30-235 | any inputs are a run of the machine, up to one that halts it or is outside the model |
| `System.Boot` | grass/grass.c:39-43 | from any memory contents and under either mechanism the system boots into the machine's boot state |
| `System.RunFromBoot` | grass/kernel.c:30-235 | for any inputs from boot and under either mechanism: one running process with its memory selected, unique numbers, no lost wakeup, and whoever waits to send has its message ready; and if every kill finds the shell runnable, exactly-once delivery by the history of the run, a waiting message being the bytes in the sender's own memory and a received one the bytes in the receiver's |
| `UserCalls.Ecall` | grass/syscall.c:16-19 | a trap with a send or receive request in place has the outcome of that call; nobody runs after it only if no other process could |
| `UserCalls.SysSend` | grass/syscall.c:21-29 | sys_send of any bytes to any number: longer than 1024 bytes, nothing happens; else -1 is in the caller's memory if no process has that number, the caller's number and the bytes are in the receiver's memory and both can run if it waits, or the caller waits for it with its number and the bytes in its own memory |
| `UserCalls.SysRecv` | grass/syscall.c:31-39 | sys_recv: with a process waiting to send to it, the caller's memory has the number of the one in the highest such slot and all 1024 bytes of the message from its memory, the return value is 0 and both can run; otherwise it waits |
| `UserCalls.Results` | grass/syscall.c:28-38 | what the calls then give: the first size bytes of the message in the process's memory, the sender's number and the return value |
| `ElfLoader.LoadsFromOffsetIff` | library/elf/elf.c:41-53 | the segment is the file from p_offset on, for every file, if and only if p_offset is a multiple of 512 or the segment is empty |
| `ElfLoader.PageForBlock` | library/elf/elf.c:48-51 | a new page exactly every eight blocks |
| `ElfLoader.LoadBlock` | library/elf/elf.c:47-53 | one more block of the image in place |
| `ElfLoader.LoadBlocks` | library/elf/elf.c:46-53 | the pages hold the first p_filesz bytes of the image, fatal exactly if fewer frames are free than pages needed |
| `ElfLoader.ZeroTail` | library/elf/elf.c:54-57 | the rest of the last page is zero |
| `ElfLoader.ZeroRest` | library/elf/elf.c:54-63 | zeros up to the end of the segment, for exactly the missing pages |
| `ElfLoader.LoadArgs` | library/elf/elf.c:65-82 | argc, pointers and strings in the argument page, everything from the end of the strings on left alone |
| `ElfLoader.ArgvPointsToArguments` | library/elf/elf.c:70-79 | each pointer, read back and followed in the process's own memory, gives that argument, and all arguments end before SYSCALL_ARG |
| `ElfLoader.ImageInView` | library/egos.h:89-96 | page contents as seen at addresses from APPS_ENTRY on |
| `ElfLoader.LoadApp` | library/elf/elf.c:31-83 | under either mechanism the new process sees the image at APPS_ENTRY, zeros up to APPS_SIZE and its arguments, has exactly those pages, and no other memory changes; takes six frames, with page tables twelve for a new address space, and is fatal exactly if fewer are free or pid is 32 and up with page tables |
| `Tokens.WordsSnoc` | apps/system/sys_shell.c:17-24 | one more character extends the last word, starts a new one or changes none |
| `Tokens.UnacceptablePrefix` | apps/system/sys_shell.c:17-24 | what does not fit is not made up for by more input |
| `Tokens.ParseRequest` | apps/system/sys_shell.c:13-27 | accepts exactly lines whose words have at most 31 characters, at most 15 of them or 16 with nothing after the last; argv is then the words in order, padded with null characters |
| `Tokens.JoinIsAcceptable` | apps/system/sys_shell.c:13-27 | any list of words joined by single spaces gives the list back, and is accepted exactly if it fits |
| `Directory.DecimalRoundTrip` | apps/system/sys_dir.c:23 | the number read from the decimal digits of n is n |
| `Directory.MatchInEntry` | apps/system/sys_dir.c:20-22 | within an entry exactly its name and its number match |
| `Directory.AnswerIsUnique` | apps/system/sys_dir.c:16-26 | text and name determine the answer |
| `Directory.Lookup` | apps/system/sys_dir.c:16-26 | gives the number after the first match on any text, -1 exactly if there is none |
| `Directory.LookupFinds` | tools/mkfs.c:40-47 | on the text of any directory and for any name without a space, what the lookup gives |
| `Directory.LookupRightIff` | apps/system/sys_dir.c:16-26 | for a name without a space the lookup gives the inode of the first entry with the name, or -1, in all directories, if and only if the name is not the decimal of a number below 1000 |
| `Directory.NamesAreNotNumbers` | tools/mkfs.c:40-47 | such a name is never taken for the number of an entry |
| `Directory.NumberTakenForName` | apps/system/sys_dir.c:20-23 | every number below 1000 is a name that is looked up wrongly in some directory |
| `Directory.LookupEntry` | apps/system/sys_dir.c:16-26 | the lookup on the text of a directory gives the inode of the first entry with the name, or -1, unless the name reads like an inode number |

## Left out

- Treedisk.Treedisk.Write: not for offset 2^32 - 1 (nor Resize, Prepare, WriteInRun and RunWrites), at which the code reads a tree of the old height as one of height 5; what that write does to the inode is in `WrittenOffsetInside`, `LastOffsetEmptiesFile` and `RootWithoutSizeIsInvalid`.
- Treedisk.Treedisk.NextBlock: also reads the data block, which the code does not, so that one contract covers all levels; nothing is done with it.
- Mkfs.RunWrites: says when there is certainly enough space, not exactly when; the exact cost of each write is in `Treedisk.Treedisk.Write`.
- Equivalence.RunBoth: says when there are certainly enough frames, not exactly when; for each page that is in `PtMapPage`.
- Directory.Lookup: a name longer than the text is excluded, because the loop bound then wraps around and the scan leaves the buffer (apps/system/sys_dir.c:20).
- Directory.LookupEntry: inode numbers below 1000, as in the directory texts, where a number of four digits would leave no space after the name; atoi is on unbounded integers.
- ElfLoader.LoadApp: for p_filesz up to APPS_SIZE (so LoadBlocks and ZeroRest), which the code does not check; a longer segment would run into pages that are not the application's. The second argument page is mapped with unspecified contents.
- Kernel.Kernel.IntrEntry: a kill only if the shell, should there be one, has memory; the code would otherwise run a freed process in memory that is no longer its own.
- System.Handle: at most 2^31 - 1 processes in all, beyond which the C int overflows; stores only to the process's own pages, since page copying does not protect other memory.
- System.Run: of a load that halts it does not say that frames were lacking; `LoadReady` does.
- KernelDelivery.DeliveredExactlyOnce: no order among several senders to one receiver, because the code takes the highest waiting slot.
- Crash consistency of the file system: the order of writes does not provide it.
- Errors of the store below: it is an ideal array, and that all accesses are in range is proved.
- treedisk_getsize and treedisk_setsize: the first returns the size word, the second always fails.
- elf_load's choice of the program header and load_grass: the header is a parameter, and load_grass is the first loop of load_app without frames.
- UserCalls.SysSend: nothing happens between the stores of its request and the trap (nor in SysRecv), and the spin in sys_invoke is left out, because the type is cleared before any process runs again; in `System.Run` a process may write anything at any time and anything may happen in between.
- sys_exit: a sys_send of one request to the process server.
- Server loops and their request protocols, which assume that the next message is the reply; user applications; mkfs's reading of host files.
- Assembly, control registers other than satp, PMP, fences, TLB flushes, timer, tty, and the choice of the translation mode: a switch is an atomic change of the selected memory and of the saved context.
- Process management by anyone but the process server, and by it of itself.
- Reuse of process numbers, which would meet the root pointer that mmu_free leaves behind; the code never reuses one.
- The page-table-entry macros are given by division and remainder instead of shifts and masks.

# A verified model of the egos-2000 core

egos-2000 is a small teaching operating system for RISC-V. This project models its algorithmic core in Dafny
and proves what that core promises: the treedisk file system, the paging cache and software TLB, the kernel's
scheduler and message passing, the Sv32 page-table builder, the program loader, and three smaller pieces (the
shell's tokenizer, directory lookup, access to the split 64-bit timer). `dafny verify dfyconfig.toml` checks
everything.

Code that updates objects and arrays in place is modelled as classes and methods with loops. Each method is
proved against a specification function or predicate, and the theorems are lemmas about those.

## How the parts fit together

**Treedisk** (`Words`, `BlockTree`, `Treedisk*`). A disk is a sequence of blocks of 128 words; every block
structure of the original is a cast of such a block. `Owned` is the multiset of blocks in a tree, `Lookup` what
a walk reads, `Free` the multiset of blocks on the free list. The invariant `Consistent` says that all trees and
the free list together hold each block behind the inode blocks exactly once, and that every tree has the height
its file size implies. `File` is the abstract file, a sequence of blocks. `Write` is proved step by step: raise
the size, insert roots, fill the holes of the walk, store. Each step moves blocks between the free list and one
tree and changes at most one read. While a write is under way the model keeps two disks apart: the one below,
and the one that also has the inode block or indirect block the code still holds in memory.

**Paging and software TLB** (`Paging`, `SoftTlb`). `Frames` gives the contents of the 256 frames, wherever they
are: in one of 28 cache slots or on the card (Arty), or in memory (QEMU). On top of it `Memory(pid)` gives the
private memory of a process: in the user address space while the process is mapped in, in its frames otherwise.
`Run` refines any sequence of allocations, mappings, switches, stores and frees to private memories. `mmu_alloc`
hands out a pointer into the cache, and `held` says that every store through such a pointer found its frame there.

**Kernel** (`KernelModel`, `Kernel`, `KernelRuns`, `KernelPolicy`, `KernelMessages`, `Syscalls`). `KernelModel` is the state machine,
`Kernel` the code over the process table, proved equal to it. There each process's syscall area is its own
(`calls(pid)`); `Syscalls` shows that the memories of the software TLB behave like that, byte by byte. `KernelRuns`
proves invariants over every run from boot, `KernelPolicy` who runs, is interrupted, is created and freed, and when
the machine stops. `KernelMessages` keeps a history of sends, deliveries and traps beside
the run, and shows that nothing happens to a syscall area that the history does not note.

**Sv32** (`PageTable`). `Walk` is the translation algorithm of section 4.3.2 of the RISC-V privileged architecture
v1.10, written over integers. It is the independent reading against which the builder of identity mappings is
proved. **Loader** (`Loader`) works on the software TLB. `Shell`, `Directory` and `Timer` stand alone.

## Model

| member | source | states |
|---|---|---|
| `Treedisk.TreeDisk.Write` | library/file/file.c:225-328 | Fails exactly for an inode out of range, then changing nothing. At every offset but 2^32 - 1: panics exactly when the free list has fewer blocks than the write costs; otherwise the invariant holds again, the named file is the old one with the block put at the offset (null blocks in a new gap, size the larger of the old one and offset + 1), every other file is unchanged, and exactly `Cost` free blocks are gone. At offset 2^32 - 1 a write that succeeds leaves the file empty, provided the tree is empty or already has the height of that offset |
| `Treedisk.TreeDisk.WriteGrown` | library/file/file.c:260-328 | The part of a write behind the size update, for a size that did not wrap |
| `Treedisk.TreeDisk.WriteWrapped` | library/file/file.c:262-328 | The same part for a size that wrapped to 0: no growth, and where the walk meets references the block is stored in a file that is now empty, all other files unchanged |
| `Treedisk.TreeDisk.Read` | library/file/file.c:169-221 | Error exactly for an inode or offset out of range; otherwise the block of the abstract file, which is the null block in a hole |
| `Treedisk.TreeDisk.GetSize` | library/file/file.c:152-159 | The length of the abstract file, as the 32-bit word comes out through an `int`; -1 for an inode out of range |
| `Treedisk.TreeDisk.WriteAll` | library/file/file.c:225-328 | Any sequence of writes, none at offset 2^32 - 1, leaves the files as the abstract writes do, and ten free blocks per write rule the panic out |
| `Treedisk.TreeDisk.GetSnapshot` | library/file/file.c:82-104 | Succeeds exactly for inode numbers below the (32-bit) inode count, and then gives the block that holds the inode |
| `Treedisk.TreeDisk.CountLevels` | library/file/file.c:238-254 | The shift loop computes the number of base-128 digits of its argument |
| `Treedisk.TreeDisk.AllocBlock` | library/file/file.c:108-147 | Full exactly when the list is empty; otherwise hands out a block by rewriting just one |
| `Treedisk.TreeDisk.Grow` | library/file/file.c:260-281 | Panics only when fewer free blocks are left than roots are missing; otherwise the tree has the new height, no offset of any file reads differently, the partition holds, and one free block per level is gone |
| `Treedisk.TreeDisk.Walk` | library/file/file.c:290-323 | Reaches the data block at the offset's position of the tree, filling the holes on the way; panics exactly when there are more holes than free blocks; no other offset reads differently |
| `Treedisk.TreeDisk.constructor` | library/file/file.c:333-340 | The log of the references per block comes out as 7 |
| `Treedisk.TreeDisk.SetupFreelist` | library/file/file.c:369-387 | A well-formed list that holds each block of the range exactly once, as node or as entry; no block outside the range changes |
| `Treedisk.TreeDisk.Create` | library/file/file.c:391-439 | -1 exactly when the disk is too small; a disk that already has inode blocks is left as it is; otherwise the invariant holds, every file is empty, every block behind the inodes is free, and there is room for the inodes asked for and less than one block more (unless their number is so close to 2^32 that the count wraps) |
| `Treedisk.ShiftIsDivision` | library/file/file.c:72-77 | The shift is division by a power of 128 at every level, also where it saturates at 32 bits |
| `Radix.LevelsLeast` | library/file/file.c:187-191 | The level count is the least k with x < 128^k |
| `Radix.WordLevels` | library/file/file.c:187-191 | No 32-bit offset needs more than five levels |
| `BlockTree.ReplaceLookup` | library/file/file.c:290-323 | A change inside one subtree shows up exactly at the offsets that branch into it |
| `BlockTree.ReplaceOwned` | library/file/file.c:290-323 | ... and the tree owns what it owned before plus what the subtree gained |
| `TreediskSteps.AllocateStep` | library/file/file.c:108-147 | Allocation takes exactly one block off the free list, keeps the partition with that block in hand, and changes no tree |
| `TreediskSteps.AllocateTakesLast` | library/file/file.c:116-145 | The block handed out is the last non-null reference of the first free-list node, which is cleared there; once there is none it is the node itself, and the superblock goes on to its successor |
| `TreediskTreeSteps.GrowStep` | library/file/file.c:265-280 | A new root over the old one keeps the partition |
| `TreediskTreeSteps.GrowKeepsReads` | library/file/file.c:265-280 | ... and every offset of the growing file reads as before |
| `TreediskTreeSteps.LinkStep` | library/file/file.c:301-307 | Linking a new block into a hole moves it from hand into the tree and keeps the partition, although the block holds stale words until it is written |
| `TreediskTreeSteps.LinkStepReads` | library/file/file.c:301-307 | ... and changes at most what the offset being written reads |
| `TreediskTreeSteps.StoreReads` | library/file/file.c:325-327 | Storing the data block changes what exactly one offset reads |
| `TreediskWrite.GrownSizeCovers` | library/file/file.c:248-250 | The new size covers the block written if and only if the offset is not 2^32 - 1; there it wraps to 0 |
| `TreediskWrite.WrappedFile` | library/file/file.c:248-328 | After the steps of a write whose size wrapped, the file is empty and every other file is as before |
| `TreediskWrite.WriteDone` | library/file/file.c:225-328 | The steps together amount to one `Put` on one abstract file, with the invariant restored |
| `TreediskWrite.PreparedCost` | library/file/file.c:260-323 | What growth takes and what the walk then still misses add up to the cost computed before the write |
| `TreediskTheorems.EachBlockOnce` | library/file/file.c:108-147 | Each block behind the inodes is free exactly once and in no tree, or in exactly one file's tree, once |
| `TreediskTheorems.OwnedIffOnPath` | library/file/file.c:290-323 | A tree owns exactly the blocks that walks for some offset meet |
| `TreediskTheorems.PositionUnique` | library/file/file.c:290-323 | No block is met at two positions of one tree |
| `TreediskTheorems.CostBound` | library/file/file.c:238-323 | A write costs at most twice the new height (one block at height 0), and without growth at most the height |
| `TreediskTheorems.CostAtMostTen` | library/file/file.c:238-323 | No write costs more than ten blocks |
| `TreediskTheorems.Drain` | library/file/file.c:108-147 | Repeated allocation hands out every free block exactly once, and the list is empty exactly after the last |
| `TreediskTheorems.LastWriteWins` | library/file/file.c:169-328 | After any sequence of writes to an empty file, each block is the last one written there, a gap is null, and the file ends just behind its furthest write |
| `TreediskCreate.FreshIsConsistent` | library/file/file.c:413-432 | Null inode blocks and a free list of everything else make a consistent disk of empty files |
| `Paging.PagingDevice.constructor` | earth/dev_page.c:32 | All slots start empty |
| `Paging.PagingDevice.CacheEviction` | earth/dev_page.c:23-30 | Whichever slot is drawn, empty ones included, no frame's content changes and blocks 2048 to 8191 of the card are left alone |
| `Paging.PagingDevice.InvalidateCache` | earth/dev_page.c:34-37 | Exactly the slots that held the frame are empty now; other frames keep their content, and no frame is in two slots |
| `Paging.PagingDevice.PagingWrite` | earth/dev_page.c:39-55 | Exactly the named frame changes, to the source page, on both platforms and whatever is evicted; on Arty it then is in the slot that had it, or else in whichever slot was drawn |
| `Paging.PagingDevice.PagingRead` | earth/dev_page.c:57-73 | The page returned holds the frame; without `alloc_only` no frame changes, with it at most the named one; on Arty the slot is the one that had the frame, else the first empty one, else one that was drawn |
| `Paging.WriteBackKeepsFrames` | earth/dev_page.c:23-30 | Writing any slot back to its own blocks changes no frame's content |
| `Paging.ReplaceSlot` | earth/dev_page.c:52-54 | Reusing a slot that was written back changes exactly the frame it is given to |
| `Paging.EmptySlotBlock` | earth/dev_page.c:23-30 | The -1 of an empty slot wraps to block 8388600, far behind the paging area and the disk image |
| `Paging.StoredPageReadsBack` | earth/dev_page.c:28 | A page written to the card reads back |
| `Paging.PointerGood` | earth/dev_page.c:57-73 | Stores through a pointer into the cache are stores to a frame if and only if the slot still holds that frame |
| `Paging.EvictedUnderPointer` | earth/dev_page.c:39-73 | It can stop doing so: with 28 frames cached, an allocation and the saving of one page, in which slot 5 is drawn twice, after which a store through the pointer to the new frame changes another frame |
| `SoftTlb.Tlb.MmuAlloc` | earth/cpu_mmu.c:30-39 | Takes the first unused frame, failing exactly when there is none; no other frame and no process's memory changes |
| `SoftTlb.Tlb.MmuFree` | earth/cpu_mmu.c:41-47 | The process's memory is gone, its entries are blank, exactly the cache slots that held its frames are empty, and every other process's memory is unchanged |
| `SoftTlb.Tlb.SoftTlbMap` | earth/cpu_mmu.c:50-53 | The entry gets pid and page number; for an allocated frame and a page new to the process, the frame's content becomes that page of its memory (for the process mapped in: what the address space has there), and all other memories stay |
| `SoftTlb.MapNeedsNewPage` | earth/cpu_mmu.c:50-53 | Mapping an allocated frame keeps the table's invariant if and only if the page is in the address space and new to the process |
| `SoftTlb.Tlb.Poke` | library/elf/elf.c:51-75 | A store through the pointer `mmu_alloc` gave goes to that page of the frame's process, as long as the frame is still there and the process is not mapped in; which pages a process has never changes |
| `SoftTlb.Tlb.SoftTlbSwitch` | earth/cpu_mmu.c:55-70 | Every process's memory is what it was, and the process switched to finds its own in the address space |
| `SoftTlb.Tlb.SavePages` | earth/cpu_mmu.c:59-62 | Exactly the frames of the process mapped in take over its pages |
| `SoftTlb.Tlb.LoadPages` | earth/cpu_mmu.c:64-67 | Each page of the process comes from its frame; other pages and all frames stay |
| `SoftTlb.Tlb.Run` | earth/cpu_mmu.c:30-70 | Any run of alloc, map, stores through pointers, switch, user stores and free, in any order, does to each process's memory and to the frames not mapped yet just what the abstract operations do; a process for which none of them acts finds its memory as it was. On QEMU always, on Arty as long as the stores go through pointers that still lead to their frames. It ends early exactly when an allocation finds every frame in use |
| `SoftTlb.Isolation` | earth/cpu_mmu.c:55-70 | The abstract half of that: however others allocate, map, load, store, switch and free, a process's memory stays as it left it |
| `SoftTlb.SwitchKeepsSpaces` | earth/cpu_mmu.c:55-70 | Saving one process's pages and loading another's keeps every process's memory |
| `Kernel.Kernel.ProcYield` | grass/kernel.c:73-109 | The code over the process table computes the state machine's yield, FATAL included |
| `Kernel.Kernel.ProcSend` | grass/kernel.c:111-139 | ... the state machine's send |
| `Kernel.Kernel.ProcRecv` | grass/kernel.c:141-165 | ... the state machine's receive, which takes the waiting sender with the highest slot |
| `Kernel.Kernel.ProcSyscall` | grass/kernel.c:167-185 | ... the state machine's system call |
| `Kernel.Kernel.Entry` | grass/kernel.c:19-71 | ... the state machine's kernel entry |
| `Kernel.Kernel.SetStatusOf` | grass/process.c:15-18 | ... every slot with the pid gets the status |
| `Kernel.Kernel.ProcAlloc` | grass/process.c:24-34 | ... the first unused slot gets a pid never used before |
| `Kernel.Kernel.ProcFree` | grass/process.c:36-50 | ... one process, or with -1 every user process, becomes unused |
| `KernelRuns.RunInv` | grass/kernel.c:19-185 | In every reachable state exactly the current slot is running and mapped in, pids in use are distinct and at most the counter, and nobody waits to send to a process that waits to receive |
| `KernelRuns.EntryInv` | grass/kernel.c:19-185 | Every kernel entry that does not halt keeps that invariant |
| `KernelRuns.SpawnInv` | grass/process.c:24-34 | A new pid cannot be one that somebody already waits to send to |
| `KernelRuns.BlockSend` | grass/kernel.c:118-120 | Blocking to send keeps the rendezvous invariant |
| `KernelRuns.BlockRecv` | grass/kernel.c:148-149 | Blocking to receive, after a scan that found no sender, keeps it too |
| `KernelRuns.SendToNobody` | grass/kernel.c:138 | A send to a pid no slot has returns to the sender with -1 and changes nothing else but its own syscall area and saved context |
| `KernelRuns.LoadingKept` | grass/kernel.c:73-165 | A process being loaded keeps its slot untouched until it is marked ready or killed |
| `KernelRuns.BoundedWaiting` | grass/kernel.c:73-82 | Over any run, a process that stays ready or runnable while the CPU is given up eight times (by preemption, a receive, or a send to somebody), whatever the other slots do, is then running |
| `KernelRuns.BoundedByTimer` | grass/kernel.c:70-82 | In particular while the timer interrupts the shell and user processes eight times |
| `KernelRuns.LeavesIff` | grass/kernel.c:54-71 | The kernel yields exactly at a timer interrupt of the shell or a user process (not one interrupted from the terminal), a receive, and a send to a pid that some slot has |
| `KernelRuns.RunsWithin` | grass/kernel.c:73-82 | Over any run, a slot that can run whenever the kernel yields becomes the current one after at most as many yields as it is places away |
| `KernelRuns.CurrMoves` | grass/kernel.c:84-89 | The current slot changes only by a yield, and then from the slot left to the slot picked |
| `KernelRuns.YieldCloses` | grass/kernel.c:75-82 | A yield that passes over a process that can run brings it strictly closer |
| `KernelRuns.YieldEffect` | grass/kernel.c:84-108 | What a yield does to each of the eight slots, the context of the one entered included |
| `KernelPolicy.YieldGoes` | grass/kernel.c:73-84 | A yield finds somebody exactly when some slot, the current one included, is ready, running or runnable |
| `KernelPolicy.StopsIff` | grass/kernel.c:19-185 | A trap stops the machine exactly for a system call of unknown kind, a receive with no sender waiting and nobody else able to run, or a send to a process that is not receiving with nobody else able to run; a timer interrupt never does |
| `KernelPolicy.IgnoredReturns` | grass/kernel.c:54-66 | A timer interrupt of a server, any interrupt of a user process interrupted from the terminal, and interrupts of other kinds return to the same process with nothing changed |
| `KernelPolicy.TimerPreempts` | grass/kernel.c:70-109 | At a timer interrupt of the shell or a user process, the first slot behind it in cyclic order that can run becomes the current one; the one left is runnable, and all others stay |
| `KernelPolicy.ServersNotPreempted` | grass/kernel.c:55-59 | Over any run, a process with a pid below the shell's stops being the one that runs only by a send or receive of its own |
| `KernelPolicy.HighestSenderFirst` | grass/kernel.c:141-165 | A receive takes the message of the waiting sender in the highest slot, which can then go on; all other senders keep waiting |
| `KernelPolicy.SpawnExact` | grass/process.c:24-34 | Allocation fails exactly when no slot is unused; otherwise the lowest unused slot gets a pid no slot has, in state loading, and nothing else changes |
| `KernelPolicy.NotRunBeforeReady` | grass/process.c:20-34 | Over any run, a process that was created and not marked ready since is loading or gone, so it has not run |
| `KernelPolicy.KillExact` | grass/process.c:36-50 | Freeing makes unused exactly the slots with the pid, or with -1 those of user processes, and changes nothing else |
| `KernelPolicy.FreedForGood` | grass/process.c:36-50 | Over any run, a process that was freed never runs or waits again |
| `KernelMessages.DeliveredExactlyOnce` | grass/kernel.c:111-165 | Over any run, a live process's sends have reached the receivers they name exactly as sent, each once, in order, stamped with its pid; only the one it is blocked on is outstanding, unchanged in its own area; a delivered message is still there unchanged when its receiver gets to run. And no step does anything else: it makes at most one delivery, changes the message of no other process but by that delivery, ends a wait to receive exactly by one, and clears the type of the caller's own call |
| `KernelMessages.SendReturns` | grass/kernel.c:111-139 | Over any run, a send returns 0 to its process exactly when some slot has the receiver's pid, and by then the message has been delivered, once; otherwise it returns -1 at once and nothing is delivered; in both cases the type of the call is cleared |
| `KernelMessages.RecvReturns` | grass/kernel.c:141-185 | Over any run, between a call to receive and the next time its process runs exactly one message is delivered to it; that message is in its area, the type of the call is cleared, and it returns 0 |
| `KernelMessages.StepDelivers` | grass/kernel.c:19-185 | Every step from a state of the invariant makes only the delivery the history notes |
| `KernelMessages.ContextsRestored` | grass/kernel.c:19-29 | Over any run, whoever runs after a trap has the program counter and the 29 registers of its own last trap, or on its first run the entry point with a0 and a1 set and the other registers as they were |
| `KernelMessages.RunHist` | grass/kernel.c:19-185 | The history invariant behind both holds in every reachable state |
| `KernelMessages.RunStamped` | grass/kernel.c:112 | Every message sent in any run carries its sender's pid |
| `Syscalls.CopyMessage` | grass/kernel.c:122-129 | On the software TLB: the two switches and copies take the memories from areas `calls` to the areas of the state machine's `CopyMessage`; of the receiver's memory exactly the bytes of the message change, to the sender's, and no other memory changes |
| `Syscalls.CopiedBytes` | grass/syscall.h:12-22 | Copying the 1032 bytes of the message copies sender, receiver and content and no other field of the area |
| `Syscalls.SetField` | grass/kernel.c:171-172 | A store to the type, sender or return value of the process mapped in changes that field of that area, and no other memory |
| `PageTable.WalkIsIdentity` | earth/cpu_mmu.c:90-108 | Under the builder's invariant the two-level walk sends each address of a mapped page to itself with that page's flags, and faults on every other address |
| `PageTable.IdentityMap.SetupIdentityRegion` | earth/cpu_mmu.c:90-108 | Exactly the region's pages get the mapping and flags; earlier pages, those in a shared leaf table included, stay |
| `PageTable.IdentityMap.FindLeaf` | earth/cpu_mmu.c:93-102 | Finds the leaf table through the root entry's bits, or makes an empty one; no page's mapping changes |
| `PageTable.MapAll` | earth/cpu_mmu.c:90-127 | After any sequence of regions, each covered address translates to itself with the flags given last, and no other address translates |
| `PageTable.PagetableIdentityMapping` | earth/cpu_mmu.c:110-127 | Exactly the pages of CLINT, UART, SPI, boot ROM, disk image, DTIM and ITIM translate, each to itself, valid, readable, writable and executable and not for user mode |
| `PageTable.OrIsSum` | earth/cpu_mmu.c:101-107 | Or-ing flags into a word whose low bits are clear adds them |
| `Loader.LoadApp` | library/elf/elf.c:31-79 | With any reader, and other processes switching and storing while it reads: succeeds exactly when enough frames are free for the code pages and two stack pages, takes exactly those, and leaves a memory of the image, the arguments and nothing else; to the other processes it is as if they had run by themselves. On QEMU always, on Arty unless a page is evicted under the loader's pointer, so at least when reading a block runs nobody else |
| `Loader.LoadSegment` | library/elf/elf.c:45-56 | The pages with file bytes are the file's bytes followed by zeros, under the same conditions |
| `Loader.RunOthers` | apps/system/sys_proc.c:66 | What other processes do while a block is read leaves the memory of the process being loaded as it was |
| `Loader.ZeroPages` | library/elf/elf.c:58-62 | The image is filled up with zero pages to at least three |
| `Loader.LoadStack` | library/elf/elf.c:64-78 | Two more pages at the stack, the first holding the arguments |
| `Loader.FillArgs` | library/elf/elf.c:68-75 | argc is stored, and each argv pointer leads to its own 32-byte argument below the system call area |
| `Loader.AlignedSegment` | library/elf/elf.c:42 | The loader finds the segment's own bytes if and only if the segment starts on a block boundary of the file |
| `Loader.CodePages` | library/elf/elf.c:46-62 | Exactly three code pages if and only if the file part has at most 12 KB |
| `Shell.ParseRequest` | apps/system/sys_shell.c:13-27 | Accepts exactly the lines whose words have at most 31 characters and number at most sixteen, sixteen only without a space behind them; the argument rows then are exactly the words, padded with NULs |
| `Shell.FieldsOfJoin` | apps/system/sys_shell.c:13-27 | Splitting words joined by single spaces gives the words back |
| `Shell.Reparse` | apps/system/sys_shell.c:13-27 | An accepted line, rewritten with single spaces, is accepted and parses to the same request |
| `Directory.DirDoLookup` | apps/system/sys_dir.c:16-26 | Runs past the end of the text if and only if the name is longer than the listing; otherwise the number behind the first place where the name stands between spaces, or -1 if there is none |
| `Directory.LongName` | apps/system/sys_dir.c:20 | For a name of 16 characters in a home directory of the disk image the loop bound is 2^32 - 1 |
| `Directory.LookupFields` | apps/system/sys_dir.c:16-26 | On any text of space-separated fields, that place is the first field equal to the name |
| `Directory.LookUp` | apps/system/sys_dir.c:16-26 | On any listing in the format of the disk image, lookup gives `Answer`, unless the name is longer than the listing |
| `Directory.AnswerIsRight` | tools/mkfs.c:40-47 | With names that cannot be read as numbers, that is the first entry's inode, or -1 for an absent name, if and only if the name is not the inode number of an earlier entry, or inode 0 is right anyway |
| `Directory.NumericName` | apps/system/sys_dir.c:21-23 | The name "0", in no entry of a two-entry directory, is found all the same |
| `Directory.AtoiOfDecimal` | apps/system/sys_dir.c:23 | Reading a written number back gives the number |
| `Timer.MtimeGet` | earth/cpu_timer.c:15-23 | Against any counter that advances between accesses, the result is the counter at the low-word access of the first attempt whose high word did not change; the loop ends |
| `Timer.NotTorn` | earth/cpu_timer.c:15-23 | An unchanged high word means both halves are of one value |
| `Timer.Mtimecmp.Set` | earth/cpu_timer.c:25-34 | The deadline becomes the new one; through all three stores it is never below the new one if and only if the new high word is below 0xFFFFFFFF or the old low word is not below the new one |
| `Timer.Mtimecmp.Reset` | earth/cpu_timer.c:37 | The deadline ends up one quantum (mod 2^64) after the counter value read, and no deadline on the way is earlier, for deadlines below 0xFFFFFFFF * 2^32 |

## Left out

- Treedisk.TreeDisk.Write: at offset 2^32 - 1, into a file whose tree is neither empty nor five levels high, the walk takes data for references; what it then does to the disk is left open.
- Treedisk.TreeDisk.WriteWrapped: the same.
- Treedisk.TreeDisk.WriteAll: has no write at offset 2^32 - 1, since the statement is false there (`Treedisk.TreeDisk.Write`).
- Treedisk.TreeDisk.Create: the inode-block count is computed without 32-bit wrap-around, as the 64-bit host running mkfs does; `treedisk_getsize` of the store below is its length.
- SoftTlb.Tlb.SoftTlbMap: says nothing of memories when a page is mapped twice, which breaks the table's invariant (`SoftTlb.MapNeedsNewPage`), or when a frame is taken from one process to another. Frames of pid 0 are the allocated but unmapped ones.
- SoftTlb.Tlb.Run: pages are mapped and written through pointers only for processes that are not mapped in, as the loader does.
- Loader.LoadApp: what other processes do while a block is read is switching and storing. Allocating, mapping and freeing frames is left to the process server, which is the one waiting. What a store through a pointer to an evicted page does to the load is left open beyond `Paging.PointerGood` and `Paging.EvictedUnderPointer`.
- Kernel.Kernel.ProcYield: leaves out the timer reset; `mmu_switch` is the change of `vm`, and `SoftTlb.Tlb.SoftTlbSwitch` what is behind it.
- Kernel.Kernel.ProcSend: works on areas by pid; `Syscalls.CopyMessage` is the same copy on the software TLB.
- Kernel.Kernel.ProcRecv: likewise.
- Kernel.Kernel.ProcFree: leaves out the frames returned to the memory manager; `SoftTlb.Tlb.MmuFree` is that part.
- KernelRuns.RunInv: runs are those in which GPID_PROCESS does not free itself and marks ready only processes being loaded. The pid counter is unbounded.
- PageTable.IdentityMap.SetupIdentityRegion: requires a page-aligned address, flags of a leaf entry, and a region within one leaf table. The code checks none of these; beyond the table it writes to other memory.
- PageTable.MapAll: requires the same of each region.
- PageTable.PagetableIdentityMapping: frames for the tables come in as parameters; the entries they get in the frame table are not modelled.
- Directory.DirDoLookup: what the loop finds behind the text is left open. `atoi` overflow is not modelled.
- Crash consistency of the disk between single block writes, and device errors below treedisk.
- A FATAL or panic is a halted outcome; nothing is said about the state it leaves.
- User memory and the kernel's own memory (frame cache, page tables) are separate in the software TLB model; a process that writes outside its pages changes nothing the model sees.
- Sv32 permission checks and accessed and dirty bits (steps 5 and 7 of the walk).
- The Ctrl+C branch returns to the same process: its write of mepc is undone by the restore that follows.
- MSIP and privilege levels.
- ELF header parsing, and loading of the kernel image.
- `excp_entry`, page-table mapping and switching per process, and user-level threads, which the repository leaves to its readers; `treedisk_setsize`, which always fails.
- The conversation between shell and process server, device drivers, boot code, libc shims and the user commands.

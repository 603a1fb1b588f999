# Models of the operating-systems labs

This project models the parts of the labs whose correctness spans many calls or many processes, and proves what
they promise. The xv6 kernel, its user programs and the FAT32 file system are C programs that change memory in
place, so their functions are methods with loops over classes and arrays here; what a method does is told by
predicates and functions on values, and the whole-run theorems are lemmas about those.

`dafny verify dfyconfig.toml` checks everything.

## Storage of xv6

- `log_machine`, `log_crash`, `log_keeps`, `log_capacity`, `log_budget`, `log`: the redo log. A step is one critical
  section or one block written to the disk, and a crash may fall between any two. Next to the machine runs a
  specification without a log: a durable disk, the writes of the transaction being gathered, and the stray changes of
  buffers that nobody has given to `log_write`. The class `Log` is the code, loop by loop; its ghost `history` is a run
  of the machine, so every theorem about runs speaks of the object after any call.
  Nothing but freedom from panics depends on the size of the log area; a panic may be followed by a crash and a boot.
- `bio_machine`, `bio`: the buffer cache, first as a machine over critical sections of any number of threads, then
  as the ring of `next` and `prev` links that `brelse` rearranges. `lost` has the blocks whose contents went with a
  recycled buffer before they were on the disk. `bio_order` tells list, references and contents by the steps of a run
  alone. `bio_log` has the log as its user, in any interleaving; `bio_fault` a run that loses contents.
- `fs_blocks`, `fs_image`, `fs_space`, `fs_dinode`, `fs`, `fs_trunc`, `fs_file`, `fs_leftover`, `fs_commit`: bitmap
  allocation, two-level block maps, truncation, reading and writing. An owner map, kept as ghost state, says which slot
  of which inode reaches a block. `logged` collects the distinct blocks of a transaction. `fs_space` counts the blocks
  that a write needs; `fs_commit` follows the disk from transaction to transaction.

## Memory of xv6

- `vm_tree`, `vm_memory`, `vm_growth`: the three-level tables of Sv39 (RISC-V Privileged Architecture, section 4.4)
  in physical pages, the flat map they stand for, and a use for every page. `vm_count`: how many free pages it takes to
  map a range.
- `vm`, `vm_map`, `vm_copy`, `vm_free`, `vm_process`: `kalloc.c`, `vm.c` and the memory side of `proc.c`.
- `free_list`, `umalloc`: the allocator of section 8.7 of The C Programming Language, 2nd edition, on two arrays of
  header fields.

## Processes

- `proc_tree`, `proc`: fork, exit, wait, kill, sleep and wakeup over the process table.
- `sleepers`: sleep locks; `semaphore`: the semaphores; `turns`: `tateti` and `pingpong`, as K processes in a ring
  of K semaphores (K is 3 and 2); `pipe`: the pipe with its wrapping counters.

## FAT32 and user programs

- `scaling`, `fat_chain`, `fat`, `fat_file`: chains of clusters (Microsoft FAT32 File System Specification 1.03, "FAT
  Data Structure") and the flat files they hold. The number of clusters is a parameter of at most 0x0FFFFFF7 - 2.
- `htree_shape`, `htree`: the search tree with sibling lists.
- `grep_match`, `grep`: the matcher against the language of the expression, and the line loop.

## Where the code does less than it seems to promise

- `log.c:220` counts one block of the log area as header, but `mkfs.c:25` makes the area LOGSIZE blocks long. Full
  reservations can then meet the panic; one block more is what is needed, for operations that log nothing after their
  tenth added block (`LogCapacity.PanicFreeIffRoom`). The test comes before absorption, so with three operations of ten
  blocks each the panic strikes for a block that is logged already, however large the log area is
  (`LogCapacity.AbsorbedPanics`; `LogCrash.PanicMeans` has the exact condition).
- `writei` leaves the readable part of a chunk in the buffer when the rest of it faults, and does not report it. That
  happens if and only if the request fits the file, some but not all of it is readable, the readable part ends inside a
  block, and there is room up to that block (`Fs.Leftover`, in `Fs.FileSystem.Writei`; `FsFile.FileLeftover` for
  `filewrite`). If the block is new, `bzero` has logged it and the bytes reach the disk uncounted. If it was there
  before, it is not logged, so the change can vanish: it never reaches a recovered disk by itself
  (`LogCrash.OnlyLogged`), and it is gone when the buffer is recycled (`BufferFault.FaultLoses`).
  `FsLeftover.WriteOver` is a write of two bytes that does this.
- `morecore` hands its byte count to an `int`. From 2^31 bytes on the break ends up below the end of the block that is
  then freed, whichever way the kernel takes the number (`Umalloc.BreakCovers`, `Umalloc.LargestRequest`);
  `Umalloc.Allocator.Malloc` says exactly when the heap is in order afterwards.
- `walkaddr` does not look at PTE_W, so `copyout` writes into read-only pages, such as the text that `exec` maps, where
  the program's own stores fault (`VmCopy.StoresAgree`, `VmCopy.TextIsWritten`).
- `pipewrite` returns without a wakeup when it finds itself killed or the reader gone, so a reader can stay asleep
  beside a byte. That happens exactly when it had stored bytes and a reader was asleep (`Pipe.ForgottenIff`,
  `Pipe.RunFifo`, `Pipe.KillForgets`); `piperead` loses the byte whose copy fails (`Pipe.PipeCode.Read`).
- A buffer that is given up before it is written loses its contents when it is recycled, and in no other way
  (`BufferMachine.LostGrows`, `BufferMachine.BreadLatest`). Whoever goes through the log loses nothing
  (`BufferLog.LogLosesNothing`); the faulting copy of `writei` above does not go through it
  (`BufferFault.NotThroughLog`, `BufferFault.FaultFromBoot`).
- `fat_file_pwrite` stores a size of 32 bits, which wraps for a write that ends at 4 GiB or beyond
  (`Fat.Volume.Pwrite`); a byte written at 2^32 - 1 leaves the size 0 (`Fat.LastByte`).
- `fat_file_truncate` leaves even the size alone when the number of clusters does not fall or `errno` is still set
  from before, and keeps one spare cluster at a cluster boundary (`FatFile.Truncate`, `FatFile.SpareCluster`).
- `delete_root` advances `minimum` before `minimum_parent`. Its result is the tree without the root exactly when the
  successor is at most one left step below the right child (`HTree.Heap.DeleteRoot`), and the path through a left
  step destroys the data twice; with the keys 1 to 5 both can be seen (`HTree.DeleteTwo`). The comment on
  `remove_child_from_h` says that the child's parent becomes NULL; the code leaves it. The children of a deleted node
  keep a pointer to it (`HTree.FamilyLeftIff`).
- `pingpong` has both its semaphores exactly for pids up to 65. For larger ones `sem_open` returns -1, which the program
  does not look for, `sem_down` returns at once, and the words need not alternate (`Turns.PingPongAlternates`).
- `kill` looks at every slot, and an unused one has pid 0. So `kill(0)` marks a slot without a process, and the next
  process made there is killed before it has run (`ProcTree.KillFindsNobody`, `ProcTree.BornKilled`).
- `fat_file_pwrite` at the end of a full last cluster adds a cluster even for no byte (`Fat.Ended`, in
  `Fat.Volume.Pwrite`).
- `grep` stops at a line that fills its buffer (`Grep.GrepFile`).

## Model

| member | source | states |
|---|---|---|
| LogCrash.CrashAtomicity | Sistema_operativo_2025/labs/so25lab2g16/kernel/log.c:67-123 | at any point of any run from a formatted disk, for every size of the log area, with changes of buffers that nobody gives to log_write, and with crashes between any two block writes, inside recovery and after a panic, recovery yields every home block of exactly the committed transactions; while the log is idle the home blocks already are the committed ones and readers see the pending writes and the stray changes on top |
| LogCrash.StepKept | Sistema_operativo_2025/labs/so25lab2g16/kernel/log.c:67-235 | every single step (one block write, one critical section, a panic, a crash, a boot) keeps what recovery would yield equal to the committed transactions, for every size of the log area; a log_write that panics adds nothing to the transaction |
| LogCrash.RunKept | Sistema_operativo_2025/labs/so25lab2g16/kernel/log.c:67-235 | the same over whole runs, which may go on after a panic with a crash and a boot |
| LogCrash.OnlyLogged | Sistema_operativo_2025/labs/so25lab2g16/kernel/log.c:206-235 | a change of a block outside the transaction reaches no committed transaction, and so no disk that recovery yields, through any run in which nobody gives that block to log_write |
| LogCrash.ReservationHolds | Sistema_operativo_2025/labs/so25lab2g16/kernel/log.c:126-175 | in every run: logged blocks plus the unused reservations of all operations never exceed LOGSIZE, nor logged blocks the log area; a commit never overlaps an operation, and nobody sleeps in begin_op while the log is idle with room or with nobody left to wake it |
| LogCrash.NoPanic | Sistema_operativo_2025/labs/so25lab2g16/kernel/log.c:215-223 | with LOGSIZE + 1 blocks of log area, an operation that has not yet added its MAXOPBLOCKS blocks never meets a full log |
| LogCrash.PanicMeans | Sistema_operativo_2025/labs/so25lab2g16/kernel/log.c:218-231 | log_write panics exactly when the header is full, whether or not the block is new; with LOGSIZE + 1 blocks of log area only for a block that is logged already, by an operation that has added all its blocks |
| LogCrash.FrugalRuns | Sistema_operativo_2025/labs/so25lab2g16/kernel/log.c:215-235 | no run panics there in which no operation logs a block after its tenth added one |
| LogCrash.WriteHeadRecovers | Sistema_operativo_2025/labs/so25lab2g16/kernel/log.c:102-114 | the one header write of commit turns the pending transaction durable as a whole |
| LogCrash.AllInstalled | Sistema_operativo_2025/labs/so25lab2g16/kernel/log.c:68-83 | once all copies are home, the home blocks are the durable ones without the log |
| LogCrash.RecoverMeaning | Sistema_operativo_2025/labs/so25lab2g16/kernel/log.c:116-123 | recovery takes a named block from its copy in the log and leaves every other block |
| LogKeeps.RecoveredGood | Sistema_operativo_2025/labs/so25lab2g16/kernel/log.c:145-203 | for any property of disks: if the transaction gathered at each end_op that starts a commit leads to a disk with the property, every disk that recovery yields after any run has it |
| LogCapacity.PanicFreeIffRoom | Sistema_operativo_2025/labs/so25lab2g16/kernel/log.c:220-221 | operations that log nothing after their tenth added block never panic if and only if the log area has LOGSIZE + 1 blocks; the area of mkfs.c:25 has one less |
| LogCapacity.AbsorbedPanics | Sistema_operativo_2025/labs/so25lab2g16/kernel/log.c:220-231 | in every log area of two blocks or more there is a run in which a block that is logged already meets the panic |
| LogBudget.TransactionLegal | Sistema_operativo_2025/labs/so25lab2g16/kernel/log.c:126-142 | an operation whose blocks number at most MAXOPBLOCKS, as those of a filewrite transaction, may log each of them once it has read it, whatever the other operations do meanwhile: it never leaves its reservation |
| LogBudget.RunWithin | Sistema_operativo_2025/labs/so25lab2g16/kernel/log.c:215-235 | through any interleaving the blocks that an operation has logged stay in the header, and it has added at most that many |
| LogCode.Log.constructor | Sistema_operativo_2025/labs/so25lab2g16/kernel/log.c:54-65 | a formatted disk starts with nothing promised |
| LogCode.Log.BeginOp | Sistema_operativo_2025/labs/so25lab2g16/kernel/log.c:126-142 | one pass of the loop: the caller sleeps exactly when a commit runs or the space does not cover MAXOPBLOCKS more for everyone |
| LogCode.Log.Bread | Sistema_operativo_2025/labs/so25lab2g16/kernel/bio.c:91-103 | the block is in the cache, from the disk if it was not there; what readers see and what recovery would yield stays |
| LogCode.Log.Change | Sistema_operativo_2025/labs/so25lab2g16/kernel/fs.c:75-77 | a change of a locked buffer, between bread and log_write, is one step of the machine |
| LogCode.Log.LogWrite | Sistema_operativo_2025/labs/so25lab2g16/kernel/log.c:215-235 | the panic strikes exactly when the header is full at entry; otherwise the block is in the header once, whether absorbed or appended, and what the cache holds of it, no more and no less, is in the transaction |
| LogCode.Log.WriteLog | Sistema_operativo_2025/labs/so25lab2g16/kernel/log.c:178-191 | every logged block reaches its slot in the log, one write after the other |
| LogCode.Log.WriteHead | Sistema_operativo_2025/labs/so25lab2g16/kernel/log.c:102-114 | the header on disk becomes the one in memory, and its other words stay |
| LogCode.Log.InstallTrans | Sistema_operativo_2025/labs/so25lab2g16/kernel/log.c:68-83 | one home write for every logged block, in commit as in recovery |
| LogCode.Log.Commit | Sistema_operativo_2025/labs/so25lab2g16/kernel/log.c:193-203 | the disk writes come in the order copies, header, home blocks, empty header; an empty transaction writes nothing |
| LogCode.Log.EndOp | Sistema_operativo_2025/labs/so25lab2g16/kernel/log.c:146-175 | the last operation out commits and wakes the sleepers: when it returns, what was pending is durable, and nothing else has become so; the panic cannot happen |
| LogCode.Log.PowerLoss | Sistema_operativo_2025/labs/so25lab2g16/kernel/log.c:116-123 | a crash, after a panic too, loses the pending writes and nothing durable |
| LogCode.Log.ReadHead | Sistema_operativo_2025/labs/so25lab2g16/kernel/log.c:86-97 | the header in memory is the one on disk |
| LogCode.Log.RecoverFromLog | Sistema_operativo_2025/labs/so25lab2g16/kernel/log.c:116-123 | after it every home block holds what was committed before the crash |
| FsImage.OwnedIffMarked | Sistema_operativo_2025/labs/so25lab2g16/kernel/fs.c:65-105 | in a consistent image a data block is marked in use if and only if some inode reaches it, and then through one slot of one inode only |
| Fs.FileSystem.constructor | Sistema_operativo_2025/labs/so25lab2g16/mkfs/mkfs.c:235-248 | the disk that mkfs leaves, before the first inode: zeroed blocks, a free map with the blocks below the data in use, and no owners; it is consistent |
| FsImage.LinkAddr | Sistema_operativo_2025/labs/so25lab2g16/kernel/fs.c:389-394 | giving an address a fresh zeroed block keeps the ownership and the contents of all files |
| FsImage.LinkEntry | Sistema_operativo_2025/labs/so25lab2g16/kernel/fs.c:407-415 | the same for an entry of the indirect block |
| FsImage.UnlinkIndirect | Sistema_operativo_2025/labs/so25lab2g16/kernel/fs.c:439-449 | dropping the indirect block drops exactly the slots behind it |
| FsImage.MarkBit | Sistema_operativo_2025/labs/so25lab2g16/kernel/fs.c:75-78 | setting or clearing one bit of the free map changes the state of one block |
| FsBlocks.SetWordMeaning | Sistema_operativo_2025/labs/so25lab2g16/kernel/fs.c:407-413 | writing one word of an indirect block changes that word and no other |
| Fs.FileSystem.Balloc | Sistema_operativo_2025/labs/so25lab2g16/kernel/fs.c:65-88 | the lowest free block, zeroed and marked, with no file changed and every changed block logged; 0 exactly when none is free |
| Fs.FileSystem.Bzero | Sistema_operativo_2025/labs/so25lab2g16/kernel/fs.c:50-59 | the block is zero |
| Fs.FileSystem.Bmap | Sistema_operativo_2025/labs/so25lab2g16/kernel/fs.c:382-421 | the slot of the file block is provided: no slot in use moves, all files read the same, every changed block is logged, at most one bitmap block is logged for each block allocated, and 0 means that the disk is full |
| Fs.FileSystem.Iupdate | Sistema_operativo_2025/labs/so25lab2g16/kernel/fs.c:225-241 | the disk inode has the size and addresses of the one in memory, and its block is logged |
| FsDinode.Iupdate | Sistema_operativo_2025/labs/so25lab2g16/kernel/fs.c:225-241 | on the bytes of the inode blocks: the inode reads back whole, every other inode and every other block is as it was |
| FsDinode.Store | Sistema_operativo_2025/labs/so25lab2g16/kernel/fs.c:231-238 | the sixty-four bytes of one place hold the inode, signed fields included, and the other places of the block are untouched |
| FsDinode.Layout | Sistema_operativo_2025/labs/so25lab2g16/kernel/fs.h:32-39 | byte for byte: type, major, minor and nlink at bytes 0, 2, 4 and 6 of the place, size at 8 and the addresses from 12 on, lower bytes first |
| FsDinode.InodeBlocksApart | Sistema_operativo_2025/labs/so25lab2g16/kernel/fs.c:225-241 | writing an inode block changes no file, no owner and no bit of the free map |
| Fs.FileSystem.Writei | Sistema_operativo_2025/labs/so25lab2g16/kernel/fs.c:505-539 | the flat file gets a prefix of the data at the offset and no other byte of any file changes; the size grows to cover the bytes reported; -1 exactly when the range does not fit; with room up to the block in which the readable data ends, exactly the full chunks are reported and all readable bytes are in the buffers, without it the disk is full and what is reported is what is written; bytes stay in a buffer unreported if and only if the request fits, some but not all of it is readable, the readable part ends inside a block, and the disk has the blocks needed up to there; then that block, and no other changed one, is outside the log if it was there before and had not been logged; three blocks of data log at most MAXOPBLOCKS blocks |
| Fs.FileSystem.WriteFits | Sistema_operativo_2025/labs/so25lab2g16/kernel/fs.c:516-536 | for a range that fits: the data, the size, what is reported and what stays unreported, the blocks logged and the bound on the transaction, all told by one predicate on the states before and after |
| Fs.LeftoverIff | Sistema_operativo_2025/labs/so25lab2g16/kernel/fs.c:516-528 | bytes are written and not reported if and only if what the caller could check before says so: range, readable bytes, place in the block, free blocks |
| FsSpace.SpareFilled | Sistema_operativo_2025/labs/so25lab2g16/kernel/fs.c:382-421 | one allocation for a file takes one from the blocks it still needs up to any later place and one from the free ones |
| FsSpace.NotEnough | Sistema_operativo_2025/labs/so25lab2g16/kernel/fs.c:382-421 | a missing block on a full disk: the free blocks were fewer than those needed |
| FsSpace.HasAll | Sistema_operativo_2025/labs/so25lab2g16/kernel/fs.c:382-421 | a file with all its blocks, the indirect one included, needs none |
| FsLeftover.FirstByte | Sistema_operativo_2025/labs/so25lab2g16/kernel/fs.c:516-528 | a concrete case: two bytes, one of them readable, for an empty file |
| FsLeftover.SecondByte | Sistema_operativo_2025/labs/so25lab2g16/kernel/fs.c:516-528 | the same for a file of one byte |
| FsLeftover.WriteOver | Sistema_operativo_2025/labs/so25lab2g16/kernel/fs.c:516-539 | there writei reports 0 and leaves the size, the byte in the file is another one, and its block is not in the log |
| Fs.WrittenLog | Sistema_operativo_2025/labs/so25lab2g16/kernel/fs.c:516-528 | a write of at most three blocks logs at most nine blocks before iupdate, at any offset |
| Fs.WriteData | Sistema_operativo_2025/labs/so25lab2g16/kernel/fs.c:516-528 | new contents for the block of a file show at that place of that file and nowhere else |
| FsTrunc.Bfree | Sistema_operativo_2025/labs/so25lab2g16/kernel/fs.c:91-105 | clears the bit of a marked block; the panic is unreachable for it |
| FsTrunc.Itrunc | Sistema_operativo_2025/labs/so25lab2g16/kernel/fs.c:425-453 | the file is empty, exactly its blocks are free again, all other files are as before, and every changed block is logged |
| FsTrunc.CutIndirect | Sistema_operativo_2025/labs/so25lab2g16/kernel/fs.c:439-449 | after the entries, the indirect block itself is owned and marked, so freeing it is right |
| FsFile.Readi | Sistema_operativo_2025/labs/so25lab2g16/kernel/fs.c:471-496 | the bytes of the flat file up to its end, with nothing changed: bmap never allocates below the size |
| FsFile.WriteChunk | Sistema_operativo_2025/labs/so25lab2g16/kernel/file.c:158-173 | one transaction of filewrite: at most MAXOPBLOCKS distinct blocks are logged, and every block that it changed is among them, save the one in which the user's memory gave out, which is left out exactly when writei leaves bytes unreported in a block that was there before |
| FsFile.FileWrite | Sistema_operativo_2025/labs/so25lab2g16/kernel/file.c:149-175 | n if and only if the file is writable and all is readable, fits and has room, else -1; a prefix of the data stands in the file either way and the file offset stays within it; bytes stay unreported if and only if the readable part ends inside a block and inside a chunk, that chunk fits, and there is room up to there; every transaction fits its reservation, and every changed block is in one of their logs, save the one with unreported bytes, which is not in the last one when it was there before |
| FsCommit.BehindConsistent | Sistema_operativo_2025/labs/so25lab2g16/kernel/fs.c:65-105 | a disk that differs from what readers see only in blocks that hold neither bitmap nor block map is consistent, and no file has holes |
| FsCommit.ChunkIsTransaction | Sistema_operativo_2025/labs/so25lab2g16/kernel/file.c:158-173 | a transaction of filewrite, with faults and shortages, leaves nothing but such blocks outside the log |
| FsCommit.TruncIsTransaction | Sistema_operativo_2025/labs/so25lab2g16/kernel/fs.c:425-453 | and so does itrunc |
| FsCommit.CrashConsistent | Sistema_operativo_2025/labs/so25lab2g16/kernel/fs.c:425-539 | after any number of such transactions, each reaching the disk whole, the disk is that of a consistent file system without holes, whatever was left unlogged |
| FreeList.FreePartition | Sistema_operativo_2025/labs/so25lab2g16/user/umalloc.c:30-43 | freeing a live block, joined with both neighbours, keeps every unit from sbrk in exactly one block and free blocks sorted and apart |
| FreeList.MallocPartition | Sistema_operativo_2025/labs/so25lab2g16/user/umalloc.c:75-84 | handing out the tail of a free block keeps the partition |
| FreeList.GrowPartition | Sistema_operativo_2025/labs/so25lab2g16/user/umalloc.c:54-59 | memory from sbrk joins the partition |
| FreeList.Canonical | Sistema_operativo_2025/labs/so25lab2g16/user/umalloc.c:24-44 | the same free units are always kept as the same list, whatever calls led there |
| FreeList.FreeUndoesMalloc | Sistema_operativo_2025/labs/so25lab2g16/user/umalloc.c:24-90 | free after malloc gives back the list there was |
| Umalloc.StopsAtPred | Sistema_operativo_2025/labs/so25lab2g16/user/umalloc.c:30-32 | the two exits of the search loop are met at the right place of the ring and at no other |
| Umalloc.JoinedLinks | Sistema_operativo_2025/labs/so25lab2g16/user/umalloc.c:33-42 | the header writes of free link the ring of the new list |
| Umalloc.FreeKeepsLive | Sistema_operativo_2025/labs/so25lab2g16/user/umalloc.c:33-42 | the headers that free writes belong to no other live block |
| Umalloc.CarveKeepsLive | Sistema_operativo_2025/labs/so25lab2g16/user/umalloc.c:75-84 | the headers that malloc writes belong to no live block |
| Umalloc.SbrkArgumentExact | Sistema_operativo_2025/labs/so25lab2g16/user/umalloc.c:54-54 | sbrk gets the byte count that morecore means if and only if it is below 2^31 |
| Umalloc.BreakCovers | Sistema_operativo_2025/labs/so25lab2g16/user/umalloc.c:54-59 | after sbrk the break covers the units that morecore takes for its own if and only if less than 2^31 bytes were asked for |
| Umalloc.LargestRequest | Sistema_operativo_2025/labs/so25lab2g16/user/umalloc.c:54-55 | at the largest request sbrk is asked for 16 bytes |
| Umalloc.RefusedMeans | Sistema_operativo_2025/labs/so25lab2g16/user/umalloc.c:52-56 | below 2^31 bytes sbrk refuses exactly when the larger of 4096 units and the request does not fit below the limit of the kernel, and the header of what it gives is always on a page |
| Umalloc.Allocator.Sbrk | Sistema_operativo_2025/labs/so25lab2g16/kernel/proc.c:259-275 | for every int and every limit `grant` that the kernel sets to the break: it moves as asked, up or down, or stays: exactly when a positive count would take it beyond the limit, or when a negative one would take the size below zero |
| Umalloc.Allocator.Free | Sistema_operativo_2025/labs/so25lab2g16/user/umalloc.c:24-44 | the block leaves the live ones and joins the list at its place; no word of another live block changes |
| Umalloc.Allocator.FindPlace | Sistema_operativo_2025/labs/so25lab2g16/user/umalloc.c:30-32 | the search ends at the predecessor |
| Umalloc.Allocator.Join | Sistema_operativo_2025/labs/so25lab2g16/user/umalloc.c:33-42 | the ring of headers is that of the list with the block joined in |
| Umalloc.Allocator.MoreCore | Sistema_operativo_2025/labs/so25lab2g16/user/umalloc.c:46-61 | for every request: 0 without harm if and only if sbrk was asked and refused, killed if and only if the new header lies on no page; else the heap grows by exactly the larger of 4096 units and the request, and by nothing else, and the new block is at hand or next on the ring; from 2^31 bytes on the block ends beyond the break |
| Umalloc.Allocator.Malloc | Sistema_operativo_2025/labs/so25lab2g16/user/umalloc.c:63-90 | for every request: when a free block fits, the tail of the first such block from freep on, without sbrk; when none fits, NULL if and only if sbrk was asked for the larger of 4096 units and the request and refused, else the tail of memory that grew by just that; a new live block of the size asked for, and no word of a live block changes; the heap is in order afterwards if and only if a free block fits, or less than 2^31 bytes must come from sbrk, or sbrk refuses; else the process is killed or the new block starts at the old break and ends beyond the new one; both loops end |
| PageTree.LowestPlace | Sistema_operativo_2025/labs/so25lab2g16/kernel/vm.c:85-103 | going down from a root meets the tables of that address |
| PageTree.SetLeafMap | Sistema_operativo_2025/labs/so25lab2g16/kernel/vm.c:158-158 | writing one entry of a lowest table changes the flat map at one page |
| PageTree.AddNodeTree | Sistema_operativo_2025/labs/so25lab2g16/kernel/vm.c:96-99 | a zeroed page hung below an invalid entry keeps the tree |
| PageTree.AddNodeMap | Sistema_operativo_2025/labs/so25lab2g16/kernel/vm.c:96-99 | and leaves every flat map as it was |
| PageMemory.OnePlace | Sistema_operativo_2025/labs/so25lab2g16/kernel/vm.c:225-333 | page conservation: each page is on the free list, or a table of one tree, or mapped at one address of one process, or held by the kernel, and only one of these |
| PageMemory.KallocInv | Sistema_operativo_2025/labs/so25lab2g16/kernel/kalloc.c:68-82 | taking a page keeps that for all pages |
| PageMemory.KfreeInv | Sistema_operativo_2025/labs/so25lab2g16/kernel/kalloc.c:46-63 | and so does freeing one that nothing refers to |
| PageMemory.MapUserInv | Sistema_operativo_2025/labs/so25lab2g16/kernel/vm.c:158-158 | and mapping one |
| PageMemory.UnmapUserInv | Sistema_operativo_2025/labs/so25lab2g16/kernel/vm.c:186-190 | and unmapping one |
| PageGrowth.GrownCleared | Sistema_operativo_2025/labs/so25lab2g16/kernel/vm.c:236-246 | unmapping what a failed growth had mapped leaves nothing but new tables |
| Vm.Machine.constructor | Sistema_operativo_2025/labs/so25lab2g16/kernel/kalloc.c:26-31 | at boot the kernel holds every page |
| Vm.Machine.Freerange | Sistema_operativo_2025/labs/so25lab2g16/kernel/kalloc.c:33-40 | all pages after the kernel become free |
| Vm.Machine.Kfree | Sistema_operativo_2025/labs/so25lab2g16/kernel/kalloc.c:46-63 | the page is the first of the free list, linked through itself |
| Vm.Machine.Kalloc | Sistema_operativo_2025/labs/so25lab2g16/kernel/kalloc.c:68-82 | the first free page, or 0 exactly when there is none |
| Vm.Machine.Walk | Sistema_operativo_2025/labs/so25lab2g16/kernel/vm.c:85-103 | the place of the entry for the address; without alloc nothing changes and failure means unmapped; with it only tables of this root are added, one page for each table on the way that is missing, and it fails if and only if there are fewer free pages than that |
| VmMap.Mappages | Sistema_operativo_2025/labs/so25lab2g16/kernel/vm.c:142-165 | exactly the named pages are added to the flat map, to consecutive physical pages, and it fails if and only if there are fewer free pages than missing tables, of which each counts once; a failure leaves a first part mapped; the "remap" panic is unreachable |
| VmMap.Uvmunmap | Sistema_operativo_2025/labs/so25lab2g16/kernel/vm.c:170-192 | exactly the named pages leave the flat map, and with do_free exactly their physical pages become free; no panic is reachable |
| VmMap.Uvmdealloc | Sistema_operativo_2025/labs/so25lab2g16/kernel/vm.c:255-267 | the pages between the two sizes go, and the size is the smaller one |
| VmMap.Uvmalloc | Sistema_operativo_2025/labs/so25lab2g16/kernel/vm.c:225-249 | zeroed pages with the right flags for the growth if and only if there are as many free pages as new pages and missing tables for them; on failure all leaf mappings and all pages but new tables are as before |
| VmMap.Uvmcopy | Sistema_operativo_2025/labs/so25lab2g16/kernel/vm.c:305-333 | the child has pages of its own with equal bytes and flags if and only if there are as many free pages as pages to copy and missing tables for them; on failure it has none |
| PageCount.BilledThen | Sistema_operativo_2025/labs/so25lab2g16/kernel/vm.c:85-103 | pages mapped one after the other take together what is missing for the range, each table once |
| PageCount.TooFew | Sistema_operativo_2025/labs/so25lab2g16/kernel/vm.c:85-103 | too few free pages for one page of a range are too few for the range |
| PageCount.NoTable | Sistema_operativo_2025/labs/so25lab2g16/kernel/vm.c:92-100 | an entry that is 0 means that the root has no table for these addresses anywhere |
| PageCount.ChildNeeds | Sistema_operativo_2025/labs/so25lab2g16/kernel/vm.c:85-103 | beside the two tables of the top pages, n pages from 0 on need one table for every 512 of them and one for every 512 of those, but for the last of each kind, which are there |
| VmFree.Freewalk | Sistema_operativo_2025/labs/so25lab2g16/kernel/vm.c:271-287 | exactly the tables below the root become free; the "leaf" panic is unreachable |
| VmCopy.Walkaddr | Sistema_operativo_2025/labs/so25lab2g16/kernel/vm.c:108-126 | the physical address exactly for valid user pages below MAXVA |
| VmCopy.Copyout | Sistema_operativo_2025/labs/so25lab2g16/kernel/vm.c:351-371 | byte for byte: everything before the first byte outside valid user pages is written, and no other byte of any process changes |
| VmCopy.StoresAgree | Sistema_operativo_2025/labs/so25lab2g16/kernel/vm.c:356-366 | copyout writes what stores of the program itself would write if and only if every byte that it writes lies in a page with PTE_W; otherwise it writes more |
| VmCopy.GrownStorable | Sistema_operativo_2025/labs/so25lab2g16/kernel/exec.c:12-20 | memory that exec or sbrk has grown can be stored to exactly when it was asked for with PTE_W |
| VmCopy.GrownFlags | Sistema_operativo_2025/labs/so25lab2g16/kernel/vm.c:240-240 | such memory is valid, readable and the user's, and writable or executable exactly as asked for; no other flag is set |
| VmCopy.TextIsWritten | Sistema_operativo_2025/labs/so25lab2g16/kernel/exec.c:65-65 | on a text page copyout writes the byte at which a store faults |
| VmCopy.Copyin | Sistema_operativo_2025/labs/so25lab2g16/kernel/vm.c:376-396 | the bytes of valid user pages, up to the first byte outside them |
| VmCopy.Copyinstr | Sistema_operativo_2025/labs/so25lab2g16/kernel/vm.c:402-439 | 0 exactly when a string ends within max bytes of valid user pages, and then that string |
| VmProcess.Uvmfree | Sistema_operativo_2025/labs/so25lab2g16/kernel/vm.c:291-297 | the root and all its tables and pages are free, and nothing else changed |
| VmProcess.Uvmcreate | Sistema_operativo_2025/labs/so25lab2g16/kernel/vm.c:196-205 | an empty root without tables, at the cost of one page; 0 exactly when no page is free, and then nothing has changed |
| VmProcess.ProcPagetable | Sistema_operativo_2025/labs/so25lab2g16/kernel/proc.c:176-206 | a root with the two top pages, its two tables and no user memory if and only if three pages are free, at the cost of these; any failure gives every page back; the second mappages cannot fail |
| VmProcess.ProcFreepagetable | Sistema_operativo_2025/labs/so25lab2g16/kernel/proc.c:210-216 | everything of the process is free and nothing else |
| VmProcess.AllocProc | Sistema_operativo_2025/labs/so25lab2g16/kernel/proc.c:128-141 | trapframe page and page table if and only if four pages are free, at the cost of these; else every page back |
| VmProcess.FreeProc | Sistema_operativo_2025/labs/so25lab2g16/kernel/proc.c:155-172 | trapframe page, page table and user memory of the process are free, as far as it has them, and every other page and process is as before |
| VmProcess.Fork | Sistema_operativo_2025/labs/so25lab2g16/kernel/proc.c:286-297 | it succeeds if and only if there are as many free pages as trapframe, root, the two tables of the top pages, the pages of the parent and their tables, and takes just these; then the child has equal pages, exactly up to the parent's size; a failed fork gives every page back and every process sees the memory it saw |
| BufferMachine.StepKept | Sistema_operativo_2025/labs/so25lab2g16/kernel/bio.c:58-151 | every critical section keeps the list a permutation ordered by last release, one buffer to a block, exact reference counts, and cache and disk together up to date, but for contents thrown away with a recycled buffer |
| BufferMachine.RunKept | Sistema_operativo_2025/labs/so25lab2g16/kernel/bio.c:58-151 | the same over every interleaving of any number of threads |
| BufferMachine.BreadLatest | Sistema_operativo_2025/labs/so25lab2g16/kernel/bio.c:91-103 | after any run, whoever has a filled buffer locked sees the last contents written to the block if and only if they were not lost with a recycled buffer, and no other buffer has the block |
| BufferMachine.NothingLost | Sistema_operativo_2025/labs/so25lab2g16/kernel/bio.c:116-151 | nothing is lost while nobody gives up the last reference to a buffer whose contents the disk has not got |
| BufferMachine.LostGrows | Sistema_operativo_2025/labs/so25lab2g16/kernel/bio.c:75-87 | in one step a block loses its contents if and only if its buffer is recycled while the disk has not got them, and only new contents make good for that |
| BufferLog.LogLosesNothing | Sistema_operativo_2025/labs/so25lab2g16/kernel/log.c:68-83 | in every interleaving of threads that unlock a changed buffer only after bwrite or log_write nothing is lost, and a buffer is pinned exactly while the header names its block |
| BufferLog.BreadAfterLog | Sistema_operativo_2025/labs/so25lab2g16/kernel/bio.c:91-103 | so bread sees the last contents written, in all those runs |
| BufferLog.StillLogged | Sistema_operativo_2025/labs/so25lab2g16/kernel/log.c:215-235 | from log_write to brelse, with any steps of other threads between, the block stays in the header and the buffer with its thread, so it may be released |
| BufferLog.StillClean | Sistema_operativo_2025/labs/so25lab2g16/kernel/log.c:68-83 | from bwrite to bunpin and brelse in install_trans, with any steps of other threads between, the buffer stays as the disk is |
| BufferFault.FaultLeaves | Sistema_operativo_2025/labs/so25lab2g16/kernel/fs.c:520-525 | what writei does when the copy faults, in the cache: the thread changes, unlocks and drops the buffer, which is a run but not a careful one, and leaves contents in it that the disk has not got |
| BufferFault.NotThroughLog | Sistema_operativo_2025/labs/so25lab2g16/kernel/fs.c:520-525 | that is the step which the rule of the log forbids |
| BufferFault.FaultLoses | Sistema_operativo_2025/labs/so25lab2g16/kernel/bio.c:58-103 | recycled and read again, the buffer has what was on the disk before: the contents are lost |
| BufferFault.FaultFromBoot | Sistema_operativo_2025/labs/so25lab2g16/kernel/bio.c:58-151 | a run from the empty cache, of any size, that ends like that |
| BufferMachine.VictimIsOldest | Sistema_operativo_2025/labs/so25lab2g16/kernel/bio.c:75-87 | the buffer recycled has the oldest stamp of the unused ones; `BufferOrder.VictimByRelease` says what stamps mean |
| BufferOrder.ListByRelease | Sistema_operativo_2025/labs/so25lab2g16/kernel/bio.c:124-136 | by the steps alone: at any point of any run, of two buffers the one whose last reference was given up later is nearer to the front, and those never given up are behind, in the order in which they were |
| BufferOrder.VictimByRelease | Sistema_operativo_2025/labs/so25lab2g16/kernel/bio.c:77-87 | after any run from the empty cache the buffer recycled was given up before every other unused one, where a buffer never given up comes before all that were |
| BufferOrder.RefsCounted | Sistema_operativo_2025/labs/so25lab2g16/kernel/bio.c:58-151 | at any point of any run a thread has as many references to a buffer as it took with bget less those it gave back with brelse, bpin and bunpin have theirs, and the count in the buffer is their number |
| BufferOrder.ReadsLastWrite | Sistema_operativo_2025/labs/so25lab2g16/kernel/bio.c:91-112 | by the steps alone: whoever has a filled buffer locked sees the data last put into a buffer of the block in the run, or else what was on the disk at its start, exactly when that was not lost; otherwise what bwrite last put on the disk |
| BufferMachine.PinnedStays | Sistema_operativo_2025/labs/so25lab2g16/kernel/bio.c:139-151 | a pinned buffer keeps its block until it is unpinned, in every run |
| BufferCode.Unlinked | Sistema_operativo_2025/labs/so25lab2g16/kernel/bio.c:128-129 | the first two assignments of brelse take the buffer out of the ring in both directions |
| BufferCode.InFront | Sistema_operativo_2025/labs/so25lab2g16/kernel/bio.c:130-133 | the next four put it behind the head |
| BufferCode.BufferCache.constructor | Sistema_operativo_2025/labs/so25lab2g16/kernel/bio.c:36-53 | a ring of unused empty buffers |
| BufferCode.BufferCache.Find | Sistema_operativo_2025/labs/so25lab2g16/kernel/bio.c:66-73 | the buffer of the block, or none has it |
| BufferCode.BufferCache.FindUnused | Sistema_operativo_2025/labs/so25lab2g16/kernel/bio.c:77-87 | the least recently released unused buffer, or the head exactly when all are in use |
| BufferCode.BufferCache.Bget | Sistema_operativo_2025/labs/so25lab2g16/kernel/bio.c:58-89 | a reference to the one buffer of the block, whose count alone grows, or the recycled buffer, now empty and the block's with one reference; the panic exactly when every buffer is in use and none caches the block |
| BufferCode.BufferCache.AcquireSleep | Sistema_operativo_2025/labs/so25lab2g16/kernel/bio.c:70-70 | the lock goes to the thread |
| BufferCode.BufferCache.ReadIn | Sistema_operativo_2025/labs/so25lab2g16/kernel/bio.c:97-102 | the buffer gets the contents of its block from the disk exactly when it is empty |
| BufferCode.BufferCache.WriteOut | Sistema_operativo_2025/labs/so25lab2g16/kernel/bio.c:106-112 | the disk has the contents of the buffer |
| BufferCode.BufferCache.ReleaseSleep | Sistema_operativo_2025/labs/so25lab2g16/kernel/bio.c:122-122 | the lock is free |
| BufferCode.BufferCache.DropRef | Sistema_operativo_2025/labs/so25lab2g16/kernel/bio.c:124-136 | one reference less; with the last one the links next to the head lead to the buffer, and those of all others are as they were but for closing the gap; otherwise no link changes |
| BufferCode.BufferCache.Bpin | Sistema_operativo_2025/labs/so25lab2g16/kernel/bio.c:139-144 | one reference more |
| BufferCode.BufferCache.Bunpin | Sistema_operativo_2025/labs/so25lab2g16/kernel/bio.c:146-151 | one reference less, in place |
| ProcTree.StepKept | Sistema_operativo_2025/labs/so25lab2g16/kernel/proc.c:279-435 | every step of fork, exit, wait, sleep, wakeup, kill and the scheduler keeps parents alive and older, zombies noticed, pids distinct and reaped once |
| ProcTree.RunKept | Sistema_operativo_2025/labs/so25lab2g16/kernel/proc.c:279-435 | the same over every interleaving from the first process on |
| ProcTree.FamilyKept | Sistema_operativo_2025/labs/so25lab2g16/kernel/proc.c:329-435 | in every run no process has an unused or zombie parent, a parent has the smaller pid, none sleeps in wait beside a zombie child, and no pid is returned by wait twice |
| ProcTree.LeadsToInit | Sistema_operativo_2025/labs/so25lab2g16/kernel/proc.c:329-341 | from every process the parent links lead to init |
| ProcTree.ZombieStatus | Sistema_operativo_2025/labs/so25lab2g16/kernel/proc.c:378-411 | in every run the status that wait finds with a pid is the one that the process of that pid has given to exit |
| ProcCode.ProcTable.constructor | Sistema_operativo_2025/labs/so25lab2g16/kernel/proc.c:47-59 | the table with its first process |
| ProcCode.ProcTable.WakeUp | Sistema_operativo_2025/labs/so25lab2g16/kernel/proc.c:566-580 | exactly the other processes asleep on the channel become runnable |
| ProcCode.ProcTable.Reparent | Sistema_operativo_2025/labs/so25lab2g16/kernel/proc.c:330-341 | exactly the children go to init, which is woken if there are any |
| ProcCode.ProcTable.Exit | Sistema_operativo_2025/labs/so25lab2g16/kernel/proc.c:368-381 | one step of the machine: the process a zombie with its status, exactly its children init's, and of the others exactly init and the parent woken from wait |
| ProcCode.ProcTable.WaitRound | Sistema_operativo_2025/labs/so25lab2g16/kernel/proc.c:399-433 | the first zombie child is reaped and its pid and status returned; -1 without children, when killed, or when the status cannot be stored; else asleep |
| ProcCode.ProcTable.AllocProc | Sistema_operativo_2025/labs/so25lab2g16/kernel/proc.c:109-126 | the first unused slot with a new pid, or -1 when there is none |
| ProcCode.ProcTable.KillPid | Sistema_operativo_2025/labs/so25lab2g16/kernel/proc.c:585-604 | a process of that pid is marked and, if asleep, runnable, and nothing else changes; -1 exactly when there is none |
| ProcTree.KillMarks | Sistema_operativo_2025/labs/so25lab2g16/kernel/proc.c:591-599 | the victim is marked and does not sleep; every other process is as before |
| ProcTree.KilledByKill | Sistema_operativo_2025/labs/so25lab2g16/kernel/proc.c:585-604 | at any point of any run a slot is marked if and only if it has met a kill since it was last given back, so the test in wait sees every kill that came before it |
| ProcTree.KillFindsNobody | Sistema_operativo_2025/labs/so25lab2g16/kernel/proc.c:589-591 | a slot has pid 0 exactly when no process is in it |
| ProcTree.BornKilled | Sistema_operativo_2025/labs/so25lab2g16/kernel/proc.c:589-599 | from any state with a free slot there is a run in which kill marks that slot and fork then makes a process there that is killed before it has run |
| SleepLock.RunKept | Sistema_operativo_2025/labs/so25lab2g16/kernel/sleeplock.c:21-52 | in every interleaving the holder keeps the lock until it releases it, and nobody sleeps while the lock is free |
| SleepLock.StepMeans | Sistema_operativo_2025/labs/so25lab2g16/kernel/sleeplock.c:21-42 | acquiresleep gets a free lock and sleeps at a held one; releasesleep frees it and wakes every sleeper |
| Semaphore.StepKept | Sistema_operativo_2025/labs/so25lab2g16/kernel/semaphore.c:26-106 | a closed semaphore is -1, an open one never negative, and one that is not 0 has no sleeper, after every call |
| Semaphore.ValueIsCount | Sistema_operativo_2025/labs/so25lab2g16/kernel/semaphore.c:26-106 | in every run, also when a semaphore is closed and reopened before its sleepers run, the value is the opening value plus ups minus completed downs |
| Semaphore.ValueOfReturns | Sistema_operativo_2025/labs/so25lab2g16/kernel/semaphore.c:66-106 | while a semaphore stays open its value is that at the start plus the calls of sem_up that returned 1 minus the calls of sem_down that did |
| Semaphore.ReturnedMeans | Sistema_operativo_2025/labs/so25lab2g16/kernel/semaphore.c:26-106 | sem_open, sem_close and sem_up return 1 exactly when they change the semaphore, which is when it was closed and the value not negative, or open; sem_down returns 1 exactly when it takes one, and what each call leaves is told |
| Semaphore.SemArray.constructor | Sistema_operativo_2025/labs/so25lab2g16/kernel/semaphore.c:15-24 | all semaphores closed |
| Semaphore.SemArray.SemOpen | Sistema_operativo_2025/labs/so25lab2g16/kernel/semaphore.c:26-47 | opens a closed semaphore with a value that is not negative, else 0 |
| Semaphore.SemArray.SemClose | Sistema_operativo_2025/labs/so25lab2g16/kernel/semaphore.c:49-64 | closes an open semaphore and wakes all its sleepers |
| Semaphore.SemArray.SemUp | Sistema_operativo_2025/labs/so25lab2g16/kernel/semaphore.c:66-83 | adds one, and wakes the sleepers when the value was 0 |
| Semaphore.SemArray.SemDown | Sistema_operativo_2025/labs/so25lab2g16/kernel/semaphore.c:85-106 | takes one, sleeps at 0, and is refused when the semaphore is or gets closed |
| Turns.WordsInTurn | Sistema_operativo_2025/labs/so25lab2g16/user/tateti.c:54-94 | for every n and every interleaving the words printed so far are those of the processes in turn, first process first, and n of each when all are through |
| Turns.TatetiInTurn | Sistema_operativo_2025/labs/so25lab2g16/user/tateti.c:8-94 | so the words of tateti come in turn |
| Turns.NeverStuck | Sistema_operativo_2025/labs/so25lab2g16/user/tateti.c:54-94 | until all are through some process can go on |
| Turns.RunsEnd | Sistema_operativo_2025/labs/so25lab2g16/user/pingpong.c:48-70 | no run is longer than a bound fixed at its start, so every run can be driven to its end |
| Turns.PingPongIds | Sistema_operativo_2025/labs/so25lab2g16/user/pingpong.c:24-25 | both ids exist if and only if the pid is at most 65; different processes never share an id, nor use one of tateti |
| Turns.PingPongAlternates | Sistema_operativo_2025/labs/so25lab2g16/user/pingpong.c:22-70 | all interleavings of ping and pong alternate if and only if the pid is at most 65; beyond, the calls on ids that do not exist return at once and pong can come first |
| Pipe.RunFifo | Sistema_operativo_2025/labs/so25lab2g16/kernel/pipe.c:58-130 | in every run, kills and faults included, bytes taken are a prefix of bytes stored with at most 512 between; a sleeping writer means a full pipe with its reader open and a sleeping reader an empty one with its writer open, all along, if and only if no writer is found killed after its first byte while a reader sleeps |
| Pipe.StepFifo | Sistema_operativo_2025/labs/so25lab2g16/kernel/pipe.c:58-130 | every call keeps the order and the bound |
| Pipe.WriteStops | Sistema_operativo_2025/labs/so25lab2g16/kernel/pipe.c:76-103 | the bytes stored are the first i of the source, after those there were; a call sleeps exactly at a full pipe, gives up exactly when killed or the reader is gone, and ends early only at a fault; it wakes the readers unless it gives up |
| Pipe.ReadStops | Sistema_operativo_2025/labs/so25lab2g16/kernel/pipe.c:105-130 | a call sleeps exactly at an empty pipe with its writer open, gives up exactly when it is killed there, and else delivers bytes until n, the fault or the end of the queue, none only for n = 0, no room, or an empty pipe whose writer is closed; it wakes the writers |
| Pipe.ForgottenIff | Sistema_operativo_2025/labs/so25lab2g16/kernel/pipe.c:58-130 | one call leaves a process asleep without reason if and only if it is a write that ends, killed or with the reader gone, after storing bytes, while a reader sleeps |
| Pipe.KillForgets | Sistema_operativo_2025/labs/so25lab2g16/kernel/pipe.c:84-86 | such a call: a reader stays asleep beside a byte |
| Pipe.FullTest | Sistema_operativo_2025/labs/so25lab2g16/kernel/pipe.c:88-88 | the tests for a full and an empty pipe are right on counters that have wrapped |
| Pipe.PipeCode.constructor | Sistema_operativo_2025/labs/so25lab2g16/kernel/pipe.c:33-36 | an empty pipe, open at both ends |
| Pipe.PipeCode.StoreByte | Sistema_operativo_2025/labs/so25lab2g16/kernel/pipe.c:95-95 | one byte more at the end of the queue, also when the counter wraps |
| Pipe.PipeCode.TakeByte | Sistema_operativo_2025/labs/so25lab2g16/kernel/pipe.c:123-123 | the oldest byte |
| Pipe.PipeCode.Write | Sistema_operativo_2025/labs/so25lab2g16/kernel/pipe.c:76-103 | the first i bytes of the source go in, up to where a full pipe, a fault, a kill or a closed reader stops it; the caller sleeps, ends or gives up accordingly, and the sleeping readers are woken unless it gives up |
| Pipe.PipeCode.Read | Sistema_operativo_2025/labs/so25lab2g16/kernel/pipe.c:105-130 | the bytes delivered are the next of the queue, up to n, the fault or its end, and one more is lost when storing it fails; the caller sleeps exactly at an empty pipe with its writer open, and returns -1 exactly when it is killed there |
| Pipe.PipeCode.ClosePipe | Sistema_operativo_2025/labs/so25lab2g16/kernel/pipe.c:58-74 | the end is closed and the other side woken; the page is given back exactly when the other end was closed before |
| FatChain.ChainsApart | Sistema_operativo_2025/labs/so25lab3g16/fat_table.c:16-27 | chains of different files share no cluster, and no chain meets a cluster twice |
| FatChain.AppendChains | Sistema_operativo_2025/labs/so25lab3g16/fat_file.c:539-545 | linking a free cluster behind the last one of a file keeps all chains in order |
| FatChain.CutChains | Sistema_operativo_2025/labs/so25lab3g16/fat_file.c:504-522 | ending a chain early and freeing the rest keeps all chains in order |
| FatChain.ChunkWritten | Sistema_operativo_2025/labs/so25lab3g16/fat_file.c:581-586 | bytes written into a cluster show at their place of that file and nowhere else |
| Fat.ChunkThere | Sistema_operativo_2025/labs/so25lab3g16/fat_file.c:581-586 | a chunk changes the disk at the bytes of the file that it is for, and nowhere else |
| Fat.AppendThere | Sistema_operativo_2025/labs/so25lab3g16/fat_file.c:543-545 | a new cluster changes the FAT at that cluster and at the last one before it |
| Fat.Volume.NextFree | Sistema_operativo_2025/labs/so25lab3g16/fat_table.c:51-67 | the lowest free cluster, or end of chain exactly when there is none |
| Fat.Volume.constructor | Sistema_operativo_2025/labs/so25lab3g16/fat_table.c:16-27 | a volume with one empty file is in order |
| Fat.Volume.SetNext | Sistema_operativo_2025/labs/so25lab3g16/fat_table.c:78-92 | one entry of the FAT changes |
| Fat.Volume.Seek | Sistema_operativo_2025/labs/so25lab3g16/fat_table.c:94-105 | the cluster of the byte, end of chain just past the last, and 0 beyond |
| Fat.Volume.NextOrNew | Sistema_operativo_2025/labs/so25lab3g16/fat_file.c:534-551 | the next cluster of the file, a new last one, or 0 exactly when no cluster is free |
| Fat.Volume.FindStart | Sistema_operativo_2025/labs/so25lab3g16/fat_file.c:564-578 | the cluster and the byte in it where a write begins, also at a cluster boundary and at the end of the file |
| Fat.Volume.Pwrite | Sistema_operativo_2025/labs/so25lab3g16/fat_file.c:553-612 | the number `w` of bytes written is all of them or as many as fit into the clusters of the file and the free ones, and 0 for an offset beyond the end; those bytes land at the offset and every other byte of every file is kept; the chain gets no cluster beyond the one of the last byte, or, for a write at its end, of the first; the chains stay in order; the size grows to the end of what was written, if and only if that is below 4 GiB; disk and FAT differ nowhere else |
| FatFile.Pread | Sistema_operativo_2025/labs/so25lab3g16/fat_file.c:439-479 | the bytes of the flat file from the offset up to its end |
| FatFile.FreeFrom | Sistema_operativo_2025/labs/so25lab3g16/fat_file.c:513-522 | the freeing loops end on every FAT, even a cyclic one, and free exactly what they meet |
| FatFile.WalkIsChain | Sistema_operativo_2025/labs/so25lab3g16/fat_file.c:619-625 | on a chain, what the loop meets is the rest of the chain |
| FatFile.SpareCluster | Sistema_operativo_2025/labs/so25lab3g16/fat_file.c:485-499 | a cut keeps the clusters that the new size needs, and one more exactly at a cluster boundary other than 0 |
| FatFile.Truncate | Sistema_operativo_2025/labs/so25lab3g16/fat_file.c:481-528 | the chain ends after the cluster of byte `offset`, exactly the clusters behind it are free and the size is `offset`, if fewer clusters are needed and errno is 0; otherwise nothing changes, the size included |
| FatFile.FreeClusters | Sistema_operativo_2025/labs/so25lab3g16/fat_file.c:614-626 | exactly the clusters of the file become free |
| HTree.Heap.Search | Sistema_operativo_2025/labs/so25lab3g16/hierarchy_tree.c:100-114 | the node of the key, or NULL exactly when the tree has none |
| HTreeShape.OneTree | Sistema_operativo_2025/labs/so25lab3g16/hierarchy_tree.c:35-43 | the pointers determine the tree |
| HTreeShape.InsertKeys | Sistema_operativo_2025/labs/so25lab3g16/hierarchy_tree.c:121-139 | inserting adds exactly the key and keeps the order; a known key changes nothing |
| HTree.Heap.NodeInit | Sistema_operativo_2025/labs/so25lab3g16/hierarchy_tree.c:45-62 | a new leaf, first in the list of its h_parent |
| HTree.Heap.Insert | Sistema_operativo_2025/labs/so25lab3g16/hierarchy_tree.c:121-139 | the tree at the result is the search tree with the key, sizes exact, and only the path and the new node changed |
| HTree.InsertFamily | Sistema_operativo_2025/labs/so25lab3g16/hierarchy_tree.c:53-60 | every h_children list still holds exactly the nodes that name that h_parent |
| HTree.Heap.RemoveChild | Sistema_operativo_2025/labs/so25lab3g16/hierarchy_tree.c:158-176 | the node is out of the list of its h_parent, and the other siblings keep their order |
| HTree.Heap.FindMinimum | Sistema_operativo_2025/labs/so25lab3g16/hierarchy_tree.c:193-206 | where the loop stops: with one left step the parent is the right child, with more it is the minimum itself |
| HTree.Heap.SwapNodes | Sistema_operativo_2025/labs/so25lab3g16/hierarchy_tree.c:143-153 | the two nodes have changed subtrees |
| HTree.Heap.DeleteRoot | Sistema_operativo_2025/labs/so25lab3g16/hierarchy_tree.c:178-210 | the tree without its root if the successor is at most one left step below the right child; if it is deeper, what comes back is no tree at all; with a left step the data is destroyed twice |
| HTree.DeleteTwo | Sistema_operativo_2025/labs/so25lab3g16/hierarchy_tree.c:178-210 | a search tree of five keys whose root has a deeper successor: what comes back is no tree and the data is destroyed twice |
| HTree.FiveDeep | Sistema_operativo_2025/labs/so25lab3g16/hierarchy_tree.c:193-206 | that tree is a search tree, and its successor is deeper |
| HTreeShape.DropThird | Sistema_operativo_2025/labs/so25lab3g16/hierarchy_tree.c:202-208 | with a deeper successor the new links form a cycle, so no finite tree hangs at the result |
| HTreeShape.DeleteKeys | Sistema_operativo_2025/labs/so25lab3g16/hierarchy_tree.c:213-234 | deleting removes exactly the key and keeps the order |
| HTree.Heap.Delete | Sistema_operativo_2025/labs/so25lab3g16/hierarchy_tree.c:213-234 | the search tree without the key, sizes exact, when the successor is not deeper; an unknown key changes nothing; what is destroyed is the data of the key, twice on the path through a left step |
| HTree.DeleteFamily | Sistema_operativo_2025/labs/so25lab3g16/hierarchy_tree.c:158-176 | deleting a node without children takes it out of the hierarchy and leaves every other list |
| HTree.FamilyLeftIff | Sistema_operativo_2025/labs/so25lab3g16/hierarchy_tree.c:158-176 | what a deletion leaves is a hierarchy if and only if the node had no children; a child keeps the pointer to the freed node |
| HTree.Heap.FlattenPreorder | Sistema_operativo_2025/labs/so25lab3g16/hierarchy_tree.c:254-262 | exactly `size` slots are filled, with the keys in preorder |
| HTreeShape.PreorderMeans | Sistema_operativo_2025/labs/so25lab3g16/hierarchy_tree.c:254-262 | at every node of the tree: it comes before its subtrees, and its left subtree before its right one |
| HTreeShape.PreOnce | Sistema_operativo_2025/labs/so25lab3g16/hierarchy_tree.c:254-262 | every node comes, and once |
| HTreeShape.PreKeys | Sistema_operativo_2025/labs/so25lab3g16/hierarchy_tree.c:254-262 | the keys stored are those of the nodes in that order |
| HTree.Heap.FlattenKids | Sistema_operativo_2025/labs/so25lab3g16/hierarchy_tree.c:264-275 | the children in list order and a null after them |
| GrepMatch.Matchhere | Sistema_operativo_2025/labs/so25lab2g16/user/grep.c:84-95 | true if and only if some prefix of the text is in the language of the expression (all of it when a final $ asks for that) |
| GrepMatch.Matchstar | Sistema_operativo_2025/labs/so25lab2g16/user/grep.c:98-105 | true if and only if some run of fitting characters is followed by a match of the rest |
| GrepMatch.Match | Sistema_operativo_2025/labs/so25lab2g16/user/grep.c:71-81 | true if and only if some position of the text begins a match, only the first one after ^ |
| Grep.PrintLine | Sistema_operativo_2025/labs/so25lab2g16/user/grep.c:21-26 | a matching line comes out with its newline, and the buffer behind it is untouched |
| Grep.PrintLines | Sistema_operativo_2025/labs/so25lab2g16/user/grep.c:20-28 | the matching ones of the complete lines in the buffer, and where the rest begins |
| Grep.GrepFile | Sistema_operativo_2025/labs/so25lab2g16/user/grep.c:10-34 | however reads cut the input, the output is the matching lines of what was read; all of the input is read if and only if no line fills the buffer |

## Left out

- LogCrash.CrashAtomicity: operations keep to MAXOPBLOCKS added blocks, which is the contract of begin_op; `LogBudget.TransactionLegal` says how a file system call keeps to it.
- Fs.FileSystem.Iupdate: in this class an inode is its size and addresses, and disk inodes are a list beside the blocks; `FsDinode.Iupdate` has the bytes and the other fields, and `FsDinode.InodeBlocksApart` why the two can be told apart.
- Fs.FileSystem.Writei: of an inode only size and addresses are modelled.
- FsFile.FileWrite: pipes and devices behind the same call, and the inode's lock, are not modelled.
- BufferCode.BufferCache.Bget: block numbers that the disk does not have, and device 0, which marks an empty buffer.
- Umalloc.Allocator.Malloc: a heap that a request has torn is not followed through later calls. The program's memory ends at a given unit, below which no count of units overflows; how far the kernel lets the break go is a parameter of each call.
- Umalloc.Allocator.Sbrk: the break as the allocator sees it; the limit that the kernel sets is a parameter, and the pages behind it are the business of `VmMap.Uvmalloc`, which has the exact condition, and `VmMap.Uvmdealloc`.
- VmMap.Uvmunmap: do_free 0 for user pages, which would leave them to nobody, and do_free 1 for the trampoline and the trapframe; no caller does either.
- VmCopy.Copyout: the address space above MAXVA is unbounded, where the original wraps at 2^64.
- VmProcess.Fork: saved registers, open files and the working directory of the child.
- ProcCode.ProcTable.Exit: closing files and leaving the working directory, which come before wait_lock is taken.
- ProcCode.ProcTable.AllocProc: process ids are unbounded, where the original wraps at 2^31.
- Semaphore.StepKept: the value is unbounded, where the original wraps at 2^31; sem_init is for boot time only, as it takes no lock.
- Turns.WordsInTurn: opening the semaphores, which comes before the first fork, and wait and closing, which come after all words; a process not forked yet is one that has not been scheduled yet. Programs that stop because fork or sem_open fails print no words in this model. Every process is modelled as steps, not as a loop, because it is the interleaving that matters.
- Fat.Volume.Pwrite: disk writes that fail.
- FatFile.Truncate: timestamps and the directory entry on disk; `errno` is a parameter.
- HTree.DeleteFamily: what becomes of a hierarchy with orphans later; freed nodes stay in the model's heap.
- Grep.GrepFile: files with NUL characters and reads that fail.
- FsCommit.CrashConsistent: block maps and inodes are those of the file system at that point, inodes as records beside the blocks; the disk bytes of an inode are in `FsDinode`. The concurrent operations of one commit count as one transaction.
- The layers of the storage stack are modelled apart, and no single state holds them all: words of a block in the log, bytes in the file system, whole contents in the cache. The file system works on the latest contents of each block, which `BufferLog.BreadAfterLog` and `LogCrash.CrashAtomicity` justify for all that goes through the log; `LogBudget.TransactionLegal`, `BufferLog.StillLogged` and `BufferLog.StillClean` discharge what one layer asks of the next. The exception is the faulting copy of writei: what it leaves in the buffer of a block that is not logged may be gone at the next read (`BufferFault.FaultLoses`), while `Fs` goes on with it.
- A physical page is a free-list link, a table or bytes, and not all of these at once; the TLB is not modelled.
- The kernel's page table, uvmfirst, uvmclear and exec, which map or unmap without a property of their own.
- Spinlocks, interrupts and the context switch: what runs under one lock is one step, and the scheduler chooses freely.
- Blocks torn by power loss and failing disks: a block write happens or does not.
- inode allocation, directories, path names and file descriptors, which add bookkeeping of the same kind.
- h_tree_destroy and the two iterators, and the accessors of hierarchy_tree.c: plain walks.
- The shell of lab 1, device drivers, boot and assembly code, the FUSE callbacks and the logging of lab 3: input, output and glue.

# Coherent for the Z8001: a verified model of its kernel's data structures and of Kermit

These Dafny files model the parts of the Coherent kernel that keep state in linked,
delta-encoded or chained form, the two programs that must agree with the kernel about a disk,
and the Kermit file transfer program, and prove what the code relies on without saying so.
`dafny verify dfyconfig.toml` checks the whole project.

| files | what they model |
|---|---|
| Words, Seqs, Core | 16-bit words, surgery on ghost sequences, the memory copy and clear loops |
| Scheduler | the run queue of `proc.c` and its ageing in `clock.c`, the sleep queues |
| Timers | the delta list of `timeout.c` and its expiry in `clock.c` |
| Blocks, FreeList, IcheckMarks | disk blocks; the chained free list of `fs2.c`; `icheck.c`'s marks and its free list |
| BlockMap, Trees, FileTrees, Inodes | the three-level block map of `fs3.c`, `vmap`, `aread`, `iclear`, `indfree` |
| DiskImage, DiskFiles, DiskShrink, DiskContent, DiskCheck | the offline tool `disk.py` |
| InodeTable, InodeProgress | `iattach` and `idetach` of `fs1.c` under sleeping gates; that nobody is stuck there |
| BufferCache, BufferSync, BufferProgress | the buffer cache of `bio.c`; what reaches the disk; that nobody is stuck there |
| Pipes, CharQueues | `pipe.c`, `clist.c` |
| Arena | the coalescing allocator of `alloc.c` |
| Segments, SwapCounts, SwapForks | memory segments of `seg.c`; the reference counts that `seg.c` and `swap.c` share; forks and exits from their beginning to their end |
| KermitData, KermitPacket, KermitProtocol, KermitRecovery, KermitSides | `kermit.c`: quoting, packets, the protocol over a lossy line, what it recovers from, the two programs |

Code that changes state in place is modelled by classes, arrays and loops, proved against
functions on values. What may be interrupted at a sleep is modelled as a state machine whose
steps run from one sleep to the next; its results hold for every run, whatever the processes do
and in whatever order. Members with "Keeps" in their names are the steps of such invariants.

## Findings

Properties that the code does not have, each with an input and the exact condition under which
it does have them.

| where | what happens | input | condition |
|---|---|---|---|
| src/kernel/coh/seg.c:765 | `segmove` takes a segment with a transient lock for an unlocked one: `procdisk` has taken the slots it has seen off `s_lrefc`, and marks the process PFSWAP only at its end, so a lock can make up for a missing reference. It may be that of `segdisk` itself, that of a fork waiting at `swapbuf`'s gate, or that of a raw transfer (src/kernel/coh/bio.c:459-467). The comment at src/kernel/coh/seg.c:718-727 says that such a lock is always seen. | `SwapCounts.TestMissesWrite`, `SwapCounts.TestMissesCopy`: runs of two processes, of which the one that is not swapped out could be in `segmove` | `SwapCounts.TestFindsTransfers`: a segment with transient locks passes the test if and only if no owner is marked PFSWIO, the swapper is in `procdisk` for a process not marked PFSWAP when it began, and as many slots of that process naming the segment have been seen as there are transient locks |
| src/kernel/coh/alloc.c:50 | the number of cells wraps for requests of 65533 to 65535 bytes; a header without data is handed out, and what is behind it is cleared | `Arena.NotEnough`: 65533 bytes | `Arena.Enough`: the cells suffice if and only if the size is at most 65532; `Arena.Heap.Alloc`: the arena stays sound if and only if NULL is returned or the size is at most 65532 |
| src/kernel/z8001/src/md.s:1027-1043 | `kclear` of an odd number of bytes clears the first byte twice and the last one not at all | an odd count above 1 | `Arena.ClearsAllIff`: all bytes are cleared if and only if the count is even or 1 |
| src/kernel/coh/timeout.c:58 | the first subtraction of the search wraps when the earliest timer is overdue and the new one far off; the new timer is then queued ahead of the overdue one | `Timers.FoundWrong`: first timer 10 ticks overdue, new one in 32767 ticks | `Timers.FoundIff`: the place is right if and only if the count from the first deadline fits in a word |
| tools/disk.py:401-431 | `free_block` onto an empty list leaves a chain that does not end, and so do `rebuild_free_list` (tools/disk.py:833-872) and a file that gets shorter on a full volume (tools/disk.py:541-596) | a block whose first word is not 0 | `DiskImage.Image.FreeBlock`, `DiskCheck.Rebuild`, `DiskShrink.ShrinkTo`: the chain is sound if and only if the block at its bottom begins with a word of 0 |
| src/userland/cmd/kermit.c:1069 | damage can cancel out in the one-character checksum; and damage to the length character makes another character the checksum, of which a single bit is enough | `KermitPacket.SwapIsAccepted`: data AB sent, BA accepted; `KermitPacket.LengthBitIsAccepted`: one bit of the length of a packet with data `A,`, accepted with data `A` | `KermitPacket.DamageAccepted`: with the length and the checksum intact and no mark for number or type, a damaged packet is accepted if and only if the characters read have the folded sum of those sent; `KermitPacket.RPack`: any line is accepted if and only if the character behind the data that its length asks for is the folded sum |
| src/userland/cmd/kermit.c:883-888 | the end of a file does not reset the try counter, as data does (src/userland/cmd/kermit.c:868-869): a receiver that takes it in on its last try refuses the next packet, so that a transfer of which nothing is lost any more, and in which no counter is beyond its limit, cannot be completed | `KermitRecovery.EofOnLastTry`: a file of one packet, for whose end the receiver has waited twenty times in vain | `KermitRecovery.CanBeCompleted`: from a reachable state the transfer can be completed if and only if the sender may still send or hear what it needs and the receiver has a try left for what it wants, two for the end of a file unless a repetition is on the way that it may still answer |
| src/userland/cmd/kermit.c:844-860 | a receiver gives up over too many repetitions of a packet, also when they were all sent before its answer could arrive, so that losing some of them is what would save the transfer | `KermitRecovery.TooManyCopies`: 21 copies of the send-init come at once, after a timeout of the receiver, which has taken in the first; `KermitRecovery.LossWouldHelp`: no such transfer completes without a loss | `KermitRecovery.LosesNothingMore`: it goes on to its end without any loss if the sender's counter has room for what is under way and the receiver's for three times as much; in particular whenever nothing is under way and a try is left |
| src/kernel/coh/bio.c:46-57 | `bsync` looks at BFMOD only, which a superblock that is being written (src/kernel/coh/fs2.c:110-124, 200-216) does not have: it comes back although that write is still under way | `BufferSync.SyncMissesThrough` | `BufferSync.SyncPass`: behind it the disk has what was visible if and only if no buffer of the block that is not modified is being written with something else than the disk has |

Where the code and its documentation disagree, the code is followed. Besides the comment on
`segmove` above: the comment in tools/disk.py:413-421 says that the kernel's `bfree` spills only a
full cache, but src/kernel/coh/fs2.c:512 spills an empty one too.

## Model

| member | source | states |
|---|---|---|
| Scheduler.DecodingIsUnique | src/kernel/coh/proc.c:349-413 | the fields of a ring encode a list of values if and only if each value is the modulo 2^16 sum of the fields from its successor up to and including the head, and the ring sums to 0; so there is one decoding |
| Scheduler.RunQueue.SetRun | src/kernel/coh/proc.c:390-413 | the process is inserted behind every process of at least its value and ahead of every other, and all other decoded values stay |
| Scheduler.RunQueue.Dispatch | src/kernel/coh/proc.c:349-380 | the first process in core leaves the queue and gets the processor with its exact value; all other values and their order stay; with none in core the idle process runs |
| Scheduler.RunQueue.Clock | src/kernel/coh/clock.c:47-70 | every queued value goes up by CVCLOCK, none wraps and none changes place, if and only if the first value is neither 0 nor 65535; the running process's value is halved |
| Scheduler.Wakeup | src/kernel/coh/proc.c:322-343 | exactly the sleepers on the event leave the sleep queue, the rest keep their order, and the woken enter the run queue one after the other, credited for the ticks they slept, saturating |
| Scheduler.RestedIs | src/kernel/coh/proc.c:322-343 | who slept for t ticks wakes with t more, saturating at a word, the ticks counted modulo 2^16 |
| Timers.TimerQueue.Timeout | src/kernel/coh/timeout.c:23-79 | the timer leaves its old place if it was queued; if there is a function it is queued n ticks from now behind every timer due no later; no other deadline changes; if the count does not fit it becomes the first, ahead of an overdue one |
| Timers.FoundIff | src/kernel/coh/timeout.c:56-64 | the search finds the right place if and only if the count from the first deadline fits in a signed word |
| Timers.FoundWrong | src/kernel/coh/timeout.c:56-64 | with a first timer 10 ticks overdue a timer for 32767 ticks is put ahead of it |
| Timers.TimerQueue.ExpireOne | src/kernel/coh/clock.c:121-145 | a timer fires if and only if the first deadline has been reached; it is the first in the queue, is disarmed, and no other deadline changes, whatever the last node's increment holds |
| Timers.TimerQueue.Tick | src/kernel/coh/clock.c:47-49 | a tick moves the present by one and no deadline |
| FreeList.Mount.BAlloc | src/kernel/coh/fs2.c:430-491 | pops the free stack, across every refill; reports no space if and only if the stack is empty; never reports a bad free list; s_tfree stays the height of the stack |
| FreeList.Mount.BFree | src/kernel/coh/fs2.c:495-528 | pushes the block, across every spill, and writes no other block; a block outside the data area changes nothing |
| FreeList.ChainPush | tools/disk.py:401-431 | a block that joins a cache with room keeps the chain sound if and only if the cache was not empty or the block's count reads 0 |
| FreeList.BottomEnds | src/kernel/coh/fs2.c:430-528 | the block at the bottom of every sound chain has a count of 0 |
| FreeList.Icheck.MakeSuper | src/userland/cmd/icheck.c:537-549 | the new chain holds exactly the unmarked blocks of the data area, each once, the lowest on top, with s_tfree their number, and no other block is written |
| FreeList.Icheck.FreeCount | src/userland/cmd/icheck.c:465-492 | the walk ends, meets every free block exactly once, never meets a bad count, and counts s_tfree blocks |
| IcheckMarks.CrawlDown | src/userland/cmd/icheck.c:380-414 | the marks gained are exactly the blocks of the tree that there are; a hard error is reported if and only if one is off the volume, met twice, or marked before |
| IcheckMarks.ILook | src/userland/cmd/icheck.c:314-369 | the same for everything an inode's addresses lead to |
| IcheckMarks.Repair | src/userland/cmd/icheck.c:160-308 | after the scan and makesuper a data block is free if and only if no file reaches it; nothing in a file is written; if no hard error was reported each data block is in one file once or free once |
| BlockMap.LMap | src/kernel/coh/fs3.c:433-456 | it fails if and only if the block number is at or above the triple indirect limit; otherwise it needs at most 4 slots and they are, last first, the path that `_classify_index` computes |
| BlockMap.SlotsAreClassify | tools/disk.py:489-503 | repeated division and subtract-then-divide agree on every block number |
| BlockMap.PathOfIndex | src/kernel/coh/fs3.c:433-456 | every block number below the limit is recovered from its path |
| BlockMap.IndexOfPath | src/kernel/coh/fs3.c:433-456 | every path is that of exactly one block number below the limit |
| Inodes.VMap | src/kernel/coh/fs3.c:343-365 | the physical block at the end of the path, 0 for a hole, -1 at or above the limit |
| Inodes.ARead | src/kernel/coh/fs3.c:373-430 | the block of the requested number, cleared if it is new or about to be overwritten; 0 if the number is too large or the free stack is used up; no other number maps to another block or loses its data, and the blocks only move from the free stack to the file |
| FileTrees.FollowInjective | src/kernel/coh/fs3.c:343-365 | in a file that owns no block twice no two paths lead to the same block |
| Inodes.IClear | src/kernel/coh/fs1.c:621-652 | every data and indirect block of the file goes onto the free stack exactly once, in the order of the code, nothing outside the file is written, and the addresses are zero |
| Inodes.IndFree | src/kernel/coh/fs2.c:400-425 | a whole tree of any height goes onto the free stack, each of its blocks once |
| DiskImage.Image.AllocBlock | tools/disk.py:363-399 | pops the free stack, 0 if and only if it is empty; the errors for a bad chain are never raised |
| DiskImage.Image.FreeBlock | tools/disk.py:401-431 | refuses exactly the blocks outside the data area; otherwise pushes; the chain is sound afterwards if and only if it was, or, from an empty list, the block's first word is 0 |
| DiskFiles.EnsureDataBlock | tools/disk.py:508-536 | the file maps the index to the block returned, and no other index changes its block or its data; 0 only if the volume is full, -1 if and only if the index is beyond the limit |
| DiskShrink.ShrinkIndirect | tools/disk.py:562-596 | what lies at or behind `keep` is freed once and no longer reached, what lies before it keeps its place; True if and only if nothing is left; which block is freed first |
| DiskShrink.ShrinkTo | tools/disk.py:541-560 | the file maps the first n logical blocks as before and the rest are holes; blocks only moved from the file to the free list, which stays sound if and only if it was not empty, or nothing is freed, or the first block freed begins with a word of 0 |
| DiskContent.WriteFile | tools/disk.py:598-616 | on success the file's content is the data, whether it grew or shrank; behind the new end a file that got shorter has holes and any other what it had; a file that got shorter, or that owned no block but on the way to what its size covers, owns none afterwards but on the way to what its new size covers, indirect blocks included; it fails only if the data is beyond the limit or the volume has filled up; always, the file's and the free blocks together stay what they were and nothing else is written |
| DiskContent.ReadFile | tools/disk.py:284-331 | the result is the file's content, holes as zeros, up to the triple indirect limit |
| DiskContent.RoundTrip | tools/disk.py:598-616 | what a successful write_file was given is what read_file returns; it is successful unless the data is beyond the limit or the volume has filled up |
| DiskContent.Bystander | tools/disk.py:598-616 | any other file that shares no block keeps its blocks and its bytes |
| DiskContent.Partition | tools/disk.py:598-616 | the data area stays divided, each block once, between the free stack, this file and the others |
| DiskContent.ClassifyDigits | tools/disk.py:489-503 | the index of leaf r of root i classifies as i followed by the base-128 digits of r, at every height |
| DiskCheck.WalkInodeBlocks | tools/disk.py:751-793 | it visits exactly the data and indirect blocks on the way to the logical blocks that the size covers |
| DiskCheck.LeanIsReached | tools/disk.py:751-793 | a file owns no block but on the way to what its size covers if and only if the walk over the inode meets every block that it owns; and it meets no other |
| DiskCheck.Rebuild | tools/disk.py:833-872 | the new list holds exactly the data blocks that no file reaches, each once, the lowest on top; every file reads the same as before; the chain ends if and only if the highest free block begins with a word of 0 |
| DiskCheck.ContentSame | tools/disk.py:833-872 | a file reads the same as long as the blocks it reaches, and those outside the data area, are not written |
| InodeTable.SeekTurn | src/kernel/coh/fs1.c:301-382 | the search takes the first slot with the inode, follows it if a volume is mounted there, or else picks the least recently used unreferenced slot, or finds none |
| InodeTable.Safety | src/kernel/coh/fs1.c:301-400 | in every interleaving no two slots hold the same inode, a slot's count is the number of references held to it, whoever holds one finds that inode there, and a gate has one holder |
| InodeTable.IdentityStays | src/kernel/coh/fs1.c:301-400 | no step changes the inode of a slot that stays referenced |
| InodeTable.ReadBeforeUse | src/kernel/coh/fs1.c:366-378 | after every run, who holds a slot's gate finds there the inode that was last read into it |
| InodeTable.LastUse | src/kernel/coh/fs1.c:301-382 | attaching, and nothing else, notes the time that the search for the least recently used slot looks at, takes the gate and makes one reference more |
| InodeTable.WrittenFirst | src/kernel/coh/fs1.c:389-400 | when the last reference to a changed inode is given up, its slot stays as it is, whatever the others do, until the inode is written |
| InodeTable.RefsMove | src/kernel/coh/fs1.c:389-400 | a reference passed on or given up is counted, and the gate is open then unless the inode has to be written |
| InodeProgress.NobodyIsStuck | src/kernel/coh/fs1.c:301-400 | from every reachable state there is a run in which everybody finishes what he is at, with every gate open at its end |
| InodeProgress.GetsInode | src/kernel/coh/fs1.c:301-382 | with all gates open who looks for an inode comes to have a reference to it, unless every slot is in use for another |
| InodeProgress.LocksOwn | src/kernel/coh/fs1.c:301-400 | who has a reference gets the open gate of its slot and finds the inode there |
| BufferCache.ClaimTurn | src/kernel/coh/bio.c:153-213 | bclaim's search takes the block's buffer, or evicts the oldest buffer with an open gate, ages counted modulo 2^16, or waits because every gate is taken |
| BufferCache.ActKeeps | src/kernel/coh/bio.c:46-284 | every step keeps one buffer a block, and every taken gate with somebody who will open it; only a holder's store changes what is visible: eviction, bwrite, the turns of bsync and bflush and the device do not |
| BufferCache.Refines | src/kernel/coh/bio.c:46-284 | after every run each block shows the last value that was stored, or else what the device had |
| BufferCache.HolderReads | src/kernel/coh/bio.c:87-146 | whoever holds a buffer that was read or filled finds that value in it, and zeros in the buffer of a hole |
| BufferCache.AgeCounts | src/kernel/coh/bio.c:153-284 | the age by which bclaim chooses is the number of releases since the buffer's own, modulo 2^16 |
| BufferSync.WriteArrives | src/kernel/coh/bio.c:220-263 | when bwrite that waits comes back, the disk has what is visible and the buffer is not modified |
| BufferSync.LaterArrives | src/kernel/coh/bio.c:220-284 | when the device is done with one that does not wait, the same, and the gate is open |
| BufferSync.ThroughArrives | src/kernel/coh/fs2.c:200-216 | when a superblock has been written through, the disk and the cache have its data |
| BufferSync.ReadArrives | src/kernel/coh/bio.c:87-146 | bread of a block that was not in the cache, waiting or not, ends with the block's contents in its buffer |
| BufferSync.TurnArrives | src/kernel/coh/bio.c:46-83 | a turn of bsync or bflush at a modified buffer, the device and the wakeup leave what is visible on the disk and the buffer unmodified, its gate open, and for bflush without a device |
| BufferSync.SyncPass | src/kernel/coh/bio.c:46-57 | when bsync returns, whatever others do but store, no buffer is modified and the disk has of every block what was visible, if and only if no superblock with other data is on its way; so it has if none was when bsync began |
| BufferSync.SyncMissesThrough | src/kernel/coh/bio.c:46-57 | a run in which bsync returns and the disk has not got what is visible |
| BufferSync.FlushPass | src/kernel/coh/bio.c:62-83 | when bflush returns, whatever others do but look for blocks of the device, no buffer is one of its blocks and the disk has the last value stored of each |
| BufferProgress.NobodyIsStuck | src/kernel/coh/bio.c:46-284 | from every reachable state there is a run in which everybody finishes what he is at and every gate and request is done with, every block showing what it showed |
| BufferProgress.GateGives | src/kernel/coh/bio.c:153-213 | who has waited at a gate gets the buffer once it is open, if it still has the block, with what is visible in it |
| Pipes.NothingLost | src/kernel/coh/pipe.c:41-178 | after every run what was written is what was read followed by what is in the pipe; nobody sleeps for data while there is some or the end of file is set, nor for room while there is some unless the end of file is set |
| Pipes.CloseWakes | src/kernel/coh/pipe.c:64-86 | after every run, a close sets the end of file, leaves nobody asleep on the pipe, and leaves its bytes |
| Pipes.EofStays | src/kernel/coh/pipe.c:41-178 | the end of file is set by a close only, and stays until a read finds the pipe empty or somebody opens it |
| Pipes.Moves | src/kernel/coh/pipe.c:93-178 | a read for all there is gets all that was written and not yet read and wakes every writer; a write within the room gets through and wakes every reader; a write to a full pipe, or with the end of file set, sleeps |
| Pipes.EmptyReads | src/kernel/coh/pipe.c:93-133 | a read of an empty pipe returns nothing if the end of file is set or nobody else has it open, and waits otherwise |
| Pipes.Pipe.PRead | src/kernel/coh/pipe.c:93-133 | the bytes moved are the first of the pipe's contents, in ring order; fewer than asked only if the pipe is empty or a transfer failed; flags and wakeups are those of the step |
| Pipes.Pipe.PWriteTurn | src/kernel/coh/pipe.c:139-178 | the bytes moved are appended in ring order and never exceed the room; it waits if and only if the pipe is full or the end of file is set |
| CharQueues.Clists.GetQ | src/kernel/coh/clist.c:41-78 | the oldest character leaves the queue, -1 if and only if there is none; every cell stays on the free list or in one queue and no other queue changes |
| CharQueues.Clists.PutQ | src/kernel/coh/clist.c:84-121 | the character joins the end of the queue, or, if and only if a cell is needed and none is free, -1 is returned and nothing has changed |
| CharQueues.Clists.ClrQ | src/kernel/coh/clist.c:127-135 | the queue is empty, its cells are free, no other queue changes |
| CharQueues.CQueue.constructor | src/kernel/coh/clist.c:16-35 | an empty queue |
| CharQueues.Clists.constructor | src/kernel/coh/clist.c:16-35 | every cell is on the free list once, the lowest first |
| Arena.Heap.constructor | src/kernel/coh/alloc.c:18-33 | the arena is one free block and its end |
| Arena.Heap.Alloc | src/kernel/coh/alloc.c:38-76 | the storage is free before, lies in the run of exactly the size if there is one and else in the first that is large enough, and nothing in use changes; NULL if and only if no run of free cells is large enough; every block in use stays one; the arena stays sound if and only if NULL is returned or the size is at most 65532 |
| Arena.Heap.Free | src/kernel/coh/alloc.c:81-91 | exactly the cells of the block become free; a block that is free already is refused; all other blocks stay |
| Arena.OneChoice | src/kernel/coh/alloc.c:51-72 | the place alloc promises is the only one with that property |
| Arena.SomeChoice | src/kernel/coh/alloc.c:51-72 | there is such a place as soon as any run of free cells is large enough |
| Arena.NoRun | src/kernel/coh/alloc.c:51-72 | a pass that found no block that does has passed no run of free cells that does |
| Arena.Stays | src/kernel/coh/alloc.c:56-60 | coalescing and splitting leave every block in use a block in use |
| Arena.Enough | src/kernel/coh/alloc.c:50 | the computed number of cells holds a header and the data if and only if the size is at most 65532 |
| Arena.NotEnough | src/kernel/coh/alloc.c:50 | 65533 bytes get one cell, the header |
| Arena.ClearsAllIff | src/kernel/z8001/src/md.s:1027-1043 | kclear clears every byte it is asked to if and only if the count is even or 1 |
| Core.SlrCopy | src/kernel/coh/seg.c:767 | the ascending copy is right for a target below the source or clear of it |
| Core.SrlCopy | src/kernel/coh/seg.c:313 | the descending copy is right for a target above the source |
| Segments.Memory.SegMove | src/kernel/coh/seg.c:728-769 | a segment moves if and only if it is resident, not wired, not our own user area, its counts are those of the process table, and its new place can be mapped; every owner is then marked PFSPROTO; otherwise nothing moves |
| Segments.CountsAre | src/kernel/coh/seg.c:748-766 | what s_urefc and s_lrefc are compared with is the number of slots that name the segment, and of those in processes that are not swapped out |
| Segments.Memory.SegPack | src/kernel/coh/seg.c:777-843 | it slides if and only if the total suffices and no hole does; segments keep contents, size and order, stay disjoint and inside memory, none is raised, owners of moved ones are marked; it counts the segments that have another base, their clicks, and itself |
| Segments.Memory.OneHole | src/kernel/coh/seg.c:777-843 | if every segment could be moved all free memory is one hole at the top |
| Segments.Memory.Worthwhile | src/kernel/coh/seg.c:777-843 | then a request that the total satisfies has a hole |
| Segments.Memory.SMalloc | src/kernel/coh/seg.c:589-621 | the lowest hole that is large enough, at its bottom; NULL only without a descriptor or without such a hole |
| Segments.Memory.SHAlloc | src/kernel/coh/seg.c:628-660 | the highest hole that is large enough, at its top |
| Segments.Memory.SXAlloc | src/kernel/z8001/h/machine.h:142 | without SFHIGH at the bottom of the lowest hole that is large enough, with it at the top of the highest; NULL with a descriptor only if there is none |
| Segments.Memory.SAlloc | src/kernel/coh/seg.c:173-217 | a new segment at the bottom of the lowest hole that is large enough or, with SFHIGH, at the top of the highest, among the others as compaction left them, which it does only if there was no such hole; cleared if asked; all other segments' contents kept; refused with a descriptor at hand only if the total is short or something cannot be moved |
| Segments.Memory.SDAlloc | src/kernel/coh/seg.c:548-583 | the beginning of the lowest room on the swap device that is large enough; refused if and only if there is no descriptor or the device is full, which means no room between neighbours is large enough or it begins at the end of the device |
| Segments.Memory.SegGrow | src/kernel/coh/seg.c:244-358 | every way that succeeds leaves the requested size, the old contents from the base or, for SFDOWN, up to the top, zeros in the rest, and all other segments' contents; a segment that shrinks or has room keeps its base, or its top, one that fits between its neighbours lies against one of them, and only one that does not goes elsewhere; a refusal leaves the segment as it was; it does succeed when there is room around the segment, and, with a descriptor, when the total suffices and everything can be moved, and is refused otherwise only if the swap device is full or cannot be used |
| Segments.Memory.Reallocate | src/kernel/coh/seg.c:322-339 | the branch that finds a new place, with the same result |
| Segments.Memory.SwapGrow | src/kernel/coh/seg.c:341-352 | the branch through the swap device: on return the same result; while it is out, its larger image on the disk in the lowest room; refused only without the swapper, a descriptor or room on the disk |
| Segments.Memory.SatCopy | src/kernel/coh/seg.c:527-541 | the segment takes the other's place in the queue, its base and its size |
| SwapCounts.StepKeeps | src/kernel/ker/swap.c:185-332 | every step of fork, exit, raw transfers, procdisk and proccore keeps both counts equal to the references and locks there are |
| SwapCounts.Safety | src/kernel/ker/swap.c:185-236 | after every run, for a segment without a transfer, s_urefc is the number of process slots naming it and at most 127, and s_lrefc, between two turns of the swapper, the number of those in processes not marked PFSWAP; and a process marked PFCORE has all its segments in core |
| SwapCounts.NoPanic | src/kernel/coh/seg.c:140-239 | neither panic is reached: a segment that is copied is in core, and the last reference to a segment is its last lock |
| SwapCounts.Kernel.ProcDisk | src/kernel/ker/swap.c:212-236 | a run of the steps that ends with PFSWAP set, PFCORE clear, and, with room on the disk, in core only those of the segments that a process in core still counts on; it returns the number of segments that went out |
| SwapCounts.Kernel.ProcCore | src/kernel/ker/swap.c:185-207 | a run of the steps that ends with PFSWAP clear and PFCORE set if and only if no segment is left out; with room in core none is; it returns the number of those left out, exactly if no segment is named twice |
| SwapCounts.TestFindsTransfers | src/kernel/coh/seg.c:748-766 | a segment with transient locks, of segdisk, segcore, forks or raw transfers, passes segmove's test if and only if no owner is marked PFSWIO, the swapper is in procdisk for a process not marked PFSWAP when it began, and as many of its slots naming the segment have been seen as there are transient locks |
| SwapCounts.TestFindsCopies | src/kernel/coh/seg.c:748-766 | a segment that has not been stored in its child's slot yet never passes |
| SwapCounts.TestWhileWritten | src/kernel/coh/seg.c:748-766 | a segment that segdisk is writing has no other transient lock, and passes if and only if its process was not swapped out before and one slot naming it has been seen |
| SwapCounts.TestMissesWrite | src/kernel/coh/seg.c:748-766 | a run after which another process may run while a segment being written passes the test |
| SwapCounts.TestMissesCopy | src/kernel/coh/seg.c:452-470 | a run after which another process may run while a segment that a fork is about to write passes the test |
| SwapForks.CanFork | src/kernel/coh/seg.c:106-160 | a fork can fill every slot of the child if and only if no shared segment would have more than 127 references |
| SwapForks.ForkSucceeds | src/kernel/coh/seg.c:106-160 | then there is a run in which it does: shared segments are the same ones, with as many references and locks more as slots name them, and every other is a copy of its own |
| SwapForks.ForkNeeds | src/kernel/coh/seg.c:140-160 | and no fork that gets through has had fewer references to spare, whatever memory there was |
| SwapForks.CopiesToDisk | src/kernel/coh/seg.c:452-470 | without memory a segment is copied to the disk, locked as long as it is written, and the child is not in core then |
| SwapForks.GivenUp | src/kernel/coh/seg.c:106-134 | a fork that is given up, wherever it was, leaves every segment and every other process as before it began |
| SwapForks.RawUndoes | src/kernel/coh/bio.c:459-467 | the lock of a raw transfer is undone at its end |
| SwapForks.ExitsFromRunning | src/kernel/coh/proc.c:178-219 | a process exits: every reference and lock it has is given up, segments without any are gone, and nothing else changes |
| KermitData.RoundTrip | src/userland/cmd/kermit.c:1175-1240 | bufemp of what bufill makes is the bytes themselves in image mode, and in text mode the bytes without high bits and carriage returns |
| KermitData.TextOnTheWay | src/userland/cmd/kermit.c:1175-1212 | in text mode every line feed is on the way as a carriage return and a line feed |
| KermitData.BufIll | src/userland/cmd/kermit.c:1175-1212 | the buffer quotes exactly the bytes consumed, at least one unless the file has ended, and never exceeds its bound; it stops early only at the end of the file |
| KermitData.BufEmp | src/userland/cmd/kermit.c:1219-1240 | what is written is the decoding of the whole buffer |
| KermitData.DataFields | src/userland/cmd/kermit.c:512-612 | the data packets of a file, written one after the other, give the file; an empty file has one packet without data |
| KermitData.NoMark | src/userland/cmd/kermit.c:1175-1212 | no quoted character can be taken for a packet mark |
| KermitPacket.SPack | src/userland/cmd/kermit.c:1034-1075 | the buffer is the packet's frame and does not exceed 100 characters |
| KermitPacket.RPack | src/userland/cmd/kermit.c:1082-1168 | on every line it decides on the first whole header behind a mark that no further mark cuts short, accepts it if and only if the character behind the data is the folded sum of what was read, returns its type, number, length and data, and leaves the rest unread |
| KermitPacket.IntactIsAccepted | src/userland/cmd/kermit.c:1034-1168 | an intact packet after noise and cut-off headers is the one decided on and accepted, with the type, number, length and data that spack was given |
| KermitPacket.DataPacketArrives | src/userland/cmd/kermit.c:1034-1240 | every packet of quoted data of at most 94 is such a packet wherever it is put on the line |
| KermitPacket.DamageAccepted | src/userland/cmd/kermit.c:1069-1161 | a packet damaged in its number, type or data, neither number nor type turned into a mark, is accepted if and only if the folded sum of what is read is that of what was sent |
| KermitPacket.OneBitIsNoticed | src/userland/cmd/kermit.c:1069-1161 | one changed bit in the number, type, data or checksum of a packet of quoted data, neither number nor type turned into a mark, is refused, or is a parity bit that text mode does not read |
| KermitPacket.SwapIsAccepted | src/userland/cmd/kermit.c:1069 | the packet with data AB is accepted with data BA |
| KermitPacket.LengthBitIsAccepted | src/userland/cmd/kermit.c:1099-1161 | one changed bit in the length makes rpack accept a packet of two characters as one of the first alone |
| KermitProtocol.Safety | src/userland/cmd/kermit.c:438-902 | after every run, whatever the line lost, the files closed and the part received are the first of what the sender was given, in order, nothing twice, every closed file complete |
| KermitProtocol.Delivery | src/userland/cmd/kermit.c:438-902 | a sender that ends well has delivered every file to a receiver that has ended well, and a receiver that ends well has every file |
| KermitProtocol.NeverOutOfStep | src/userland/cmd/kermit.c:438-902 | sequence numbers modulo 64 and NAKs for the next packet never make one side abort for an unexpected packet |
| KermitProtocol.OnlyTooManyTries | src/userland/cmd/kermit.c:438-902 | if files can be opened, a side fails only by its try limit |
| KermitProtocol.PerfectLine | src/userland/cmd/kermit.c:438-902 | over a line that loses nothing the transfer ends well with one transmission a packet |
| KermitRecovery.CanBeCompleted | src/userland/cmd/kermit.c:438-902 | from every reachable state there is a continuation in which both sides end well if and only if the transfer is alive, which is decided by the counters and by what is under way: neither has given up, the sender may still send or hear, and the receiver has the tries left that the packet in turn needs |
| KermitRecovery.Recovers | src/userland/cmd/kermit.c:438-902 | it is one in which every file opens |
| KermitRecovery.LosesNothingMore | src/userland/cmd/kermit.c:438-902 | and in which the line loses nothing more, if the sender has as many tries to spare as packets and answers are under way, and the receiver three times as many |
| KermitRecovery.LossWouldHelp | src/userland/cmd/kermit.c:844-860 | with more repetitions first on the line than the receiver has tries for, no continuation without a loss completes |
| KermitRecovery.TooManyCopies | src/userland/cmd/kermit.c:771-778 | a reachable state of that kind |
| KermitRecovery.EofOnLastTry | src/userland/cmd/kermit.c:883-888 | a reachable state with both sides at work, no counter beyond its limit and nothing under way, from which the transfer cannot be completed |
| KermitSides.SendSide.Attempt | src/userland/cmd/kermit.c:468-688 | the five routines up to rpack take the sender's step |
| KermitSides.SendSide.Hear | src/userland/cmd/kermit.c:468-688 | and behind rpack, with the NAK's number taken modulo 64, the other |
| KermitSides.SendSide.SendSw | src/userland/cmd/kermit.c:438-460 | it ends whatever the line does; its transmissions are those of its packets, one packet after the other, at most 21 of each; it ends well only if every packet was acknowledged |
| KermitSides.ReceiveSide.Turn | src/userland/cmd/kermit.c:697-902 | a turn of recsw takes the receiver's step, what it answers included, or gives up beyond the try limit |
| KermitSides.TransferKeepsBytes | src/userland/cmd/kermit.c:438-1240 | when the sender ends well every file at the receiver has the bytes of the original, but for what text mode drops |
| KermitSides.WrittenIsPrefix | src/userland/cmd/kermit.c:1219-1240 | what has been written at any moment is the beginning of what will be |

## Left out

- Device drivers, exec, memory mapping (`mproto`, `segload`), context switches, signals, accounting, tracing and the boot path: hardware, or calls into code that is not modelled.
- Driver maps in `timeout` and `stand`, buffer maps in `bio.c`: they select address windows only.
- `sleep`: who sleeps where is given; `lock` and `unlock` appear as gates in the state machines. The hashed sleep queues are modelled one queue at a time.
- Scheduler.Wakeup: the event of the head is assumed to differ from the one woken, as a queue head's is.
- Timers.TimerQueue.Tick: `stand` is assumed to run within 32768 ticks of a deadline.
- FreeList: `s_dirty`, sleeping inside the refill, device errors, and what stale entries of `s_free` hold.
- IcheckMarks.Repair: inode lists, the table of defective blocks, counts and messages of `icheck.c`; the inodes are given as their addresses, the file of bad blocks first.
- DiskImage.Image: the superblock is a record instead of bytes, and the partition begins at block 0.
- DiskContent.WriteFile: a file that gets shorter must not harm the free list, by the condition of ShrinkTo; what `alloc_block` makes of a chain that does not end is not modelled. When it fails, write_file raises before `write_inode`: the addresses are those in memory, and the inode on the image still has the old ones, so that new blocks are lost to it and freed ones still named by it. Directories, inode numbers and times are not modelled.
- InodeTable: an inode's contents, and iucheck, isync and iremap; a free gate may be taken by any waiter.
- BufferCache: device errors, read-ahead, the maps of buffers, raw I/O, and `b_resid`; the superblock's write through is one step.
- BufferSync.FlushPass: what happens when others look for blocks of the device meanwhile; then it may come back into the cache.
- BufferSync.SyncPass: when others store meanwhile the disk may have any value stored since; what holds then is BufferCache.Refines.
- Pipes: the inode, its gate as a gate, signals, and errors other than a fault in a transfer. Pipes.NothingLost: a reader's or writer's whole step at the gate is one step.
- CharQueues: `waitq`, and interrupt levels; a character is a number of which the queue keeps 8 bits.
- Arena: the arena is a whole number of cells, pointers are cell numbers, and `free`'s test against the end of the kernel is a precondition.
- Arena.Heap.Alloc: memory behind the arena, which `kclear` also clears for sizes above 65532.
- Segments: the links of a queue are a sequence; the width of `saddr_t`, the swapper's own copies of the allocators (their placement is in BringBack), `salloc` without SFNSWP, and the wait for the swapper inside `segsext`, which is one step that succeeds, refuses or stays asleep.
- SwapCounts: auxiliary segments and `exec`, which hold references that the counts do not record; shared text found by `ssalloc`; `testcore`, the choice of a victim; sfree and the clearing of the slot are one step; `s_lrefc` is not limited to a char. Of segmove's other guards PFLOCK, PFKERN, PFSLIB and the caller's own user area are in Segments.
- SwapForks: the swapper does not take part in the fork or the exit that is followed to its end; what holds while it does is in SwapCounts.
- SwapCounts.Kernel.ProcCore: PFSPROTO, which makes the process load its map again.
- KermitRecovery.LosesNothingMore: a sufficient condition on the counters; below it there are states that complete without a loss all the same. The condition that is exact, CanBeCompleted, allows losses.
- KermitProtocol: a corrupted packet counts as lost; a timeout is an empty reply; names of files, `connect`, terminals and messages. Both sides use the same quote and mode.
- KermitPacket.RPack: `t` is assumed not to be a mark before the first character is read, characters are unsigned, and the store at `data[-1]` for a length of -1 has no effect.
- KermitData.DataFields: both programs run with the same packet size.

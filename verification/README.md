# RAZZLE in Dafny

This project models the parts of the RAZZLE kernel whose correctness is not visible from any one function, and
proves what they keep over whole runs:

- **The file system NQFS on the RAM block device.** A disk is a sequence of 512-byte sectors, with the packed
  structs read as little-endian words at their byte offsets and 32-bit arithmetic that wraps. `Nqfs` holds the C
  functions over byte arrays and a device object, `NqfsSpec` the same operations as functions of a disk, total for
  every disk. `NqfsInvariant` says what a well-formed disk is (chains that end, share no block and lie in the
  writable part of the data region); `NqfsVolume` is the file system a user sees (a name and a byte string per
  file, and a budget of free blocks). The main results are that every run of creates and appends keeps the disk
  well formed and loses no readable byte, that each operation on the disk is the operation on the volume, and that
  what was appended is what a read returns.
- **Processes.** `KernelSpec` is one state (process table, saved registers, keyboard waiters, running process,
  keyboard flags) and one function per interrupt; `KernelCode` holds the handlers over the global tables they
  change in place. Over every run: queued waiters are, one to one, the blocked processes; saved contexts are
  isolated; getc delivers the first character; the scheduler is fair; no two processes share memory; the keyboard
  flags are what the history of scan codes says.
- **The console.** `ConsoleCode` is the 25-row ring with its four byte-sized counters, `ConsoleRows` its rows as
  strings of cells; `ConsoleLog` is the unbounded log of lines that it stands for, with what stands right of the cursor
  and below it, in which a backspace at the start of a line reopens the line above, and the proof that the ring holds
  the log byte for byte; `ConsoleDisplay` says what a flush then shows, and `ConsoleStreams` which
  streams of characters are displayed as their logs.
- **The PCI id table.** `PciIds` is the one-pass scanner with its buffers, `PciTable` the table as lines, and the
  proof that on every printed table the scanner is a plain lookup; `PciOther` says exactly which other lines the
  scanner passes over.
- **The test programs and their locks.** `LockSpec` interleaves any number of processes that run the two programs,
  instruction by instruction, on the kernel of `KernelSpec`; `LockInvariant`, `LockProgress` and `LockPrintf`
  prove mutual exclusion, exact counting, untorn output, absence of deadlock, that the scheduler gets to the lock
  holder, and that a printf comes out whole.

## Where the code does not do what one would expect

The model follows the code. Each of these is stated as a lemma, with the exact condition; the failures among them are
also shown at an input:

- An append to a file whose size is a positive multiple of 504 bytes, while a block is free, claims a block and links it
  only in the function's own buffer (`kernel/drivers/fs/nqfs/nqfs.c:135-137`): the block is lost and the written
  bytes cannot be read, though the call reports success while blocks last. `NqfsTheorems.AppendLeaks` shows that these
  appends leak and no others, with their results and what they lose, and `NqfsRuns.SoundIffCareful` that a run leaves a
  disk without leaks exactly when it makes none of them; `NqfsRuns.LeakExample` is one.
- `NQFS_create_file` returns only a sector, and a sector as a handle always means its first slot:
  `NqfsCreate.CreateHandleAliases`, `NqfsRuns.AliasExample`. No run can write to the files in the other slots
  (`NqfsRuns.OtherSlotsStay`). And 0 is both a failure and the handle of the first sector: `NqfsCreate.CreateResult`.
- `NQFS_read_bytes` returns the number of bytes left over, not the number read as
  `kernel/drivers/fs/nqfs/nqfs.h:26` says: `NqfsReading.ReadDelivers`.
- The last sector of the RAM disk can be read but not written (`kernel/drivers/blk/ramblk/ramblk.c:23`), so the last
  block is never allocated.
- A backspace at the start of a console row takes the cursor to the row above. The code does this rightly when the
  ring has scrolled and the cursor is not in the ring's first row (`ConsoleLog.ReopenRing`). In the first row it puts
  the cursor in row 255; on a ring whose start row is 0 it takes `vgabuf_move_row` to 255, and the next turn of the
  ring does not scroll. `ConsoleStreams.StreamKeepsUp`: exactly the streams without these two are displayed as
  their logs, now and with any text without backspaces after them. `ConsoleStreams.BackspaceAtPowerOn` and
  `ConsoleStreams.BackspaceUnscrolled` are the two at work.
- When the console scrolls for the first time, the row it blanks is not the one that the new line goes to: the line at the
  bottom starts out with what the very first line holds (`kernel/drivers/vga/vga.c:80-91`). `ConsoleStreams.BottomRow`
  says exactly when it is blank; `ConsoleStreams.FirstScroll` is a letter that comes up again.
- Clearing the screen does not reset `vgabuf_move_row`, with the same result exactly when the start row was not 0
  (`ConsoleStreams.ClearedKeepsUp`, `ConsoleStreams.ClearedAfterScroll`), and it does not blank the last row
  (`ConsoleDisplay.ClearedDisplay`).
- The id-table scanner takes other lines for vendors and devices. It does so where it meets four digits of the id, one
  character that is no tab, any spaces, and then no tab: at the start of a line before the vendor is found, after the
  line's first tab later. `PciOther.SkippedSeekingExactly` and `PciOther.SkippedAmongExactly` show that the lines
  without this, and no others, are passed over in every scan; `PciOther.CommentTakenForDevice` gives what is reported.
- It also falls through to the devices of later vendors: `PciTable.FoundInBlock`, `PciTable.NeighboursDevice`.

## Model

| member | source | states |
|---|---|---|
| Memory.Memcpy | kernel/memory/memory.c:28-32 | one window of the destination is replaced by the source's, nothing else changes |
| Memory.Memset | kernel/memory/memory.c:22-26 | the first len bytes become data, the rest stay |
| Memory.Strncpy | kernel/memory/memory.c:34-41 | bytes are stored up to and including the first NUL, never more than size, and the rest of the destination keeps its old bytes |
| RamDisk.Device.constructor | kernel/drivers/blk/ramblk/ramblk.c:34-35 | a new device holds zeroed sectors only |
| RamDisk.Device.ReadSector | kernel/drivers/blk/ramblk/ramblk.c:10-20 | exactly the sectors whose wrapped byte offset is on the device are read, whole; a refused read leaves the buffer alone |
| RamDisk.Device.WriteSector | kernel/drivers/blk/ramblk/ramblk.c:22-32 | exactly the sectors before the last are written, and one write changes that one sector |
| RamDisk.SpliceSector | kernel/drivers/blk/ramblk/ramblk.c:30 | writing a sector's bytes at its offset changes that sector of the disk and no other |
| NqfsLayout.BlockBytes | kernel/drivers/fs/nqfs/nqfs.h:17-21 | a storage block byte by byte: mark in bytes 0 to 3, data in 4 to 507, link in 508 to 511, low byte first; the mark of a claimed block is 0xC001 |
| NqfsLayout.InodeBytes | kernel/drivers/fs/nqfs/nqfs.h:9-15 | the four inodes of a sector byte by byte: at 128 times the slot the flag, then 64 bytes of name, first block and size, low byte first |
| NqfsLayout.WithNext | kernel/drivers/fs/nqfs/nqfs.h:17-21 | storing the link of a block keeps its mark and its 504 data bytes |
| NqfsLayout.WithData | kernel/drivers/fs/nqfs/nqfs.c:156 | filling part of a block keeps its mark, its link and the data around it |
| NqfsLayout.Claimed | kernel/drivers/fs/nqfs/nqfs.c:20-22 | claiming a block marks it, clears its link and keeps its data |
| NqfsLayout.WithSize | kernel/drivers/fs/nqfs/nqfs.c:159 | a new size changes no other field of the inode and none of the other three inodes in the sector |
| NqfsLayout.Created | kernel/drivers/fs/nqfs/nqfs.c:46-50 | the new inode is in use, empty, and starts at its block |
| NqfsLayout.WithInode | kernel/drivers/fs/nqfs/nqfs.h:9-15 | storing one inode leaves the other three in its sector alone |
| NqfsLayout.PaddingStays | kernel/drivers/fs/nqfs/nqfs.c:46-51 | neither a new inode nor a new size writes to the 55 bytes of padding |
| NqfsLayout.NameRoundTrip | kernel/drivers/fs/nqfs/nqfs.c:49-50 | the stored name reads back as the given name cut to 63 bytes, whatever the field held before |
| Nqfs.GetNextFreeBlock | kernel/drivers/fs/nqfs/nqfs.c:12-31 | the search loop and its stores take the device where the specification Alloc takes the disk |
| NqfsSteps.AllocTakes | kernel/drivers/fs/nqfs/nqfs.c:12-31 | allocation finds a block exactly when one is unmarked in [128, N-1), marks that block only, and otherwise changes nothing |
| Nqfs.FillInode | kernel/drivers/fs/nqfs/nqfs.c:46-50 | the field stores build the created inode and touch no other byte of the sector |
| Nqfs.OccupySlot | kernel/drivers/fs/nqfs/nqfs.c:42-56 | a free slot is given a block and stored, or nothing is changed when there is no block |
| Nqfs.CreateFile | kernel/drivers/fs/nqfs/nqfs.c:33-62 | the two loops over sectors and slots are the specification Create, for every disk |
| Nqfs.CopyChain | kernel/drivers/fs/nqfs/nqfs.c:80-104 | the copying loop puts what ReadFrom yields into the buffer, changes nothing past it, and returns what is left over |
| Nqfs.ReadBytes | kernel/drivers/fs/nqfs/nqfs.c:63-110 | into any buffer that holds the bytes delivered, the read is the specification Read; the disk and the rest of the buffer are unchanged |
| Nqfs.SeekTail | kernel/drivers/fs/nqfs/nqfs.c:124-142 | the first loop of a write is the specification Seek, allocations included |
| Nqfs.PourChunk | kernel/drivers/fs/nqfs/nqfs.c:150-170 | one round of the second loop stores size and data as PourOnce does, in that order, stopping at a refused store |
| Nqfs.ExtendChain | kernel/drivers/fs/nqfs/nqfs.c:173-178 | the next block is allocated and the link to it stored |
| Nqfs.PourBytes | kernel/drivers/fs/nqfs/nqfs.c:144-184 | the second loop of a write is the specification Pour |
| Nqfs.WriteBytes | kernel/drivers/fs/nqfs/nqfs.c:112-191 | the write is the specification Write, for every disk, handle and input |
| NqfsInvariant.WalkPath | kernel/drivers/fs/nqfs/nqfs.c:96-101 | following links along a chain visits exactly its blocks, in order, and ends |
| NqfsInvariant.ChainBound | kernel/drivers/fs/nqfs/nqfs.c:12-31 | no chain is longer than the data region less the leaked blocks |
| NqfsInvariant.ChainsUnique | kernel/drivers/fs/nqfs/nqfs.h:9-21 | chains with the invariant are determined by the disk |
| NqfsSteps.ClaimKeepsChains | kernel/drivers/fs/nqfs/nqfs.c:20-26 | claiming a free block leaves every chain as it is and takes one block off the free ones |
| NqfsSteps.ClaimAndLink | kernel/drivers/fs/nqfs/nqfs.c:173-176 | claiming a block and linking it lengthens one chain by it, keeps all chains disjoint, and changes no other file |
| NqfsSteps.RefilledGrows | kernel/drivers/fs/nqfs/nqfs.c:156-170 | storing a chunk in the last block appends it to that file's contents and to no other's |
| NqfsAppend.LinkNext | kernel/drivers/fs/nqfs/nqfs.c:172-183 | the loop goes on in a block of its own chain, or stops because no block is free |
| NqfsAppend.PourTail | kernel/drivers/fs/nqfs/nqfs.c:144-184 | the second loop appends a prefix of the input: all of it, or as much as the free blocks hold, ending on a block boundary |
| NqfsLeaks.SeekWithin | kernel/drivers/fs/nqfs/nqfs.c:127-142 | within the chain the first loop finds the block of an offset and changes nothing |
| NqfsLeaks.SeekBeyond | kernel/drivers/fs/nqfs/nqfs.c:127-142 | past the end of the chain it leaks one block a step, or stops when none is free |
| NqfsLeaks.PourLeaked | kernel/drivers/fs/nqfs/nqfs.c:144-184 | what the second loop writes behind a leaked block changes no chain and no byte stored on one; whether it gets to the end, how many more blocks it leaks and what it adds to the size follow from the free blocks |
| NqfsTheorems.AppendRefines | kernel/drivers/fs/nqfs/nqfs.c:112-191 | off the leaking case, an append is old contents plus the prefix of the input that fits; all other files, the leaks, the free count and the result are what the volume says |
| NqfsTheorems.AppendLeaks | kernel/drivers/fs/nqfs/nqfs.c:134-142 | an append leaks exactly when the file ends on a positive block boundary and a block is free; then no file changes, the call still returns its size when enough blocks are free (else 0), and blocks lost and size field are exactly what the loops took and counted |
| NqfsTheorems.AppendBeyond | kernel/drivers/fs/nqfs/nqfs.c:127-190 | past the chain, a full disk is left alone with result 0; on any other free blocks are lost and no file changes, with the exact result, number of blocks lost and new size field |
| NqfsTheorems.AppendSucceedsIff | kernel/drivers/fs/nqfs/nqfs.c:144-190 | a non-empty append off the leaking case returns its size exactly when the extra blocks it needs are free, and 0 otherwise |
| NqfsTheorems.SizeNeverWraps | kernel/drivers/fs/nqfs/nqfs.c:159 | no size field exceeds the bytes of the data region, so the 32-bit addition never wraps |
| NqfsTheorems.SoundSizes | kernel/drivers/fs/nqfs/nqfs.c:112-191 | without leaks a chain has max(1, ceil(size / 504)) blocks and holds the whole file |
| NqfsTheorems.SoundMarks | kernel/drivers/fs/nqfs/nqfs.c:20-26 | without leaks the marked blocks are exactly the blocks on chains, and no block is on two |
| NqfsCreate.CreateRefines | kernel/drivers/fs/nqfs/nqfs.c:33-62 | create makes the first inode without a file, in (sector, slot) order, an empty file; no other file changes; without a free block the disk is untouched |
| NqfsCreate.CreateAddsFile | kernel/drivers/fs/nqfs/nqfs.c:46-51 | the stored sector holds the new inode with the kept name, and every other inode as it was |
| NqfsCreate.CreateHandleAliases | kernel/drivers/fs/nqfs/nqfs.c:56 | the handle returned names the new file exactly when it sits in slot 0, and an older file otherwise |
| NqfsCreate.CreateResult | kernel/drivers/fs/nqfs/nqfs.c:44-56 | the result of create is not 0 exactly when a file was made and its number is at least 4; 0 is a failure or the first sector |
| NqfsReading.ReadAlong | kernel/drivers/fs/nqfs/nqfs.c:80-104 | from any block of a chain the loop yields the bytes of the rest of the chain, as many as asked |
| NqfsReading.ReadDelivers | kernel/drivers/fs/nqfs/nqfs.c:63-110 | a read gives the first min(size, file size) bytes that the chain holds and returns how many are missing: none without leaks |
| NqfsRuns.RunKeepsWellFormed | kernel/drivers/fs/nqfs/nqfs.c:12-191 | every run keeps the disk well formed, and every readable byte of every file in place |
| NqfsRuns.RunRefines | kernel/drivers/fs/nqfs/nqfs.c:12-191 | a run without leaking appends is, result for result, the run on the volume |
| NqfsRuns.SoundIffCareful | kernel/drivers/fs/nqfs/nqfs.c:134-142 | a run leaves a disk without leaks exactly when none of its appends starts on a positive block boundary while a block is free |
| NqfsRuns.ZeroedIsSound | kernel/drivers/blk/ramblk/ramblk.c:34-35 | a zeroed disk is an empty file system with N - 129 free blocks |
| NqfsRuns.RunAppendsLog | kernel/drivers/fs/nqfs/nqfs.c:112-191 | a file's bytes after a run are the accepted parts of the appends through its handle, in order |
| NqfsRuns.ReadAfterRun | kernel/drivers/fs/nqfs/nqfs.c:63-110 | round trip: from a zeroed disk, after any run without leaking appends, reading gives back the first bytes of that log |
| NqfsRuns.LogIsSent | kernel/drivers/fs/nqfs/nqfs.c:190 | if every append returned its size, the log is the concatenation of everything sent through the handle |
| NqfsRuns.OtherSlotsStay | kernel/drivers/fs/nqfs/nqfs.c:112-124 | no run, leaking or not, writes a byte to a file outside slot 0 of its sector: it stays as it was, and a new one stays empty |
| NqfsRuns.LeakExample | kernel/drivers/fs/nqfs/nqfs.c:134-190 | on a zeroed disk, a file of exactly 504 bytes and then one byte: the calls return 0, 504 and 1, the disk has a leak, and the file still shows 504 bytes |
| NqfsRuns.AliasExample | kernel/drivers/fs/nqfs/nqfs.c:56 | two creates on a zeroed disk make files 0 and 1 and both return 0, the handle of file 0 |
| Registers.Saved | arch/i386/scheduler/scheduler.c:25-36 | the saved slot holds exactly the ten registers of the interrupted context and keeps its nine other fields |
| Registers.Loaded | arch/i386/scheduler/scheduler.c:38-57 | the frame gets the saved context and user selectors, and keeps its stack pointer |
| Registers.Initial | arch/i386/scheduler/scheduler.c:3-23 | a new context is clear but for entry point, flags, and a stack at the top of its space; five selectors are set, the other fields kept |
| Registers.InitializeRegisters | arch/i386/scheduler/scheduler.c:3-23 | the field stores give one slot its initial registers and touch no other slot |
| Registers.StoreRegisters | arch/i386/scheduler/scheduler.c:25-36 | the field stores save the context in one slot and touch no other slot |
| Registers.SwitchContext | arch/i386/scheduler/scheduler.c:38-57 | the field stores load one slot into the frame |
| Keyboard.PairedIsLayout | kernel/drivers/ps2/ps2.c:79-233 | the switch gives each key of the four rows of a US keyboard its bare and its shifted character, and no other key has two |
| Keyboard.CharOfKey | kernel/drivers/ps2/ps2.c:79-243 | space, newline, backspace and tab whatever the shift; of every key of the layout the upper character exactly while a shift is held or caps lock is on; NUL for every other key |
| Keyboard.PressAndRelease | kernel/drivers/ps2/ps2.c:263-270 | a code below 64 presses its key, the code 128 above releases it, and no other code releases a key |
| Keyboard.HeldDownStep | kernel/drivers/ps2/ps2.c:263-280 | a key is held down after an event exactly when the event pressed it, or it was held and the event was another key's |
| Keyboard.KeysAreHistory | kernel/drivers/ps2/ps2.c:273-286 | over every sequence of scan codes a shift flag is whether its key's last event was a press, and caps the parity of caps-lock presses |
| KernelKeys.RunKeys | kernel/drivers/ps2/ps2.c:263-296 | over a run of the kernel only its scan codes change the flags |
| KernelKeys.KeyDelivers | kernel/drivers/ps2/ps2.c:79-243 | after any run from boot, a scan code delivers exactly the character its key has under the flags of the whole history, and a release nothing |
| KernelKeys.ShiftedLetter | kernel/drivers/ps2/ps2.c:79-296 | after boot, the a key delivers 'A' while left shift is down and 'a' after it is up |
| KernelKeys.SerialDelivers | arch/i386/irq.c:73-78 | a byte from the serial port is delivered as it is, but for carriage return and delete, which become newline and backspace |
| KernelSpec.Distance | kernel/scheduler/scheduler.c:19-24 | the slot found is in the wanted state and none passed on the way round is |
| KernelCode.KernelState.InitProcessTable | kernel/scheduler/scheduler.c:12-17 | all slots become unused and nothing runs |
| KernelCode.KernelState.InitPs2 | kernel/drivers/ps2/ps2.c:245-249 | all waiters become free |
| KernelCode.KernelState.GetNextPid | kernel/scheduler/scheduler.c:19-24 | where some slot is in the wanted state the search ends, at the first one going round from start modulo 128 |
| KernelCode.Boot | kernel/kernel.c:31-32 | the zeroed globals, after init_process_table and init_ps2, are a booted kernel: nothing runs, every slot unused, every waiter free |
| KernelCode.KernelState.StartProcess | kernel/scheduler/scheduler.c:34-52 | the first unused slot becomes a ready process with its own address range and initial registers, and its name is copied to the start of that range; nothing else changes |
| KernelCode.KernelState.DoSchedule | kernel/scheduler/scheduler.c:72-81 | save, pick and load are the specification Schedule, for table and frame |
| KernelCode.KernelState.BlockCurrent | kernel/syscall/syscall.c:94-104 | the running process is blocked and takes the first free waiter |
| KernelCode.KernelState.ExitCurrent | kernel/syscall/syscall.c:143-144 | the running process leaves the table, nothing else changes |
| KernelCode.KernelState.DoSyscall | kernel/syscall/syscall.c:79-149 | the dispatch is the specification Syscall, for table, waiters and frame; lspci and lsproc put the smaller of ecx and the number of devices, or of slots not unused, in eax and change no other register; they fill the caller's array up to that count, and no call touches anything else there |
| KernelCode.KernelState.HandleKeypressChar | kernel/drivers/ps2/ps2.c:251-261 | the loop over the waiters is the specification Deliver |
| KernelCode.KernelState.HandleKeypress | kernel/drivers/ps2/ps2.c:263-296 | a scan code updates flags, waiters, registers and table as the specification KeyPress does |
| KernelCode.KernelState.ListProcesses | kernel/syscall/syscall.c:127-138 | the nested loops write the first min(len, in use) slots that are not unused, registers included, in table order, return that count, and leave the rest of the array |
| KernelCode.KernelState.ListDevices | kernel/syscall/syscall.c:110-118 | the first min(len, device count) devices are copied, the rest of the array stays |
| KernelProcesses.InUseCount | kernel/syscall/syscall.c:127-138 | the list of lsproc is as long as there are slots not unused |
| KernelProcesses.InUseAt | kernel/syscall/syscall.c:127-138 | a process is listed, with its saved registers, behind as many as there are in the slots before its own |
| KernelProcesses.AnsweredAtOnce | kernel/syscall/syscall.c:109-141 | calls 3 and 4 change eax only, to their counts; higher numbers change nothing of the kernel state |
| KernelProcesses.ExitLeaves | kernel/syscall/syscall.c:143-147 | after exit the slot of the caller is unused and every other slot as it was, and the next ready process going round is picked, which is not the caller |
| KernelProcesses.StartEnters | kernel/scheduler/scheduler.c:34-52 | a new process gets the first unused slot, begins at its entry point with clear general registers, and has its stack at the last byte of its own range; no other slot changes |
| KernelProcesses.RangesApart | kernel/scheduler/scheduler.c:37-47 | after every run from boot, each process in the table has its own number, and a range of a million addresses that lies in the 32-bit space, begins with its name, and shares none with any other process |
| KernelInvariant.BootInv | kernel/scheduler/scheduler.c:12-17 | the initialised tables satisfy the invariant |
| KernelInvariant.WaiterIsFree | kernel/syscall/syscall.c:97-103 | getc always finds a free waiter: 128 queued ones would need 128 blocked processes, and one is running |
| KernelInvariant.WakeIs | kernel/drivers/ps2/ps2.c:253-259 | from any point, the loop wakes exactly the processes still queued, once each, with the character |
| KernelInvariant.DeliverIs | kernel/drivers/ps2/ps2.c:251-261 | a character goes to every blocked process and to nobody else, and frees all waiters; NUL does nothing |
| KernelInvariant.StepInv | arch/i386/irq.c:57-80 | every interrupt keeps waiters and blocked processes in bijection and the running process ready |
| KernelInvariant.RunInv | arch/i386/irq.c:57-80 | so does every run |
| KernelRuns.SwitchSaves | kernel/scheduler/scheduler.c:72-81 | every call of the scheduler saves the interrupted context in the slot of the running process and changes no other context, picks the next ready process going round, and restores the context that its slot then holds: a process picked again at once goes on as it was |
| KernelRuns.StepWaited | arch/i386/irq.c:57-80 | one interrupt changes a process that is not running only by the character it waits for; if it picks the process, the restored frame is that process's own |
| KernelRuns.RunWaited | arch/i386/irq.c:57-80 | the same over any run that does not pick the process, where only the first character counts |
| KernelRuns.ContextIsolated | arch/i386/scheduler/scheduler.c:25-57 | a process that was preempted or yielded gets back the ten registers it had: at once where the search comes back to it, else when next picked, whatever happened in between |
| KernelRuns.GetcBlocks | kernel/syscall/syscall.c:94-107 | getc leaves its caller blocked, saved as it trapped, and not running |
| KernelRuns.BlockedIsNotPicked | kernel/syscall/syscall.c:94-107 | until a character arrives, no scheduling picks the caller |
| KernelRuns.GetcDelivers | kernel/syscall/syscall.c:94-107 | when the caller is next picked, a character has been delivered, and eax is the first one since: it modulo 256, and above it zeros or, from 0x80 on, ones; the other nine registers are those it trapped with |
| KernelRuns.CharacterWakesAll | kernel/drivers/ps2/ps2.c:251-261 | after any character but NUL nothing is blocked and no waiter queued |
| KernelFairness.SearchStopsBefore | kernel/scheduler/scheduler.c:19-24 | a search that misses a ready process stops strictly before it, going round |
| KernelFairness.PicksInOrder | kernel/scheduler/scheduler.c:72-81 | while a ready process is passed over, the picks come in strictly increasing cyclic order before it |
| KernelFairness.ReadyIsPicked | kernel/scheduler/scheduler.c:72-81 | until a ready process is picked no process is picked twice, and there are at most 127 picks |
| KernelFairness.EveryReadyProcessRuns | kernel/scheduler/scheduler.c:72-81 | 128 calls of the scheduler pick every process that was ready at their start, whatever blocks, exits, starts or wakes |
| KernelFairness.WaiterRuns | kernel/drivers/ps2/ps2.c:251-261 | a delivered character is in the low byte of the eax of every process that waits, with its sign above it, all else of its registers as it was, and 128 calls of the scheduler pick it |
| KernelFairness.PreemptedRunsAgain | kernel/scheduler/scheduler.c:72-81 | a process that is preempted or yields is picked again within 127 further calls |
| ConsoleCode.Console.Set | kernel/drivers/vga/vga.c:25-28 | two bytes of one cell change |
| ConsoleCode.Console.BlankRow | kernel/drivers/vga/vga.c:54-58 | a row is blanked from a column on, every other byte stays |
| ConsoleCode.Console.NextRow | kernel/drivers/vga/vga.c:80-91 | the cursor goes to the next row and the ring scrolls as the specification Advance says |
| ConsoleCode.Console.Put | kernel/drivers/vga/vga.c:60-109 | one character takes buffer and counters where the specification Putc takes them, byte wrap-around included |
| ConsoleCode.Console.Flush | kernel/drivers/vga/vga.c:30-38 | the display is the ring unrolled from the start row |
| ConsoleCode.Console.ClearScreen | kernel/drivers/vga/vga.c:40-52 | all rows but the last are blanked, three counters reset, and the display flushed |
| ConsoleLog.PutCharacters | kernel/drivers/vga/vga.c:60-109 | in a line with room a newline finishes the line, filled up with spaces to 80, a backspace takes its last character off, and any other character goes to its end |
| ConsoleLog.PutcStores | kernel/drivers/vga/vga.c:95-108 | in any state, a character that is stored changes the two bytes of its cell and no other byte; a backspace changes none |
| ConsoleLog.AdvanceRing | kernel/drivers/vga/vga.c:61-74 | leaving a full row keeps the ring holding the log, one line further on, scrolling only when no line is reopened |
| ConsoleLog.RingCounters | kernel/drivers/vga/vga.c:12-16 | where the ring holds a log all indices are in range, start_row is 0 or below the cursor by the reopened lines and one, and move_row is start_row less the reopened lines |
| ConsoleLog.ReopenRing | kernel/drivers/vga/vga.c:95-100 | with a start row and a cursor row above 0, a backspace at the start of a row reopens the last finished line |
| ConsoleLog.PutcRing | kernel/drivers/vga/vga.c:60-109 | every character takes a ring that holds a log, all 25 rows byte for byte, to one that holds the log with the character, unless it sends the cursor up from row 0 or with start row 0 |
| ConsoleStreams.SlipShows | kernel/drivers/vga/vga.c:95-99 | after such a backspace the cursor is off the grid, or at most 25 newlines and a letter are then displayed wrongly |
| ConsoleStreams.StreamSlips | kernel/drivers/vga/vga.c:95-99 | at some point of every other stream, the cursor is off the grid, or at most 25 newlines and a letter are then displayed wrongly |
| ConsoleStreams.MissesScroll | kernel/drivers/vga/vga.c:83-91 | with start row 0 and any other move row, the newlines up to the ring's last row and one more put the cursor in row 0 without scrolling |
| ConsoleStreams.StreamRing | kernel/drivers/vga/vga.c:60-109 | over every stream whose backspaces at the start of a row find start row and cursor row above 0, the ring holds the log, byte for byte |
| ConsoleStreams.StreamKeepsUp | kernel/drivers/vga/vga.c:60-109 | exactly these streams are displayed as their logs, in all 25 rows and right of the cursor too, at every point and with anything free of backspaces after it |
| ConsoleDisplay.FlushedRow | kernel/drivers/vga/vga.c:30-38 | display row k is ring row start + k, modulo 25 |
| ConsoleDisplay.FlushShows | kernel/drivers/vga/vga.c:30-38 | flushing a ring that holds a log shows, byte for byte, the kept lines in order down to the line being written, what stands ahead of its cursor, the rows below it, and a blank top row once it has scrolled |
| ConsoleDisplay.DisplayedAt | kernel/drivers/vga/vga.c:21-38 | where in display memory each kept character of the log stands, in numbers, and the colour behind it |
| ConsoleStreams.StreamDisplayed | kernel/drivers/vga/vga.c:30-109 | from power-on, every such stream is displayed as its log, byte for byte, with the cursor on the grid and the start row following it |
| ConsoleStreams.PlainText | kernel/drivers/vga/vga.c:60-109 | text without newlines and backspaces is only broken into lines of 80: no character is lost, added or moved |
| ConsoleStreams.BackspaceAtPowerOn | kernel/drivers/vga/vga.c:96-99 | a backspace before anything else puts the cursor off the grid, and any other character would then be stored outside the buffer |
| ConsoleStreams.BackspaceUnscrolled | kernel/drivers/vga/vga.c:96-99 | a newline and a backspace after power-on are such a stream |
| ConsoleStreams.BottomRow | kernel/drivers/vga/vga.c:76-91 | a line that the window scrolls to starts out blank exactly when it is not the first such line or the very first line is blank |
| ConsoleStreams.FirstScroll | kernel/drivers/vga/vga.c:76-91 | a letter and 25 newlines after power-on leave the letter at the start of the bottom row |
| ConsoleDisplay.ClearedDisplay | kernel/drivers/vga/vga.c:40-52 | clearing blanks display rows 0 to 23, and row 24 is ring row 24 as it was |
| ConsoleStreams.ClearedKeepsUp | kernel/drivers/vga/vga.c:47-49 | after clearing, the display shows the log of what is written next exactly when the start row was 0 |
| ConsoleStreams.ClearedAfterScroll | kernel/drivers/vga/vga.c:47-49 | after 25 newlines the start row is 1, and a screen cleared then does not show what is written next |
| ConsoleStreams.Print | kernel/io/io.c:57-61 | printing a text puts each character and flushes at the end: the display then shows the log with the text |
| PciIds.GetVendorDevName | kernel/pci/pci.c:47-158 | the loop fills the two name buffers, NUL-terminated, with what the specification Scan finds, or leaves both names empty |
| PciTable.HexDigits | kernel/pci/pci.c:35-45 | a character is a digit exactly when it is one of 0123456789abcdef or 0123456789ABCDEF, and its value is its place there |
| PciTable.PrintedId | kernel/pci/pci.c:35-45 | reading the four digits of any id, printed with small letters, gives back the id |
| PciTable.SameDigits | kernel/pci/pci.c:105-136 | the four digit comparisons all succeed exactly when the 16-bit ids are equal |
| PciTable.NotAnId | kernel/pci/pci.c:95-136 | a line without four digits where an id is expected is given up |
| PciTable.GapEnds | kernel/pci/pci.c:137-143 | the gap ends at the first character that no space follows |
| PciTable.Naming | kernel/pci/pci.c:58-68 | the name is what comes before the newline; a tab cuts it and leaves it in the buffer; 128 characters overrun |
| PciTable.FromId | kernel/pci/pci.c:95-153 | from the place where an id is expected, a line names the device or vendor exactly when it has four digits of the id, a character that is no tab, any spaces and then no tab; otherwise it changes nothing |
| PciTable.UpToTab | kernel/pci/pci.c:84-93 | among devices, text is ignored up to the first tab, and an id expected after it |
| PciTable.SeekLine | kernel/pci/pci.c:56-93 | before the vendor is found a printed line changes the state only if it is the vendor's |
| PciTable.DeviceLine | kernel/pci/pci.c:56-154 | after it a printed line is skipped, or is the device's and ends the scan with its name |
| PciTable.ScanIsLookup | kernel/pci/pci.c:47-158 | on every table of vendor lines, device lines and lines that are passed over, the scan is the lookup: first vendor line with the id, then first device line with the id after it, and neither buffer overruns |
| PciTable.PrintedIsFound | kernel/pci/pci.c:47-158 | in a table that prints one vendor and one device, with any ids and any names, the scan finds both names |
| PciTable.LettersInIds | kernel/pci/pci.c:47-158 | a table with letters among its digits, and the names found in it, character by character |
| PciTable.FoundInBlock | kernel/pci/pci.c:56-158 | the device found is the vendor's own exactly when its block has one with the id |
| PciTable.NeighboursDevice | kernel/pci/pci.c:56-158 | in a table of two vendors and one device of the second, the device is reported for the first |
| PciOther.SkippedAmongExactly | kernel/pci/pci.c:84-153 | among devices, a line is passed over in every scan exactly when no id and name can be read after its first tab |
| PciOther.SkippedSeekingExactly | kernel/pci/pci.c:77-153 | before the vendor, a line is passed over in every scan exactly when no id and name can be read from its start |
| PciOther.CommentTakenForDevice | kernel/pci/pci.c:84-98 | what is reported for a comment with four digits after its first tab: its words as the device, nothing, or an overrun, each exactly when |
| LockInvariant.ExclusiveStep | arch/i386/asm/asm.c:3-9 | taking a free lock, leaving a held one or neither keeps the bit set exactly while one process is inside |
| LockInvariant.LockStep | arch/i386/asm/asm.c:3-9 | every instruction of the two programs uses both locks that way |
| LockInvariant.CountedStep | supp/test_processes.c:20-30 | load and store of the counter as separate steps lose no increment |
| LockInvariant.UntornStep | kernel/io/io.c:116-122 | only the holder of printf's lock adds to the screen, and on release the screen is whole texts |
| LockInvariant.TableAfter | kernel/syscall/syscall.c:79-141 | no interrupt or call of the programs ends a process, and only getc blocks one |
| LockInvariant.StepInv | supp/test_processes.c:19-145 | every instruction, call, interrupt and start keeps the invariant |
| LockInvariant.RunInv | supp/test_processes.c:19-145 | so does every interleaving |
| LockProgress.EveryInterleaving | supp/test_processes.c:19-145 | from boot, over every interleaving: each bit is set exactly while one process is between acquire and release, no blocked process holds a lock, the counter is the number of increments executed since the last reset modulo 2^32, and printf output is whole texts plus the holder's own part |
| LockProgress.IncrementsAreTallied | supp/test_processes.c:19-33 | the history of increments is what was executed: a reset sets it to 0, a store adds one, and nothing else changes it |
| LockProgress.IncrementsAndYields | supp/test_processes.c:23-31 | over every interleaving from boot, a process of the first program has yielded after each of its increments, but for the one after which it is still about to release the lock or to yield |
| LockProgress.NotStuckMoves | arch/i386/asm/asm.c:3-5 | an instruction leaves its process where it is exactly when it is an acquire of a taken lock |
| LockProgress.InnermostMoves | supp/test_processes.c:19-145 | when a lock is taken, one process holds the innermost, is ready, and waits for nothing |
| LockProgress.SomeoneMoves | supp/test_processes.c:19-145 | no deadlock: while a process is ready, some ready process is not waiting for a lock |
| LockProgress.KernelRun | arch/i386/irq.c:57-80 | an interleaving is, for the kernel, a run of its interrupts |
| LockProgress.StaysPut | supp/test_processes.c:19-145 | until it is picked a process stays at its instruction, keeping what it holds |
| LockProgress.HolderIsPicked | supp/test_processes.c:19-145 | 128 calls of the scheduler pick the holder of the innermost lock, if it is not running already, and it is then at the instruction where it was |
| LockProgress.KernelNeverRunsOff | kernel/scheduler/scheduler.c:19-24 | once a process of the first program is started, every timer interrupt and every call the two programs make can be handled: the search for a ready process always ends |
| LockPrintf.PrintfWhole | kernel/io/io.c:107-122 | in every interleaving, by the time the holder of printf's lock has executed as many instructions as its text asks for, its text has been whole on the screen behind the texts before it, and the lock free |

## Left out

- KernelCode.KernelState.GetNextPid: does not model the endless loop on a table without a matching slot (`kernel/scheduler/scheduler.c:21`); that some slot matches is its precondition, and an assumption on runs (`KernelSpec.Enabled`), which the two test programs meet (`LockProgress.KernelNeverRunsOff`).
- KernelCode.KernelState.DoSchedule: likewise needs a ready process.
- Memory.Memcpy: takes two distinct buffers, as every call does; windows that overlap in one buffer are not modelled.
- Memory.Strncpy: takes two distinct buffers, as every call does.
- RamDisk.Device.WriteSector: does not model sector 2^23 - 1 modulo 2^23, whose bound check wraps to 0 and whose copy would run past the array; NQFS never writes a sector outside [0, N-1).
- KernelCode.KernelState.StartProcess: needs memory up to the end of the last process's address range, which the code takes for granted.
- KernelCode.KernelState.DoSyscall: does not model powerctl's port writes and messages.
- PciIds.GetVendorDevName: does not model names too long for their 128-byte buffers beyond saying that the buffer would overrun (the outcome Overrun, excluded by its precondition).
- ConsoleCode.Console.Put: does not model stores outside the buffer; only a backspace in row 0 can lead to one, and then only a character that is stored is excluded.
- ConsoleStreams.Print: models a plain text as print_string and the closing flush of printf put it; format directives and the copy sent to the serial port are not modelled.
- LockInvariant.LockStep: the endless loops of the two programs are a transition system over their instructions, not Dafny loops; the shell's command buffer, its choice of command and the texts it prints are left open (any text may be printed), and so is what the process does between instructions.
- LockInvariant.LockStep: of a lock word only bit 0 is modelled; the other bits are never used.
- The process table keeps its registers in a second array beside the tasks, since the C struct holds them in place; nothing else in the code points into a slot.
- Interrupts and system calls are atomic steps: each stub disables interrupts before it calls the handler (`arch/i386/irq.s`).
- LockProgress.EveryInterleaving: the screen is what printf puts there; the messages that the kernel itself prints without the lock (printf_nolock, in powerctl too) are not on it.
- Nqfs.WriteBytes: like the other NQFS methods, needs a device of more than 128 sectors, as the code does to have any data region.
- keycode_to_char returns nothing for keys outside its table; the model has NUL there, as the code does after its switch.
- memseq and streq: used only to tell the shell's command names apart, and there left open.
- Control keys: their flags are declared but never set or read.
- balloc, process_debug, printf's number formatting, panic output, NQFS_DEBUG_list_files: output only.
- Block-device registration, serial and port I/O, interrupt controllers, descriptor tables, assembly stubs and boot code: hardware effects.
- PCI bus enumeration and configuration reads, ACPI discovery: device-dependent.
- Crash consistency of NQFS: the code makes no ordering promise.

# Verified model of a Nachos kernel and machine

This project models the hard parts of a Nachos operating system: demand-paged
virtual memory with a TLB and swap, a file store of chained headers over a packed
bitmap, the synchronisation primitives from semaphores up to channels and the
synchronous disk, the simulated processor with its interrupts and disk timing, and
the lists and tables underneath.  Each part has one or more main results that hold
for every input, every run or every schedule.

- **Memory.** `FlatMemory`, `FlatMachine`: what a program may see, one flat byte
  memory. `Vm`: the paging state and its steps. `PagingInvariant`: what every step
  keeps. `Kernels`, `Coremaps`, `Bitmaps`: the kernel code over arrays. `UserRuns`:
  any run is a run of the flat machine. `Capacity`, `Overruns`: when frames suffice
  and when not. `Transfer`, `ArgLayout`, `Args`: user copies and program arguments.
  `DemandLoading`, `ForeignVictim`: exact conditions.
- **Files.** `FileLayout`: headers and chains. `FileOwnership`: who owns which
  sector, step by step. `FileHeaders`: allocation and read-modify-write.
  `FreeMaps`: newly marked sectors, counted. `FileSystems`, `OpenFiles`, `FileRuns`:
  creating, removing, writing, reading, runs.
- **Threads.** `Semaphores`, `Monitors`, `Channels`, `Senders`, `StrandedSender`,
  `SynchDisks`: step machines, each built on the one before it, with invariants over
  every schedule.
- **Machine.** `Multiplication`, `Mips`: one instruction. `Effects`: what each opcode
  does, in plain arithmetic. `Restarts`, `RestartExact`,
  `RestartTable`: when a page fault in the middle cannot be seen. `Processors`: whole
  programs over the kernel. `Interrupts`, `DiskTiming`.
- **Structures.** `Lists`, `Tables` on the heap, `Schedulers`; `Numbers`, `Options`.

Verify with `dafny verify dfyconfig.toml` (Dafny 4.11).

Where code and comments disagree the model follows the code.  Results of that kind:
a frame can only be replaced safely by the space that owns it
(`PagingInvariant.ReplacementNeedsOwnFrame`), which programs that do not fit into
memory can always be made to violate (`Overruns.Overrun`); demand loading agrees with
eager loading only for one layout of the segments (`DemandLoading.DemandAgreesWithEager`);
a sender that was served can wait again, for ever, exactly if a message comes twice
(`Senders.WaitsAgainForEqual`, `StrandedSender.StrandedExactly`); restarting an
instruction behind a pending load can show, exactly unless its fields meet a condition
(`RestartTable.RestartIsNeverSeen`); the clock looks at one frame only (`Kernels.Kernel.ClockHand`); the scheduler takes the
thread with the greatest key (`Schedulers.Scheduler.FindNextToRun`).

## Model

| member | source | states |
|---|---|---|
| UserRuns.Execute | code/userprog/address_space.cc:351-425 | Main result for paging. Any run of loads, stores and context switches, under FIFO, clock or random replacement, loads exactly the values and leaves exactly the memories of a machine with one flat memory per program and no paging: to the end of the run if there is one program or all programs together fit into the frames; else up to the first access to an absent page for which, with every frame in use, the policy takes a frame of another space. |
| UserRuns.Perform | code/machine/machine.cc:94-140 | One access with its fault handled and repeated has the flat effect and result, with at most one fault. It stops only on an absent page with every frame in use, one by another space; under FIFO and the clock exactly if the frame that the policy takes is another space's. |
| UserRuns.FittingIsNotCrowded | code/userprog/address_space.cc:261-270 | One program alone, or programs with no more pages together than there are frames, never come to an eviction across address spaces. |
| UserRuns.AmpleHasRoom | code/userprog/address_space.cc:351-370 | Programs with no more pages together than there are frames never need an eviction at all. |
| Capacity.MorePagesThanFrames | code/userprog/address_space.cc:351-370 | If every frame is in use and a page is missing, the page tables together have more pages than there are frames. |
| Overruns.Overrun | code/userprog/address_space.cc:261-345 | The condition is exact: for any two or more programs that together have more pages than there are frames, under FIFO and under the clock, a run from boot ends in an eviction across address spaces. |
| Overruns.OrderCollides | code/userprog/address_space.cc:294-345 | For all page counts that exceed the frames there is an order of loading that fills every frame, the first one with a page of another space than the page asked for then. |
| Processors.RunProgram | code/machine/mips_sim.cc:27-47 | Main result for the processor on the kernel. Any program over TLB and page-fault handler, under any policy and with interrupts between any instructions, has after each instruction the registers (but BAD_VADDR and a pending load into register 0), the memory and the exceptions of the processor on flat memory, and leaves the other memories alone, if each instruction it comes to satisfies the condition of the table for a restart; with programs that fit into the frames, or alone under FIFO or the clock, it goes on to the end, to a trap, or out of the address space, each time exactly as on flat memory. What an instruction does there is said by the lemmas of `Effects`. |
| Processors.Instruction | code/machine/mips_sim.cc:38-41 | One instruction with its faults is the model's retries with the pages in the TLB at each pass; it faults at most three times if the programs fit into the frames, and at most four times under FIFO or the clock. |
| Processors.OnePass | code/machine/mips_sim.cc:38-41 | One pass over the TLB ends as the model's pass with exactly the cached pages present, and a fault brings in a page that the instruction needs. |
| Processors.NearingMore | code/userprog/exception.cc:599-626 | Of an instruction that needs two pages and faults in a row, the last two pages stay in their TLB slots, so that there is no fourth fault. |
| Processors.ClosingMore | code/userprog/exception.cc:599-626 | With evictions, under FIFO or the clock: a needed page that was thrown out for another one is not thrown out for it again, because the hand is then behind its frame, so that there is no fifth fault. |
| Processors.AttemptSame | code/machine/mips_sim.cc:174-655 | BAD_VADDR and the value of a load into register 0 make no difference to any instruction. |
| Processors.CalmIsTransparent | code/machine/machine.cc:124-140 | An instruction that the table allows ends, behind any faults, as with every page present. |
| Processors.CalmAfterInterrupt | code/machine/interrupt.cc:344-349 | The same if an interrupt in front of the instruction has done the pending load. |
| FlatMachine.LoadSeesLastStore | code/machine/mmu.cc:91-172 | On the flat machine a load of 1, 2 or 4 bytes returns the last value its own space stored there, whatever ran in between without touching it, stores of other spaces to the same address included. |
| FlatMachine.LoadSeesByteOfStore | code/machine/mmu.cc:91-172 | A load of one byte after a store of 1, 2 or 4 bytes over it, whatever else ran in between, returns that byte of the value, v / 256^k modulo 256 for byte k, as a signed char. |
| FlatMemory.StoredByte | code/machine/mmu.cc:139-172 | Byte order of stores: byte k of a stored value, counted from the address on, is v / 256^k modulo 256. |
| FlatMemory.LoadedValue | code/machine/mmu.cc:91-128 | Byte order of loads: a word is m[a] + 256 m[a+1] + 65536 m[a+2] + 16777216 m[a+3] read as signed, a half word the same without sign, a byte is signed. |
| UserRuns.BootView | code/userprog/address_space.cc:24-132 | The flat memory at boot is, byte for byte, the program image that `LoadPage` builds on demand. |
| PagingInvariant.BootState | code/userprog/address_space.cc:24-132 | Fresh address spaces with an empty TLB and no used frame satisfy the paging invariant. |
| PagingInvariant.ReplacementNeedsOwnFrame | code/userprog/address_space.cc:229-270 | Evicting a frame and loading a page into it keeps the invariant if and only if the victim frame belongs to the running space; then no memory changes. |
| PagingInvariant.CrowdedNeedsTwo | code/userprog/address_space.cc:261-345 | A state in which an eviction across address spaces threatens has at least two address spaces. |
| ForeignVictim.StolenFrameCorruptsOwner | code/userprog/address_space.cc:240-255 | With every frame held by the second of two programs, evicting a frame for the first one loses the owner's data: its first byte, a 7, reads 0 afterwards. |
| ForeignVictim.LoadedIsStuffed | code/userprog/address_space.cc:351-425 | That state is reached: from boot, the second program loads its 64 pages one by one and the first one is dispatched. |
| PagingInvariant.EvictKeepsInvariant | code/userprog/address_space.cc:229-258 | Writing a victim's TLB entry back, its page to swap if dirty, and invalidating it keeps the invariant up to that frame and changes no byte of any program. |
| PagingInvariant.EvictWritesIfDirty | code/userprog/address_space.cc:229-258 | A frame goes to its place in the owner's swap file exactly if the first TLB slot for it, or else the running page table, says dirty; no other swap file or map changes, and the page is neither valid nor dirty afterwards. |
| PagingInvariant.LoadKeepsInvariant | code/userprog/address_space.cc:351-425 | Filling a frame from swap or image maps the page and changes no byte of any program. |
| PagingInvariant.ReadKeepsInvariant | code/machine/mmu.cc:91-128 | A read hit keeps the invariant and every memory. |
| PagingInvariant.WriteKeepsInvariant | code/machine/mmu.cc:139-172 | A write hit keeps the invariant, in particular that clean pages equal their backing store. |
| PagingInvariant.WriteIsSplice | code/machine/mmu.cc:139-172 | A write hit is a splice of the written bytes into the running flat memory and changes no other program's memory. |
| PagingInvariant.RefillKeepsInvariant | code/userprog/exception.cc:599-626 | Writing a TLB slot back to the page table and reusing it for another page keeps the invariant and every memory, and the page is then found in the TLB. |
| PagingInvariant.SaveSlotKeepsInvariant | code/userprog/address_space.cc:186-202 | Saving use and dirty bits and dropping a TLB slot keeps the invariant and every memory. |
| PagingInvariant.SwitchKeepsInvariant | code/threads/scheduler.cc:113-162 | With the TLB empty, another space may become the running one. |
| PagingInvariant.FlagsKeepInvariant | code/userprog/address_space.cc:294-345 | Use bits, the clock hand and the next TLB slot are invisible. |
| Kernels.Kernel.constructor | code/userprog/address_space.cc:24-132 | Boots one fresh address space per program into a state that satisfies the invariant. |
| Kernels.Kernel.RetrievePageEntry | code/machine/mmu.cc:174-215 | The scan finds the first TLB slot for the page, or reports a page fault. |
| Kernels.Kernel.Translate | code/machine/mmu.cc:229-282 | Which exception is raised when (a misaligned address first, then a page that no slot maps), the physical address, and exactly which TLB bits change. |
| Kernels.Kernel.MmuReadMem | code/machine/mmu.cc:91-128 | A hit returns what the flat memory holds, with the byte order that `FlatMemory.LoadedValue` states; a miss changes nothing. |
| Kernels.Kernel.MmuWriteMem | code/machine/mmu.cc:139-172 | A hit is a store into the running flat memory, with the byte order that `FlatMemory.StoredByte` states; a miss changes nothing. |
| Kernels.Kernel.TLBSearch | code/userprog/address_space.cc:276-291 | Finds the entry that counts for the frame under the hand: its TLB copy, else that of the running page table, or that another space owns it. |
| Kernels.Kernel.PickVictim | code/userprog/address_space.cc:294-345 | Exactly which frame each policy takes, where the hand is then, and that only use bits change: FIFO the one under the hand, the clock what `ClockHand` says. |
| Kernels.Kernel.ClockHand | code/userprog/address_space.cc:304-342 | The four rounds look at one entry only, and the hand is then behind the frame taken; which frame that is `ClockLooksAtHand` says. |
| Kernels.ClockLooksAtHand | code/userprog/address_space.cc:304-342 | With every frame in use and a frame of the running space under the hand, the clock takes the next frame, unseen, exactly if the entry is both used and dirty, by the bits of the TLB slot for the frame, or without one of the page table; else it takes the frame under the hand. |
| Kernels.Kernel.EscribirFrameenSwap | code/userprog/address_space.cc:229-258 | The loop over the TLB and the swap write compute exactly the eviction step. |
| Kernels.Kernel.SustitucionEnSwapDeMarcoVictima | code/userprog/address_space.cc:261-270 | A victim is evicted and its frame claimed for the page, or nothing is touched because the frame is another space's: under FIFO and the clock exactly if the frame that the policy takes is. |
| Kernels.Kernel.LoadPage | code/userprog/address_space.cc:351-425 | The page becomes valid, the invariant and all memories stay; with a frame free the first one is taken and the TLB is left alone; else exactly the policy's frame is vacated, or the load stops because it is another space's. |
| Kernels.Kernel.PageFault | code/userprog/exception.cc:599-626 | After the handler the page is in the TLB, the invariant and all memories stay; without an eviction exactly the next slot has changed, with one also those of the frame taken; it stops exactly when the load does. |
| Kernels.Kernel.SaveState | code/userprog/address_space.cc:186-202 | Empties the TLB: the use and dirty bits of every slot are in the page table, the rest of which stays, and so do the invariant and all memories. |
| Kernels.Kernel.RestoreState | code/userprog/address_space.cc:208-221 | Invalidating all slots after a save changes nothing. |
| Kernels.Kernel.ContextSwitch | code/threads/scheduler.cc:113-162 | The next space runs; the invariant and all memories stay. |
| Kernels.Kernel.ReadMem | code/machine/machine.cc:94-104 | Succeeds exactly on an aligned TLB hit, with the flat value; a misaligned address changes nothing; after a handled miss the next try hits. |
| Kernels.Kernel.WriteMem | code/machine/machine.cc:106-116 | Succeeds exactly on an aligned TLB hit, as a flat store; a misaligned address changes nothing; after a handled miss the next try hits. |
| Coremaps.Coremap.Find | code/vmem/coremap.cc:51-60 | Takes the first free frame and records its owner and page, or reports -1 and changes nothing. |
| Coremaps.Coremap.Mark | code/vmem/coremap.cc:31-39 | Records owner and page of one frame and changes no other. |
| Bitmaps.Bitmap.Mark | code/lib/bitmap.cc:40-45 | On packed words: exactly one bit is set. |
| Bitmaps.Bitmap.Clear | code/lib/bitmap.cc:50-55 | On packed words: exactly one bit is cleared. |
| Bitmaps.Bitmap.Test | code/lib/bitmap.cc:60-65 | Reads the bit. |
| Bitmaps.Bitmap.Find | code/lib/bitmap.cc:71-81 | Sets and returns the first clear bit; -1 and no change if there is none. |
| Bitmaps.Bitmap.CountClear | code/lib/bitmap.cc:85-96 | Counts the clear bits. |
| Bitmaps.BitAfterSet | code/lib/bitmap.cc:40-45 | Setting a bit of a word sets that bit and no other. |
| Bitmaps.BitAfterReset | code/lib/bitmap.cc:50-55 | Clearing a bit of a word clears that bit and no other. |
| Bitmaps.PackedWhere | code/lib/bitmap.cc:40-65 | Item i is the bit worth 2^(i % 32) of word i / 32. |
| Bitmaps.CountAfterMark | code/lib/bitmap.cc:85-96 | Marking a clear bit lowers the count of clear bits by one. |
| Bitmaps.FullMeansNoneClear | code/lib/bitmap.cc:71-96 | `CountClear` is 0 exactly when `Find` fails, exactly when all bits are set. |
| Transfer.TryRead | code/userprog/transfer.cc:15-35 | A read repeated after its fault succeeds: at most one failure, never the limit of tries. |
| Transfer.TryWrite | code/userprog/transfer.cc:59-75 | The same for writes, with the exact flat effect. |
| Transfer.ReadBufferFromUser | code/userprog/transfer.cc:15-35 | The bytes copied are the flat memory range; no memory changes. |
| Transfer.ReadStringFromUser | code/userprog/transfer.cc:38-57 | Copies up to and including the NUL or up to the limit, and says which, for every content of memory. |
| Transfer.WriteBufferToUser | code/userprog/transfer.cc:59-75 | The buffer is spliced into the running flat memory; no other memory changes. |
| Transfer.WriteStringToUser | code/userprog/transfer.cc:77-92 | The string without its NUL is spliced into the running flat memory. |
| ArgLayout.LaidOutHolds | code/userprog/args.cc:71-109 | On a zeroed stack the layout is an aligned, null-terminated pointer array to NUL-terminated strings, the terminators being untouched zero bytes. |
| ArgLayout.StringsAreDisjoint | code/userprog/args.cc:71-109 | The strings overlap neither each other nor the pointer array. |
| ArgLayout.LaidOutPlaces | code/userprog/args.cc:71-109 | Where everything is: pointer i is the old stack pointer less the lengths of the first i + 1 strings and a byte for each; pointers and null end at the last multiple of 4 below the strings; nothing below them or above the old stack pointer changes. |
| Args.WriteArgs | code/userprog/args.cc:71-109 | Over the paged machine: the memory is exactly the layout, and the stack pointer is its base, for strings of any length. |
| Args.CountArgsToSave | code/userprog/args.cc:20-40 | Counts the pointers up to the null; fails exactly from 32 on. |
| Args.SaveArgs | code/userprog/args.cc:42-69 | Reads back every string in order, with its NUL or cut at 128 bytes; fails exactly from 32 pointers on. |
| Args.RoundTrip | code/userprog/args.cc:42-109 | `SaveArgs` at the stack pointer that `WriteArgs` returns yields the same list, for any list of at most 31 non-empty strings, each cut at 128 bytes. |
| DemandLoading.EagerLoad | code/userprog/address_space.cc:100-131 | Clearing the pages and copying the segments, each address translated, leaves at every address the byte of the data segment, else of the code segment, else 0. |
| DemandLoading.SamePage | code/userprog/address_space.cc:371-422 | For every page, what `LoadPage` builds is the page of the image, over all straddles of code and data. |
| DemandLoading.DemandAgreesWithEager | code/userprog/address_space.cc:100-131 | A header loads the same on demand and eagerly, whatever its segments contain, if and only if code starts at 0 and data starts at the end of code (each if not empty). |
| OpenFiles.OpenFile.Write | code/filesys/open_file.cc:155-386 | Main result for files. The bytes accepted are laid over the file at the write position: old bytes before and behind stay, the file grows if need be, no other file changes, every header but the last stays full. How many bytes are accepted and how many sectors are clear afterwards is said by rounding up alone (`Taken`): nothing if the last header cannot be extended; else h = ceil(ceil(rest / 128) / 29) header sectors or none, then what the sectors allow. Newly marked sectors that are not the file's number those used up less its new headers and data; if all is accepted there are none. |
| OpenFiles.AcceptedInFull | code/filesys/open_file.cc:155-386 | Everything is accepted if and only if there are enough clear sectors for the data and the new headers, and then exactly those are used. |
| OpenFiles.PlainAccount | code/filesys/open_file.cc:155-386 | The functions that keep account of a write over whole sessions say what the plain formula in terms of rounding up says. |
| OpenFiles.RoundsUp | code/lib/utility.hh:38-43 | `DivRoundUp` is the least number of units that hold so much. |
| FreeMaps.CountStrays | code/filesys/open_file.cc:256-381 | Sectors newly marked between two states are those used up; those that are not the file's number these less what the file has got. |
| FreeMaps.SectorsCount | code/filesys/file_header.cc:39-60 | A file of n bytes in k headers owns k sectors and n / 128, rounded up, all different. |
| OpenFiles.OpenFile.WriteHere | code/filesys/open_file.cc:175-215 | The part that fits the current header, taken whole or not at all, with or without extending it; what it costs. |
| OpenFiles.OpenFile.WriteExisting | code/filesys/open_file.cc:217-253 | On through the headers that the file already has; on shortage, exactly if the last header cannot be extended, the handle stays behind the last byte written. |
| OpenFiles.OpenFile.WriteNew | code/filesys/open_file.cc:256-381 | With h = ceil(ceil(rest / 128) / 29): fewer than h clear sectors leave the map unchanged; otherwise exactly h and a sector for each 128 bytes written are newly marked, and those of them that are not the file's number h less the headers linked. Nothing is written unless the first header can be filled, then as many bytes as there are sectors for. |
| OpenFiles.OpenFile.Read | code/filesys/open_file.cc:109-153 | Returns the next bytes of the file across any number of headers, up to its end, and advances by their number. |
| OpenFiles.OpenFile.constructor | code/filesys/open_file.cc:24-46 | A new handle stands at offset 0 of the file's first header. |
| FileRuns.WriteThenRead | code/filesys/open_file.cc:109-386 | Any chunking of writes to an empty file followed by any chunking of reads on a fresh handle gives the same bytes back; all of them exactly if there were sectors enough. |
| FileRuns.WriteChunks | code/filesys/open_file.cc:155-386 | Any sequence of `Write` calls is one write of what they accepted, chunk by chunk what the account of position, length, headers and clear sectors says. |
| FileRuns.SessionInFull | code/filesys/open_file.cc:155-386 | A session is accepted in full if and only if at its start there are sectors enough for all of it, and then it uses exactly those. |
| FileRuns.ReadChunks | code/filesys/open_file.cc:109-153 | Any sequence of `Read` calls returns the file from the start, in order, without gaps or repeats. |
| FileRuns.Run | code/filesys/file_system.cc:203-300 | Any sequence of creations, write sessions and removals: each operation succeeds exactly when it should, of each write exactly what the clear sectors allow is accepted, the files follow, the map keeps its marks and gets only those of the file written and a known number of stray ones (none unless space ran out) with the exact number of clear sectors left, and at the end no sector is used twice and all used ones are marked. |
| FileRuns.Step | code/filesys/file_system.cc:203-300 | One operation with its exact condition of success, exactly what a write accepted, the files and the map after it, and how many newly marked sectors the file did not get. |
| FileRuns.SoundIsApart | code/filesys/file_system.cc:249-282 | In every sound state the header and data sectors of all files are pairwise different and marked. |
| FileOwnership.SectorsAreDisjoint | code/filesys/file_system.cc:249-282 | Under the ownership invariant no sector is used twice, as header or data, within a file or between files, and all are marked in the free map. |
| FileSystems.FileSystem.Create | code/filesys/file_system.cc:203-300 | Succeeds exactly if the name is new, a sector is free and the directory has room; then there is one more file, empty, and one more marked sector. |
| FileSystems.FileSystem.Remove | code/filesys/file_system.cc:620-739 | The file is gone, all others are as before, and exactly the sectors of its chain are cleared in the map. |
| FileSystems.Deallocate | code/filesys/file_header.cc:65-74 | Every sector is found marked before it is cleared; exactly the listed sectors are cleared. |
| FileHeaders.Allocate | code/filesys/file_header.cc:39-60 | Succeeds exactly if enough sectors are clear; then takes that many, the lowest ones first, all different, and marks exactly those. |
| FileHeaders.ReadAt | code/filesys/open_file.cc:413-450 | The range asked for, clipped to the file: byte x of the header's part is byte x % 128 of data sector x / 128. |
| FileHeaders.WriteAt | code/filesys/open_file.cc:452-502 | Replaces exactly the range asked for, clipped to the file, byte x of the header's part being byte x % 128 of data sector x / 128; sectors of others stay. |
| FileHeaders.ReadAfterWrite | code/filesys/open_file.cc:413-502 | Reading the range written gives the bytes written; reading elsewhere gives what was there. |
| FileLayout.HeaderRoundTrip | code/filesys/file_header.cc:79-92 | A header written to its sector is fetched back unchanged. |
| FileLayout.HeaderBytes | code/filesys/raw_file_header.hh:25-32 | The sector of a header: 32 little-endian words, byte count, sector count, 29 data sectors, next header; in both directions. |
| FileOwnership.WriteIsSplice | code/filesys/open_file.cc:452-502 | Writing inside one header of a chain is a splice of the whole file, and keeps the ownership invariant. |
| FileOwnership.GrowSeen | code/filesys/open_file.cc:189-205 | Giving the last header more sectors extends its file by so many bytes and changes no byte of any file. |
| FileOwnership.LinkSeen | code/filesys/open_file.cc:296-316 | Linking an empty header behind a full last one changes the contents of no file. |
| FileOwnership.CreateSeen | code/filesys/file_system.cc:249-282 | A new header in a free sector is a new empty file and nothing else. |
| FileOwnership.RemoveSeen | code/filesys/file_system.cc:720-734 | Unmarking the sectors of one chain removes that file and nothing else. |
| Semaphores.NoLostWakeUp | code/threads/semaphore.cc:61-94 | In every schedule the value is initial plus completed V minus completed P, and while a thread is queued there are no more units than woken threads that have not rechecked. |
| Semaphores.SleepsAndWakeUps | code/threads/semaphore.cc:61-94 | In every schedule each sleep of a thread is ended by exactly one wake-up, unless it is still queued. |
| Semaphores.FirstAsleepFirstWoken | code/threads/semaphore.cc:61-94 | In every schedule, if t went to sleep before u and both still sleep, t is woken before u: wake-ups come in the order of sleeps, told from who is queued before and after each event. |
| Semaphores.OneIsWoken | code/threads/semaphore.cc:80-94 | A V that finds sleepers wakes exactly one of them. |
| Monitors.Run | code/threads/lock.cc:42-60 | Every schedule of any programs over a lock and its conditions keeps the lock and waiting invariants. |
| Monitors.MutualExclusion | code/threads/lock.cc:42-60 | In every schedule at most one thread is between `Acquire` and `Release`; `lockOwner` names a thread exactly while it owns the lock. |
| Monitors.LockIsFair | code/threads/lock.cc:42-60 | In every schedule of any programs, threads asleep on the lock are woken in the order in which they went to sleep. |
| Monitors.AssertionsHold | code/threads/condition.cc:48-69 | `Acquire` never finds its caller owning the lock; `Release`, `Wait` and `Signal` always do. |
| Monitors.SignalWakesOnce | code/threads/condition.cc:48-69 | Wherever a signal lands, also between `Release` and `P` inside `Wait`, its waiter passes exactly once, is not asleep after it, and nobody passes without one. |
| Monitors.SignalsInOrder | code/threads/condition.cc:48-77 | In every schedule, of two waiters on a condition the one that queued first is signalled first. |
| Monitors.EarlySignalIsKept | code/threads/condition.cc:48-69 | A signal given is not taken back or repeated by any later schedule. |
| Monitors.BroadcastWakesAll | code/threads/condition.cc:71-77 | Under every interleaving with other threads: after two turns for each waiter, and not before, nobody is queued, everyone who was queued has been raised once, nobody else has been, and nobody new has queued. |
| Monitors.OthersLeaveTickets | code/threads/condition.cc:48-77 | While a thread holds the lock no other thread pops or raises a ticket or takes a new one. |
| Monitors.OthersLeaveQueues | code/threads/condition.cc:48-77 | While a thread holds the lock no other thread changes the queues of waiters. |
| Channels.Run | code/threads/channel.cc:36-77 | Every schedule of any number of senders and receivers keeps the channel invariants; the same machine without the sender's wait is `SynchList`. |
| Channels.DeliveredInOrder | code/threads/channel.cc:36-77 | Received messages followed by the mailbox are the sent messages, in order. |
| Channels.SendWaitsForReceiver | code/threads/channel.cc:36-59 | `Send` returns only after the message it found at the head was taken: its own one if the mailbox was empty. |
| Channels.NeverEmptyHanded | code/threads/channel.cc:61-77 | `Head` and `Pop` never meet an empty mailbox. |
| Channels.NoReceiverStranded | code/threads/synch_list.hh:85-115 | While a receiver is asleep there are no more messages than woken receivers on their way, but for a sender about to signal. |
| Senders.WokenSenderWasServed | code/threads/channel.cc:36-59 | In every schedule, whoever is back from a wait in `Send` finds the message it had seen at the head taken. |
| Senders.WaitsAgainForEqual | code/threads/channel.cc:49-50 | A woken sender goes back to sleep, although it was served, if and only if the next message equals the one it saw. |
| Senders.NoSenderStranded | code/threads/channel.cc:36-77 | If all messages differ, there are never more sleeping senders than messages, unless a receiver is about to signal: with an empty mailbox nobody is left asleep in `Send`. |
| StrandedSender.StrandedExactly | code/threads/channel.cc:36-77 | For every sequence of messages: no schedule that sends it leaves a sender asleep with everything received, the lock free and nobody about to signal, if and only if the messages all differ. |
| StrandedSender.EqualMessagesStrand | code/threads/channel.cc:36-77 | For every sequence in which a message comes twice there is a schedule that leaves a sender asleep. |
| StrandedSender.SleepsUntilNextSend | code/threads/channel.cc:36-77 | Whoever sleeps in `Send` behind an empty mailbox sleeps on under every schedule until somebody sends again. |
| SynchDisks.Run | code/filesys/synch_disk.cc:54-87 | Every schedule of callers and completion interrupts keeps the request protocol. |
| SynchDisks.OneRequestAtATime | code/machine/disk.cc:108-161 | At most one request is outstanding, `active` says exactly whether one is, and no request meets an active disk. |
| SynchDisks.ReturnsAfterOwnRequest | code/filesys/synch_disk.cc:54-87 | A caller gets past `P` only when its own request has completed, and sleeps only while the disk is active. |
| Multiplication.Mult | code/machine/mips_sim.cc:91-155 | For all 32-bit operands, the least integer included, `hi` and `lo` hold exactly the 64-bit product, signed or unsigned. |
| Multiplication.MultiplyBits | code/machine/mips_sim.cc:117-139 | The shift-and-add loop multiplies the bit patterns, whether or not it breaks out early and although `a` is shifted arithmetically. |
| Multiplication.NegateDouble | code/machine/mips_sim.cc:141-150 | Two's complement of the double word. |
| Restarts.RestartIsTransparent | code/machine/mips_sim.cc:174-655 | For every instruction: however often it faults on fetch or data, with any pages present at each attempt, it ends in the outcome, registers (but BAD_VADDR) and memory of an attempt with all pages present, if it neither reads nor directly writes the register of the pending load. |
| RestartTable.RestartIsNeverSeen | code/machine/mips_sim.cc:53-60 | For every instruction and every register of a pending load: a restart is never seen, whatever registers and memory hold and however often it faults, if and only if the fields of the instruction meet the condition listed for its opcode. |
| RestartExact.NeverSeenIsTransparent | code/machine/mips_sim.cc:53-60 | That many faults are never seen is the same as that one execution before and one after settling the load agree. |
| RestartTable.ExactMemory | code/machine/mips_sim.cc:307-616 | Loads and stores: a restart is never seen exactly if the address register is another and the register stored is too, or the store is misaligned anyway. |
| RestartTable.ExactRegisters | code/machine/mips_sim.cc:187-640 | Arithmetic, branches and jumps: a restart is never seen exactly if the result does not depend on the register and the register is not the target, but for the instructions that leave the target as it is. |
| Mips.IssueAgrees | code/machine/mips_sim.cc:187-640 | Every opcode depends only on the registers listed for it. |
| Mips.IssueTarget | code/machine/mips_sim.cc:187-640 | Every opcode writes directly only the register listed for it, HI and LO. |
| Effects.BranchEffects | code/machine/mips_sim.cc:229-267 | Conditional branches: the new NEXT_PC is NEXT_PC plus four times the offset, modulo 2^32, exactly if the condition on the signed registers holds, else NEXT_PC + 4; no other register changes but by the pending load. |
| Effects.LinkEffects | code/machine/mips_sim.cc:235-261 | The branches that link: register 31 gets NEXT_PC + 4, also when the condition is about register 31. |
| Effects.JumpEffects | code/machine/mips_sim.cc:295-305 | Jumps: the upper four bits from NEXT_PC + 4 joined with four times the index, bit by bit, or the register; the link goes to register 31 or rd, and JALR through its own link register goes to the link. |
| Effects.OverflowEffects | code/machine/mips_sim.cc:190-545 | ADD, ADDI and SUB: the exact sum or difference if it fits 32 signed bits, else a trap that leaves everything else. |
| Effects.SumEffects | code/machine/mips_sim.cc:210-550 | ADDU, ADDIU, SUBU and LUI modulo 2^32. |
| Effects.CompareEffects | code/machine/mips_sim.cc:494-514 | SLT and its kin: the order of signed or of unsigned numbers. |
| Effects.MoveEffects | code/machine/mips_sim.cc:430-444 | Moves from and to HI and LO. |
| Effects.LogicEffects | code/machine/mips_sim.cc:219-629 | AND, OR, XOR and NOR bit by bit. |
| Effects.ImmediateEffects | code/machine/mips_sim.cc:224-634 | ANDI, ORI and XORI bit by bit, with the sixteen low bits of the operand. |
| Effects.ShiftLeftEffects | code/machine/mips_sim.cc:485-492 | SLL and SLLV: times a power of two, modulo 2^32. |
| Effects.ShiftRightEffects | code/machine/mips_sim.cc:516-535 | All right shifts divide the signed number by a power of two, rounding down. |
| Effects.ProductEffects | code/machine/mips_sim.cc:446-454 | MULT and MULTU: HI and LO hold the 64-bit product, the same as `Multiplication.Mult`. |
| Effects.QuotientEffects | code/machine/mips_sim.cc:269-279 | DIV: dividend = divisor * LO + HI, the rest smaller than the divisor and with the sign of the dividend; by 0 both are 0. |
| Effects.UnsignedQuotientEffects | code/machine/mips_sim.cc:281-293 | DIVU: the same for unsigned numbers. |
| Effects.ByteEffects | code/machine/mips_sim.cc:307-321 | LB and LBU: the byte with or without sign becomes the pending load; page fault outside memory. |
| Effects.HalfEffects | code/machine/mips_sim.cc:323-341 | LH and LHU: low byte first, sign-extended or not; an address error exactly on odd addresses. |
| Effects.WordEffects | code/machine/mips_sim.cc:348-428 | LW, LWL and LWR: the word, low byte first, or the old register with its last byte replaced by the word's first; an address error, or a stop of the simulator, exactly on addresses that are not multiples of 4. |
| Effects.StoreEffects | code/machine/mips_sim.cc:471-557 | SB, SH and SW: the bytes of the register, low byte first, and no others; an address error exactly on misaligned addresses. |
| Effects.MergeEffects | code/machine/mips_sim.cc:559-620 | SWL stores the word, SWR the low byte of the register as the last byte of the word. |
| Effects.ExceptionEffects | code/machine/mips_sim.cc:622-639 | System calls and illegal instructions: the trap, with the pending load done and all else as it was. |
| Effects.FetchEffects | code/machine/mips_sim.cc:62-85 | The instruction executed is the decoding of the four bytes at PC, low byte first; misaligned and absent PC. |
| Restarts.MorePages | code/machine/machine.cc:94-140 | An attempt that does not fault would have gone the same way with every page present. |
| Interrupts.Interrupt.OneTick | code/machine/interrupt.cc:146-173 | Terminates; fires exactly the interrupts that were due, once each, in order, each handler on the state the one before left; afterwards everything pending lies strictly in the future and is what was pending before plus what the handlers asked for. |
| Interrupts.Interrupt.CheckIfDue | code/machine/interrupt.cc:311-358 | When it fires and when not, the new clock and the new list, including the lone timer of an idle machine. |
| Interrupts.Interrupt.Idle | code/machine/interrupt.cc:196-222 | Halts exactly if the console runs or nothing but the timer is pending; otherwise jumps to the next interrupt and fires until nothing but the future or the lone timer is left; of all that was pending or got scheduled exactly the fired ones are gone. |
| Interrupts.Interrupt.Schedule | code/machine/interrupt.cc:274-301 | A sorted insertion strictly in the future. |
| Interrupts.ScheduledKeepsDue | code/machine/interrupt.cc:274-301 | Whatever handlers schedule, what is due does not change and nothing is lost. |
| DiskTiming.RotatingDisk.ComputeLatency | code/machine/disk.cc:222-246 | Outside the track buffer the transfer starts at the first instant after the seek, 500 for each track between, with the sector under the head; the buffer serves exactly reads of sectors that passed since it began to fill; the latency is below the seek plus 33 rotation times. |
| DiskTiming.RotatingDisk.TimeToSeek | code/machine/disk.cc:176-193 | 500 for each track between the sectors, in either direction, and the wait to the next sector boundary. |
| DiskTiming.SeekPerTrack | code/machine/disk.cc:176-193 | A seek takes no time within a track, and one seek time more for each track further out in either direction. |
| DiskTiming.SeekAdds | code/machine/disk.cc:176-193 | Seek time is symmetric, and additive over a track in between. |
| DiskTiming.RotatingDisk.ModuloDiff | code/machine/disk.cc:197-204 | The one number of sectors below 32 from here forward to the target. |
| DiskTiming.RotatingDisk.Request | code/machine/disk.cc:108-152 | Request after request, the track buffer never starts in the future and the bounds hold. |
| Lists.List.Append | code/lib/list.hh:132-145 | On heap nodes: one entry more at the end; the chain stays acyclic and `last` right. |
| Lists.List.Prepend | code/lib/list.hh:155-168 | One entry more in front. |
| Lists.List.Remove | code/lib/list.hh:195-216 | The first entry for the item is unlinked, all others stay in order. |
| Lists.List.Has | code/lib/list.hh:233-243 | Whether some entry holds the item. |
| Lists.List.SortedInsert | code/lib/list.hh:263-287 | The entry goes before the first greater key. |
| Lists.List.SortedPop | code/lib/list.hh:298-320 | The first entry is returned with its key and removed. |
| Lists.InsertionIsStable | code/lib/list.hh:263-287 | Insertion keeps a sorted list sorted, adds exactly the entry, and puts it behind the entries of equal key, whose order stays. |
| Tables.Table.Add | code/lib/table.hh:71-88 | Fails exactly when all 20 slots are live; otherwise uses the least index that was not live. |
| Tables.Table.Remove | code/lib/table.hh:115-136 | Exactly the key given is gone; the shrinking loop restores that freed indices are sorted, distinct and below `current` - 1. |
| Tables.Table.HasKey | code/lib/table.hh:99-106 | Tells exactly the live keys. |
| Tables.Table.Get | code/lib/table.hh:90-97 | The item of a live key, nothing otherwise. |
| Tables.Table.IsEmpty | code/lib/table.hh:108-113 | True exactly when no key is live. |
| Schedulers.Scheduler.ReadyToRun | code/threads/scheduler.cc:48-57 | Adds the thread to its queue, which stays in order of priority. |
| Schedulers.Scheduler.FindNextToRun | code/threads/scheduler.cc:64-102 | The thread taken is first in its queue, has the greatest key of all the first ones, and of equal ones is in the earliest queue; its queue loses just it, every other queue has its first thread filed again, and no thread is lost or duplicated. |
| Schedulers.RefiledIsLastOfEquals | code/threads/scheduler.cc:79-90 | A thread taken off and put back goes behind all threads of its priority; the others keep their order. |

## Left out

- Swapping among several address spaces: the methods stop, with `foreign` set and nothing damaged, when the policy turns to a frame of a space that is not running; `PagingInvariant.ReplacementNeedsOwnFrame` and `ForeignVictim.StolenFrameCorruptsOwner` say what the code would do there.
- Accesses outside the address space: what `LoadPage` does with a page number beyond the page table is not modelled; `Processors` stops there.
- The swap file is a host file, as in the virtual-memory build; swap over the chained file system is not modelled.
- Frames lost to one space when another exits, and `AddressSpace::~AddressSpace`.
- Kernels.Kernel.PickVictim: with random replacement only that the frame exists is stated, since the number drawn is arbitrary.
- Processors.Instruction: with random replacement and programs that do not fit into the frames the number of faults is not bounded, because any page can be the victim; the number of tries is a parameter.
- Transfer.WriteStringToUser: does not cover the empty string, for which the code reads past the terminator.
- Kernels.Kernel.ReadMem: aligned addresses beyond the page table are excluded, as said above.
- Kernels.Kernel.WriteMem: aligned addresses beyond the page table are excluded, as said above.
- Args.WriteArgs: does not cover empty strings, on which it calls `WriteStringToUser`.
- Args.CountArgsToSave: covers pointer arrays that end inside the address space.
- Args.SaveArgs: covers pointer arrays whose strings end in a NUL inside the address space.
- Bitmap words are numbers below 2^32 with arithmetic bit operations, and the free map of the file modules is its sequence of bits, to which `Bitmaps.Bitmap` is proved equal; kernel-side buffers are sequences.
- Directory tables, paths, the current directory and the files that hold directory and free map: the directory is a map from names to first headers, and whether it has room is a parameter of `FileSystem.Create`.
- `OpenFile::Seek`, reading and writing through one handle, several handles at once, and removal of open files: one handle is used either to write or to read, and operations are sequential.
- Sectors that stay marked after a failed write are counted for each write, but are not given back: the free map may hold more than the files own, never less.
- 32-bit overflow of file sizes and of positions.
- Threads are step machines on values rather than objects, since the properties range over interleavings; each pass through `Semaphore::P`, each `V` and each other statement is one step. In-place update of the queues is covered by `Lists.List`.
- Priority inheritance, `cantidadDormidos`, `Thread::Join`, thread creation, and fairness.
- Senders.NoSenderStranded: only for messages that all differ; with equal ones it is false, as `StrandedSender.StrandedExactly` says.
- A choice of the best thread over both ready queues: `FindNextToRun` takes the greatest key, and keys are `INT_MAX` minus the priority.
- The processor's registers are a sequence that each instruction maps to a new one, not an array updated in place; the decoder is a parameter; system calls and other exceptions end the attempt; of an interrupt between instructions only its effect on the registers is modelled, not what its handler does or a context switch after it.
- Shifts `SRL` and `SRLV` copy the sign, as the code does. `DIV` of the least integer by -1 wraps.
- Wrap-around of the clock, `RestartTicks`, the context switch after `OneTick`, and 32-bit sort keys: times are unbounded.
- Host input and output, console, network, the debugger, and user programs.

# Nachos, verified

A Dafny model of the Nachos 3.4 teaching operating system and of the locks, elevator, processes and paging added to it,
with proofs of what its parts promise. The model covers the file system on a sector disk, the thread kernel, the
elevator, address spaces and process calls, the simulated clock with its interrupts, the disk, the processor and the
post office. `dafny verify dfyconfig.toml` checks everything.

Two kinds of modules go together. One kind states behaviour on values: layouts of a disk image, kernel states, memory
seen through a page table, runs of steps. The main theorems about all inputs, all interleavings and all runs are proved
there. The other kind (`Files`, `Directories`, `FileSystemCalls`, `KernelCalls`, `AddrSpaces`, `ProcessCalls`, `Lists`,
`InterruptCalls`, `DiskTiming`, `MachineCalls`, `Multiplication`) has classes and loops shaped like the C++ code; every
method is proved against the functions and relations of the first kind, so the theorems hold of what the code does.

| module | what it covers |
|---|---|
| `Basics`, `Words` | shared notions; integers as bytes, single bits, runs of bytes |
| `BitMaps` | the bit map of 32-bit words |
| `Files`, `Directories`, `FileSystems`, `FileSystemCalls` | headers, unaligned reads and writes, directories, ownership of sectors, format, Create, Open, Remove |
| `Kernel`, `KernelRuns`, `KernelCalls` | semaphores, locks, Mesa conditions, scheduler and threads as atomic steps; what the calls of a run say about them |
| `Elevator`, `ElevatorService` | the manager and any number of people; which requests can be served |
| `Paging`, `Programs`, `Processes`, `AddrSpaces`, `ProcessCalls` | views through page tables, loading, fork, exec, exit, kill |
| `Lists`, `Interrupts`, `InterruptRuns`, `InterruptCalls` | linked lists, the clock and pending interrupts, whole runs of them |
| `SynchDisks`, `SynchLists` | protocols of the synchronous disk and the synchronized list |
| `DiskTiming` | seek, rotation, track buffer |
| `Multiplication`, `Machines`, `Instructions`, `InstructionLaws`, `Arithmetic`, `MachineCalls` | double-length multiply, translation, memory access, instructions, traps and interrupts; the arithmetic against the MIPS architecture |
| `PostOffices` | mail over a lossy network |

## Findings

Properties that do not hold of the code as written, each with the exact condition under which it does:

- `Lock::Release` takes a waiter off the queue before it looks at the owner. A call by another thread while somebody
  waits always strands a waiter (`Kernel.StrangerReleaseStrands`); a call by the holder, or with an empty queue, never
  does (`Kernel.ReleaseKeepsInv`).
- The chunk formula of `AddrSpace::ReadFile` is right for all contents exactly when the segment has at least one page of
  bytes, or lies in one page, or its two pages are in frames that follow each other (`Paging.LoadsRightWhen`). Otherwise
  it writes into the frame behind the first one (`Paging.UnfitLoad`), and if that belongs to another live process with
  another byte there, that process sees the change (`Processes.StrayReachesOther`). From the last frame it writes past
  the end of main memory (`Paging.LastFrameOverruns`). Isolation between processes holds exactly when no load leaves
  another byte in their frames (`Processes.OthersKeepView`).
- `AddrSpace::Replace` compares unsigned numbers and so refuses every program smaller than the running one
  (`Processes.ExecRefusesWhen`).
- A fork that finds no process identifier keeps its copied frames marked forever; marked frames equal owned frames
  exactly when that has not happened (`Processes.ExactWhen`).
- `List::RemoveElement` leaves the last pointer stale exactly when it removes the tail of a longer list
  (`Lists.List.RemoveElement`).
- `Elevator` accepts one floor, and then the elevator leaves it (`Elevator.OneFloorIsLeft`); with two or more floors it
  stays in range (`Elevator.RunKeepsInv`).
- A request can be served, when it is the only one, if and only if it does not go from the top floor to the top floor
  (`ElevatorService.ServedWhen`). On the floor of its person the manager always looks at the waiting table of the other
  direction exactly for such a request (`ElevatorService.OverlookedWhen`), and as long as all requests are of that kind
  nobody is ever woken (`Elevator.TopFloorStarves`).
- The registers of the simulated processor are unsigned, and OR names one register twice. So OR is right exactly when rt
  has no bit that rs lacks, SLT and SLTI exactly for operands of the same sign, SRA and SRL (which fill in each other's
  bits) and their variable forms exactly for words that are not negative or shifts by nothing
  (`Arithmetic.ComputesRightWhen`), BGTZ and BLEZ exactly for registers that are not negative
  (`Arithmetic.BranchesRightWhen`), and DIV exactly under the condition of `Arithmetic.DividesRightWhen`. Everything
  else, the overflow tests included, agrees with the architecture.
- The delay slot of a load is not kept across an interrupt: the next instruction sees the old register contents exactly
  when no interrupt fired in between (`Instructions.LoadDelaySlot`).

## Model

| member | source | states |
|---|---|---|
| `BitMaps.WriteBit` | nachos-3.4/code/userprog/bitmap.cc:46-66 | or-ing or masking one 32-bit word changes the bit of the item meant and no other item |
| `BitMaps.BitMap.constructor` | nachos-3.4/code/userprog/bitmap.cc:20-28 | all items clear, in a fresh array of words |
| `BitMaps.BitMap.Mark` | nachos-3.4/code/userprog/bitmap.cc:46-51 | exactly one item becomes taken |
| `BitMaps.BitMap.Clear` | nachos-3.4/code/userprog/bitmap.cc:60-65 | exactly one item becomes clear |
| `BitMaps.BitMap.Test` | nachos-3.4/code/userprog/bitmap.cc:74-83 | whether the item is taken |
| `BitMaps.BitMap.Find` | nachos-3.4/code/userprog/bitmap.cc:94-103 | takes the lowest clear item; -1 exactly when none is clear, and then nothing changes |
| `BitMaps.BitMap.NumClear` | nachos-3.4/code/userprog/bitmap.cc:111-119 | the size of the set of clear items |
| `BitMaps.TakeAnother` | nachos-3.4/code/filesys/filehdr.cc:50-51 | repeated Find is first-fit: distinct items, each the lowest clear one at its turn, and exactly they become taken |
| `Files.HeaderRoundTrip` | nachos-3.4/code/filesys/filehdr.cc:77-94 | a header written to its sector and read back is the same header |
| `Files.FlatFrame` | nachos-3.4/code/filesys/openfile.cc:116-144 | a file none of whose data sectors changed keeps its flat contents |
| `Files.FileHeader.Allocate` | nachos-3.4/code/filesys/filehdr.cc:41-52 | succeeds exactly when enough sectors are clear; then the data sectors are in range, distinct, taken first-fit and the fewest 128-byte sectors that hold the file; on failure the map is unchanged |
| `Files.FileHeader.Deallocate` | nachos-3.4/code/filesys/filehdr.cc:61-68 | clears exactly the data sectors; its assertion that each is marked holds |
| `Files.FileHeader.FetchFrom` | nachos-3.4/code/filesys/filehdr.cc:77-81 | the header decoded from the sector |
| `Files.FileHeader.WriteBack` | nachos-3.4/code/filesys/filehdr.cc:90-94 | only that sector changes, and it decodes to the header |
| `Files.ByteToSector` | nachos-3.4/code/filesys/filehdr.cc:106-110 | the sector that holds a byte of the file is one of its data sectors |
| `Files.Clipped` | nachos-3.4/code/filesys/openfile.cc:123-126 | a request moves the most bytes that were asked for and lie inside the file: never more than either, and if fewer than asked for then up to the end |
| `Files.OpenFile.ReadAt` | nachos-3.4/code/filesys/openfile.cc:116-144 | for every position and length: returns the most that fits (Files.Clipped) and exactly that slice of the flat contents, other buffer bytes untouched |
| `Files.OpenFile.FetchSectors` | nachos-3.4/code/filesys/openfile.cc:133-141 | the concatenated contents of the sectors that overlap the request |
| `Files.OpenFile.WriteAt` | nachos-3.4/code/filesys/openfile.cc:146-186 | the flat contents become the old ones with exactly the most that fits (Files.Clipped) replaced; no sector outside the file changes |
| `Files.OpenFile.MergeSectors` | nachos-3.4/code/filesys/openfile.cc:158-178 | the write buffer holds the old bytes at both ragged ends and the new bytes between them |
| `Files.OpenFile.FlushSectors` | nachos-3.4/code/filesys/openfile.cc:180-185 | each piece of the buffer lands in its own data sector and nowhere else |
| `Files.FlushedContents` | nachos-3.4/code/filesys/openfile.cc:180-185 | flushing the buffer makes the flat contents what was wanted, for all scattered sector placements |
| `Files.OpenFile.Seek` | nachos-3.4/code/filesys/openfile.cc:55-59 | sets the position and nothing else |
| `Files.OpenFile.Read` | nachos-3.4/code/filesys/openfile.cc:74-80 | the slice of the most bytes that fit at the seek position, which advances by what was read |
| `Files.OpenFile.Write` | nachos-3.4/code/filesys/openfile.cc:82-88 | writes the most bytes that fit at the seek position, which advances by what was written |
| `Directories.StrnEqualIsKeyEqual` | nachos-3.4/code/filesys/directory.cc:94 | comparing names with strncmp is equality of their first nine characters up to the terminator |
| `Directories.StrnCopyKeepsKey` | nachos-3.4/code/filesys/directory.cc:138 | the stored copy of a name has the same nine-character key |
| `Directories.TableRoundTrip` | nachos-3.4/code/filesys/directory.cc:63-80 | the directory written to its file and read back is the same table |
| `Directories.Directory.FindIndex` | nachos-3.4/code/filesys/directory.cc:90-98 | the first in-use entry with that key; -1 exactly when there is none |
| `Directories.Directory.Find` | nachos-3.4/code/filesys/directory.cc:108-116 | -1 when the name is absent, otherwise the header sector of the first entry with that name |
| `Directories.Directory.Add` | nachos-3.4/code/filesys/directory.cc:129-145 | fails exactly when the name is present or no slot is free; otherwise fills the first free slot and changes no other entry |
| `Directories.Directory.Remove` | nachos-3.4/code/filesys/directory.cc:153-162 | fails exactly when the name is absent; otherwise frees the first entry with that name and no other |
| `FileSystems.CreateKeepsSound` | nachos-3.4/code/filesys/filesys.cc:174-215 | Create keeps the ownership invariant: sectors owned at most once, free map marks exactly the owned ones, names unique on nine characters |
| `FileSystems.CreatesWhen` | nachos-3.4/code/filesys/filesys.cc:174-215 | Create can succeed if and only if no file in use has the same nine characters, one of ten entries is unused, and the sectors that nobody owns hold a header and the bytes asked for |
| `FileSystems.CreatedFile` | nachos-3.4/code/filesys/filesys.cc:191-208 | after it the name stands for a file of exactly that many bytes |
| `FileSystems.RemoveKeepsSound` | nachos-3.4/code/filesys/filesys.cc:257-288 | Remove keeps the ownership invariant |
| `FileSystems.WriteKeepsLayout` | nachos-3.4/code/filesys/openfile.cc:146-186 | WriteAt through a handle to an existing file changes no header, directory entry or free-map bit |
| `FileSystems.CreateKeepsOthers` | nachos-3.4/code/filesys/filesys.cc:174-215 | Create leaves every other file alone, byte for byte |
| `FileSystems.RemoveKeepsOthers` | nachos-3.4/code/filesys/filesys.cc:257-288 | Remove leaves every other file alone, byte for byte |
| `FileSystems.WriteKeepsOthers` | nachos-3.4/code/filesys/openfile.cc:146-186 | a write changes no byte of any other file and puts exactly the patch into its own |
| `FileSystems.CreateThenRemove` | nachos-3.4/code/filesys/filesys.cc:174-288 | Create then Remove of the name restores the free map, the name-to-sector map and every other file |
| `FileSystems.FormattedIsSound` | nachos-3.4/code/filesys/filesys.cc:83-136 | a formatted disk satisfies the ownership invariant |
| `FileSystems.StepKeepsSound` | nachos-3.4/code/filesys/filesys.cc:174-288 | every call, successful or not, keeps the ownership invariant |
| `FileSystems.RunKeepsSound` | nachos-3.4/code/filesys/filesys.cc:80-288 | after format and any sequence of Create, Remove and WriteAt the on-disk free map marks exactly the owned sectors, each owned once |
| `FileSystemCalls.FileSystem.FetchFreeMap` | nachos-3.4/code/userprog/bitmap.cc:148-152 | the bit map recorded in the free map file |
| `FileSystemCalls.FileSystem.StoreFreeMap` | nachos-3.4/code/userprog/bitmap.cc:161-165 | the free map file then records the bit map; only its data sectors change |
| `FileSystemCalls.FileSystem.FetchDirectory` | nachos-3.4/code/filesys/directory.cc:63-67 | the table recorded in the directory file |
| `FileSystemCalls.FileSystem.StoreDirectory` | nachos-3.4/code/filesys/directory.cc:76-80 | the directory file then records the table; only its data sectors change |
| `FileSystemCalls.FileSystem.Create` | nachos-3.4/code/filesys/filesys.cc:174-215 | succeeds exactly when the name is absent, a slot is free and 1 + ceil(size/128) sectors are clear; a failed call leaves the disk unchanged; the invariant is kept |
| `FileSystemCalls.FileSystem.Reserve` | nachos-3.4/code/filesys/filesys.cc:191-202 | header sector, slot and data sectors are reserved together or the call fails, with the exact condition |
| `FileSystemCalls.FileSystem.Open` | nachos-3.4/code/filesys/filesys.cc:227-241 | null exactly when the name is absent; otherwise a handle on the header of that entry |
| `FileSystemCalls.FileSystem.Remove` | nachos-3.4/code/filesys/filesys.cc:257-288 | succeeds exactly when the name is present; gives back exactly the sectors of that file; a failed call leaves the disk unchanged |
| `FileSystemCalls.FileSystem.FreeSectors` | nachos-3.4/code/filesys/filesys.cc:272-279 | the free map without the sectors of the file; the assertion in Deallocate holds |
| `FileSystemCalls.FileSystem.Format` | nachos-3.4/code/filesys/filesys.cc:83-136 | from any disk contents: both asserted allocations succeed and the disk is a formatted one |
| `FileSystemCalls.FileSystem.PlanFormat` | nachos-3.4/code/filesys/filesys.cc:93-100 | marks exactly sectors 0 to 4 and plans the two system files there |
| `FileSystemCalls.FileSystem.Mount` | nachos-3.4/code/filesys/filesys.cc:137-142 | opening the two system files of a sound disk |
| `FileSystemCalls.WriteAtIsStep` | nachos-3.4/code/filesys/openfile.cc:146-186 | what WriteAt ensures is a write step of the file system, so it keeps the invariant |
| `Kernel.PKeepsInv` | nachos-3.4/code/threads/synch.cc:64-77 | one pass of P keeps placement and counting invariants, whether it sleeps or completes |
| `Kernel.VKeepsInv` | nachos-3.4/code/threads/synch.cc:87-98 | V keeps placement and counting, by a thread or by an interrupt handler; that it counts is KernelRuns.SemaphoreCounts |
| `Kernel.AcquireKeepsInv` | nachos-3.4/code/threads/synch.cc:112-123 | one pass of Acquire keeps them |
| `Kernel.ReleaseKeepsInv` | nachos-3.4/code/threads/synch.cc:124-136 | Release by the holder, or with nobody queued, keeps them; that it frees the lock is KernelRuns.LockFollowsCalls |
| `Kernel.StrangerReleaseStrands` | nachos-3.4/code/threads/synch.cc:128-134 | Release by anybody else while threads wait always strands one of them: with ReleaseKeepsInv, the exact condition |
| `Kernel.WaitKeepsInv` | nachos-3.4/code/threads/synch.cc:145-156 | Wait's release-and-enqueue is one step and keeps them |
| `Kernel.SignalKeepsInv` | nachos-3.4/code/threads/synch.cc:157-167 | Signal keeps them |
| `Kernel.BroadcastKeepsInv` | nachos-3.4/code/threads/synch.cc:168-180 | Broadcast keeps them, for any number of waiters |
| `Kernel.YieldKeepsInv` | nachos-3.4/code/threads/thread.cc:174-190 | Yield keeps them |
| `Kernel.ForkKeepsInv` | nachos-3.4/code/threads/thread.cc:87-99 | Fork keeps them |
| `Kernel.FinishKeepsInv` | nachos-3.4/code/threads/thread.cc:143-154 | Finish keeps them |
| `Kernel.RunKeepsInv` | nachos-3.4/code/threads/synch.cc:64-180 | placement and counting invariants hold in every state of every interleaving |
| `Kernel.NoLostWakeup` | nachos-3.4/code/threads/synch.cc:64-98 | the value is never negative; with sleepers it is at most the number of woken threads that have not retested |
| `Kernel.FreeLockHasContender` | nachos-3.4/code/threads/synch.cc:112-136 | a free lock with sleepers has a woken thread that will test it again |
| `Kernel.MutualExclusion` | nachos-3.4/code/threads/synch.cc:112-180 | at most one thread is between Acquire and Release in every interleaving |
| `Kernel.OnePlace` | nachos-3.4/code/threads/thread.cc:87-226 | every unfinished thread is running, once on the ready list, or once on one wait queue, as its status says, and nowhere else |
| `Kernel.DispatchIsFifo` | nachos-3.4/code/threads/scheduler.cc:53-135 | threads are dispatched in the order in which they became ready |
| `Kernel.NoSignalMissed` | nachos-3.4/code/threads/synch.cc:145-180 | a waiter leaves its condition only by a Signal at its turn or a Broadcast, nobody overtakes it, and it goes on to reacquire the lock it waited with |
| `Kernel.BroadcastQueues` | nachos-3.4/code/threads/synch.cc:168-180 | Broadcast empties the queue of its condition and no other |
| `Kernel.BroadcastWakes` | nachos-3.4/code/threads/synch.cc:168-180 | every waiter is made ready by a Broadcast and goes on to reacquire its lock |
| `KernelRuns.SemaphoreCounts` | nachos-3.4/code/threads/synch.cc:64-98 | in every state of every run the value is the initial value plus the calls of V, counted among the actions, minus the passes of P that found it non-zero |
| `KernelRuns.PReturnsWhen` | nachos-3.4/code/threads/synch.cc:64-77 | a pass of P returns if and only if that count is positive; otherwise its caller sleeps, last on the queue, and another thread or none runs |
| `KernelRuns.LockFollowsCalls` | nachos-3.4/code/threads/synch.cc:112-156 | in every state of every run a lock is free if and only if nobody owns it by the calls made (first to pass Acquire, until that thread calls Release or Wait); exactly the owner is inside, so a busy lock has somebody inside |
| `KernelRuns.AcquireReturnsWhen` | nachos-3.4/code/threads/synch.cc:112-123 | a pass of Acquire returns if and only if nobody owns the lock; otherwise its caller sleeps, last on the queue |
| `KernelRuns.ThreadsFollowCalls` | nachos-3.4/code/threads/thread.cc:87-154 | the threads are the initial one and those forked and not finished: none is lost or made up |
| `KernelRuns.ReadyIsFifo` | nachos-3.4/code/threads/scheduler.cc:53-135 | in every step of every run V, Release and Signal make the first waiter ready, Broadcast all in order, Fork the child; they stand behind all who are ready, and a thread that gets the processor is the first of all |
| `KernelRuns.BroadcastReadies` | nachos-3.4/code/threads/synch.cc:168-180 | Broadcast puts the waiters on the ready list in the order in which they waited |
| `KernelRuns.YieldsRotate` | nachos-3.4/code/threads/thread.cc:174-190 | threads that yield take turns: m yields in a row rotate the line of running and ready threads by m places |
| `KernelRuns.IdlesOnlyWhenNoneReady` | nachos-3.4/code/threads/thread.cc:211-226 | the processor goes idle only when no thread is ready |
| `KernelRuns.IdleOnlyWhenBlocked` | nachos-3.4/code/threads/synch.cc:64-136 | with the processor idle and nobody ready, threads sleep on a semaphore only at value zero and on a lock only while a thread owns it |
| `KernelCalls.NachosKernel.ReadyToRunThread` | nachos-3.4/code/threads/scheduler.cc:53-60 | status READY and last on the ready list |
| `KernelCalls.NachosKernel.FindNextToRun` | nachos-3.4/code/threads/scheduler.cc:70-74 | takes the first ready thread, or answers that there is none |
| `KernelCalls.NachosKernel.SwitchTo` | nachos-3.4/code/threads/scheduler.cc:105-106 | the processor goes to that thread, with status RUNNING |
| `KernelCalls.NachosKernel.Sleep` | nachos-3.4/code/threads/thread.cc:211-226 | the caller blocks and the next ready thread is dispatched, or the machine idles |
| `KernelCalls.NachosKernel.Yield` | nachos-3.4/code/threads/thread.cc:174-190 | is the yield step, which rotates the line of threads (KernelRuns.YieldsRotate) |
| `KernelCalls.NachosKernel.Fork` | nachos-3.4/code/threads/thread.cc:87-99 | is the fork step |
| `KernelCalls.NachosKernel.Finish` | nachos-3.4/code/threads/thread.cc:143-154 | is the finish step |
| `KernelCalls.NachosKernel.P` | nachos-3.4/code/threads/synch.cc:64-77 | is the P step, up to its return or its next sleep |
| `KernelCalls.NachosKernel.V` | nachos-3.4/code/threads/synch.cc:87-98 | is the V step: wakes the first waiter and raises the value in any case (KernelRuns.SemaphoreCounts, ReadyIsFifo) |
| `KernelCalls.NachosKernel.Acquire` | nachos-3.4/code/threads/synch.cc:112-123 | is the acquire step, up to its return or its next sleep |
| `KernelCalls.NachosKernel.Release` | nachos-3.4/code/threads/synch.cc:124-136 | is the release step, for any caller; by the owner it always frees the lock (KernelRuns.LockFollowsCalls) |
| `KernelCalls.NachosKernel.Wait` | nachos-3.4/code/threads/synch.cc:145-156 | is the wait step, up to the sleep |
| `KernelCalls.NachosKernel.Signal` | nachos-3.4/code/threads/synch.cc:157-167 | is the signal step |
| `KernelCalls.NachosKernel.Broadcast` | nachos-3.4/code/threads/synch.cc:168-180 | the loop is the broadcast step |
| `Elevator.EntriesFollow` | nachos-3.4/code/threads/elevator.cc:138-190 | each table entry changes by exactly what the person's step changes in the people it stands for |
| `Elevator.PersonKeepsInv` | nachos-3.4/code/threads/elevator.cc:130-202 | every step of a person keeps the invariant |
| `Elevator.ManagerKeepsInv` | nachos-3.4/code/threads/elevator.cc:55-128 | every step of the manager keeps the invariant: the tables it looks at show every rider who must get out; what it decides is DoorsOpenWhen, DoorsStayOpenWhen and StopsExactlyWhen |
| `Elevator.ArriveKeepsInv` | nachos-3.4/code/threads/elevator.cc:204-215 | a new request keeps the invariant |
| `Elevator.InitialInv` | nachos-3.4/code/threads/elevator.cc:217-240 | the initialised elevator with two or more floors satisfies the invariant |
| `Elevator.RunKeepsInv` | nachos-3.4/code/threads/elevator.cc:55-202 | the invariant holds in every state of every run with any number of people |
| `Elevator.FreeLockState` | nachos-3.4/code/threads/elevator.cc:55-202 | whenever the lock is free: floor in range, 0 to 5 riders, rider count equals the sum of both destination tables, every table entry counts exactly its people |
| `Elevator.LeavesWithRidersAhead` | nachos-3.4/code/threads/elevator.cc:82-90 | when the elevator leaves a floor every rider goes its way and has a destination strictly ahead |
| `Elevator.NobodyCarriedPast` | nachos-3.4/code/threads/elevator.cc:55-202 | in no state of any run is a rider beyond the wanted floor |
| `Elevator.GetsOutAtDestination` | nachos-3.4/code/threads/elevator.cc:155-201 | whoever gets out stands on the wanted floor |
| `Elevator.StopsWhenAllServed` | nachos-3.4/code/threads/elevator.cc:122-127 | the manager stops only when every request has been fulfilled |
| `Elevator.StopsExactlyWhen` | nachos-3.4/code/threads/elevator.cc:122-127 | at its test the manager stops if and only if everybody who asked has been brought to their floor, and goes on otherwise |
| `Elevator.DoorsOpenWhen` | nachos-3.4/code/threads/elevator.cc:55-73 | after its first look at a floor the manager opens the doors if and only if somebody waits for its direction and fewer than 5 ride, or somebody rides to this floor; otherwise it leaves |
| `Elevator.DoorsStayOpenWhen` | nachos-3.4/code/threads/elevator.cc:73-81 | the same of every further look, and everybody asleep is woken by it |
| `Elevator.FullElevatorLeaves` | nachos-3.4/code/threads/elevator.cc:63-82 | an elevator with 5 riders none of whom gets out leaves the floor, however many wait |
| `Elevator.BoardsWhen` | nachos-3.4/code/threads/elevator.cc:155-201 | a person who looks boards if and only if the elevator is at the person's floor, goes the person's way and has fewer than 5 riders; a rider gets out if and only if it is at the wanted floor |
| `Elevator.NeverStuck` | nachos-3.4/code/threads/elevator.cc:55-202 | no run gets stuck: the manager or somebody can go on until the manager has stopped and everybody is gone |
| `Elevator.OneFloorIsLeft` | nachos-3.4/code/threads/elevator.cc:101-105 | with one floor, which the code accepts, the elevator drives to floor 2: two floors are needed |
| `Elevator.TopFloorStarves` | nachos-3.4/code/threads/elevator.cc:107-112 | in every run in which all requests go from the top floor to the top floor, nobody is ever woken and, once there is one, the manager does not stop |
| `ElevatorService.OverlookedWhen` | nachos-3.4/code/threads/elevator.cc:100-122 | on the person's floor the manager always looks at the waiting table of the other direction, if and only if the request goes from the top floor to the top floor |
| `ElevatorService.StopsWhen` | nachos-3.4/code/threads/elevator.cc:55-128 | the manager opens the doors for somebody who waits or rides at exactly one place of its round trip |
| `ElevatorService.Approaches` | nachos-3.4/code/threads/elevator.cc:55-128 | from any state with one such person the elevator can come to that place |
| `ElevatorService.Serves` | nachos-3.4/code/threads/elevator.cc:55-202 | from there the person can board, be brought to the wanted floor and finish |
| `ElevatorService.ServedWhen` | nachos-3.4/code/threads/elevator.cc:55-215 | there is a run that serves the only request if and only if it does not go from the top floor to the top floor |
| `Paging.PatchOnePage` | nachos-3.4/code/userprog/addrspace.cc:316-321 | a chunk inside one page, copied to the translation of its first address, appears in the view there and nowhere else |
| `Paging.ChunksFitWhen` | nachos-3.4/code/userprog/addrspace.cc:315-325 | every chunk of the loop stays in its page if and only if the segment has at least a page of bytes or crosses no page boundary |
| `Paging.LoadedView` | nachos-3.4/code/userprog/addrspace.cc:304-328 | a segment whose chunks fit is seen through the page table exactly where it belongs, for all frames, and no other frame changes |
| `Paging.UnfitLoad` | nachos-3.4/code/userprog/addrspace.cc:316-321 | a segment that crosses between frames that do not follow each other leaves the byte of the next page as it was and writes it into the frame behind the first |
| `Paging.LoadsRightWhen` | nachos-3.4/code/userprog/addrspace.cc:304-328 | for every page table: the loop is right for all contents if and only if the segment has a page of bytes, or lies in one page, or its two pages are in frames that follow each other |
| `Paging.LoadableWhen` | nachos-3.4/code/userprog/addrspace.cc:315-325 | the condition under which loading is modelled is exactly that no chunk is copied outside main memory |
| `Paging.LastFrameOverruns` | nachos-3.4/code/userprog/addrspace.cc:316-321 | a segment that crosses from a page in the last frame is written past the end of main memory |
| `Paging.LoadedOutside` | nachos-3.4/code/userprog/addrspace.cc:315-325 | outside the frames of the space, loading changes exactly the bytes onto which a crossing segment strays |
| `Programs.NumPages` | nachos-3.4/code/userprog/addrspace.cc:74-76 | the fewest 128-byte pages that hold code, data, uninitialised data and a stack of 1024 bytes |
| `Programs.ProgramFilled` | nachos-3.4/code/userprog/addrspace.cc:62-89 | a program whose segments load well is seen as its flat image (data bytes, code bytes, zero elsewhere), for all such frames, and no other frame changes |
| `Programs.ProgramOutside` | nachos-3.4/code/userprog/addrspace.cc:81-87 | outside its frames, loading a program changes exactly the bytes onto which its segments stray |
| `Paging.ApartKeepsView` | nachos-3.4/code/userprog/addrspace.cc:271-297 | a space that shares no frame with what changes sees no change |
| `Processes.ExecRefusesWhen` | nachos-3.4/code/userprog/addrspace.cc:392-397 | the unsigned comparison refuses exactly the programs that are smaller than the running one or larger than it by more than the free frames |
| `Processes.HappensKeepsSound` | nachos-3.4/code/userprog/exception.cc:81-291 | start, fork, exec, exit, kill and stores keep live page tables in range, marked and pairwise disjoint, also when a load strays |
| `Processes.OthersKeepView` | nachos-3.4/code/userprog/exception.cc:81-291 | no event changes the page table of another live process, nor a byte it sees, if and only if loading leaves every byte of its frames onto which it strays as it was |
| `Processes.WellLoadedIsolates` | nachos-3.4/code/userprog/addrspace.cc:62-89 | a program whose segments load well spares every other process and its own process sees the flat image |
| `Processes.StrayReachesOther` | nachos-3.4/code/userprog/addrspace.cc:316-321 | a crossing segment whose next frame belongs to another live process, with another byte there, changes what that process sees |
| `Processes.StoreOwnView` | nachos-3.4/code/machine/translate.cc:137-169 | an aligned store changes exactly those bytes of the view of its own process |
| `Processes.ChildSeesParent` | nachos-3.4/code/userprog/addrspace.cc:428-452 | after fork child and parent both see, byte for byte, what the parent saw |
| `Processes.RunKeepsSound` | nachos-3.4/code/userprog/exception.cc:81-291 | page tables of live processes use in-range, marked, pairwise disjoint frames in every reachable state |
| `Processes.RunKeepsView` | nachos-3.4/code/userprog/exception.cc:81-291 | over any part of a run in which it does nothing itself and every load spares it, a process keeps every byte it sees |
| `Processes.ExactWhen` | nachos-3.4/code/userprog/exception.cc:88-106 | every marked frame has a live owner if and only if no fork so far ran out of process identifiers after copying |
| `AddrSpaces.MemoryManager.GetPage` | nachos-3.4/code/userprog/memorymanager.cc:30-35 | takes the lowest clear frame; -1 exactly when there is none |
| `AddrSpaces.MemoryManager.ClearPage` | nachos-3.4/code/userprog/memorymanager.cc:43-47 | clears exactly that frame |
| `AddrSpaces.MemoryManager.GetFree` | nachos-3.4/code/userprog/memorymanager.cc:54-59 | the number of clear frames |
| `AddrSpaces.AddrSpace.InitializePageTable` | nachos-3.4/code/userprog/addrspace.cc:237-249 | first-fit frames, all zero, no other frame touched; GetPage never answers -1 |
| `AddrSpaces.AddrSpace.ReleasePhysicalMemory` | nachos-3.4/code/userprog/addrspace.cc:256-263 | clears exactly the frames of the space |
| `AddrSpaces.AddrSpace.Translate` | nachos-3.4/code/userprog/addrspace.cc:271-297 | -1 exactly for addresses outside the valid pages; otherwise the physical address, and only the use bit changes |
| `AddrSpaces.AddrSpace.ReadFile` | nachos-3.4/code/userprog/addrspace.cc:304-328 | the loop turns memory into Paging.Loaded, for all segments including those whose chunks do not fit |
| `AddrSpaces.AddrSpace.Load` | nachos-3.4/code/userprog/addrspace.cc:62-89 | first-fit frames, and memory becomes Programs.ProgramLoaded, for every program whose loading stays inside main memory |
| `AddrSpaces.AddrSpace.Replace` | nachos-3.4/code/userprog/addrspace.cc:381-420 | refuses exactly by the unsigned comparison and then changes nothing; otherwise gives its frames back, takes first-fit ones and memory becomes Programs.ProgramLoaded |
| `AddrSpaces.AddrSpace.Copy` | nachos-3.4/code/userprog/addrspace.cc:428-452 | null exactly when frames are short, and then nothing changes; otherwise a space with the same view in frames of its own, page flags copied |
| `AddrSpaces.ReleasedCount` | nachos-3.4/code/userprog/addrspace.cc:256-263 | giving back n frames makes n more clear |
| `ProcessCalls.ProcessTable.Start` | nachos-3.4/code/userprog/progtest.cc:23-55 | is the start event, or the event that no identifier is left |
| `ProcessCalls.ProcessTable.Fork` | nachos-3.4/code/userprog/exception.cc:81-138 | refused exactly when frames are short; abandoned exactly when then no identifier is left; otherwise the fork event |
| `ProcessCalls.ProcessTable.Exec` | nachos-3.4/code/userprog/exception.cc:272-291 | is the exec event exactly when the file exists and is not refused; otherwise nothing changes |
| `ProcessCalls.ProcessTable.Exit` | nachos-3.4/code/userprog/exception.cc:153-184 | identifier and frames are given back and nothing else changes |
| `ProcessCalls.ProcessTable.Kill` | nachos-3.4/code/userprog/exception.cc:218-270 | for a live target exactly what its exit would do; otherwise -1 and nothing changes |
| `ProcessCalls.ProcessTable.IsLive` | nachos-3.4/code/userprog/processmanager.cc:93-98 | getProcess finds exactly the live processes |
| `Lists.InsertKeepsSorted` | nachos-3.4/code/threads/list.cc:228-252 | sorted insertion keeps the list sorted |
| `Lists.InsertKeepsCells` | nachos-3.4/code/threads/list.cc:228-252 | sorted insertion adds the item and loses none, on any list |
| `Lists.InsertedAt` | nachos-3.4/code/threads/list.cc:241-250 | the item goes before the first greater key, behind all equal keys before it |
| `Lists.List.Append` | nachos-3.4/code/threads/list.cc:76-88 | the contents with the item at the end |
| `Lists.List.Prepend` | nachos-3.4/code/threads/list.cc:102-114 | the contents with the item at the front |
| `Lists.List.Remove` | nachos-3.4/code/threads/list.cc:124-128 | takes the first item; none exactly when the list is empty |
| `Lists.List.RemoveElement` | nachos-3.4/code/threads/list.cc:130-159 | removes the first cell with the item; the last pointer is right afterwards if and only if that cell was not the tail of a longer list |
| `Lists.List.Search` | nachos-3.4/code/threads/list.cc:161-177 | whether the item is on the list |
| `Lists.List.IsEmpty` | nachos-3.4/code/threads/list.cc:204-211 | whether the list has no items |
| `Lists.List.SortedInsert` | nachos-3.4/code/threads/list.cc:228-252 | pointer surgery equals insertion on the sequence, first and last stay right |
| `Lists.List.SortedRemove` | nachos-3.4/code/threads/list.cc:267-287 | takes the first cell with its key; first and last stay right |
| `Interrupts.FireLowersDue` | nachos-3.4/code/machine/interrupt.cc:290-336 | a firing removes exactly the first due interrupt from the due ones: handlers only add later ones, so the loop terminates |
| `Interrupts.DrainFiresDue` | nachos-3.4/code/machine/interrupt.cc:169-170 | outside idle mode the loop fires exactly what was due, in order, once each, and leaves nothing due |
| `Interrupts.IdleLeavesTimer` | nachos-3.4/code/machine/interrupt.cc:314-319 | in idle mode at most a lone due time slice is left behind |
| `Interrupts.NextKeepsSound` | nachos-3.4/code/machine/interrupt.cc:114-336 | every operation keeps the order of firings and the balance of the clock |
| `Interrupts.RunKeepsSound` | nachos-3.4/code/machine/interrupt.cc:114-336 | over whole runs: fired due times never decrease, none fires early, total ticks are idle plus system plus user |
| `Interrupts.TickFiresDue` | nachos-3.4/code/machine/interrupt.cc:150-179 | after every tick of a run nothing due is left, and exactly the due interrupts have fired; how far the clock moved is InterruptRuns.TickCharges |
| `InterruptRuns.TickCharges` | nachos-3.4/code/machine/interrupt.cc:156-162 | every tick of a run adds 10 to total and system time in system mode, and otherwise 1 to total and user time, and changes no other counter; the mode stays, and no request for a context switch is left over |
| `InterruptRuns.ClockCountsTicks` | nachos-3.4/code/machine/interrupt.cc:150-179 | in every state of every run system time is 10 times the ticks taken in system mode and user time is the number of the others |
| `InterruptRuns.IdleWaits` | nachos-3.4/code/machine/interrupt.cc:210-234 | an idle machine waits until the first interrupt is due and fires it first; the wait is charged to idle time only |
| `InterruptRuns.HaltsWhen` | nachos-3.4/code/machine/interrupt.cc:210-234 | the machine halts if and only if nothing is pending, or nothing but one time slice |
| `InterruptRuns.NoInterruptLost` | nachos-3.4/code/machine/interrupt.cc:264-336 | in every state of every run what is pending and what has fired are together, as multisets, exactly what calls and handlers scheduled, each for the time asked for |
| `InterruptRuns.SwitchesWhen` | nachos-3.4/code/machine/interrupt.cc:169-178 | after the firing loop a context switch is due if and only if it was before or a handler that ran asked for one |
| `InterruptCalls.Interrupt.Schedule` | nachos-3.4/code/machine/interrupt.cc:264-275 | inserted in time order |
| `InterruptCalls.Interrupt.CheckIfDue` | nachos-3.4/code/machine/interrupt.cc:290-336 | computes Interrupts.CheckIfDue on clock, list and flags |
| `InterruptCalls.Interrupt.FireAll` | nachos-3.4/code/machine/interrupt.cc:169-170 | the loop terminates and computes Interrupts.Drain |
| `InterruptCalls.Interrupt.OneTick` | nachos-3.4/code/machine/interrupt.cc:150-179 | advances the clock by mode (10 in system mode, otherwise 1: InterruptRuns.TickCharges), drains, and reports a requested context switch once |
| `InterruptCalls.Interrupt.SetLevel` | nachos-3.4/code/machine/interrupt.cc:114-127 | a tick exactly when interrupts go from off to on, and only then a requested context switch |
| `InterruptCalls.Interrupt.Idle` | nachos-3.4/code/machine/interrupt.cc:210-234 | moves time to the next interrupt and drains, or reports that the machine halts |
| `SynchDisks.NextKeepsInv` | nachos-3.4/code/filesys/synchdisk.cc:72-109 | every step of every caller and the interrupt keeps the protocol invariant |
| `SynchDisks.OneRequestAtATime` | nachos-3.4/code/machine/disk.cc:115-166 | the disk's one-request assertion never fails; disk-active plus semaphore is 1 exactly while a lock holder awaits its interrupt |
| `SynchDisks.ReturnsAfterCompletion` | nachos-3.4/code/filesys/synchdisk.cc:72-94 | a call returns only after its own request completed, with the result of its place in a sequential history |
| `SynchDisks.HistoryRespectsTime` | nachos-3.4/code/filesys/synchdisk.cc:72-94 | that history respects real time: calls are linearizable |
| `SynchDisks.ReadSeesLastWrite` | nachos-3.4/code/filesys/synchdisk.cc:72-94 | a read that has returned delivers the last write to its sector requested before it, or the start contents, and every sector holds the last write to it |
| `SynchDisks.HistoryIsRequests` | nachos-3.4/code/filesys/synchdisk.cc:72-94 | the history is exactly the operations of the requests made in the run, in order |
| `SynchDisks.CallIsInvoked` | nachos-3.4/code/filesys/synchdisk.cc:72-94 | a call does the operation it was invoked with |
| `SynchDisks.NeverStuck` | nachos-3.4/code/filesys/synchdisk.cc:72-109 | as long as a call has not returned, a call already made or the disk can go on |
| `SynchLists.NextKeepsInv` | nachos-3.4/code/threads/synchlist.cc:53-82 | every step of appenders and removers keeps the invariant |
| `SynchLists.RemovedIsPrefix` | nachos-3.4/code/threads/synchlist.cc:53-82 | the items removed are always a prefix of the items appended, and the list holds exactly the rest |
| `SynchLists.EachItemOnce` | nachos-3.4/code/threads/synchlist.cc:70-82 | different removers get different elements of the appended sequence |
| `SynchLists.NoLostWakeup` | nachos-3.4/code/threads/synchlist.cc:53-82 | while removers sleep, items are at most the signalled removers that have not looked again |
| `SynchLists.WaitersAreFifo` | nachos-3.4/code/threads/synchlist.cc:53-82 | a signal wakes exactly the remover that has slept longest, and whoever falls asleep goes to the end |
| `SynchLists.AppendedFollowsCalls` | nachos-3.4/code/threads/synchlist.cc:53-62 | what is recorded as appended is the items of the Append calls in the order in which they reached the list |
| `SynchLists.CallIsMade` | nachos-3.4/code/threads/synchlist.cc:53-82 | an Append keeps the item it was called with, and a Remove is not done before it has an item |
| `SynchLists.TakenByCall` | nachos-3.4/code/threads/synchlist.cc:70-82 | every item that left the list is held by a Remove call |
| `SynchLists.StuckOnlyWhenEmpty` | nachos-3.4/code/threads/synchlist.cc:53-82 | if no call that was made can go on, every call is done or a sleeping remover, and while one sleeps the list is empty |
| `Multiplication.ShiftAdd` | nachos-3.4/code/machine/mipssim.cc:657-678 | the 32-step loop with arithmetic shift and early exit gives the exact unsigned product in hi:lo |
| `Multiplication.Mult` | nachos-3.4/code/machine/mipssim.cc:635-692 | hi:lo is the product modulo 2^64 for all 32-bit operands, signed (most negative included) and unsigned |
| `Multiplication.NegateResult` | nachos-3.4/code/machine/mipssim.cc:680-688 | two's complement of the double word |
| `DiskTiming.UnbufferedCompletion` | nachos-3.4/code/machine/disk.cc:179-253 | an unbuffered request completes on a sector boundary just when the head has passed the target, for the first time after the seek, within one revolution |
| `DiskTiming.BufferedWhenPassed` | nachos-3.4/code/machine/disk.cc:241-246 | the track buffer test succeeds if and only if the whole sector passed under the head on this track since the buffer was started |
| `DiskTiming.BufferNeverSlower` | nachos-3.4/code/machine/disk.cc:232-253 | every latency is at least one rotation time and the buffer never makes a request slower |
| `DiskTiming.BufferSinceArrival` | nachos-3.4/code/machine/disk.cc:261-271 | after any run of requests the buffer was started when the head reached the track it has not left since |
| `DiskTiming.DiffIsLeast` | nachos-3.4/code/machine/disk.cc:202-209 | the rotational distance is the least one that reaches the sector |
| `DiskTiming.SeekPerTrack` | nachos-3.4/code/machine/disk.cc:179-194 | no seek within a track of 32 sectors, 500 ticks for each track further, and as long back as there |
| `DiskTiming.Disk.ReadRequest` | nachos-3.4/code/machine/disk.cc:115-133 | the data of the sector, the latency, and the new head state |
| `DiskTiming.Disk.WriteRequest` | nachos-3.4/code/machine/disk.cc:135-153 | exactly that sector changes; the latency and the new head state |
| `DiskTiming.Disk.HandleInterrupt` | nachos-3.4/code/machine/disk.cc:161-166 | the disk is idle again |
| `DiskTiming.Disk.ComputeLatency` | nachos-3.4/code/machine/disk.cc:232-253 | the latency; writes and track changes complete just behind the target sector |
| `DiskTiming.Disk.UpdateLast` | nachos-3.4/code/machine/disk.cc:261-271 | a new track restarts the buffer on a sector boundary |
| `Machines.TranslationInFrame` | nachos-3.4/code/machine/translate.cc:186-255 | a successful aligned translation lies in one frame, so the bounds assertion holds |
| `InstructionLaws.TranslatesWhen` | nachos-3.4/code/machine/translate.cc:186-255 | with a page table an address translates if and only if it is a multiple of the size, its page has a valid entry, writable for a write, and a frame that exists; the result is that frame and offset, and otherwise the exception names the first failure |
| `InstructionLaws.TlbTranslatesWhen` | nachos-3.4/code/machine/translate.cc:221-232 | with a TLB the first valid entry for the page decides in the same way |
| `Machines.WriteThenRead` | nachos-3.4/code/machine/translate.cc:87-169 | a read after a write of the same address and size returns the low bytes of the value |
| `Machines.Decode` | nachos-3.4/code/machine/mipssim.cc:589-626 | register fields below 32, and every word decodes to an operation the simulator handles |
| `InstructionLaws.DecodesFunction` | nachos-3.4/code/machine/mipssim.cc:589-626 | the word built from a MIPS function code, three registers and a shift amount decodes to exactly these |
| `InstructionLaws.DecodesImmediate` | nachos-3.4/code/machine/mipssim.cc:589-626 | the word built from an opcode, two registers and a signed 16-bit immediate decodes to exactly these |
| `InstructionLaws.DecodesCondition` | nachos-3.4/code/machine/mipssim.cc:609-624 | the same for the four branches coded in the register field |
| `InstructionLaws.DecodesJump` | nachos-3.4/code/machine/mipssim.cc:589-626 | the same for jumps with a 26-bit index |
| `InstructionLaws.DestinationByFormat` | nachos-3.4/code/machine/mipssim.cc:123-553 | an instruction that writes a register writes rd, rt or register 31 by its format |
| `InstructionLaws.WritesRegisterWhen` | nachos-3.4/code/machine/mipssim.cc:123-553 | which operations write a general register, as a list |
| `InstructionLaws.ResultIs` | nachos-3.4/code/machine/mipssim.cc:123-553 | a link is the address behind the delay slot, MFHI and MFLO move, all others write their arithmetic result |
| `InstructionLaws.OtherEndsAs` | nachos-3.4/code/machine/mipssim.cc:123-553 | an instruction without memory access traps exactly as a system call, an illegal instruction or an overflow of ADD, ADDI or SUB, and otherwise completes and leaves memory alone |
| `InstructionLaws.AbortsWhen` | nachos-3.4/code/machine/mipssim.cc:280-343 | an assertion of the simulator fails if and only if a partial load or store has an address that is not a multiple of four |
| `InstructionLaws.AccessTrapsWhen` | nachos-3.4/code/machine/mipssim.cc:231-532 | a load or store traps if and only if its address does not translate for it (a partial store must be readable first), and says which address |
| `InstructionLaws.FetchesWord` | nachos-3.4/code/machine/mipssim.cc:101-104 | the instruction is the word at the program counter in the frame of its page; the fetch traps if and only if that is misaligned or missing |
| `InstructionLaws.EffectiveIsSum` | nachos-3.4/code/machine/mipssim.cc:231-240 | the address of an access is base plus offset in 32 bits |
| `InstructionLaws.CountersAdvance` | nachos-3.4/code/machine/mipssim.cc:555-565 | after an instruction the three counters have moved on by one place, by 4 unless it redirects, and only a load leaves a load pending |
| `InstructionLaws.ProductRegisters` | nachos-3.4/code/machine/mipssim.cc:195-369 | MULT, MULTU, DIV and DIVU leave their two words in hi and lo, MTHI and MTLO move one register to one of them |
| `InstructionLaws.ProductsKept` | nachos-3.4/code/machine/mipssim.cc:123-565 | no other instruction changes hi or lo |
| `InstructionLaws.JumpsTo` | nachos-3.4/code/machine/mipssim.cc:219-223 | a jump goes to four times its index in the 256 megabytes of its delay slot |
| `InstructionLaws.BranchesTo` | nachos-3.4/code/machine/mipssim.cc:161-193 | a branch that is taken goes to its delay slot plus four times its offset |
| `InstructionLaws.JumpsToRegister` | nachos-3.4/code/machine/mipssim.cc:225-229 | a register jump goes where the register points, read after the link is written |
| `InstructionLaws.LoadsByte` | nachos-3.4/code/machine/mipssim.cc:231-243 | LB gives the byte in two's complement, LBU the byte itself |
| `InstructionLaws.LoadsShort` | nachos-3.4/code/machine/mipssim.cc:245-278 | LH and LHU likewise for two bytes; LW and LWL give the word |
| `InstructionLaws.LoadsRight` | nachos-3.4/code/machine/mipssim.cc:311-343 | LWR replaces the low byte of the target by the high byte of the word |
| `InstructionLaws.StoresBytes` | nachos-3.4/code/machine/mipssim.cc:383-532 | SB, SH, SW and SWL write exactly the low bytes of the register, SWR its low byte behind three that stay |
| `InstructionLaws.ProductInTwoWords` | nachos-3.4/code/machine/mipssim.cc:361-369 | hi and lo together hold the product, signed or unsigned, modulo 2^64 |
| `InstructionLaws.QuotientAndRemainder` | nachos-3.4/code/machine/mipssim.cc:205-217 | DIVU leaves quotient and remainder, and two zeros for a zero divisor |
| `Arithmetic.ComputesRightWhen` | nachos-3.4/code/machine/mipssim.cc:125-544 | for every operation and operands: the simulator computes what the MIPS architecture says if and only if OR has no bit of rt missing in rs, SLT and SLTI compare operands of the same sign, and SRA, SRAV, SRL and SRLV shift a word that is not negative or by nothing |
| `Arithmetic.OverflowIsExact` | nachos-3.4/code/machine/mipssim.cc:125-465 | the sign-bit tests of ADD, ADDI and SUB raise an overflow exactly when the signed result does not fit |
| `Arithmetic.BranchesRightWhen` | nachos-3.4/code/machine/mipssim.cc:161-193 | a branch is taken as the architecture says if and only if it is not BGTZ or BLEZ of a negative register |
| `Arithmetic.DividesRightWhen` | nachos-3.4/code/machine/mipssim.cc:195-203 | DIV leaves the signed quotient and remainder if and only if neither operand is negative, or both are equal, or a non-negative dividend is less than the size of a negative divisor, or a negative dividend is divided by one |
| `Arithmetic.QuotientAndRest` | nachos-3.4/code/machine/mipssim.cc:195-203 | the quotient and remainder meant there: they give back the dividend, and the remainder is less in size than the divisor |
| `Arithmetic.WrongResult` | nachos-3.4/code/machine/mipssim.cc:375-455 | inputs for which OR, SLT, SLTI and the right shifts go wrong |
| `Arithmetic.WrongBranchAndQuotient` | nachos-3.4/code/machine/mipssim.cc:173-203 | an input for which BGTZ, BLEZ and DIV go wrong |
| `Arithmetic.BitwiseAt` | nachos-3.4/code/machine/mipssim.cc:153-159 | AND, OR, XOR and NOR work bit by bit |
| `Machines.TrapIsRestartable` | nachos-3.4/code/machine/machine.cc:100-111 | the handler finds program counters and general registers of the start of the instruction with the pending load applied, and the bad address |
| `MachineCalls.Machine.DelayedLoad` | nachos-3.4/code/machine/mipssim.cc:575-582 | applies the pending load, makes the next one pending, keeps register 0 zero |
| `MachineCalls.Machine.RaiseException` | nachos-3.4/code/machine/machine.cc:100-107 | the register state a trap leaves |
| `MachineCalls.Machine.Translate` | nachos-3.4/code/machine/translate.cc:186-255 | the translation or the exception by page table or TLB; the entry used gets its use bit, and its dirty bit on a write, and nothing else changes |
| `MachineCalls.Machine.ReadMem` | nachos-3.4/code/machine/translate.cc:87-122 | the bytes at the translation, or a restartable trap |
| `MachineCalls.Machine.WriteMem` | nachos-3.4/code/machine/translate.cc:137-169 | exactly the bytes at the translation change, or a restartable trap and none does |
| `MachineCalls.Machine.Operate` | nachos-3.4/code/machine/mipssim.cc:123-553 | traps exactly when TrapOf says so and then writes nothing; otherwise destination, hi and lo, and the next counter are right and no other register changes |
| `MachineCalls.Machine.Load` | nachos-3.4/code/machine/mipssim.cc:231-343 | completes, traps (with which exception and bad address) or fails its assertion exactly as LoadEffect says |
| `MachineCalls.Machine.Store` | nachos-3.4/code/machine/mipssim.cc:383-532 | completes, traps (the read before a partial store included) or fails its assertion exactly as StoreEffect says; a trap changes no byte |
| `MachineCalls.Machine.HiLo` | nachos-3.4/code/machine/mipssim.cc:195-217 | quotient and remainder of the unsigned contents, both zero for a zero divisor; the double product; moves to hi and lo |
| `MachineCalls.Machine.OneInstruction` | nachos-3.4/code/machine/mipssim.cc:93-565 | exactly the effect of StepEffect: fetch trap, instruction trap, failed assertion, or the new registers (hi and lo included) and memory |
| `MachineCalls.Machine.Simulate` | nachos-3.4/code/machine/mipssim.cc:93-565 | the same with the arithmetic, overflow tests and branch conditions of the source (Arithmetic.Simulator) |
| `Instructions.StepKeepsDiscipline` | nachos-3.4/code/machine/mipssim.cc:555-582 | whatever an instruction writes, it leaves register 0 zero and the pending-load target below 32, whether it completes or traps |
| `Instructions.RunKeepsDiscipline` | nachos-3.4/code/machine/mipssim.cc:93-582 | over any run of instructions, traps, interrupts, system calls, new programs and context switches, that holds at every instruction start, for the running thread and for all saved ones |
| `Instructions.TrapRestarts` | nachos-3.4/code/machine/machine.cc:100-111 | after any trap the same instruction is fetched again and every general register reads as before except the target of the pending load |
| `Instructions.CompletedRegisters` | nachos-3.4/code/machine/mipssim.cc:555-582 | an instruction that completes changes the pending-load target, its destination and no other general register; the pending load wins |
| `Instructions.LoadDelaySlot` | nachos-3.4/code/machine/mipssim.cc:557-582 | the instruction after a load sees the old register (with a load pending before applied) if no interrupt fired in between and the loaded value if one did; without one, the instruction after that sees the loaded value even across a trap |
| `Instructions.InterruptedRegister` | nachos-3.4/code/machine/interrupt.cc:323-326 | an interrupt applies the pending load and changes no other general register |
| `Instructions.StoreIsEvent` | nachos-3.4/code/machine/translate.cc:137-169 | a store that goes through is the store event of the process whose page table is in use |
| `PostOffices.FrameRoundTrip` | nachos-3.4/code/network/post.cc:228-245 | header and payload framed by Send are read back unchanged from a buffer with stale bytes |
| `PostOffices.NextKeepsInv` | nachos-3.4/code/network/post.cc:221-316 | every step keeps the invariant and no assertion of the worker fails |
| `PostOffices.RunKeepsInv` | nachos-3.4/code/machine/network.cc:60-139 | in every run the inbox is full exactly while a signal is pending or the worker is between P and Receive, so it is never overwritten unread |
| `PostOffices.TakenIsSubsequence` | nachos-3.4/code/network/post.cc:221-316 | mail taken from a box is, sender by sender, an in-order subsequence of what was sent to it, with identical headers and payload, under arbitrary loss |
| `PostOffices.DeliveredIsPrefix` | nachos-3.4/code/network/post.cc:221-316 | letters are delivered in the order of the sends of the run, leaving out exactly those the network lost |
| `PostOffices.AllDelivered` | nachos-3.4/code/network/post.cc:221-316 | once neither network nor worker can do anything, every box has received exactly the mail sent to it that was not lost, in order |
| `PostOffices.PipelineFollowsSends` | nachos-3.4/code/machine/network.cc:60-139 | what is under way or delivered is, in order, what was sent and not lost |

## Left out

- Concrete sizes: 128-byte sectors and pages, 1024 sectors, 30 direct sectors, 10 directory entries, 9-character names
  and 32 sectors per track are the values of the source; the numbers of frames, process identifiers, floors, people,
  threads, mail boxes and senders are arbitrary.
- Integers are unbounded: overflow of tick counters, counters of people and seek positions is not modelled; 32-bit
  behaviour is written out in the bit map, in `ExecRefuses`, in the multiplication and in the processor.
- Files.OpenFile.WriteAt: positions are non-negative and the handle belongs to a file that still exists.
- Files.OpenFile.ReadAt: positions are non-negative; for a negative one the source indexes its sector table below 0.
- Files.OpenFile.Seek: positions are non-negative.
- Files.FileHeader.Allocate: sizes above the maximum file size are excluded, because the source then writes past the
  array of sector numbers.
- FileSystemCalls.FileSystem.Mount: a disk that holds no sound file system is excluded; the source reads whatever is there.
- FileSystemCalls.FileSystem.Create: sizes above the maximum file size are excluded, because `Allocate` does not check
  them and would write past its array.
- Directories.TableRoundTrip: padding bytes of a directory entry are written as zero; the source leaves them unspecified.
- Files.SynchDisk: the file system sees a disk whose calls are atomic and sequential, as the source assumes for file
  system calls; `SynchDisks` proves that concurrent sector calls behave like that.
- Kernel: calls made by one thread inside its own interrupts-off section are one step; the machine-dependent context
  switch, stack set-up, stack overflow checks and saving of user registers are not modelled.
- Kernel.ReleaseKeepsInv: owner-only release is a condition of runs, by the convention of `threads/synch.h`.
- Elevator: a section under the semaphores q or c is one step; tables start at zero although `new int[size]` does not
  clear them; messages are not modelled.
- AddrSpaces.AddrSpace.Load: excluded are programs with a segment outside the address space and programs that do not fit
  into the free frames, for both of which the source fails an assertion, and a segment that crosses out of the last frame,
  for which it writes past main memory (`Paging.LastFrameOverruns`). The header of the executable is given decoded, and
  the bytes of a segment are those the file delivered.
- AddrSpaces.AddrSpace.ReadFile: the same for one segment.
- AddrSpaces.AddrSpace.Replace: the same, when the comparison does not refuse the program.
- Paging.UnfitLoad: the segment does not cross out of the last frame of main memory.
- Paging.LoadsRightWhen: the same.
- ProcessCalls.ProcessTable.Start: as AddrSpaces.AddrSpace.Load.
- ProcessCalls.ProcessTable: exit codes, parent and child lists, join and the registers of a forked process are left
  out; identifiers passed to kill are in range, as the bit map asserts.
- ProcessCalls.ProcessTable.Exec: reading the file name out of user memory and opening the file is a parameter; programs
  are restricted as for AddrSpaces.AddrSpace.Replace.
- InterruptCalls.Interrupt.CheckIfDue: the pending load that it has the processor apply is modelled in Instructions, as the
  action Interrupt, and not in this class.
- Interrupts: what handlers do is a parameter (any schedule of later interrupts and any request for a context switch);
  the other threads that run during a yield are not part of a tick.
- Interrupts.DrainFiresDue: no first-in-first-out order is claimed among equal times over several ticks, because an interrupt
  that is put back goes behind others with the same time.
- DiskTiming.Disk: statistics and the host file behind the disk are left out.
- DiskTiming.Disk.HandleInterrupt: the call of the completion handler is not made here; the step Interrupt of SynchDisks
  has both effects.
- SynchLists: items are non-null; `Mapcar` is left out.
- MachineCalls.Machine.Operate: the results of arithmetic, logic, shift and compare instructions, the overflow and branch
  conditions are a parameter of the proof; `Arithmetic.Simulator` is what the source has there. The shift of a negative
  `int` is taken to be arithmetic, as on the hosts Nachos runs on.
- Arithmetic.DividesRightWhen: the divisor is not zero; the architecture leaves that case open.
- Instructions.RunKeepsDiscipline: system calls write the result register and the program counters, save and restore all
  registers, or initialise them, as the kernel here does; other writes by a kernel are not part of a run.
- MachineCalls.Machine.ReadMem: a byte is returned unsigned, while the host may sign-extend it; the load instructions use
  its low eight bits only. Host byte order is little endian.
- PostOffices: the sending side's lock and semaphore are left out; a packet is lost or delivered in order per receiver, as
  `machine/network.h` says.
- Liveness under fairness: that the elevator eventually serves everybody it can serve, eventual return of join.
- Console, host wrappers, debugging output, statistics, the COFF tools under `bin` and the C++ examples.
- `Scheduler::Remove` and object lifetimes in exit and kill.

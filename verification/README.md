# CrowOS in Dafny

A model of the hard core of CrowOS, a small single-CPU x86-64 kernel with its user-space allocator, and
proofs about it. Code that changes things step by step is modelled by classes and methods with loops, and
each such method is proved against a specification function or predicate. The lemmas then say what those
specifications mean.

| file | what it models |
|---|---|
| `Basics.dfy` | optional values, word sizes and ring indices, shared by the others |
| `Runs.dfy` | the free list of the user allocator as a sequence of runs of 16-byte units: coalescing, taking a tail, canonical form |
| `Allocator.dfy` | `malloc`, `free`, `morecore` over the links and sizes in memory |
| `Scheduler.dfy` | the process table as a machine of steps: dispatch, yield, exit, wait, sleep on a channel, serial input, lazy FPU switching |
| `Kernel.dfy` | the code that takes those steps, with its spinlocks, interrupt depth and serial ring |
| `PageTables.dfy`, `Vmm.dfy` | four-level page tables, the frame list, mapping, allocating, copying into another address space |
| `AddressSpace.dfy`, `ProcessMemory.dfy` | tearing an address space down, making a new one |
| `Exec.dfy`, `UserStack.dfy`, `Launch.dfy` | loading a program, its argument block and first context, growing its heap |
| `Words.dfy` | little-endian words |
| `PageCache.dfy`, `Nvme.dfy` | the page cache over the disk, the NVMe queue pair with its phase bit |
| `Inodes.dfy` | the inode table, descriptors, working directories and their reference counts |
| `Dirents.dfy` | directory records between `fs_readdir` and `ls` |

The main results:

- **Allocator.** The free list is always the decomposition of the free units into maximal runs
  (`Runs.Canonical`). So the order in which blocks are freed does not matter
  (`Runs.FreeOrderIrrelevant`), freeing what was just allocated restores the list
  (`Runs.TakeThenFree`), and free plus live units are exactly the core obtained (`Allocator.Conservation`).
  `Malloc` is first fit, asks the kernel at most once, and only when nothing fits.
- **Scheduler.** One invariant holds in every state of every run from boot (`Scheduler.AlwaysInv`). A process
  that waits for another gets exactly its exit status, whatever else happens in between
  (`Scheduler.WaiterGetsExitStatus`), and gets it before the scheduler has looked at more than 64 slots
  (`Scheduler.WaiterReturnsInTime`), because the exited slot is not reaped before its waiters have been dispatched
  (`Scheduler.DispatchedBeforeReaped`). Serial characters are delivered in order, each once (`Scheduler.QueueKept`). Lazy
  FPU switching cannot be told from eager switching, and a new process starts zeroed
  (`Scheduler.RegistersBelongToRunner`, `Scheduler.NewProcessStartsZeroed`). The kernel code in `Kernel.dfy` carries the
  machine's invariant in its own and takes only enabled steps of it, so all this holds of the code.
- **Locks.** In every state the code reaches, interrupts are on only while no lock is held, and across every context
  switch exactly the lock of the process being switched is held, at depth one (`Kernel.Kernel.LockDiscipline`). The locks
  meant are those of the processes and of the serial ring.
- **Memory.** The hardware walk, which takes away every right some level refuses, computes a flat map
  (`PageTables.LookupIsTranslate`); every operation changes that map exactly where it says. Every address space has the
  kernel's half (`ProcessMemory.EveryRootSharesKernel`). Teardown frees each table and stack of a process exactly once and nothing of the kernel's
  (`AddressSpace.UserPagetableFree`).
- **Exec.** After a successful `proc_exec` every loaded segment reads as its file bytes followed by zeroes, exactly if its
  size and offset fit in 32 bits (`Launch.StartedReadsFileIff`), the arguments decode to what was passed, the first context
  is in place, the heap starts empty and grows without panic up to the stack, and teardown does not panic, given that the three
  stacks could be mapped when the address space was made (`Launch.ExecImage`,
  `UserStack.ArgumentsDecode`, `Launch.ProcSbrk`).
- **Storage.** A read through the page cache returns the last page written (`PageCache.Store.Read`). The NVMe host accepts
  exactly one completion per command, across any number of laps of the ring (`Nvme.Queue.DoOneCommand`).
- **Files.** While fewer than 2^32 references have been taken, reference counts cover all holders, no two slots hold the same file,
  no operation takes an inode from somebody else, and none but `proc_exit` leaves a reference that nobody holds
  (`Inodes.Files`, `Inodes.EmptyIffUnheld`). `ls` shows every entry once and in
  order exactly when each record fits its buffer and the file system reports no error (`Dirents.ListsEverythingIff`).

Properties that hold only under a condition are stated as an equivalence with the exact condition:
`Allocator.CapacityIff`, `Allocator.SbrkGrantsIff`, `Exec.ReadsAsFileIff`, `Launch.NewSpaceIsEmptyIff`, `Inodes.AcquireKeepsIff`,
`Dirents.ListsEverythingIff`.

## Model

| member | source | states |
|---|---|---|
| Runs.GapIsBetween | user/libc/malloc.c:32-34 | the place found for a block is after the last run below it and before every run above it |
| Runs.FitsBetween | user/libc/malloc.c:32-34 | a block that overlaps nothing fits between the two neighbours the search picks |
| Runs.CoalesceUnits | user/libc/malloc.c:35-44 | whichever merges happen, free adds exactly the units of the freed block |
| Runs.CoalesceFreeList | user/libc/malloc.c:35-44 | after free the list is sorted again, no two runs touch, and `base` is still in front |
| Runs.TakeTailUnits | user/libc/malloc.c:73-83 | malloc removes exactly the units it hands out, and they were free |
| Runs.TakeTailFreeList | user/libc/malloc.c:73-83 | after malloc the list is still sorted and separated, whether a run was split or removed |
| Runs.Canonical | user/libc/malloc.c:25-46 | two separated lists of non-empty runs over the same units are equal |
| Runs.CanonicalFreeList | user/libc/malloc.c:25-46 | the free list is determined by which units are free |
| Runs.FreeAllUnits | user/libc/malloc.c:25-46 | freeing any sequence of disjoint blocks adds exactly their units and keeps the list in form |
| Runs.FreeOrderIrrelevant | user/libc/malloc.c:25-46 | freeing the same blocks in any two orders leaves the same list |
| Runs.TakeThenFree | user/libc/malloc.c:25-88 | malloc followed by free of its result restores the list exactly |
| Allocator.CapacityIff | user/libc/malloc.c:67 | the rounded-up block holds the requested bytes if and only if the request is at most 2^64 - 16, and then one unit less would not; beyond that it is a header alone |
| Allocator.SbrkArgumentCut | kernel/userspace/syscall.c:50-51 | what the kernel sees is a signed 32-bit number that differs from the byte count by a multiple of 2^32 |
| Allocator.SbrkArgumentIff | kernel/userspace/syscall.c:50-51 | the kernel, which takes the byte count as an int, sees the one morecore meant if and only if it is below 2^31 |
| Allocator.SbrkGrantsIff | user/libc/malloc.c:48-61 | the block morecore takes for its own lies inside what the kernel granted if and only if its size is below 2^31 bytes |
| Allocator.StopsExactlyAtGap | user/libc/malloc.c:32-34 | the loop condition of free's search, including its wrap-around test, stops at the right node and at no other |
| Allocator.FreeStores | user/libc/malloc.c:35-44 | the pointer and size stores of free turn memory spelling out the list into memory spelling out the coalesced list |
| Allocator.Conservation | user/libc/malloc.c:25-88 | free units plus live units are the units ever obtained |
| Allocator.FreeKeepsValid | user/libc/malloc.c:25-46 | free keeps the heap invariant: links, sizes, disjoint live blocks, accounting |
| Allocator.MallocKeepsValid | user/libc/malloc.c:72-83 | taking a block keeps the heap invariant and the block was not live |
| Allocator.GrowKeepsValid | user/libc/malloc.c:48-61 | new core above everything handed out can be treated as a live block and then freed |
| Allocator.CoalesceHasRoom | user/libc/malloc.c:84-87 | after morecore some run has room, so the second turn of malloc succeeds |
| Allocator.Heap.constructor | user/libc/malloc.c:22-23 | before the first call the list is just `base`, nothing is live and no core was obtained |
| Allocator.Heap.FindPlace | user/libc/malloc.c:32-34 | the search ends at the unique place for the block after at most one turn of the list |
| Allocator.Heap.Free | user/libc/malloc.c:25-46 | the list becomes the coalesced list, the block is no longer live, freep points before it, and freeing NULL does nothing |
| Allocator.Heap.Link | user/libc/malloc.c:35-44 | the stores around the freed block, leaving the sizes of all other blocks alone |
| Allocator.Heap.Morecore | user/libc/malloc.c:48-61 | on success the list is coalesced with fresh core of at least the minimum size, on failure nothing changes |
| Allocator.Heap.TakeFrom | user/libc/malloc.c:73-83 | the tail of the chosen run is handed out and becomes live, and the next search starts at the node before that run |
| Allocator.Heap.Turn | user/libc/malloc.c:72-87 | one turn finds the first run from freep on that is large enough, or proves there is none |
| Allocator.Heap.Malloc | user/libc/malloc.c:63-88 | a block disjoint from all live ones, first fit from freep, the smallest that holds the request for every size but the last fifteen values of size_t; freep is left at the node before the run used; one sbrk at most and only if nothing fits; NULL leaves everything as it was |
| Scheduler.WakeFromIsWakeAll | kernel/userspace/proc.c:89-106 | with `everyone`, the wakeup loop makes every other sleeper on the channel runnable and changes nothing else |
| Scheduler.WakeFromFirst | kernel/userspace/proc.c:89-106 | without it, exactly the first sleeper on the channel becomes runnable |
| Scheduler.ModeKept | kernel/userspace/proc.c:258-333 | every step keeps who is on the CPU consistent with whose context is loaded |
| Scheduler.RunningKept | kernel/userspace/proc.c:286-333 | every step keeps a slot in state RUNNING exactly when it is the running process |
| Scheduler.PcKept | kernel/common/condvar.c:24-48 | every step keeps each process' state in line with where its kernel stack is suspended |
| Scheduler.PidOkKept | kernel/userspace/proc.c:56-84 | every step keeps pids of slots in use non-zero and below the next pid, and unused slots at zero |
| Scheduler.PidsDifferKept | kernel/userspace/proc.c:56-84 | every step keeps the pids of two slots in use different |
| Scheduler.ReaderKept | kernel/device/serial_port.c:99-173 | a process asleep in a serial read sleeps only while the ring is empty: no lost wakeup |
| Scheduler.QueueKept | kernel/device/serial_port.c:99-173 | accepted characters are exactly the delivered ones followed by the ring: no loss, duplication or reordering |
| Scheduler.StatusKept | kernel/userspace/proc.c:135-157 | an exited slot holds the status its process exited with |
| Scheduler.HistoryKept | kernel/userspace/proc.c:170-195 | every status a proc_wait has returned for a pid is the one that pid exited with |
| Scheduler.FpuKept | kernel/userspace/proc.c:267-281 | each process' floating point state is in the registers if it ran last, else in its save area, and is zero until it first runs |
| Scheduler.BlockingOnlyMe | kernel/userspace/proc.c:170-195 | a wait or a serial read changes nobody but its caller, keeps delivered and pending characters together in order, and either returns or leaves the caller asleep |
| Scheduler.NewProcessStartsZeroed | kernel/userspace/proc.c:82 | a process that is switched to for the first time finds zeroed registers, also in a reused slot |
| Scheduler.ExecBears | kernel/userspace/proc.c:56-84 | the pid handed out is in exactly one slot, which was unused and is now runnable and fresh, every other slot stays as it was, and -1 means no process was made |
| Scheduler.InvKept | kernel/userspace/proc.c:56-333 | every step of every operation keeps the whole invariant |
| Scheduler.BootInv | kernel/userspace/proc.c:243-249 | the invariant holds when the scheduler starts |
| Scheduler.RunInv | kernel/userspace/proc.c:286-333 | the invariant is kept along any sequence of steps |
| Scheduler.AlwaysInv | kernel/userspace/proc.c:286-333 | the invariant holds in every state reachable from boot |
| Scheduler.ExitWakesWaiters | kernel/userspace/proc.c:135-157 | exiting makes every process waiting for this pid runnable, with the status in place |
| Scheduler.ReapStrandsNobody | kernel/userspace/proc.c:286-333 | when the scheduler reaps an exited slot nobody is still waiting for it |
| Scheduler.PendingStep | kernel/userspace/proc.c:170-195 | a waiter that was woken stays entitled to the status until its proc_wait has returned it, whatever step comes next |
| Scheduler.PendingOverRun | kernel/userspace/proc.c:170-195 | the same along any run |
| Scheduler.WaiterGetsExitStatus | kernel/userspace/proc.c:135-195 | after the target exits with a code, along every run the waiter has returned that code or the slot still holds it for the waiter, so it is neither reaped nor reused first |
| Scheduler.AheadAfterExit | kernel/userspace/proc.c:286-333 | at exit, every runnable slot comes up in the scheduler's round before the exited one |
| Scheduler.AheadStep | kernel/userspace/proc.c:286-333 | it keeps coming up first until it is dispatched |
| Scheduler.DispatchedBeforeReaped | kernel/userspace/proc.c:286-333 | along every run, a slot runnable at the exit is dispatched before the exited slot is reaped |
| Scheduler.OnCpuStep | kernel/userspace/proc.c:187-194 | a woken waiter on the CPU can only continue, take a character, or look again, and looking returns the code |
| Scheduler.ReturnsOnceDispatched | kernel/userspace/proc.c:170-195 | once dispatched, a waiter has returned the code as soon as the CPU has done anything but continue and take characters |
| Scheduler.WaiterReturnsCode | kernel/userspace/proc.c:135-195 | from the exit, over any run up to the waiter's dispatch and any run after it, proc_wait has returned exactly the code given to proc_exit |
| Scheduler.CountsDown | kernel/userspace/proc.c:286-333 | every slot the scheduler looks at brings it one closer to a ready slot, no other step moves it away, and the slot stays ready until dispatched |
| Scheduler.DispatchedWithin | kernel/userspace/proc.c:286-333 | along every run a ready slot is dispatched before the scheduler has looked at more than the at most 63 slots in between |
| Scheduler.WaiterReturnsInTime | kernel/userspace/proc.c:135-195 | in every run from the exit on in which the scheduler looks at more than 64 slots, proc_wait has returned exactly the code given to proc_exit |
| Scheduler.RegistersBelongToRunner | kernel/userspace/proc.c:267-281 | whoever runs has in the registers what it last computed there |
| Scheduler.FpuContentsStable | kernel/userspace/proc.c:267-281 | only a process itself changes its floating point contents |
| Kernel.UnreadPush | kernel/device/serial_port.c:109-111 | storing at the write index and advancing it appends one character to the ring's contents |
| Kernel.UnreadPop | kernel/device/serial_port.c:165-169 | advancing the read index removes exactly the oldest character |
| Kernel.UnreadFull | kernel/device/serial_port.c:106-107 | the full test is right (one place stays unused) and equal indices mean empty |
| Kernel.OneLock | kernel/common/spinlock.c:12-77 | with one lock held the depth is one and interrupts are off |
| Kernel.WokenFacts | kernel/userspace/proc.c:187-194 | the machine's invariant excludes the panics of a woken waiter: its target is another slot, and for a real pid it has exited with the recorded code |
| Kernel.Kernel.constructor | kernel/userspace/proc.c:243-249 | the kernel starts in the machine's boot state, with the joint invariant of code and machine |
| Kernel.Kernel.LockDiscipline | kernel/common/spinlock.c:12-77 | in every state the code reaches: depth counts the locks held, interrupts are off while there is one, across a context switch exactly the switched process' lock is held at depth one, an interrupt finds no lock and an enabled step, and only running_process is RUNNING |
| Kernel.Kernel.SaveAndDisableInterrupts | kernel/common/spinlock.c:12-19 | depth goes up, interrupts go off, and only the outermost call remembers the flag |
| Kernel.Kernel.RestoreInterrupts | kernel/common/spinlock.c:25-31 | depth goes down, and only the outermost call brings back the remembered flag |
| Kernel.Kernel.Lock | kernel/common/spinlock.c:47-60 | the lock is held, interrupts are off, and depth equals the number of locks held |
| Kernel.Kernel.Unlock | kernel/common/spinlock.c:65-77 | the lock is released, and interrupts come back exactly with the last lock and if they were on before the first |
| Kernel.Kernel.ContextSwitch | kernel/userspace/proc.c:258-265 | a context switch needs exactly the switched process' lock at depth one with interrupts off, and every caller has that |
| Kernel.Kernel.SwitchBack | kernel/userspace/proc.c:258-265 | neither panic of scheduler_switch_back is reached |
| Kernel.Kernel.Wakeup | kernel/userspace/proc.c:89-106 | the locking loop computes the wakeup function and leaves locks and interrupt flag as they were |
| Kernel.Kernel.WakeSlot | kernel/userspace/proc.c:89-106 | one slot is made runnable under its lock exactly if it sleeps on the channel, and locks and interrupt flag are as before |
| Kernel.Kernel.YieldCpu | kernel/cpu/trap.c:11-28 | the yield trap is the machine's yield step, enabled where it is taken, and keeps the joint invariant |
| Kernel.Kernel.KeepSleeping | kernel/userspace/proc.c:223-238 | each further turn of sys_sleep's loop is the machine's step of a sleeper that sleeps on, with the lock held throughout |
| Kernel.Kernel.ProcExit | kernel/userspace/proc.c:146-156 | is the machine's exit step, enabled where it is taken |
| Kernel.Kernel.CondvarWait | kernel/common/condvar.c:24-48 | the process is asleep on the channel before the condition's lock is released, and leaves holding its own lock only |
| Kernel.Kernel.ResumeProcess | kernel/common/condvar.c:44-48 | a process switched to gives up its lock and goes on where it was suspended, as the machine's resume step |
| Kernel.Kernel.WaitForExit | kernel/userspace/proc.c:187-194 | under the target's lock, returns the status of an exited target or goes to sleep on it |
| Kernel.Kernel.ProcWait | kernel/userspace/proc.c:170-195 | is the machine's wait step: -1 if there is no such pid, the status of an exited process, which is the code recorded for that pid, or asleep |
| Kernel.Kernel.WaitAgain | kernel/userspace/proc.c:187-194 | a woken waiter looks again under the target's lock; for a real pid it always returns, and returns the code that pid exited with |
| Kernel.Kernel.LoadAdditionalData | kernel/userspace/proc.c:267-281 | saves the last user's registers and loads the next one's only if they differ |
| Kernel.Kernel.VisitSlot | kernel/userspace/proc.c:286-333 | one turn of the scheduler's inner loop is the machine's visit step |
| Kernel.Kernel.AfterSwitch | kernel/userspace/proc.c:286-333 | what the scheduler does when a process has switched back is the machine's step; the slot at hand is the one that ran |
| Kernel.Kernel.StartRound | kernel/userspace/proc.c:286-333 | a new round starts at slot 0 with interrupts enabled and no lock held, as the machine's step |
| Kernel.Kernel.ExecProcess | kernel/userspace/proc.c:56-84 | the first unused slot gets the next pid, claimed under its lock; the pid returned is the one in that slot, which is then runnable and fresh, exactly if a slot was free and the rest of exec succeeds, else -1 |
| Kernel.Kernel.Claim | kernel/userspace/proc.c:69-84 | the slot found is marked used with the next pid before its lock is released, and ends up runnable under the pid returned, or unused again |
| Kernel.Kernel.SerialReceivedChar | kernel/device/serial_port.c:99-120 | an interrupt is always an enabled step of the machine: carriage return becomes newline, exactly that character is appended while fewer than 127 wait and every reader woken, or it is dropped when the ring is full |
| Kernel.Kernel.AcceptChar | kernel/device/serial_port.c:106-117 | under the serial lock, the character is appended and every reader woken, or nothing happens on a full ring |
| Kernel.Kernel.CopyOut | kernel/device/serial_port.c:164-169 | the copy loop hands out the oldest characters in order |
| Kernel.Kernel.ReadOut | kernel/device/serial_port.c:154-172 | as many characters as there are, up to the length asked for |
| Kernel.Kernel.SerialRead | kernel/device/serial_port.c:139-173 | is the machine's read step: returns the oldest characters; sleeps exactly when there is nothing and the call is not asynchronous |
| Kernel.Kernel.SerialReadAgain | kernel/device/serial_port.c:139-173 | a woken reader gets the oldest characters, as many as there are up to its length, or sleeps again if the ring was emptied |
| PageTables.IndexIsMacro | kernel/mem/vmm.c:10-11 | the index macro picks the nine bits of the level |
| PageTables.LookupIsTranslate | kernel/mem/vmm.c:73-98 | in a well-formed tree the four-level walk, which takes away every right some level refuses, computes the flat page map with the rights of its leaves |
| PageTables.KernelHalf | kernel/mem/vmm.c:106-131 | above the user range every address space has the kernel's own entries |
| PageTables.SetLeaf | kernel/mem/vmm.c:167-195 | writing a leaf entry changes the translation of one page of one address space |
| PageTables.GrowTree | kernel/mem/vmm.c:73-98 | linking a zeroed inner table that refuses no right keeps every tree well-formed |
| PageTables.GrowTranslates | kernel/mem/vmm.c:73-98 | linking a zeroed inner table changes no translation |
| PageTables.PopKeeps | kernel/mem/mem.c:78-90 | taking a frame from the list changes no translation and the frame belongs to nobody |
| Vmm.Manager.Kfree | kernel/mem/mem.c:58-72 | the frame becomes the head of the free list, in front of the rest as it was |
| Vmm.Manager.Kalloc | kernel/mem/mem.c:78-105 | the head of the free list is handed out, or none if it is empty |
| Vmm.Manager.Walk | kernel/mem/vmm.c:73-98 | returns the leaf entry of the address without changing any translation, through inner entries that restrict nothing; no entry only if unmapped and, when allocating, out of frames; panics exactly outside the user range |
| Vmm.Manager.WalkAddr | kernel/mem/vmm.c:148-160 | the frame of the page if it is mapped with the privilege asked for and is not frame 0, else none |
| Vmm.Manager.MapPages | kernel/mem/vmm.c:167-195 | maps exactly a prefix of the pages, none of them mapped before, to consecutive frames, all of them on success; says when it succeeds, fails and panics |
| Vmm.Manager.Allocate | kernel/mem/vmm.c:204-238 | maps fresh, distinct, zeroed frames nobody else owns, page by page, and nothing else changes |
| Vmm.Manager.Memcpy | kernel/mem/vmm.c:448-470 | exactly a prefix of the bytes is written at the destination, all of them on success; it stops exactly at the first page without the needed mapping |
| Vmm.Manager.CopyPart | kernel/mem/vmm.c:448-470 | one turn copies up to the end of the page or of the source, and nothing exactly if the page lacks the needed mapping |
| Vmm.StoreBytesWritten | kernel/mem/vmm.c:448-470 | storing into a frame through the direct map changes those bytes of one page of one address space only |
| Vmm.ClaimedDistinct | kernel/mem/vmm.c:204-238 | different pages get different frames |
| Vmm.FrameNotZero | kernel/mem/vmm.c:148-160 | no mapped page has frame 0, so the result 0 of vmm_walkaddr always means not mapped |
| AddressSpace.TableNotSkipped | kernel/mem/vmm.c:333-370 | teardown skips no entry that has a table of the process below it |
| AddressSpace.KernelSkipped | kernel/mem/vmm.c:333-370 | teardown skips every entry of the kernel's half |
| AddressSpace.FreeRecursive | kernel/mem/vmm.c:333-370 | frees the tables at and below a position, each exactly once, and nothing else |
| AddressSpace.FreeStacks | kernel/mem/vmm.c:376-394 | gives back the three stacks and panics exactly when one is missing |
| AddressSpace.UserPagetableFree | kernel/mem/vmm.c:376-394 | every table of the process and the frames behind its three stack pages are back on the free list, each freed exactly once, no kernel table is, and all other address spaces translate as before |
| AddressSpace.TornOk | kernel/mem/vmm.c:333-394 | after teardown all memory invariants hold and only the torn address space has lost its translations |
| ProcessMemory.CopyPagetable | kernel/mem/vmm.c:106-131 | the new root is entry for entry the kernel's root, the copied inner tables stay unlinked, and it fails only when no frame is left |
| ProcessMemory.RootAdded | kernel/mem/vmm.c:286-325 | a root filled from the kernel's is a well-formed address space without user pages, with the kernel's half |
| ProcessMemory.EveryRootSharesKernel | kernel/mem/vmm.c:286-325 | every address space shares the kernel root's entries at and above VA_MAX, whatever was mapped, allocated or torn down since it was made |
| ProcessMemory.MapStack | kernel/mem/vmm.c:303-313 | one stack page is mapped, or memory has run out |
| ProcessMemory.TakeThree | kernel/mem/vmm.c:295-325 | three distinct fresh frames exactly if the list has three, else what was taken is given back |
| ProcessMemory.ThreeStacks | kernel/mem/vmm.c:303-313 | the three mappings together give the three stack pages and no other; one can be missing only if memory ran out |
| ProcessMemory.UserPagetableNew | kernel/mem/vmm.c:286-325 | the new address space has its three stack pages (unless memory ran out), the kernel's entries at and above VA_MAX and no other page; no other address space or kernel table changes, and it fails only with at most two frames left |
| ProcessMemory.KernelRootKept | kernel/mem/vmm.c:286-325 | making an address space leaves the kernel's tables fit for making the next one |
| Exec.AllocateWrites | kernel/mem/vmm.c:204-238 | seen from the process, allocating pages writes zeroes where nothing was mapped |
| Exec.LoadPage | kernel/userspace/exec.c:72-94 | one turn of the loading loop writes those bytes of the file into that page, and a short read what there was |
| Exec.LoadSegment | kernel/userspace/exec.c:72-94 | the whole file part appears at the segment's address; fails only if the file is too short, panics only on an unmapped page, and loops forever only if the 32-bit counter wraps |
| Exec.ReadsAsFileIff | kernel/userspace/exec.c:72-94 | a segment that was accepted reads as the bytes its header asks for, then zeroes, if and only if it has no file part or its size and offset are below 2^32 |
| Exec.OffsetCutDown | kernel/userspace/exec.c:72-73 | a header asking for bytes at 2^32 of a 16-byte file is accepted and loaded from offset 0 |
| Exec.SizeCutDown | kernel/userspace/exec.c:72-73 | a header asking for 2^32 bytes of a 16-byte file is accepted and reads as zeroes |
| Exec.LoadOne | kernel/userspace/exec.c:124-144 | a loaded segment reads as what load_segment was given and then zeroes to the end of its last page, on pages that were free and now have exactly the protection the header asks for; in every outcome mapped pages, other address spaces and kernel tables stay; says when it is refused, panics or never ends |
| Exec.LoadProgram | kernel/userspace/exec.c:124-144 | after the header loop all segments read as their images and are protected as asked at the same time, nothing at or above the page-aligned end was mapped; no header was refused and none clashes; a panic comes from a header that maps nothing, a page outside the user range, one mapped at the start or one of an earlier segment; every outcome only adds pages |
| Exec.DataEndIsHighest | kernel/userspace/exec.c:142-143 | the end of the data is the highest rounded-up end of a segment: no segment reaches past it and some segment reaches it |
| Exec.ClashIsClashes | kernel/userspace/exec.c:135-138 | whether a header panics can be told from the headers and the initial pages alone |
| Words.WordRoundTrip | kernel/userspace/exec.c:157-165 | a little-endian word reads back as the value written |
| Words.ByteOf | kernel/userspace/exec.c:157-165 | byte i of a word is the one of weight 256^i |
| UserStack.BlockDisjoint | kernel/userspace/exec.c:145-167 | the argument strings and the pointer array do not overlap |
| UserStack.Put | kernel/mem/vmm.c:448-470 | a copy into the stack page succeeds and writes just those bytes |
| UserStack.WriteArguments | kernel/userspace/exec.c:145-167 | writes the strings, the pointers and the null pointer at their addresses and nothing outside the stack; the stack pointer is the highest address 8 modulo 16 below argv |
| UserStack.ReadsWord | kernel/userspace/exec.c:157-165 | a program reading the eight bytes sees the word |
| UserStack.ArgumentsDecode | kernel/userspace/exec.c:145-167 | a program following argv finds exactly its first argc arguments as NUL-terminated strings, then a null pointer |
| UserStack.StringUnique | kernel/userspace/exec.c:145-167 | only one NUL-terminated string can be read at an address, so the decoding is unique |
| UserStack.WriteContext | kernel/userspace/exec.c:169-181 | the first context lies at the top of the interrupt stack, where the process is resumed, with each value in the register it belongs to |
| UserStack.ContextDecode | kernel/userspace/proc.h:19-27 | read back in the order they are popped, the words of the first context are entry point, stack pointer, argv, argc, two zeroes and the address of the jump to user mode |
| Launch.SbrkAllocate | kernel/mem/vmm.c:400-416 | growing the break maps exactly the missing pages, zeroed, writable and not executable; it panics only if a page is in the way, and keeps the stacks, the other address spaces and the kernel's tables in every outcome |
| Launch.HeapNotBlocked | kernel/mem/vmm.c:400-416 | with the heap in order, nothing is in the way below the user stack, so the remap panic is unreachable |
| Launch.HeapAfter | kernel/mem/vmm.c:400-416 | after growth the heap pages are exactly those below the new break |
| Launch.ProcSbrk | kernel/userspace/proc.c:201-217 | returns the old break; the heap stays in order, so that any sequence of growing calls below the user stack never panics; the stacks stay mapped for the teardown |
| Launch.NewSpaceIsEmptyIff | kernel/mem/vmm.c:286-325 | a new address space has its stacks, writable, not executable and with the privilege of each, and nothing else if and only if all three could be mapped, which they are unless memory ran out |
| Launch.StacksStay | kernel/userspace/exec.c:124-181 | loading segments leaves the stacks mapped and writable |
| Launch.StacksKept | kernel/mem/vmm.c:376-394 | stacks that are mapped stay mapped when pages are added, so that teardown does not panic |
| Launch.ImageOffStack | kernel/userspace/exec.c:145-181 | writing arguments and context leaves the loaded segments alone |
| Launch.ExecImage | kernel/userspace/exec.c:104-229 | a started process has all its segments with their protection, its arguments, its context, an empty heap, its three stacks with their rights and the kernel's half in place together; a refused one has every table and stack freed exactly once and leaves other address spaces and the kernel alone; says why it is refused and why it panics |
| Launch.StartedReadsFileIff | kernel/userspace/exec.c:104-229 | in a started process a segment reads as its header asks if and only if its size and offset fit in 32 bits |
| PageCache.StealKeepsView | kernel/mem/pagecache.c:147-153 | writing an entry back and invalidating it changes what no block reads as |
| PageCache.FillView | kernel/mem/pagecache.c:229-234 | claiming a free entry changes what one block reads as |
| PageCache.UpdateView | kernel/mem/pagecache.c:271-285 | overwriting a cached page changes what its block reads as, and no other |
| PageCache.GrowView | kernel/mem/pagecache.c:204-218 | adding a frame of free entries changes nothing that can be read |
| PageCache.PassThroughView | kernel/mem/pagecache.c:274-278 | writing past the cache is seen by later readers, because the block is not cached |
| PageCache.Store.Search | kernel/mem/pagecache.c:179-195 | finds the entry of the block if there is one, and a free entry |
| PageCache.Store.DoSteal | kernel/mem/pagecache.c:114-157 | one valid entry is written back and given up, or none is valid; the cache still agrees with the plain disk |
| PageCache.Store.Steal | kernel/mem/pagecache.c:291-296 | memory pressure never changes what blocks read as |
| PageCache.Store.GetEntry | kernel/mem/pagecache.c:166-245 | a hit, a claimed free entry for an uncached block, or nothing; at most one valid entry per block throughout |
| PageCache.Store.Read | kernel/mem/pagecache.c:251-265 | returns the page last written to the block, or the initial disk page; a cached block has used its second chance |
| PageCache.Store.Write | kernel/mem/pagecache.c:271-285 | later reads see this page, and all other blocks as before; a cached block is marked dirty |
| Nvme.OldUntilAnswered | kernel/device/nvme.c:214-253 | the entry at the head looks new exactly after the controller has answered the command just submitted, and the controller always has room to answer |
| Nvme.RoundTrip | kernel/device/nvme.c:214-253 | a whole command leaves host and controller in step one place further on, also across a wrap |
| Nvme.Queue.constructor | kernel/device/nvme.c:150-163 | zeroed queues with phase 0 are in step |
| Nvme.Queue.Position | kernel/device/nvme.c:214-253 | index and phase are determined by the number of commands: position in the lap, and parity of the laps |
| Nvme.Queue.DoOneCommand | kernel/device/nvme.c:214-253 | however long the controller takes, the call returns after exactly one new completion, with both doorbells rung and both ends in step |
| Nvme.Queue.AwaitCompletion | kernel/device/nvme.c:214-253 | the polling loop never takes an entry of an earlier lap for the answer |
| Inodes.AcquireKeepsIff | kernel/fs/fs.c:167-170 | taking a reference keeps the books right if and only if the 32-bit counter does not wrap, and then the reference is held |
| Inodes.ReleaseKeeps | kernel/fs/fs.c:176-185 | giving one reference back keeps the books right and loses no other, and a slot is emptied exactly with its last reference |
| Inodes.FillKeeps | kernel/fs/fs.c:135-159 | filling an empty slot keeps every file in at most one slot |
| Inodes.Undisturbed | kernel/fs/fs.c:96-185 | with the books right before and after, everybody who holds an inode still holds the same file |
| Inodes.EmptyIffUnheld | kernel/fs/fs.c:96-185 | as long as no reference was lost, a slot counts exactly its holders and is empty exactly when nobody holds it |
| Inodes.OpenedKeeps | kernel/fs/fs.c:96-162 | a successful open keeps the books, gives the file asked for and disturbs no holder; a slot newly filled has the kind, parent, size and number CrowFS reported, and one already there only counts one more |
| Inodes.Undone | kernel/fs/fs.c:96-185 | opening and closing again leaves the inode table as it was |
| Inodes.Files.FsOpen | kernel/fs/fs.c:96-162 | counts the slot that already holds the file, else fills the last empty slot with what CrowFS reported, else fails and changes nothing |
| Inodes.Files.FsDup | kernel/fs/fs.c:167-170 | one more reference, with the books kept |
| Inodes.Files.FsClose | kernel/fs/fs.c:176-185 | one reference less, and the last one clears the slot |
| Inodes.Files.AllocateFd | kernel/userspace/proc.c:116-130 | the smallest free descriptor, or -1 exactly when all are taken |
| Inodes.Files.FileOpen | kernel/fs/file.c:14-41 | a free descriptor now refers to the named file; failure leaks nothing and has one of three reasons |
| Inodes.Files.SysClose | kernel/fs/syscall.c:73-93 | a file's descriptor is dropped with its reference, a device's is left alone, and an empty one gives -1 |
| Inodes.Files.SysChdir | kernel/fs/syscall.c:178-188 | the process is in the named directory, also when it was there already, and exactly its old reference is given back |
| Inodes.Files.ProcExit | kernel/userspace/proc.c:135-144 | all files of the process are closed, and nobody else's; each of its descriptors gives back its one reference, and one reference is left that nobody holds, the one to its working directory |
| Inodes.Files.SetWorkingDirectory | kernel/userspace/exec.c:211-217 | the child has its own reference to the parent's working directory, or to the root |
| Inodes.Files.OpenStandardFiles | kernel/userspace/exec.c:183-203 | the child's first three descriptors are the serial device, and no holder is disturbed |
| Inodes.Files.ProcExec | kernel/userspace/exec.c:104-229 | the program's inode is given back on every path, so that every reference taken is held in the end; a failed exec leaves the inode table as it was, and a started child has its working directory and three serial descriptors |
| Dirents.RecordSurvives | kernel/fs/fs.c:269-309 | no record overwrites an earlier one, although names start in the padding of the header |
| Dirents.FitCountIff | kernel/fs/fs.c:269-309 | the packing loop takes the greatest number of leading records that end before the buffer does |
| Dirents.WriteRecord | kernel/fs/fs.c:287-301 | the bytes of one record are in place and no other byte changes |
| Dirents.FsReaddir | kernel/fs/fs.c:269-309 | packs exactly the records that fit, from the offset on, and reports their number, -1 for a file and -2 when CrowFS fails |
| Dirents.SysReaddir | kernel/fs/syscall.c:199-213 | the offset advances by exactly the entries delivered |
| Dirents.AtFields | include/file.h:30-38 | the fields of a record read back as what was stored, and the name ends at its first zero byte |
| Dirents.ReadRecord | user/ls.c:29-32 | one line for the record, and the distance to the next |
| Dirents.PrintRecords | user/ls.c:27-33 | a packed buffer reads back as exactly the entries packed into it, in order |
| Dirents.Ls | user/ls.c:17-37 | repeated calls show a prefix of the directory, each entry once and in order |
| Dirents.ListsUntilTooLong | user/ls.c:17-37 | without an error the listing stops exactly at the first entry whose record cannot fit |
| Dirents.BrokenLosesEntries | kernel/fs/fs.c:276-281 | an error after some entries loses the last batch of them |
| Dirents.ListsEverythingIff | user/ls.c:17-37 | everything is listed if and only if every record fits in 512 bytes and CrowFS reports no error, or there is nothing to list |

## Where the code departs from its comments

The model follows the code.

- `copy_pagetable` is described as a deep copy, but the inner tables it allocates and fills are linked from nowhere, so the new root shares the kernel's own inner tables (`ProcessMemory.CopyPagetable`).
- The last level of teardown is described as receiving a data frame, but it receives the last-level table: that is freed, and no data frame is (`AddressSpace.FreeRecursive`).
- The page cache describes reusing a stolen page for the block being looked up, but after a steal it passes the block through to the disk (`PageCache.Store.GetEntry`).
- `malloc` does not check its size computation, which fails for the last fifteen values of `size_t` and for what `sbrk` cannot express (`Allocator.CapacityIff`, `Allocator.SbrkArgumentIff`).
- `vmm_user_pagetable_new` ignores the results of its three `vmm_map_pages` calls, so when memory runs out there it returns an address space without all its stacks, and tearing that down, as a refused exec does, panics (`Launch.NewSpaceIsEmptyIff`, `AddressSpace.UserPagetableFree`).
- `load_segment` takes the 64-bit offset and file size of a program header as 32-bit numbers, so a header that points outside the file can be accepted and read the wrong bytes (`Exec.OffsetCutDown`, `Exec.SizeCutDown`, exact condition `Exec.ReadsAsFileIff`); its 32-bit counter never passes a size above 2^32 - 4096 (`Exec.LoadSegment`).
- `fs_readdir` reports -2 for an error also after it has packed entries, so those are lost to the caller (`Dirents.BrokenLosesEntries`).

## Left out

- Allocator.Heap.Malloc: when no free run is large enough, requests for which sbrk would be asked for 2^31 bytes or more are excluded, since the system call truncates its argument to an int there; `Allocator.SbrkArgumentIff` is the exact condition.
- Allocator.Heap.Morecore: the same bound on the request.
- Kernel.Kernel.ProcWait: waiting for one's own pid is excluded; the source would take a lock it holds and panic.
- UserStack.WriteArguments: arguments that do not fit the stack page are excluded; the source ignores the failed copies.
- Launch.ProcSbrk: only growth; shrinking (`vmm.c:424-440`) is not modelled.
- Launch.ExecImage: starts from an address space whose three stacks could be mapped; `Launch.NewSpaceIsEmptyIff` says when that is. Arguments must fit the stack page.
- Vmm.Manager.Kalloc: the fallback of `kalloc` to stealing from the page cache is not modelled.
- Kernel.Kernel.LoadAdditionalData: the reload of the gs base is not modelled.
- Kernel.Kernel.VisitSlot: installing page tables is not modelled, and the teardown of a reaped slot is `AddressSpace.UserPagetableFree`.
- PageCache.Store.DoSteal: which valid entry the clock hand picks is left open, because the hand's movement has no bearing on what blocks read as.
- PageCache.Store.Read: when there is neither a free page nor anything to steal, the source goes on with a null page; this is reported as a failure.
- PageCache.Store.Write: the same.
- Inodes.Files.SysClose: descriptor 16, which the source's bounds test lets through, is excluded.
- Inodes.Files.ProcExit: the reference to the working directory stays taken, as in the source; the contract says that this one and no other is left over.
- malloc's search is written as two turns of one loop, and free's search as a method of its own; links and sizes are maps from unit addresses.
- Exact conservation of physical frames: `copy_pagetable` leaks its inner tables, and teardown does not free data frames.
- The buffers `nvme_read` and `nvme_write` take.
- Physical frame 0 is taken not to be among the frames given to the free list at start.
- A read past the end of a file is taken to deliver the bytes there are.
- More than one CPU, and the record of which CPU holds a lock. The locks of the frame list, the inode table and the page cache are not in the lock set.
- Interrupts are possible whenever no lock is held, which is more often than on the hardware.
- The width of an entry's address field: a frame number is stored as it is.
- Page-table entry bits other than present, writable, user, no-execute, large page and address; `vmm_io_memmap`.
- Reading the ELF header and program headers from the file: a header that cannot be read is an input.
- CrowFS itself, rename, unlink, mkdir, file contents and sizes, seek: CrowFS is the answers it gives.
- A directory's dates are kept as their 64 bits; `ls` prints them as signed numbers.
- realloc and calloc, string and printf routines, the shell, frame buffer, real-time clock, PCIe, APIC, GDT, IDT and assembly stubs: they would only add easy members.

# A verified model of the vladOS kernel

vladOS is a small single-core kernel. Interrupts are off while it changes its own
state, so every spawn, interrupt and system call is one atomic step on one global
object: tasks, processes, open files and user address spaces. This project models
that object, proves what every step keeps, and derives from it what holds over every
run. It also models the memory below (frames, four-level page tables, checked copies)
and the ELF writer, parser and loader.

The files, bottom up:

| file | what it holds |
|---|---|
| `Base`, `UserSpaces` | word and page arithmetic; user memory as pages of bytes, copies one byte at a time |
| `FrameAllocation`, `PageTables`, `TableUpdates`, `Memory` | physical frames, the four-level walk of the kernel and of the MMU (Intel SDM volume 3A, sections 4.5 and 4.6), ownership of frames, the operations on address spaces |
| `UserMemory` | the page-wise copy loops, equal to the byte-wise copies |
| `LittleEndian`, `ElfFormat`, `ElfAcceptance`, `ElfWriter`, `UserLayout`, `ElfLoader`, `BuiltinPrograms` | ELF64 files (System V gABI, chapter 4 "ELF Header" and chapter 5 "Program Header"): written, parsed, loaded; the programs the kernel carries itself; the heap of a program |
| `Files`, `Processes`, `ProcessTables` | open files, descriptors, processes: functions and the objects that carry them out |
| `Kernel` | the kernel as a state machine: the step of every event |
| `Invariants`, `Preservation`, `HeapSteps`, `SpawnSteps`, `WaitSteps`, `ExitSteps`, `Runs` | the invariant and the proof that every step keeps it |
| `Progress`, `Transitions`, `Reporting`, `Fairness`, `OpenFiles`, `Layouts`, `Families`, `Zombies` | theorems over every run |
| `CallResults`, `Dispatching`, `FileCalls`, `OtherCalls` | the exact outcome of every event, in numbers, bytes and indices, without the step functions |
| `Programs` | from the file written at build time to the running process |
| `Schedulers` | the scheduler object, which carries its own run from boot |

How the parts meet. `Schedulers.Scheduler` owns the real fields, the process table, the
open-file table and the memory. Its ghost `State()` is the `Kernel` value those fields
represent. Its ghost fields `states` and `events` are its history. `Booted()` says that
the history is a run from the initial state and ends in `State()`. Every method that
scheduler.rs offers to interrupts, system calls and the rest of the kernel asks for
`Booted()` and ensures it again with its own event appended. Loading an ELF file and
spawning it appends two events, a failed load one or none. So every theorem about
`FromBoot(ks, es)` speaks of the object's own `states` and `events`. In the same way the
methods of `Memory.MemoryState` are stated over the ghost field `spaces`, what user mode
sees through every level-4 table, which `Valid()` ties to the bits of the tables.

Besides the calls of scheduler.rs, two events stand for the hardware: a fault in user
mode, and a store by a user program that the MMU lets through. Such a store reaches a
writable page of the running program's own address space, so the theorems about memory
hold whatever programs write.

The table sizes (MAX_TASKS, MAX_PROCESSES, MAX_OPEN_FILES, MAX_FDS_PER_PROCESS) and the
embedded files are arbitrary parameters. All that is asked of them is room for one
task, one process, one open file and the three standard descriptors.

Where the code and its documentation disagree, the model follows the code:

- `docs/code_walkthrough/file_descriptors_and_basic_io.md:51` says a new slot is pushed
  until the open-file table is full. The code makes all slots at the first allocation.
- `docs/code_walkthrough/process_lifecycle.md:59` says the child of a parent that has
  exited is parentless. That holds for children that existed when the parent exited.
  `can_create` still accepts a parent that is a zombie, and a child spawned that way
  keeps the link. `Zombies.ZombieParentReached` is a run from boot that gets there, and
  `Families.SpawnKeepsParentsAlive` gives the exact condition.

One thing a reader may expect does not hold: that every zombie can be collected. A
process without a parent, or whose parent has itself ended, keeps its slot for good.
`Zombies.BuiltinStranded` is a run from boot, of a program the kernel carries itself, that
leaves such a zombie. `Zombies.ReapableExactly` says that a zombie can still leave the table if and only if its
parent is alive.

## Model

| member | source | states |
|---|---|---|
| Runs.StepKeepsInv | src/scheduler.rs:60-690 | every event keeps the whole invariant: tasks against processes, family tree, waiters, reference counts, address spaces, heaps, CR3 and its cache |
| Runs.BootRunInv | src/scheduler.rs:47-58 | the invariant holds in every state reachable from boot |
| Progress.WaitChainEnds | src/scheduler.rs:241-309 | every chain of tasks waiting for each other's processes ends in a task that is ready or running |
| Progress.BlockingAlwaysSwitches | src/scheduler.rs:283-307 | a blocking waitpid always finds another task to run, so its return-to-main branch is never taken |
| Progress.MainRegainsControl | src/scheduler.rs:226-238 | a step gives control back to main if and only if it leaves every task finished or failed |
| Progress.NeverStuck | src/scheduler.rs:241-309 | over every run from boot, while a task is unfinished some task can run, and control returns to main only when none is |
| Progress.IdleMeansDone | src/scheduler.rs:135-139 | with no task current, nothing is ready exactly when every task is terminal |
| Transitions.StepTasks | src/scheduler.rs:60-366 | exactly what a step does to the tasks: a ready one starts running and keeps its saved result, a blocked one becomes ready exactly when its child ends and then with the child's pid in rax, a terminal one never changes, a running one changes only its state and rax, or ends in exactly the events meant for that, with the exit code or fault recorded and nothing else changed; a spawn appends one exact record, nothing else appends |
| Transitions.UnreportedWait | src/scheduler.rs:248-276 | the cases in which waitpid touches no table and no memory |
| Transitions.StepProcs | src/process.rs:196-363 | what a step does to every process: who leaves the table and why, who becomes an orphan or a zombie; child lists change by exactly the pid spawned or gone, descriptors only by the owner's own open, close or end, the break only by the owner's own brk; a new process has the next pid and, descriptors apart, an exact record |
| Transitions.AliveStays | src/process.rs:295-363 | a live process stays in the table and alive until it ends itself |
| Dispatching.SwitchResult | src/scheduler.rs:177-192 | a yield, or the timer with preemption on, runs the ready task at the smallest cyclic distance, in its own address space, and leaves the one that ran ready with its registers kept (rax 0 after the system call); with none ready it goes on; with preemption off the timer changes nothing; no other field of the kernel differs |
| Dispatching.NearestExists | src/scheduler.rs:119-133 | that task exists and is unique whenever any task is ready |
| Dispatching.RunResult | src/scheduler.rs:788-805 | run starts the ready task of lowest index in its own address space, or changes nothing |
| Dispatching.EndPicksNearest | src/scheduler.rs:226-238 | after an exit or fault the nearest task that can run, a parent just woken included, runs; control goes to main exactly when there is none |
| Dispatching.WaitRefused | src/scheduler.rs:248-276 | the errors of waitpid in the order of its checks: ECHILD, EINVAL, ECHILD, EFAULT, and nothing else changes |
| Dispatching.WaitOnLiving | src/scheduler.rs:283-307 | on a living child option 1 returns 0 and changes nothing else; option 0 blocks the caller on exactly that child and pointer, and the nearest ready task, of which there always is one, runs |
| Dispatching.WaitOnEnded | src/scheduler.rs:277-282 | on an ended child either option returns its pid, stores exactly the eight status bytes if wanted, and removes the child from the table and the caller's list; nothing else changes |
| Dispatching.ChildIsListed | src/process.rs:289-293 | a listed child is in the table, so these are all the cases |
| Reporting.ChildEndWakes | src/scheduler.rs:311-366 | when a child exits or faults, the task blocked on it can run, gets its pid, has the eight status bytes stored and nothing else changed in any memory, and the child is reaped; no wake-up ends in EFAULT or ECHILD |
| Reporting.WaitIsAnswered | src/scheduler.rs:241-366 | over any run, a task that blocked in waitpid is answered that way by the step that ends the child, however much later, and still has the child's pid in rax when it is dispatched, however much later that is |
| Reporting.ResultKept | src/scheduler.rs:177-192 | over any run a ready task's result is untouched until it runs |
| Layouts.AnswerSurvives | src/scheduler.rs:345-397 | over any run a ready process's whole memory, the status just stored included, is untouched until it runs, unless the kernel itself is asked to copy into it |
| Layouts.AnswerIsRead | src/scheduler.rs:241-397 | both together, from blocking to reading: when the task runs again its result is the child's pid, and the eight bytes it reads at its status pointer decode to how the child ended and the low 32 bits of its code |
| Layouts.PollIsRead | src/scheduler.rs:278-343 | the same when waitpid finds the child already ended: the bytes tell of the very step in which it ended |
| Reporting.BlockedUntilChildEnds | src/scheduler.rs:283-292 | until then it stays blocked, unchanged, on a child that stays alive |
| Reporting.PollReports | src/scheduler.rs:278-282 | waitpid on a child that has ended returns the pid, stores the recorded status and reaps it |
| Reporting.WaitReturns | src/scheduler.rs:241-309 | for pids that are not also error numbers: a waitpid either blocks on the child named, or returns its pid exactly when the child had ended and is reaped by this very call |
| Reporting.UnreportedWaitKeepsAll | src/scheduler.rs:248-276 | a waitpid that blocks, or returns anything but the child's pid, leaves processes, files and all memory alone; what it then returns is 0 or an error number, and nothing but rax changes |
| Reporting.AnsweredIsReported | src/scheduler.rs:278-366 | whenever a call or a blocked task gets a child's pid back, that child was a zombie or ended in this step, and it is reaped |
| Reporting.ReportedOnce | src/process.rs:327-350 | over any run a child's pid (below the error numbers) is returned by waitpid at most once, to one task |
| Reporting.ZombieEnded | src/process.rs:295-303 | the status a zombie carries is how that process ended, at an earlier step of the run |
| Zombies.ZombieStays | src/process.rs:305-322 | over any run a zombie's whole record, apart from children spawned under it, stays as it is until its parent is told of it or ends |
| Zombies.ReportedToLiving | src/process.rs:327-350 | an end is only ever reported to a parent that is alive |
| Reporting.GoneForever | src/process.rs:207-208 | a pid that has left the table never comes back |
| Reporting.TerminalForever | src/scheduler.rs:202-209 | a finished or failed task never changes again |
| Fairness.BoundedBypass | src/scheduler.rs:119-133 | a ready task has run once the current task has changed MAX_TASKS - 1 times (MAX_TASKS from idle), whatever is spawned, ends or blocks meanwhile |
| Fairness.StepCloser | src/scheduler.rs:177-192 | each change of current task strictly reduces the cyclic distance, modulo MAX_TASKS, to any task left ready |
| OpenFiles.SlotHasHolder | src/file.rs:71-123 | a slot of the open-file table is occupied exactly when some descriptor refers to it, and its holder is not a zombie |
| OpenFiles.HolderIsUnique | src/fd.rs:54-61 | no two descriptors, of one process or two, refer to the same open file |
| OpenFiles.ReadsConcatenate | src/scheduler.rs:458-514 | while a file stays open, what its holder received between two moments is the file's content between the two offsets, whatever else happens |
| OpenFiles.OpenedFileDelivers | src/scheduler.rs:409-456 | from a successful open on, everything received is the named file from its start up to the offset, and the offset stays within the file |
| OpenFiles.ReadExact | src/scheduler.rs:486-511 | one read: the next bytes arrive in the buffer and the offset moves by as many, or the file does not move, faults included |
| OpenFiles.OpenStartsAtZero | src/scheduler.rs:427-455 | a successful open puts the file with exactly that path, at offset zero, in a slot that was free |
| OpenFiles.OutputIsWhole | src/scheduler.rs:516-574 | only a write adds to the output, and then exactly its whole buffer, returning its length |
| FileCalls.OpenOrNot | src/fd.rs:63-65 | a descriptor is either not open or has exactly one file behind it |
| FileCalls.CloseResult | src/fd.rs:75-85 | close of an open descriptor returns 0, empties it and frees its slot, and changes nothing else; otherwise it returns EBADF and changes nothing else |
| FileCalls.WriteResult | src/scheduler.rs:516-574 | write prints exactly the buffer and returns its length if and only if the descriptor is open for writing on standard output or error and every byte is readable; otherwise EBADF or EFAULT, nothing printed; 0 for length 0 |
| FileCalls.ReadResult | src/scheduler.rs:458-514 | read delivers exactly the bytes asked for and left, moves the offset by their number and returns it; with an unwritable buffer EFAULT, the bytes before the first bad one stored and the offset kept; 0 from the null input; EBADF otherwise; nothing else changes |
| FileCalls.ZeroMeansEnd | src/scheduler.rs:493-495 | a read of at least one byte from a file returns 0 if and only if the offset is at its end |
| FileCalls.OpenRefused | src/scheduler.rs:415-440 | the errors of open in the order of its checks: EINVAL, ENOENT, ENAMETOOLONG, EBADF, EFAULT, ENOENT, and nothing changes |
| FileCalls.OpenResult | src/scheduler.rs:440-455 | open of an existing path returns the lowest free descriptor, for the lowest free slot with the first file of that name at offset 0; it fails exactly when there is no free slot (ENFILE) or descriptor (EMFILE), and then changes nothing |
| FileCalls.EndCloses | src/process.rs:301-303 | the end of a process frees exactly the slots it held and leaves every other open file as it is |
| Layouts.StepSpaces | src/scheduler.rs:385-397 | no step changes a byte of an address space unless it is the caller's own, one named by the kernel, or a told parent's; no step but brk changes a mapping |
| Layouts.BrkAtomic | src/scheduler.rs:592-640 | brk fails and changes nothing, or moves the break; within the window it fails only if pages are needed and frames have run out |
| Layouts.MovedBytes | src/address_space.rs:181-224 | after a brk the window holds exactly the pages up to the new end, bytes that stay mapped keep their values and every newly mapped byte is zero |
| Layouts.LayoutForever | src/process.rs:82-116 | over any run a process's pages are those outside its heap window, which never change, and the heap's own up to align_up(brk), with start <= brk <= mapped_end <= limit |
| Layouts.ProgramForever | src/elf.rs:65-103 | over any run the mapped pages of a loaded process are exactly its segments, its stack and its heap, and every segment page stays writable exactly with PF_W |
| Layouts.ReadOnlyForever | src/user_memory.rs:118-137 | a page that is not writable keeps every byte for as long as its process is in the table, whatever any process or system call does |
| HeapSteps.BrkExact | src/scheduler.rs:592-640 | the outcome of brk for every request, as one case distinction on the request, the window and the frames |
| OtherCalls.BrkResult | src/scheduler.rs:592-640 | the number brk returns, EINVAL and ENOMEM included, the recorded break, the pages of the heap window and their bytes, for every request; nothing else changes |
| OtherCalls.PlainResult | src/syscall.rs:108-113 | getpid returns the caller's pid, ECHILD to a kernel task; an unknown call returns ENOSYS; nothing else changes |
| CallResults.ErrorNumbers | src/syscall.rs:5-70 | the number a caller sees for each error |
| OtherCalls.SpawnResult | src/scheduler.rs:80-111 | a spawn succeeds exactly when there is room in the task and process tables, the parent named is in the table and three files are free; the whole new state in each case |
| OtherCalls.StoreResult | src/scheduler.rs:656-675 | a store by a user program changes one byte of its own address space and nothing else |
| OtherCalls.CopyResult | src/scheduler.rs:957-976 | the kernel's copy into a task's memory stores the bytes up to the first that may not be written, all of them if there is none, and changes nothing else |
| OtherCalls.KernelResult | src/scheduler.rs:772-823 | kernel tasks, new address spaces, task arguments and the preemption flag: the whole new state |
| OtherCalls.PreemptionKept | src/scheduler.rs:813-823 | nothing else changes the preemption flag |
| Families.TasksAndProcessesAgree | src/scheduler.rs:647-690 | in every reachable state: running means current, unfinished user tasks and live processes pair up, CR3 and its cached value are the current task's table |
| Families.FamilyTree | src/process.rs:196-230 | in every reachable state: child lists have no duplicates, hold exactly the processes naming the owner as parent, all younger, pairwise disjoint, and every orphan is alive |
| Zombies.ZombieParentReached | src/process.rs:232-245 | for all table sizes with room for two processes and for every program, a run from boot that strands a zombie and ends with it as the parent of a live process |
| Zombies.BuiltinStranded | src/process.rs:352-363 | in particular for every built-in program: a reachable zombie that no continuation of the run removes |
| Families.SpawnKeepsParentsAlive | src/process.rs:196-245 | a spawn keeps every parent link leading to a live process if and only if the parent named, if any, is alive |
| Families.OthersKeepParentsAlive | src/process.rs:305-322 | no other step lets a parent link dangle |
| Zombies.StrandedForever | src/process.rs:352-363 | a zombie without a living parent (it has none, its parent is a zombie, or its parent is gone) stays in the table for the rest of any run, its record kept, and no waitpid ever reports it |
| Zombies.RunningParentReaps | src/scheduler.rs:278-282 | the other half: while its parent runs, waitpid with WNOHANG returns the zombie's pid and removes it |
| Zombies.EndingParentReaps | src/process.rs:305-322 | and when its parent ends, the zombie is removed with it |
| Zombies.CanStillBeReaped | src/scheduler.rs:194-309 | from every state that satisfies the invariant, if a zombie's parent lives there is a run, built step by step, after which the zombie is gone |
| Zombies.ReapableExactly | src/process.rs:305-363 | in every reachable state a zombie can still leave the table if and only if its parent is alive |
| Invariants.NextReadyFinds | src/scheduler.rs:119-133 | next_ready_after finds the nearest ready task, and none exactly when no task is ready |
| Invariants.FirstReadyFinds | src/scheduler.rs:135-139 | first_ready finds the ready task with the lowest index |
| Processes.StatusReadBack | src/process.rs:37-60 | from the status bytes a parent reads back whether the child faulted and the low 32 bits of its exit code |
| Processes.MarkExitedFamily | src/process.rs:295-325 | after an exit the table is a family tree again: zombie children gone, live ones orphaned, nobody else touched |
| Processes.ReapChildFamily | src/process.rs:327-350 | reaping a child keeps the family tree |
| Processes.ReapOrphanFamily | src/process.rs:352-363 | no orphaned zombie is left |
| Processes.CreateFamily | src/process.rs:196-230 | creating a process keeps the family tree |
| Files.StdioRollsBack | src/fd.rs:21-46 | if any of the three allocations fails, the open-file table is as it was |
| Files.StdioCounts | src/fd.rs:21-46 | three new references on success, none on failure |
| Files.StdioExact | src/fd.rs:21-46 | descriptor 0 is the null input, read only, 1 and 2 are standard output and error, write only, in the three lowest free slots, no other descriptor is open; with fewer than three free slots nothing is opened |
| Files.CloseAllCounts | src/fd.rs:87-93 | closing a whole table gives back exactly the references it held |
| Files.AllocThenDecRef | src/file.rs:71-123 | releasing a slot undoes its allocation |
| Files.OpenFileTable.Alloc | src/file.rs:71-95 | takes the lowest free slot, or reports a full table |
| Files.OpenFileTable.Release | src/file.rs:111-123 | one reference fewer; the slot is free when none is left |
| Files.OpenFileTable.SetOffset | src/file.rs:57-59 | changes one file's offset and nothing else |
| Files.FindNone | src/file.rs:77-80 | the lowest free entry |
| Files.CloseAll | src/fd.rs:87-93 | closes every entry in order and leaves the table empty |
| Files.MakeStdio | src/fd.rs:21-46 | descriptors 0, 1 and 2, or the error with everything rolled back |
| Preservation.OpenFilesKept | src/scheduler.rs:435-455 | reference counts still add up after an open, an ENFILE and an EMFILE |
| Preservation.CloseFilesKept | src/fd.rs:75-85 | and after a close |
| ExitSteps.ExitRefs | src/process.rs:301-303 | an exit gives back exactly what the process held; zombies it removes held nothing |
| ExitSteps.ExitExact | src/scheduler.rs:211-224 | an exit turns the process into a zombie and then reaps it if its parent waits or is gone, or leaves it to be found |
| ExitSteps.OneWaiter | src/scheduler.rs:345-357 | at most one task waits for a given child |
| WaitSteps.CompleteWaitExact | src/scheduler.rs:311-343 | once its checks hold, complete_wait stores the status, reaps the child and returns its pid |
| SpawnSteps.SpawnKeepsInv | src/scheduler.rs:80-111 | spawning a process keeps the invariant on success and on every failure |
| ProcessTables.ProcessTable.CanCreate | src/process.rs:232-245 | the answer of `CanCreate` on the processes in the table |
| ProcessTables.ProcessTable.ActiveCount | src/process.rs:365-370 | counts the processes |
| ProcessTables.ProcessTable.Create | src/process.rs:196-230 | a new process under the next pid, listed by its parent, or an error and no change |
| ProcessTables.ProcessTable.MarkExited | src/process.rs:295-325 | zombie, descriptors closed, children orphaned or dropped |
| ProcessTables.ProcessTable.ReapChild | src/process.rs:327-350 | removes a zombie child and returns its exit, or says why not |
| ProcessTables.ProcessTable.RemoveChild | src/process.rs:168-170 | drops one pid from a child list and keeps the others in order |
| ProcessTables.ProcessTable.ReapOrphanIfZombie | src/process.rs:352-363 | removes an orphaned zombie |
| ProcessTables.CountsProcesses | src/process.rs:365-370 | the occupied slots are as many as the processes |
| Schedulers.Scheduler.constructor | src/scheduler.rs:47-58 | the initial state, with an empty history |
| Schedulers.Scheduler.NextReadyAfter | src/scheduler.rs:119-133 | the scan once around the table |
| Schedulers.Scheduler.FirstReadyTask | src/scheduler.rs:135-139 | the scan from the start |
| Schedulers.Scheduler.SwitchToTaskAddressSpace | src/scheduler.rs:656-675 | CR3 holds the task's table afterwards; the process it needs is always there |
| Schedulers.Scheduler.SwitchFromInterrupt | src/scheduler.rs:166-192 | exactly the switch step |
| Schedulers.Scheduler.FinishCurrentFromInterrupt | src/scheduler.rs:194-239 | exactly the exit or fault step; marking the process exited never fails |
| Schedulers.Scheduler.EndProcess | src/scheduler.rs:211-224 | exactly the process part of that step |
| Schedulers.Scheduler.FinishCurrentTask | src/scheduler.rs:1074-1095 | a kernel task returned: the history grows by exactly that step |
| Schedulers.Scheduler.WaitpidFromInterrupt | src/scheduler.rs:241-309 | exactly the waitpid step, errors included |
| Schedulers.Scheduler.CompleteWaitOf | src/scheduler.rs:311-343 | exactly complete_wait, errors included |
| Schedulers.Scheduler.WakeParentWaitingFor | src/scheduler.rs:345-366 | exactly the wake-up of the first task blocked on the child |
| Schedulers.Scheduler.WriteWaitStatus | src/scheduler.rs:385-397 | stores the status bytes in the parent's memory |
| Schedulers.Scheduler.ValidateWaitStatusTarget | src/scheduler.rs:368-383 | accepts a pointer exactly when all eight bytes are writable |
| Schedulers.Scheduler.CurrentProcessId | src/scheduler.rs:642-645 | the pid of the running task, if there is one and it is a user task |
| Schedulers.Scheduler.Start | src/scheduler.rs:788-805 | the history grows by exactly the start from main |
| Schedulers.Scheduler.SysOpenCurrent | src/scheduler.rs:409-456 | exactly the open step: result, tables and the EMFILE rollback |
| Schedulers.Scheduler.FindEmbeddedFile | src/file.rs:146-151 | the first file whose path matches byte for byte |
| Schedulers.Scheduler.SysReadCurrent | src/scheduler.rs:458-514 | exactly the read step, including what a faulting copy leaves behind |
| Schedulers.Scheduler.SysWriteCurrent | src/scheduler.rs:516-574 | the pieces of 256 bytes together are the whole buffer; after the first check no piece can fail |
| Schedulers.Scheduler.SysCloseCurrent | src/scheduler.rs:576-590 | exactly the close step |
| Schedulers.Scheduler.SysBrkCurrent | src/scheduler.rs:592-640 | exactly the brk step; frames are denied only when the allocator is exhausted |
| Schedulers.Scheduler.MoveHeapPages | src/scheduler.rs:623-636 | growing within the window fails only when frames run out and then changes nothing; shrinking never fails |
| Schedulers.Scheduler.SpawnKernel | src/scheduler.rs:60-70 | the history grows by exactly the step that adds a kernel task; full exactly when the task table is |
| Schedulers.Scheduler.CreateProcess | src/scheduler.rs:80-111 | exactly the effect of the spawn step, with the pid and task returned or the reason for refusing |
| Schedulers.Scheduler.SpawnUserProcess | src/scheduler.rs:702-716 | the history grows by exactly that step |
| Schedulers.Scheduler.LoadProgram | src/elf.rs:65-103 | loading makes at most one address space, handed over or left behind by a failure; either way the history grows by the step that makes it; each failure has its cause |
| Schedulers.Scheduler.CreateBuiltin | src/user.rs:154-182 | the same for a built-in program, which then can be spawned; each failure has its cause |
| Schedulers.Scheduler.SpawnElf | src/scheduler.rs:737-770 | loads and spawns: the history grows by making the address space, which holds exactly the parsed program, and spawning from it, and the pid and task returned are the new ones; a failed load adds at most the address space it left behind; each refusal has its reason |
| Schedulers.CallIsUnderstood | src/syscall.rs:21-84 | the call a program makes, by its number and registers, is the event dispatched; numbers above 8 are unknown |
| Schedulers.Scheduler.SyscallStep | src/syscall.rs:86-157 | each system call number leads to its step, unknown ones to ENOSYS |
| Schedulers.Scheduler.Syscall | src/syscall.rs:86-157 | the history grows by exactly that step; frames are denied only when the allocator is exhausted |
| Schedulers.Scheduler.OnTimerInterrupt | src/scheduler.rs:1023-1033 | the history grows by exactly the timer step: a switch only if preemption is on and a task is current |
| Schedulers.Scheduler.OnYieldInterrupt | src/scheduler.rs:1035-1037 | the history grows by exactly the yield step |
| Schedulers.Scheduler.FailCurrentWithFault | src/scheduler.rs:1063-1072 | the history grows by exactly the step that fails the running user task |
| Schedulers.Scheduler.SetPreempting | src/scheduler.rs:813-823 | the history grows by exactly the step that sets the flag |
| Schedulers.Scheduler.StoreFromUser | src/scheduler.rs:656-675 | a store the MMU allows through CR3 changes one byte of the running process's own address space and nothing else, so it is the step of a user store |
| Schedulers.Scheduler.CopyToUserOf | src/scheduler.rs:957-976 | the history grows by exactly the step that copies into a task's memory; the error returned is the one of the byte-wise copy, or unmapped for a task without a process |
| Schedulers.Scheduler.SetTaskInitialArg | src/scheduler.rs:772-786 | the history grows by exactly the step that sets the argument of a task; done exactly when it is ready |
| ElfLoader.LoadedIsFresh | src/user.rs:235-242 | a loaded program has an empty heap in an unmapped window above its image and below its stack |
| FrameAllocation.UsableFramesExact | src/memory.rs:72-82 | the frames offered are exactly those of the usable regions |
| FrameAllocation.UsableFramesDistinct | src/memory.rs:72-82 | no frame is offered twice |
| PageTables.TagsDistinct | src/address_space.rs:364-399 | every place in every tree of tables has at most one frame |
| PageTables.PlacesDistinct | src/address_space.rs:364-399 | every frame has one place: two walks, of one address space or two, visit the same table or data frame if and only if they are in the same tree, at the same level and for the same part of the address |
| PageTables.FramesDisjoint | src/address_space.rs:364-399 | two translations share a data frame only if they are the same page of the same address space; a data frame is never a table |
| PageTables.OnlyUserSlot | src/address_space.rs:75-110 | nothing outside slot 1 of the level-4 table translates for user mode |
| PageTables.MmuAgrees | src/address_space.rs:364-399 | the MMU, which grants a store only if every level does, and the kernel's walk, which looks at the last entry alone, agree on every page and its permission |
| Memory.MemoryState.constructor | src/memory.rs:23-31 | no user address space yet, whatever number of frames was used before |
| Memory.MemoryState.HardwareAgrees | src/address_space.rs:364-399 | the same agreement in every state of the memory |
| Memory.MemoryState.KernelIsMapped | src/address_space.rs:75-110 | in every state of the memory every user address space has all the kernel's level-4 entries but slot 1, without user access |
| Memory.MemoryState.Isolated | src/address_space.rs:364-399 | two user pages never share a data frame, and no user page lies outside slot 1, in every state of the memory |
| Memory.MemoryState.TablesIsolated | src/address_space.rs:364-399 | nor do two address spaces, or two parts of one, share a table |
| Memory.MemoryState.AllocateFrame | src/memory.rs:85-89 | the next frame of the usable ones, never handed out before, or none if all are |
| Memory.MemoryState.NewUser | src/address_space.rs:75-110 | a new, empty user address space; fails exactly when frames are out or the kernel uses slot 1 |
| Memory.MemoryState.MapFrame | src/address_space.rs:226-248 | one page more in one address space; fails exactly on a mapped page, or for want of a frame, and then shows no change |
| Memory.MemoryState.MapZeroedUserPage | src/address_space.rs:128-148 | the same with a zero-filled frame |
| Memory.MemoryState.MapUserRegion | src/address_space.rs:150-179 | the pages of a byte range, zero-filled, up to the first that fails |
| Memory.MemoryState.UnmapPage | src/address_space.rs:250-266 | one page less; fails exactly on an unmapped page |
| Memory.MemoryState.UnmapUserHeapPages | src/address_space.rs:207-224 | removes a run of pages, up to the first that is not mapped |
| Memory.MemoryState.MapUserHeapPages | src/address_space.rs:181-205 | all pages of the range or, after a failure part-way, every address space as before; fails only on a bad range, a mapped page or exhausted frames |
| Memory.MemoryState.TranslateUser | src/address_space.rs:364-399 | translates exactly the pages user mode sees, with their permission |
| Memory.MemoryState.CopyToMapped | src/address_space.rs:268-293 | equals the byte-wise copy, partial effects included |
| Memory.MemoryState.ZeroUserRange | src/address_space.rs:295-320 | equals the byte-wise copy of zeros |
| UserMemory.ValidateUserByte | src/user_memory.rs:118-137 | accepts an address exactly when the byte may be accessed, and otherwise gives the reason |
| UserMemory.CopyToUser | src/user_memory.rs:60-86 | equals the byte-wise copy: same error, same bytes stored before it; no address overflows |
| UserMemory.CopyFromUser | src/user_memory.rs:33-58 | equals the byte-wise copy |
| UserMemory.ValidateUserRange | src/user_memory.rs:88-116 | one check per page accepts a range exactly when every byte of it is valid |
| UserSpaces.CopyOutExact | src/user_memory.rs:60-86 | a copy succeeds exactly when every byte is valid, then stores exactly the range, and never changes a mapping |
| UserSpaces.CopyInExact | src/user_memory.rs:33-58 | a copy succeeds exactly when every byte is readable and then returns exactly the range |
| UserSpaces.CopyOutReadOnly | src/user_memory.rs:60-86 | a checked copy never touches a page that is not writable, even one that fails part-way |
| UserSpaces.CopyOutThenIn | src/user_memory.rs:33-86 | what is copied out is read back, and nothing else changed |
| LittleEndian.DecodeEncode | src/elf.rs:308-329 | reading back a little-endian number of any width |
| LittleEndian.EncodeDecode | build.rs:1064-1074 | and writing back what was read |
| ElfFormat.ParseElf | src/elf.rs:109-183 | the parsing loop computes `Parse`: the same image or the same first error |
| ElfFormat.CheckSegmentOverlap | src/elf.rs:251-262 | finds an overlap exactly when there is one |
| ElfFormat.ParseSound | src/elf.rs:109-290 | on arbitrary bytes, an accepted image has page-disjoint segments in the load range, data inside the file, filesz <= memsz and an entry in an executable segment; every program header read lies in the file and no offset overflows |
| ElfFormat.HeaderSound | src/elf.rs:150-168 | the same about the headers for every file that passes the header checks, accepted in the end or not |
| ElfAcceptance.AcceptsExactly | src/elf.rs:109-290 | the parser accepts a file if and only if the bytes at fixed offsets say an ELF64 x86-64 executable whose segments are loadable, page-disjoint and contain the entry point, and returns exactly what they say |
| ElfWriter.Elf | build.rs:760-809 | the bytes written are `Image(entry, segments)` |
| ElfWriter.RoundTrip | build.rs:760-809 | the parser accepts a written file exactly when its program is loadable, and returns the very entry and segments written |
| ElfWriter.LoadableRoundTrip | build.rs:760-809 | for every loadable program of 1 to 65535 segments |
| UserLayout.HeapAboveImage | src/user.rs:235-242 | the heap starts where the highest mapped segment ends; there is no room for one exactly when a segment reaches the end of the load range |
| ElfLoader.LoadOneExact | src/elf.rs:71-90 | one segment: file data, zero to the end of its pages, writable exactly with PF_W, all other pages untouched |
| ElfLoader.LoadSegmentInto | src/elf.rs:71-90 | loads one segment; once mapped, copying and zeroing cannot fail |
| ElfLoader.MapUserStack | src/user.rs:209-216 | two zero-filled writable pages below the stack top |
| ElfLoader.LoadUserElf | src/elf.rs:65-103 | on success every byte of the new address space is accounted for: file data, zeros, stack, nothing else; each failure has its cause, and existing address spaces never change |
| BuiltinPrograms.BuiltinPages | src/user.rs:154-182 | a built-in program's pages are its read-only code, a zero data page, the test page if asked for, and its stack, byte for byte, and nothing else |
| BuiltinPrograms.BuiltinIsFresh | src/user.rs:244-249 | its heap always exists, is empty and has an unmapped window |
| BuiltinPrograms.CreateUserTask | src/user.rs:154-182 | builds exactly that address space; fails only when frames run out, the kernel uses slot 1 or the code exceeds a page, and never changes an existing address space |
| Programs.WrittenForever | src/elf.rs:65-103 | end to end: as long as a process spawned from a written file is in the table, every byte of its read-only segments is the one written, zeros after the data, whatever any process does |
| Programs.WrittenLayout | build.rs:760-809 | and its pages are exactly the segments written, with their permissions, its stack and its heap |

## Left out

- Assembly stubs, trap-frame layout, GDT, TSS, IDT, PIC, PIT and CR2 decoding: a saved frame is the task's `rax` and `rdi`.
- VGA output and QEMU exit; serial output is an append-only byte sequence.
- The kernel's own heap allocator (src/allocator.rs): a mapping loop around a library that is not part of this model.
- The page-table crate: `map_to` and `unmap` are written out over the four levels; TLB flushes and huge pages made by the kernel are not modelled.
- The machine code of the built-in programs (src/user.rs) is an arbitrary byte string.
- The machine-code fixtures of build.rs outside the ELF writer.
- Query functions such as process_state, finished_task_count and open_file_count: accessors.
- Pointer arguments of system calls are canonical, since `VirtAddr::new` panics on others; usable memory regions are disjoint and page-aligned; `run` is called only when no task is current.
- Physical frames are either a table of 512 entries or 4096 bytes of data; the code reads both through the same pointer.
- Bit masks are written as arithmetic.
- Descriptor tables and process records are values that the table objects replace; aliasing inside one record is not modelled.
- Fairness.BoundedBypass: counts changes of the current task; that the timer fires or a task yields is an assumption about hardware and programs.
- Memory.MemoryState.MapZeroedUserPage: stated for pages of slot 1 of the level-4 table; other slots lead into the kernel's shared tables and no caller maps there.
- Memory.MemoryState.MapUserRegion: the same restriction to slot 1.
- Memory.MemoryState.MapFrame: the same restriction to slot 1.
- Memory.MemoryState.UnmapPage: the same restriction to slot 1.
- Memory.MemoryState.MapUserHeapPages: the same restriction to slot 1.
- Memory.MemoryState.UnmapUserHeapPages: the same restriction to slot 1.
- Schedulers.Scheduler.SpawnUserProcess: the program handed over has its break at the start of an unmapped heap window, as every creator of one in the kernel makes it.

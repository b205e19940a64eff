/** The kernel as a state machine. Every mutation happens with interrupts off, so
    each spawn, interrupt or system call is one step. The functions here say what
    each step does; the `Scheduler` class carries them out. */
module Kernel {
  import opened Base
  import opened UserSpaces
  import opened UserLayout
  import opened Files
  import opened Processes

  const WNOHANG: nat := 1
  const O_RDONLY: nat := 0
  const MAX_PATH_LEN: nat := 128
  const STATUS_SIZE: nat := 8

  datatype SysError =
    | NoEntry | BadDescriptor | NoMemory | Fault | Invalid
    | SystemFileLimit | ProcessFileLimit | NameTooLong | Child | NoSys

  type SysResult = Result<nat, SysError>

  function Errno(e: SysError): nat {
    match e
    case NoEntry => 2
    case BadDescriptor => 9
    case NoMemory => 12
    case Fault => 14
    case Invalid => 22
    case SystemFileLimit => 23
    case ProcessFileLimit => 24
    case NameTooLong => 36
    case Child => 10
    case NoSys => 38
  }

  /** `raw_return`: minus errno, as an unsigned word */
  function RawReturn(e: SysError): nat {
    U64 - Errno(e)
  }

  function MapFileError(e: FileError): SysError {
    match e
    case BadFd => BadDescriptor
    case TooManySystemFiles => SystemFileLimit
    case TooManyProcessFiles => ProcessFileLimit
  }

  datatype TaskState = Ready | Running | Blocked(child: nat, statusPtr: Option<nat>) | Finished | Failed

  datatype UserFaultKind = GeneralProtection | PageFault

  datatype UserFaultInfo = UserFaultInfo(kind: UserFaultKind, address: Option<nat>, errorCode: nat)

  /** A task. `pid` is `None` for kernel tasks. `rax` and `rdi` are the registers in
      the trap frame on the task's own kernel stack. */
  datatype Task = Task(
    pid: Option<nat>, state: TaskState, rax: nat, rdi: nat,
    exitCode: Option<nat>, faultInfo: Option<UserFaultInfo>)
  {
    predicate Terminal() { state.Finished? || state.Failed? }
  }

  /** The fixed parameters: table sizes, the embedded files and the kernel's own
      level-4 table. */
  datatype Limits = Limits(tasks: nat, processes: nat, files: nat, fds: nat, embedded: seq<Embedded>, kernelRoot: nat)

  datatype Kernel = Kernel(
    lim: Limits,
    tasks: seq<Task>,
    procs: Procs,
    nextPid: nat,
    files: FileSlots,
    current: Option<nat>,
    preemption: bool,
    cachedRoot: Option<nat>,
    cr3: nat,
    /** level-4 frame -> what user mode sees through it */
    spaces: map<nat, UserSpace>,
    /** address spaces built but not yet handed to a process */
    unclaimed: set<nat>,
    /** bytes written to the serial port */
    out: seq<byte>)

  predicate LimitsOk(lim: Limits) {
    lim.tasks > 0 && lim.processes > 0 && lim.files > 0 && lim.fds >= 3
  }

  function InitialKernel(lim: Limits): Kernel {
    Kernel(lim, [], map[], 1, [], None, false, None, lim.kernelRoot, map[], {}, [])
  }

  // ----- picking and switching tasks -----

  /** The index `offset` places after `start`, going round `n` tasks. */
  function Around(start: nat, offset: nat, n: nat): (r: nat)
    requires n > 0
    ensures r < n
  {
    (start + offset) % n
  }

  /** The scan of `next_ready_after`, from `offset` on. */
  function NextReadyFrom(tasks: seq<Task>, start: nat, offset: nat): Option<nat>
    decreases |tasks| - offset
  {
    if offset > |tasks| || tasks == [] then None
    else if tasks[Around(start, offset, |tasks|)].state == Ready then Some(Around(start, offset, |tasks|))
    else if offset == |tasks| then None
    else NextReadyFrom(tasks, start, offset + 1)
  }

  function NextReady(tasks: seq<Task>, start: nat): Option<nat> {
    NextReadyFrom(tasks, start, 1)
  }

  function FirstReady(tasks: seq<Task>): Option<nat> {
    if tasks == [] then None
    else
      match FirstReady(tasks[..|tasks| - 1])
      case Some(i) => Some(i)
      case None => if tasks[|tasks| - 1].state == Ready then Some(|tasks| - 1) else None
  }

  predicate HasCurrent(k: Kernel) {
    k.current.Some? && k.current.value < |k.tasks|
  }

  /** `current_process_id` */
  function CurrentPid(k: Kernel): (r: Option<nat>)
    ensures r.Some? ==> HasCurrent(k)
  {
    if HasCurrent(k) then k.tasks[k.current.value].pid else None
  }

  /** The level-4 table task `i` runs on. */
  function RootOf(k: Kernel, i: nat): nat
    requires i < |k.tasks|
  {
    match k.tasks[i].pid
    case None => k.lim.kernelRoot
    case Some(p) => if p in k.procs then k.procs[p].root else k.lim.kernelRoot
  }

  function SetState(k: Kernel, i: nat, state: TaskState): Kernel
    requires i < |k.tasks|
  {
    k.(tasks := k.tasks[i := k.tasks[i].(state := state)])
  }

  function SetRax(k: Kernel, i: nat, v: nat): Kernel
    requires i < |k.tasks|
  {
    k.(tasks := k.tasks[i := k.tasks[i].(rax := v)])
  }

  /** Only the scheduling fields may differ. */
  ghost predicate SameTables(k: Kernel, k': Kernel) {
    && k'.lim == k.lim && k'.procs == k.procs && k'.nextPid == k.nextPid && k'.files == k.files
    && k'.spaces == k.spaces && k'.unclaimed == k.unclaimed && k'.out == k.out && k'.preemption == k.preemption
  }

  /** Write CR3 unless the cached value says it already holds `root`. */
  function LoadRoot(k: Kernel, root: nat): (k': Kernel)
    ensures SameTables(k, k') && k'.tasks == k.tasks && k'.current == k.current
  {
    if k.cachedRoot == Some(root) then k else k.(cr3 := root, cachedRoot := Some(root))
  }

  function Dispatch(k: Kernel, next: nat): (k': Kernel)
    requires next < |k.tasks|
    ensures SameTables(k, k') && k'.current == Some(next) && |k'.tasks| == |k.tasks|
  {
    var running := SetState(k, next, Running).(current := Some(next));
    LoadRoot(running, RootOf(running, next))
  }

  /** Run the next ready task after `start`, or return to main if there is none. */
  function PickNext(k: Kernel, start: nat): (k': Kernel)
    ensures SameTables(k, k') && |k'.tasks| == |k.tasks|
  {
    match NextReady(k.tasks, start)
    case Some(next) => if next < |k.tasks| then Dispatch(k, next) else k
    case None => LoadRoot(k.(current := None), k.lim.kernelRoot)
  }

  /** `switch_from_interrupt` */
  function Switch(k: Kernel): (k': Kernel)
    ensures SameTables(k, k') && (k.current.Some? ==> k'.current.Some?)
  {
    if !HasCurrent(k) || k.tasks[k.current.value].state != Running then k
    else
      match NextReady(k.tasks, k.current.value)
      case None => k
      case Some(next) => if next < |k.tasks| then Dispatch(SetState(k, k.current.value, Ready), next) else k
  }

  // ----- spawning -----

  function SpawnKernelTask(k: Kernel): Kernel {
    if |k.tasks| >= k.lim.tasks then k
    else k.(tasks := k.tasks + [Task(None, Ready, 0, 0, None, None)])
  }

  /** `spawn_user_process`; the address space is consumed either way. */
  function SpawnProcess(k: Kernel, parent: Option<nat>, init: UserInit): (k': Kernel)
    requires k.lim.fds >= 3
    ensures k'.lim == k.lim && k'.current == k.current && k'.spaces == k.spaces && k'.out == k.out
  {
    var k := k.(unclaimed := k.unclaimed - {init.root});
    if |k.tasks| >= k.lim.tasks then k
    else if CanCreate(k.procs, k.nextPid, k.lim.processes, parent).Some? then k
    else
      var (files, fds) := NewWithStdio(k.files, k.lim.files, k.lim.fds);
      if fds.Err? then k.(files := files)
      else
        k.(files := files,
           procs := Create(k.procs, k.nextPid, parent, init.root, init.heap, fds.value, |k.tasks|),
           nextPid := k.nextPid + 1,
           tasks := k.tasks + [Task(Some(k.nextPid), Ready, 0, init.arg0, None, None)])
  }

  /** A new address space, not handed to a process yet. */
  function WithSpace(k: Kernel, root: nat, view: UserSpace): Kernel {
    k.(spaces := k.spaces[root := view], unclaimed := k.unclaimed + {root})
  }

  // ----- user memory of a process -----

  function SpaceOf(k: Kernel, pid: nat): UserSpace {
    if pid in k.procs && k.procs[pid].root in k.spaces then k.spaces[k.procs[pid].root] else map[]
  }

  function SetSpace(k: Kernel, pid: nat, s: UserSpace): (k': Kernel)
    ensures k' == k.(spaces := k'.spaces)
  {
    if pid in k.procs && k.procs[pid].root in k.spaces then k.(spaces := k.spaces[k.procs[pid].root := s]) else k
  }

  // ----- waiting and exiting -----

  /** `complete_wait` */
  function CompleteWait(k: Kernel, i: nat, child: nat, statusPtr: Option<nat>): (k': Kernel)
    requires i < |k.tasks|
    ensures |k'.tasks| == |k.tasks| && k'.lim == k.lim && k'.current == k.current && k'.out == k.out
  {
    match k.tasks[i].pid
    case None => SetRax(k, i, RawReturn(Child))
    case Some(parent) =>
      if !IsZombie(k.procs, child) then SetRax(k, i, RawReturn(Child))
      else
        var (space, error) :=
          match statusPtr
          case None => (SpaceOf(k, parent), None)
          case Some(ptr) => CopyOut(SpaceOf(k, parent), ptr, StatusBytes(k.procs[child].state.exit), Write);
        var k := SetSpace(k, parent, space);
        if error.Some? then SetRax(k, i, RawReturn(Fault))
        else if !IsChild(k.procs, parent, child) then SetRax(k, i, RawReturn(Child))
        else SetRax(k.(procs := ReapChild(k.procs, parent, child)), i, child)
  }

  /** The first task blocked on `child` */
  function FindWaiter(tasks: seq<Task>, child: nat): (r: Option<nat>)
    ensures r.Some? ==> r.value < |tasks| && tasks[r.value].state.Blocked? && tasks[r.value].state.child == child
    ensures r.None? ==> forall i | 0 <= i < |tasks| :: !(tasks[i].state.Blocked? && tasks[i].state.child == child)
  {
    if tasks == [] then None
    else
      match FindWaiter(tasks[..|tasks| - 1], child)
      case Some(i) => Some(i)
      case None =>
        assert forall i | 0 <= i < |tasks| - 1 :: tasks[i] == tasks[..|tasks| - 1][i];
        var last := tasks[|tasks| - 1].state;
        if last.Blocked? && last.child == child then Some(|tasks| - 1) else None
  }

  /** `wake_parent_waiting_for` */
  function Wake(k: Kernel, child: nat): (k': Kernel)
    ensures |k'.tasks| == |k.tasks| && k'.lim == k.lim
  {
    match FindWaiter(k.tasks, child)
    case None => k
    case Some(w) =>
      var k' := CompleteWait(k, w, child, k.tasks[w].state.statusPtr);
      if k'.tasks[w].state.Blocked? then SetState(k', w, Ready) else k'
  }

  /** Turn a process into a zombie, tell its waiting parent, drop it if orphaned. */
  function ExitProcess(k: Kernel, pid: nat, exit: ProcessExit): (k': Kernel)
    ensures |k'.tasks| == |k.tasks| && k'.lim == k.lim
  {
    if pid !in k.procs then k
    else
      var k := k.(procs := MarkExited(k.procs, pid, exit), files := CloseAllFiles(k.procs[pid].fds, k.files));
      var k := Wake(k, pid);
      k.(procs := ReapOrphan(k.procs, pid))
  }

  /** The current task's record once it is finished or has failed. */
  function Ended(t: Task, exitCode: Option<nat>, fault: Option<UserFaultInfo>): Task {
    t.(state := if fault.Some? then Failed else Finished,
       exitCode := if exitCode.Some? then exitCode else t.exitCode,
       faultInfo := if fault.Some? then fault else t.faultInfo)
  }

  function ExitStatus(exitCode: Option<nat>, fault: Option<UserFaultInfo>): ProcessExit {
    if fault.Some? then Faulted else Exited(ToI32(if exitCode.Some? then exitCode.value else 0))
  }

  /** `finish_current_from_interrupt`, up to the point where the next task is picked. */
  function AfterFinish(k: Kernel, exitCode: Option<nat>, fault: Option<UserFaultInfo>): (k': Kernel)
    requires HasCurrent(k)
    ensures |k'.tasks| == |k.tasks| && k'.lim == k.lim
  {
    var i := k.current.value;
    var t := Ended(k.tasks[i], exitCode, fault);
    var k1 := k.(tasks := k.tasks[i := t]);
    if t.pid.Some? then ExitProcess(k1, t.pid.value, ExitStatus(exitCode, fault)) else k1
  }

  /** `finish_current_from_interrupt` */
  function Finish(k: Kernel, exitCode: Option<nat>, fault: Option<UserFaultInfo>): (k': Kernel)
    requires HasCurrent(k)
    ensures k'.lim == k.lim && |k'.tasks| == |k.tasks|
  {
    PickNext(AfterFinish(k, exitCode, fault), k.current.value)
  }

  /** `run`: read CR3 into the cache and start the first ready task. */
  function StartRunning(k: Kernel): (k': Kernel)
    ensures SameTables(k, k') && |k'.tasks| == |k.tasks|
  {
    match FirstReady(k.tasks)
    case None => k
    case Some(next) => if next < |k.tasks| then Dispatch(k.(cachedRoot := Some(k.cr3)), next) else k
  }

  /** Whether `waitpid` gets past its checks: an own child and, if a status pointer is
      given, eight writable bytes there. */
  predicate WaitAllowed(k: Kernel, parent: nat, child: nat, statusPtr: Option<nat>) {
    && child != 0 && IsChild(k.procs, parent, child)
    && (statusPtr.Some? ==> RangeOk(SpaceOf(k, parent), statusPtr.value, STATUS_SIZE, Write))
  }

  /** `waitpid_from_interrupt`; without a current task there is no frame of a task to
      answer in. */
  function WaitPid(k: Kernel, child: nat, statusPtr: Option<nat>, options: nat): (k': Kernel)
    ensures k'.lim == k.lim && k'.out == k.out
  {
    if !HasCurrent(k) then k
    else
      var i := k.current.value;
      match CurrentPid(k)
      case None => SetRax(k, i, RawReturn(Child))
      case Some(parent) =>
        if options != 0 && options != WNOHANG then SetRax(k, i, RawReturn(Invalid))
        else if child == 0 || !IsChild(k.procs, parent, child) then SetRax(k, i, RawReturn(Child))
        else if !WaitAllowed(k, parent, child, statusPtr) then SetRax(k, i, RawReturn(Fault))
        else if child !in k.procs then SetRax(k, i, RawReturn(Child))
        else if k.procs[child].state.Zombie? then CompleteWait(k, i, child, statusPtr)
        else if options == WNOHANG then SetRax(k, i, 0)
        else PickNext(SetState(k, i, Blocked(child, statusPtr)), i)
  }

  // ----- file system calls -----

  /** `find_embedded_file`: exact match, first in the registry. */
  function FindEmbedded(registry: seq<Embedded>, path: seq<byte>): (r: Option<nat>)
    ensures r.Some? ==> r.value < |registry| && registry[r.value].path == path
    ensures r.None? ==> forall i | 0 <= i < |registry| :: registry[i].path != path
  {
    if registry == [] then None
    else
      match FindEmbedded(registry[..|registry| - 1], path)
      case Some(i) => Some(i)
      case None =>
        assert forall i | 0 <= i < |registry| - 1 :: registry[i] == registry[..|registry| - 1][i];
        if registry[|registry| - 1].path == path then Some(|registry| - 1) else None
  }

  /** Store a system call's result in the caller's trap frame. */
  function Return(k: Kernel, r: SysResult): Kernel
    requires HasCurrent(k)
  {
    SetRax(k, k.current.value, match r case Ok(v) => v case Err(e) => RawReturn(e))
  }

  /** The open file behind a descriptor of process `pid` */
  function FileOf(k: Kernel, pid: nat, fd: nat): Option<nat> {
    if pid in k.procs && fd < |k.procs[pid].fds| && k.procs[pid].fds[fd].Some?
       && k.procs[pid].fds[fd].value < |k.files| && k.files[k.procs[pid].fds[fd].value].Some?
    then k.procs[pid].fds[fd]
    else None
  }

  function SysOpen(k: Kernel, path: nat, len: nat, flags: nat): (r: (Kernel, SysResult))
    ensures r.0.tasks == k.tasks && r.0.current == k.current && r.0.lim == k.lim && r.0.out == k.out && r.0.spaces == k.spaces
  {
    if flags != O_RDONLY then (k, Err(Invalid))
    else if len == 0 then (k, Err(NoEntry))
    else if len > MAX_PATH_LEN then (k, Err(NameTooLong))
    else if CurrentPid(k).None? || CurrentPid(k).value !in k.procs then (k, Err(BadDescriptor))
    else
      var pid := CurrentPid(k).value;
      var (bytes, error) := CopyIn(SpaceOf(k, pid), path, len);
      if error.Some? then (k, Err(Fault))
      else
        match FindEmbedded(k.lim.embedded, bytes)
        case None => (k, Err(NoEntry))
        case Some(id) =>
          var (files, slot) := AllocFile(k.files, k.lim.files, EmbeddedFile(id), ReadOnly);
          if slot.Err? then (k.(files := files), Err(MapFileError(slot.error)))
          else
            var (fds, fd) := AllocateLowest(k.procs[pid].fds, slot.value);
            if fd.Err? then (k.(files := DecRef(files, slot.value)), Err(MapFileError(fd.error)))
            else (k.(files := files, procs := k.procs[pid := k.procs[pid].(fds := fds)]), Ok(fd.value))
  }

  /** The bytes a read of `len` at the file's offset would deliver. */
  function ReadChunk(k: Kernel, f: OpenFile, len: nat): seq<byte> {
    if f.kind.EmbeddedFile? && f.kind.id < |k.lim.embedded| && f.offset < |k.lim.embedded[f.kind.id].bytes| then
      var bytes := k.lim.embedded[f.kind.id].bytes;
      bytes[f.offset..f.offset + Min(len, |bytes| - f.offset)]
    else []
  }

  function SysRead(k: Kernel, fd: nat, buf: nat, len: nat): (r: (Kernel, SysResult))
    ensures r.0.tasks == k.tasks && r.0.current == k.current && r.0.lim == k.lim && r.0.out == k.out
  {
    if len == 0 then (k, Ok(0))
    else if CurrentPid(k).None? || FileOf(k, CurrentPid(k).value, fd).None? then (k, Err(BadDescriptor))
    else
      var pid := CurrentPid(k).value;
      var slot := FileOf(k, pid, fd).value;
      var f := k.files[slot].value;
      if f.access != ReadOnly then (k, Err(BadDescriptor))
      else
        match f.kind
        case NullInput => (k, Ok(0))
        case ConsoleStdout => (k, Err(BadDescriptor))
        case ConsoleStderr => (k, Err(BadDescriptor))
        case EmbeddedFile(id) =>
          if id >= |k.lim.embedded| then (k, Err(BadDescriptor))
          else if f.offset >= |k.lim.embedded[id].bytes| then (k, Ok(0))
          else
            var chunk := ReadChunk(k, f, len);
            var (space, error) := CopyOut(SpaceOf(k, pid), buf, chunk, Write);
            if error.Some? then (SetSpace(k, pid, space), Err(Fault))
            else
              (SetSpace(k, pid, space).(files := k.files[slot := Some(f.(offset := f.offset + |chunk|))]), Ok(|chunk|))
  }

  /** `sys_write_current`: all of the range or nothing. */
  function SysWrite(k: Kernel, fd: nat, buf: nat, len: nat): (r: (Kernel, SysResult))
    ensures r.0.tasks == k.tasks && r.0.current == k.current && r.0.lim == k.lim && r.0.spaces == k.spaces
  {
    if len == 0 then (k, Ok(0))
    else if CurrentPid(k).None? || FileOf(k, CurrentPid(k).value, fd).None? then (k, Err(BadDescriptor))
    else
      var pid := CurrentPid(k).value;
      var f := k.files[FileOf(k, pid, fd).value].value;
      if f.access != WriteOnly || !(f.kind.ConsoleStdout? || f.kind.ConsoleStderr?) then (k, Err(BadDescriptor))
      else if !RangeOk(SpaceOf(k, pid), buf, len, Read) then (k, Err(Fault))
      else (k.(out := k.out + ReadRange(SpaceOf(k, pid), buf, len)), Ok(len))
  }

  function SysClose(k: Kernel, fd: nat): (r: (Kernel, SysResult))
    ensures r.0.tasks == k.tasks && r.0.current == k.current && r.0.lim == k.lim && r.0.out == k.out && r.0.spaces == k.spaces
  {
    if CurrentPid(k).None? || CurrentPid(k).value !in k.procs then (k, Err(BadDescriptor))
    else
      var pid := CurrentPid(k).value;
      var (fds, files, error) := CloseFd(k.procs[pid].fds, fd, k.files);
      if error.Some? then (k, Err(MapFileError(error.value)))
      else (k.(procs := k.procs[pid := k.procs[pid].(fds := fds)], files := files), Ok(0))
  }

  // ----- brk -----

  function SetHeap(k: Kernel, pid: nat, brk: nat, mappedEnd: nat): Kernel
    requires pid in k.procs
  {
    k.(procs := k.procs[pid := k.procs[pid].(heap := k.procs[pid].heap.(brk := brk, mappedEnd := mappedEnd))])
  }

  /** The break moves to `requested`: pages up to `newEnd` are added, zero-filled, or
      removed. `granted` says whether frames suffice for a growth. */
  function MoveBreak(k: Kernel, pid: nat, requested: nat, newEnd: nat, granted: bool): (r: (Kernel, SysResult))
    requires pid in k.procs
    ensures r.0.tasks == k.tasks && r.0.current == k.current && r.0.lim == k.lim && r.0.out == k.out
  {
    var heap, s := k.procs[pid].heap, SpaceOf(k, pid);
    var lo, hi := heap.mappedEnd / PAGE_SIZE, newEnd / PAGE_SIZE;
    if requested > heap.brk && newEnd > heap.mappedEnd then
      if !granted then (k, Err(NoMemory))
      else (SetHeap(SetSpace(k, pid, ZeroPages(s, lo, hi, true)), pid, requested, newEnd), Ok(requested))
    else if requested < heap.brk && newEnd < heap.mappedEnd then
      (SetHeap(SetSpace(k, pid, WithoutPages(s, hi, lo)), pid, requested, newEnd), Ok(requested))
    else (SetHeap(k, pid, requested, newEnd), Ok(requested))
  }

  /** `sys_brk_current` */
  function SysBrk(k: Kernel, requested: nat, granted: bool): (r: (Kernel, SysResult))
    ensures r.0.tasks == k.tasks && r.0.current == k.current && r.0.lim == k.lim && r.0.out == k.out
  {
    if CurrentPid(k).None? || CurrentPid(k).value !in k.procs then (k, Err(Invalid))
    else
      var pid := CurrentPid(k).value;
      var heap := k.procs[pid].heap;
      if requested == 0 then (k, Ok(heap.brk))
      else if requested < heap.start then (k, Err(Invalid))
      else if requested > heap.limit then (k, Err(NoMemory))
      else if requested == heap.brk then (k, Ok(heap.brk))
      else
        match AlignUp(requested)
        case None => (k, Err(Invalid))
        case Some(newEnd) => MoveBreak(k, pid, requested, newEnd, granted)
  }

  // ----- steps -----

  datatype Event =
    | SpawnTask
    | MakeSpace(newRoot: nat, view: UserSpace)
    | Spawn(parent: Option<nat>, init: UserInit)
    | Run
    | Timer
    | Yield
    | SyscallYield
    | Exit(code: nat)
    | UserFault(info: UserFaultInfo)
    | KernelTaskReturns
    | Wait(child: nat, statusAddress: nat, options: nat)
    | GetPid
    | Open(path: nat, pathLen: nat, flags: nat)
    | ReadFd(fd: nat, buf: nat, len: nat)
    | WriteFd(fd: nat, buf: nat, len: nat)
    | Close(fd: nat)
    | Brk(requested: nat, granted: bool)
    | UnknownSyscall
    | UserStore(address: nat, value: byte)
    | CopyToTask(task: nat, address: nat, bytes: seq<byte>)
    | SetArgument(task: nat, arg: nat)
    | SetPreemption(on: bool)

  /** `wait_status_address`: a null pointer means no status is wanted. */
  function StatusAddress(address: nat): Option<nat> {
    if address == 0 then None else Some(address)
  }

  /** What the hardware asks of a store from user mode. */
  predicate UserWritable(s: UserSpace, a: nat) {
    IsMapped(s, a) && s[a / PAGE_SIZE].writable
  }

  /** When the hardware or the kernel's callers can cause each event. System calls and
      faults come from the running task; only user tasks touch user memory. */
  ghost predicate Enabled(k: Kernel, e: Event) {
    match e
    case SpawnTask | Timer | Yield | CopyToTask(_, _, _) | SetArgument(_, _) | SetPreemption(_) => true
    case MakeSpace(root, _) => root !in k.spaces && root != k.lim.kernelRoot
    case Spawn(_, init) =>
      init.root in k.unclaimed && init.root in k.spaces && FreshLayout(init.heap, k.spaces[init.root])
    case Run => k.current.None?
    case UserFault(_) => HasCurrent(k) && CurrentPid(k).Some?
    case UserStore(a, _) => HasCurrent(k) && CurrentPid(k).Some? && UserWritable(SpaceOf(k, CurrentPid(k).value), a)
    case KernelTaskReturns => HasCurrent(k) && CurrentPid(k).None?
    case SyscallYield | Exit(_) | Wait(_, _, _) | GetPid | Open(_, _, _) | ReadFd(_, _, _) | WriteFd(_, _, _)
       | Close(_) | Brk(_, _) | UnknownSyscall => HasCurrent(k)
  }

  ghost function Step(k: Kernel, e: Event): (k': Kernel)
    requires LimitsOk(k.lim) && Enabled(k, e)
    ensures k'.lim == k.lim
  {
    match e
    case SpawnTask => SpawnKernelTask(k)
    case MakeSpace(root, view) => WithSpace(k, root, view)
    case Spawn(parent, init) => SpawnProcess(k, parent, init)
    case Run => StartRunning(k)
    case Timer => if k.preemption && k.current.Some? then Switch(k) else k
    case Yield => Switch(k)
    case SyscallYield => Switch(SetRax(k, k.current.value, 0))
    case Exit(code) => Finish(k, Some(code), None)
    case UserFault(info) => Finish(k, None, Some(info))
    case KernelTaskReturns => PickNext(SetState(k, k.current.value, Finished), k.current.value)
    case Wait(child, address, options) => WaitPid(k, child, StatusAddress(address), options)
    case GetPid => Return(k, match CurrentPid(k) case Some(p) => Ok(p) case None => Err(Child))
    case Open(path, len, flags) => var (k', r) := SysOpen(k, path, len, flags); Return(k', r)
    case ReadFd(fd, buf, len) => var (k', r) := SysRead(k, fd, buf, len); Return(k', r)
    case WriteFd(fd, buf, len) => var (k', r) := SysWrite(k, fd, buf, len); Return(k', r)
    case Close(fd) => var (k', r) := SysClose(k, fd); Return(k', r)
    case Brk(requested, granted) => var (k', r) := SysBrk(k, requested, granted); Return(k', r)
    case UnknownSyscall => Return(k, Err(NoSys))
    case UserStore(a, b) => SetSpace(k, CurrentPid(k).value, Poke(SpaceOf(k, CurrentPid(k).value), a, b))
    case CopyToTask(t, a, bytes) =>
      if t < |k.tasks| && k.tasks[t].pid.Some?
      then SetSpace(k, k.tasks[t].pid.value, CopyOut(SpaceOf(k, k.tasks[t].pid.value), a, bytes, Write).0)
      else k
    case SetArgument(t, arg) =>
      if t < |k.tasks| && k.tasks[t].state == Ready
      then k.(tasks := k.tasks[t := k.tasks[t].(rdi := arg)])
      else k
    case SetPreemption(on) => k.(preemption := on)
  }
}

/** The scheduler as scheduler.rs has it: one object whose tasks, process table, open
    files and memory every interrupt changes in place. Each method is proved to take
    exactly the step `Kernel` describes. The object carries its own history, a run from
    boot, so whatever holds of every run holds of the object. */
module Schedulers {
  import opened Base
  import opened UserSpaces
  import opened UserLayout
  import opened ElfFormat
  import opened ElfLoader
  import opened BuiltinPrograms
  import opened Files
  import opened Processes
  import opened PageTables
  import opened Memory
  import opened UserMemory
  import opened ProcessTables
  import opened Kernel
  import opened Invariants
  import opened Preservation
  import opened HeapSteps
  import opened WaitSteps
  import opened ExitSteps
  import opened Runs
  import Transitions

  const WRITE_CHUNK_SIZE: nat := 256

  datatype SpawnError = Full | ProcessFailed(error: ProcessError) | ElfLoad(reason: ElfLoadError)

  datatype UserProcessHandle = UserProcessHandle(pid: nat, task: nat)

  /** Addresses remembered by blocked tasks came through `VirtAddr::new`. */
  predicate PointersCanonical(tasks: seq<Task>) {
    forall i | 0 <= i < |tasks| && tasks[i].state.Blocked? && tasks[i].state.statusPtr.Some? ::
      Canonical(tasks[i].state.statusPtr.value)
  }

  ghost predicate RootsMapped(procs: Procs, spaces: map<nat, UserSpace>) {
    forall p | p in procs :: procs[p].root in spaces
  }

  class Scheduler {
    const lim: Limits
    const processes: ProcessTable
    const openFiles: OpenFileTable
    const mem: MemoryState
    var tasks: seq<Task>
    var current: Option<nat>
    var preemption: bool
    var cachedRoot: Option<nat>
    /** the CR3 register */
    var cr3: nat
    /** the serial port */
    var out: seq<byte>
    /** address spaces built but not yet handed to a process */
    ghost var unclaimed: set<nat>
    /** every state since boot, and the events between them */
    ghost var states: seq<Kernel>
    ghost var events: seq<Event>

    /** The kernel state this object represents. */
    ghost function State(): Kernel
      reads this, processes, openFiles, mem
    {
      Kernel(lim, tasks, processes.procs, processes.nextPid, openFiles.files, current, preemption, cachedRoot, cr3,
             mem.spaces, unclaimed, out)
    }

    ghost predicate Valid()
      reads this, processes, openFiles, mem
    {
      && processes.Valid() && mem.Valid() && LimitsOk(lim)
      && processes.max == lim.processes && openFiles.max == lim.files && mem.kernelRoot == lim.kernelRoot
      && RootsMapped(processes.procs, mem.spaces)
      && PointersCanonical(tasks)
    }

    /** Between entries into the kernel: the history is a run from boot that ends here. */
    ghost predicate Booted()
      reads this, processes, openFiles, mem
    {
      Valid() && FromBoot(states, events) && states[|events|] == State()
    }

    /** The object has taken one more step, on event `e`. */
    ghost predicate Took(states0: seq<Kernel>, events0: seq<Event>, e: Event)
      reads this, processes, openFiles, mem
    {
      Booted() && events == events0 + [e] && states == states0 + [State()]
    }

    lemma BootedInv()
      requires Booted()
      ensures Inv(State())
    {
      BootRunInv(states, events, |events|);
    }

    ghost method Record(e: Event)
      requires Valid() && FromBoot(states, events) && Next(states[|events|], e, State())
      modifies this`states, this`events
      ensures Took(old(states), old(events), e) && State() == old(State())
    {
      hide mem.Valid, processes.Valid, RootsMapped, PointersCanonical, Next;
      OneMoreStep(states, events, e, State());
      states, events := states + [State()], events + [e];
    }

    constructor (lim: Limits, memory: MemoryState)
      requires LimitsOk(lim) && memory.Valid() && memory.spaces == map[] && memory.kernelRoot == lim.kernelRoot
      ensures Booted() && State() == InitialKernel(lim) && mem == memory && events == []
      ensures fresh(processes) && fresh(openFiles)
    {
      this.lim := lim;
      mem := memory;
      processes := new ProcessTable(lim.processes);
      openFiles := new OpenFileTable(lim.files);
      tasks := [];
      current := None;
      preemption := false;
      cachedRoot := None;
      cr3 := lim.kernelRoot;
      out := [];
      unclaimed := {};
      states := [InitialKernel(lim)];
      events := [];
    }

    // ----- picking and switching tasks -----

    /** `next_ready_after` */
    method NextReadyAfter(start: nat) returns (r: Option<nat>)
      ensures r == NextReady(tasks, start)
    {
      if tasks == [] {
        return None;
      }
      var offset := 1;
      while offset <= |tasks|
        invariant 1 <= offset <= |tasks| + 1
        invariant NextReadyFrom(tasks, start, offset) == NextReady(tasks, start)
      {
        var index := Around(start, offset, |tasks|);
        if tasks[index].state == Ready {
          return Some(index);
        }
        offset := offset + 1;
      }
      r := None;
    }

    /** `first_ready` */
    method FirstReadyTask() returns (r: Option<nat>)
      ensures r == FirstReady(tasks)
    {
      var i := 0;
      while i < |tasks|
        invariant 0 <= i <= |tasks| && FirstReady(tasks[..i]).None?
      {
        if tasks[i].state == Ready {
          FirstReadyFinds(tasks);
          FirstReadyFinds(tasks[..i]);
          assert forall j | 0 <= j < i :: tasks[..i][j] == tasks[j];
          return Some(i);
        }
        assert tasks[..i + 1][..i] == tasks[..i];
        i := i + 1;
      }
      assert tasks[..|tasks|] == tasks;
      r := None;
    }

    /** Loads a level-4 table unless it is the one already loaded. */
    method LoadTable(root: nat)
      requires Valid()
      modifies this`cr3, this`cachedRoot
      ensures Valid() && State() == LoadRoot(old(State()), root)
    {
      if cachedRoot != Some(root) {
        cr3 := root;
        cachedRoot := Some(root);
      }
    }

    /** `switch_to_task_address_space`; a user task always has its process. */
    method SwitchToTaskAddressSpace(i: nat)
      requires Valid() && i < |tasks| && (tasks[i].pid.Some? ==> tasks[i].pid.value in processes.procs)
      modifies this`cr3, this`cachedRoot
      ensures Valid() && State() == LoadRoot(old(State()), RootOf(old(State()), i))
    {
      match tasks[i].pid
      case Some(pid) =>
        var process := processes.Get(pid);
        assert process.Some?;
        LoadTable(process.value.root);
      case None => LoadTable(lim.kernelRoot);
    }

    /** Makes task `next` the running one. */
    method RunTask(next: nat)
      requires Valid() && next < |tasks| && (tasks[next].pid.Some? ==> tasks[next].pid.value in processes.procs)
      modifies this`tasks, this`current, this`cr3, this`cachedRoot
      ensures Valid() && State() == Dispatch(old(State()), next)
    {
      tasks := tasks[next := tasks[next].(state := Running)];
      current := Some(next);
      SwitchToTaskAddressSpace(next);
    }

    /** Runs the next ready task after `start`, or gives control back to main. */
    method PickNextTask(start: nat)
      requires Valid() && start < |tasks| && ReadyHaveProcess(tasks, processes.procs)
      modifies this`tasks, this`current, this`cr3, this`cachedRoot
      ensures Valid() && State() == PickNext(old(State()), start)
    {
      hide mem.Valid, processes.Valid, NextReady, Dispatch, PointersCanonical, RootsMapped;
      NextReadyFinds(tasks, start);
      var next := NextReadyAfter(start);
      if next.Some? {
        RunTask(next.value);
      } else {
        current := None;
        LoadTable(lim.kernelRoot);
      }
    }

    /** `switch_from_interrupt` */
    method SwitchFromInterrupt()
      requires Valid() && Inv(State())
      modifies this`tasks, this`current, this`cr3, this`cachedRoot
      ensures Valid() && State() == Switch(old(State())) && Inv(State())
    {
      hide mem.Valid, processes.Valid, NextReady, Dispatch, Inv, RootsMapped;
      SwitchKeepsInv(State());
      ReadyTasksHaveProcess(State());
      if current.None? {
        return;
      }
      CurrentFits(State());
      if tasks[current.value].state != Running {
        return;
      }
      var running := current.value;
      NextReadyFinds(tasks, running);
      var next := NextReadyAfter(running);
      if next.None? {
        return;
      }
      tasks := tasks[running := tasks[running].(state := Ready)];
      RunTask(next.value);
    }

    // ----- waiting and exiting -----

    /** `write_wait_status`: eight bytes into the parent's memory. */
    method WriteWaitStatus(parent: nat, ptr: nat, exit: ProcessExit) returns (error: Option<UserMemoryError>)
      requires Valid() && Canonical(ptr)
      modifies mem
      ensures Valid()
      ensures
        var (space, e) := CopyOut(SpaceOf(old(State()), parent), ptr, StatusBytes(exit), Write);
        State() == SetSpace(old(State()), parent, space) && (error.None? <==> e.None?)
    {
      hide mem.Valid, processes.Valid, PointersCanonical, CopyOut;
      var process := processes.Get(parent);
      if process.None? {
        NothingMapped(ptr, StatusBytes(exit));
        return Some(Unmapped);
      }
      error := CopyToUser(mem, process.value.root, ptr, StatusBytes(exit));
    }

    /** `complete_wait` */
    method CompleteWaitOf(i: nat, child: nat, statusPtr: Option<nat>)
      requires Valid() && i < |tasks| && (statusPtr.Some? ==> Canonical(statusPtr.value))
      modifies this`tasks, processes, mem
      ensures Valid() && State() == CompleteWait(old(State()), i, child, statusPtr)
    {
      hide mem.Valid, processes.Valid, CopyOut, StatusBytes, ReapChild, SetSpace, SpaceOf;
      if tasks[i].pid.None? {
        tasks := tasks[i := tasks[i].(rax := RawReturn(Child))];
        return;
      }
      var parent := tasks[i].pid.value;
      var entry := processes.Get(child);
      if entry.None? || entry.value.state.Alive? {
        tasks := tasks[i := tasks[i].(rax := RawReturn(Child))];
        return;
      }
      if statusPtr.Some? {
        var error := WriteWaitStatus(parent, statusPtr.value, entry.value.state.exit);
        if error.Some? {
          ghost var space := CopyOut(SpaceOf(old(State()), parent), statusPtr.value, StatusBytes(entry.value.state.exit), Write).0;
          assert State() == SetSpace(old(State()), parent, space);
          tasks := tasks[i := tasks[i].(rax := RawReturn(Fault))];
          assert State() == SetRax(SetSpace(old(State()), parent, space), i, RawReturn(Fault));
          return;
        }
      } else {
        SetSameSpace(State(), parent);
      }
      ghost var mid := State();
      var reaped := processes.ReapChild(parent, child);
      if reaped.Err? {
        tasks := tasks[i := tasks[i].(rax := RawReturn(Child))];
        return;
      }
      ReapKeepsRoots(mid.procs, parent, child, mem.spaces);
      tasks := tasks[i := tasks[i].(rax := child)];
    }

    /** The search of `wake_parent_waiting_for` */
    method FindWaitingTask(child: nat) returns (r: Option<nat>)
      ensures r == FindWaiter(tasks, child)
    {
      var i := 0;
      while i < |tasks|
        invariant 0 <= i <= |tasks| && FindWaiter(tasks[..i], child).None?
      {
        assert tasks[..i + 1][..i] == tasks[..i];
        if BlockedOn(tasks[i], child) {
          FoundWaiter(tasks, i, child);
          return Some(i);
        }
        i := i + 1;
      }
      assert tasks[..|tasks|] == tasks;
      r := None;
    }

    /** `wake_parent_waiting_for` */
    method WakeParentWaitingFor(child: nat)
      requires Valid()
      modifies this`tasks, processes, mem
      ensures Valid() && State() == Wake(old(State()), child)
    {
      hide mem.Valid, processes.Valid, CompleteWait, FindWaiter, RootsMapped;
      var waiter := FindWaitingTask(child);
      if waiter.None? {
        return;
      }
      var w := waiter.value;
      CompleteWaitOf(w, child, tasks[w].state.statusPtr);
      if tasks[w].state.Blocked? {
        tasks := tasks[w := tasks[w].(state := Ready)];
      }
    }

    /** The process part of `finish_current_from_interrupt`; its process is there. */
    method EndProcess(pid: nat, exit: ProcessExit)
      requires Valid() && pid in processes.procs && FamilyOk(processes.procs)
      modifies this`tasks, processes, openFiles, mem
      ensures Valid() && State() == ExitProcess(old(State()), pid, exit)
    {
      hide mem.Valid, processes.Valid, MarkExited, CloseAllFiles, Wake, ReapOrphan, RootsMapped, FamilyOk;
      var error := processes.MarkExited(pid, exit, openFiles);
      assert error.None?;
      EndKeepsRoots(old(processes.procs), pid, exit, mem.spaces);
      WakeParentWaitingFor(pid);
      ReapOrphanKeepsRoots(processes.procs, pid, mem.spaces);
      processes.ReapOrphanIfZombie(pid);
    }

    /** `finish_current_from_interrupt`, for an exit or a fault */
    method FinishCurrentFromInterrupt(exitCode: Option<nat>, fault: Option<UserFaultInfo>)
      requires Valid() && Inv(State()) && current.Some?
      modifies this`tasks, this`current, this`cr3, this`cachedRoot, processes, openFiles, mem
      ensures HasCurrent(old(State()))
      ensures Valid() && State() == Finish(old(State()), exitCode, fault) && Inv(State())
    {
      hide mem.Valid, processes.Valid, Inv, Core, ExitProcess, PickNext, RootsMapped, NoneRunning, FamilyOk;
      ghost var k := State();
      CurrentFits(k);
      FinishKeepsInv(k, exitCode, fault);
      AfterFinishCore(k, exitCode, fault);
      CoreHasProcesses(AfterFinish(k, exitCode, fault), None);
      Transitions.FamilyPart(k);
      var i := current.value;
      tasks := tasks[i := tasks[i].(state := if fault.Some? then Failed else Finished)];
      if exitCode.Some? {
        tasks := tasks[i := tasks[i].(exitCode := exitCode)];
      }
      if fault.Some? {
        tasks := tasks[i := tasks[i].(faultInfo := fault)];
      }
      assert tasks == k.tasks[i := Ended(k.tasks[i], exitCode, fault)];
      if tasks[i].pid.Some? {
        LiveProcess(k);
        EndProcess(tasks[i].pid.value, ExitStatus(exitCode, fault));
      }
      PickNextTask(i);
    }

    /** `finish_current_task`: a kernel task returned from its entry point. */
    method FinishCurrentTask()
      requires Booted() && HasCurrent(State()) && CurrentPid(State()).None?
      modifies this
      ensures Took(old(states), old(events), KernelTaskReturns)
    {
      hide mem.Valid, processes.Valid, Inv, PickNext, RootsMapped, FromBoot;
      ghost var k := State();
      BootedInv();
      ReadyTasksHaveProcess(k);
      var i := current.value;
      tasks := tasks[i := tasks[i].(state := Finished)];
      PickNextTask(i);
      Record(KernelTaskReturns);
    }

    /** `validate_wait_status_target` */
    method ValidateWaitStatusTarget(parent: nat, ptr: nat) returns (ok: bool)
      requires Valid() && Canonical(ptr)
      ensures ok == RangeOk(SpaceOf(State(), parent), ptr, STATUS_SIZE, Write)
    {
      hide mem.Valid, processes.Valid, PointersCanonical, RangeOk;
      var process := processes.Get(parent);
      if process.None? {
        NoRangeMapped(ptr);
        return false;
      }
      var error := ValidateUserRange(mem, process.value.root, ptr, STATUS_SIZE, Write);
      ok := error.None?;
    }

    /** `current_process_id` */
    method CurrentProcessId() returns (pid: Option<nat>)
      requires Valid() && Inv(State())
      ensures pid == CurrentPid(State())
    {
      hide mem.Valid, processes.Valid, Inv, RootsMapped, PointersCanonical;
      if current.None? {
        return None;
      }
      CurrentFits(State());
      pid := tasks[current.value].pid;
    }

    /** Stores a value in the caller's trap frame. */
    method SetFrameRax(v: nat)
      requires Valid() && Inv(State()) && HasCurrent(State())
      modifies this`tasks
      ensures Valid() && State() == SetRax(old(State()), current.value, v) && Inv(State())
    {
      hide mem.Valid, processes.Valid, Inv, RootsMapped;
      RegistersKeepInv(State(), current.value, tasks[current.value].(rax := v));
      tasks := tasks[current.value := tasks[current.value].(rax := v)];
    }

    /** `waitpid_from_interrupt` */
    method WaitpidFromInterrupt(child: nat, statusPtr: Option<nat>, options: nat)
      requires Valid() && Inv(State()) && (statusPtr.Some? ==> Canonical(statusPtr.value))
      modifies this`tasks, this`current, this`cr3, this`cachedRoot, processes, mem
      ensures Valid() && State() == WaitPid(old(State()), child, statusPtr, options) && Inv(State())
    {
      hide mem.Valid, processes.Valid, Inv, PickNext, RootsMapped, CompleteWait, RangeOk, SpaceOf;
      ghost var k := State();
      WaitKeepsInv(k, child, statusPtr, options);
      ReadyTasksHaveProcess(k);
      if current.None? {
        return;
      }
      CurrentFits(k);
      var i := current.value;
      if tasks[i].pid.None? {
        SetFrameRax(RawReturn(Child));
        return;
      }
      var parent := tasks[i].pid.value;
      if options != 0 && options != WNOHANG {
        SetFrameRax(RawReturn(Invalid));
        return;
      }
      var owner := processes.Get(parent);
      if child == 0 || owner.None? || child !in owner.value.children {
        SetFrameRax(RawReturn(Child));
        return;
      }
      if statusPtr.Some? {
        var valid := ValidateWaitStatusTarget(parent, statusPtr.value);
        if !valid {
          SetFrameRax(RawReturn(Fault));
          return;
        }
      }
      var entry := processes.Get(child);
      if entry.None? {
        SetFrameRax(RawReturn(Child));
        return;
      }
      if entry.value.state.Zombie? {
        CompleteWaitOf(i, child, statusPtr);
        return;
      }
      if options == WNOHANG {
        SetFrameRax(0);
        return;
      }
      tasks := tasks[i := tasks[i].(state := Blocked(child, statusPtr))];
      PickNextTask(i);
    }

    /** `run`, called from main */
    method Start()
      requires Booted() && current.None?
      modifies this
      ensures Took(old(states), old(events), Run)
    {
      hide mem.Valid, processes.Valid, Inv, RootsMapped, Dispatch, FirstReady, FromBoot;
      BootedInv();
      ReadyTasksHaveProcess(State());
      FirstReadyFinds(tasks);
      var next := FirstReadyTask();
      if next.Some? {
        cachedRoot := Some(cr3);
        RunTask(next.value);
      }
      Record(Run);
    }

    // ----- files -----

    /** `find_embedded_file` */
    method FindEmbeddedFile(path: seq<byte>) returns (r: Option<nat>)
      ensures r == FindEmbedded(lim.embedded, path)
    {
      var i := 0;
      while i < |lim.embedded|
        invariant 0 <= i <= |lim.embedded| && FindEmbedded(lim.embedded[..i], path).None?
      {
        assert lim.embedded[..i + 1][..i] == lim.embedded[..i];
        if lim.embedded[i].path == path {
          FoundEmbedded(lim.embedded, i, path);
          return Some(i);
        }
        i := i + 1;
      }
      assert lim.embedded[..|lim.embedded|] == lim.embedded;
      r := None;
    }

    /** `sys_open_current` */
    method SysOpenCurrent(path: nat, len: nat, flags: nat) returns (r: SysResult)
      requires Valid() && Inv(State()) && Canonical(path)
      modifies processes, openFiles
      ensures Valid() && (State(), r) == SysOpen(old(State()), path, len, flags) && Inv(State())
    {
      hide mem.Valid, processes.Valid, Inv, PointersCanonical, FindEmbedded, CopyIn, FirstNone, DecRef;
      OpenKeepsInv(State(), path, len, flags);
      if flags != O_RDONLY {
        return Err(Invalid);
      }
      if len == 0 {
        return Err(NoEntry);
      }
      if len > MAX_PATH_LEN {
        return Err(NameTooLong);
      }
      var caller := CurrentProcessId();
      if caller.None? {
        return Err(BadDescriptor);
      }
      var pid := caller.value;
      var process := processes.Get(pid);
      if process.None? {
        return Err(BadDescriptor);
      }
      var bytes, error := CopyFromUser(mem, process.value.root, path, len);
      if error.Some? {
        return Err(Fault);
      }
      var id := FindEmbeddedFile(bytes);
      if id.None? {
        return Err(NoEntry);
      }
      var slot := openFiles.Alloc(EmbeddedFile(id.value), ReadOnly);
      if slot.Err? {
        return Err(MapFileError(slot.error));
      }
      var fd := FindNone(process.value.fds);
      if fd.None? {
        openFiles.Release(slot.value);
        return Err(MapFileError(TooManyProcessFiles));
      }
      processes.Put(pid, process.value.(fds := process.value.fds[fd.value := Some(slot.value)]));
      r := Ok(fd.value);
    }

    /** The slot behind a descriptor of the current process */
    method OpenFileOf(fd: nat) returns (slot: Option<nat>)
      requires Valid() && Inv(State())
      ensures slot == if CurrentPid(State()).None? then None else FileOf(State(), CurrentPid(State()).value, fd)
    {
      hide mem.Valid, processes.Valid, PointersCanonical, RootsMapped;
      var caller := CurrentProcessId();
      if caller.None? {
        return None;
      }
      var process := processes.Get(caller.value);
      if process.None? || fd >= |process.value.fds| {
        return None;
      }
      slot := process.value.fds[fd];
      if slot.Some? && (slot.value >= |openFiles.files| || openFiles.files[slot.value].None?) {
        slot := None;
      }
    }

    /** `sys_read_current` */
    method SysReadCurrent(fd: nat, buf: nat, len: nat) returns (r: SysResult)
      requires Valid() && Inv(State()) && Canonical(buf)
      modifies openFiles, mem
      ensures Valid() && (State(), r) == SysRead(old(State()), fd, buf, len) && Inv(State())
    {
      hide mem.Valid, processes.Valid, Inv, PointersCanonical, CopyOut;
      ReadKeepsInv(State(), fd, buf, len);
      if len == 0 {
        return Ok(0);
      }
      var slot := OpenFileOf(fd);
      if slot.None? {
        return Err(BadDescriptor);
      }
      var pid := tasks[current.value].pid.value;
      var f := openFiles.files[slot.value].value;
      if f.access != ReadOnly {
        return Err(BadDescriptor);
      }
      match f.kind
      case NullInput => r := Ok(0);
      case ConsoleStdout => r := Err(BadDescriptor);
      case ConsoleStderr => r := Err(BadDescriptor);
      case EmbeddedFile(id) =>
        if id >= |lim.embedded| {
          return Err(BadDescriptor);
        }
        var content := lim.embedded[id].bytes;
        if f.offset >= |content| {
          return Ok(0);
        }
        var count := Min(len, |content| - f.offset);
        var root := processes.Get(pid).value.root;
        var error := CopyToUser(mem, root, buf, content[f.offset..f.offset + count]);
        if error.Some? {
          return Err(Fault);
        }
        openFiles.SetOffset(slot.value, f.offset + count);
        r := Ok(count);
    }

    /** `sys_write_current`: the range is checked once, then sent in pieces; no piece can
        fail. */
    method SysWriteCurrent(fd: nat, buf: nat, len: nat) returns (r: SysResult)
      requires Valid() && Inv(State()) && Canonical(buf)
      modifies this`out
      ensures Valid() && (State(), r) == SysWrite(old(State()), fd, buf, len) && Inv(State())
    {
      hide mem.Valid, processes.Valid, Inv, PointersCanonical, RangeOk, CopyIn, ReadRange;
      WriteKeepsInv(State(), fd, buf, len);
      if len == 0 {
        return Ok(0);
      }
      var slot := OpenFileOf(fd);
      if slot.None? {
        return Err(BadDescriptor);
      }
      var f := openFiles.files[slot.value].value;
      if f.access != WriteOnly {
        return Err(BadDescriptor);
      }
      if f.kind.NullInput? || f.kind.EmbeddedFile? {
        return Err(BadDescriptor);
      }
      var root := processes.Get(tasks[current.value].pid.value).value.root;
      var invalid := ValidateUserRange(mem, root, buf, len, Read);
      if invalid.Some? {
        return Err(Fault);
      }
      ghost var s := mem.spaces[root];
      RangeMapped(s, buf, len);
      ghost var all := ReadRange(s, buf, len);
      var written := 0;
      assert all[..0] == [];
      while written < len
        invariant 0 <= written <= len && Valid() && out == old(out) + all[..written]
      {
        var count := Min(WRITE_CHUNK_SIZE, len - written);
        PieceReadable(s, buf, len, written, count);
        var bytes, error := CopyFromUser(mem, root, buf + written, count);
        assert error.None?;
        out := out + bytes;
        assert old(out) + all[..written] + all[written..written + count] == old(out) + (all[..written] + all[written..written + count]);
        assert all[..written] + all[written..written + count] == all[..written + count];
        written := written + count;
      }
      assert all[..len] == all;
      r := Ok(written);
    }

    /** `sys_close_current` */
    method SysCloseCurrent(fd: nat) returns (r: SysResult)
      requires Valid() && Inv(State())
      modifies processes, openFiles
      ensures Valid() && (State(), r) == SysClose(old(State()), fd) && Inv(State())
    {
      hide mem.Valid, processes.Valid, Inv, PointersCanonical, DecRef;
      CloseKeepsInv(State(), fd);
      var caller := CurrentProcessId();
      if caller.None? {
        return Err(BadDescriptor);
      }
      var pid := caller.value;
      var process := processes.Get(pid);
      if process.None? {
        return Err(BadDescriptor);
      }
      var fds := process.value.fds;
      if fd >= |fds| || fds[fd].None? {
        return Err(MapFileError(BadFd));
      }
      processes.Put(pid, process.value.(fds := fds[fd := None]));
      openFiles.Release(fds[fd].value);
      r := Ok(0);
    }

    // ----- brk -----

    /** Grows or shrinks the mapping between the old and the new end of the heap. Within
        the window growing fails only when frames run out, and shrinking never. */
    method MoveHeapPages(root: nat, heap: UserHeap, requested: nat, newEnd: nat) returns (granted: bool)
      requires mem.Valid() && root in mem.spaces && HeapOk(heap) && HeapMapped(mem.spaces[root], heap)
      requires heap.start <= requested <= heap.limit && requested != heap.brk && AlignUp(requested) == Some(newEnd)
      modifies mem
      ensures mem.Valid()
      ensures granted ==> mem.spaces == old(mem.spaces)[root := Moved(old(mem.spaces)[root], heap, requested, newEnd)]
      ensures !granted ==> mem.spaces == old(mem.spaces) && requested > heap.brk && newEnd > heap.mappedEnd && mem.Exhausted()
    {
      hide mem.Valid, AlignUp, ZeroPages, WithoutPages;
      RequestAligns(heap, requested);
      assert mem.spaces[root := mem.spaces[root]] == mem.spaces;
      granted := true;
      if requested > heap.brk {
        if newEnd > heap.mappedEnd {
          var grown := mem.MapUserHeapPages(root, heap.mappedEnd, newEnd);
          if grown.Err? {
            granted := false;
          }
        }
      } else if newEnd < heap.mappedEnd {
        var shrunk, _ := mem.UnmapUserHeapPages(root, newEnd, heap.mappedEnd);
        assert shrunk.Ok?;
      }
    }

    /** `sys_brk_current` */
    method SysBrkCurrent(requested: nat) returns (r: SysResult, ghost granted: bool)
      requires Valid() && Inv(State())
      modifies processes, mem
      ensures Valid() && (State(), r) == SysBrk(old(State()), requested, granted) && Inv(State())
      ensures !granted ==> mem.Exhausted()
    {
      hide mem.Valid, processes.Valid, Inv, PointersCanonical, HeapOk, HeapMapped, AlignUp, MoveBreak, Moved;
      ghost var k := State();
      BrkKeepsInv(k, requested, true);
      BrkKeepsInv(k, requested, false);
      granted := true;
      var caller := CurrentProcessId();
      if caller.None? {
        return Err(Invalid), true;
      }
      var pid := caller.value;
      var process := processes.Get(pid);
      if process.None? {
        return Err(Invalid), true;
      }
      var heap := process.value.heap;
      BrkExact(k, requested, true);
      BrkExact(k, requested, false);
      if requested == 0 {
        return Ok(heap.brk), true;
      }
      if requested < heap.start {
        return Err(Invalid), true;
      }
      if requested > heap.limit {
        return Err(NoMemory), true;
      }
      if requested == heap.brk {
        return Ok(heap.brk), true;
      }
      var newEnd := AlignUp(requested);
      if newEnd.None? {
        return Err(Invalid), true;
      }
      var moved := MoveHeapPages(process.value.root, heap, requested, newEnd.value);
      if !moved {
        return Err(NoMemory), false;
      }
      processes.Put(pid, process.value.(heap := heap.(brk := requested, mappedEnd := newEnd.value)));
      r := Ok(requested);
    }

    // ----- spawning -----

    /** `spawn`: a kernel task */
    method SpawnKernel() returns (r: Result<nat, SpawnError>)
      requires Booted()
      modifies this
      ensures Took(old(states), old(events), SpawnTask)
      ensures r == if |old(tasks)| < lim.tasks then Ok(|old(tasks)|) else Err(Full)
    {
      hide mem.Valid, processes.Valid, RootsMapped, FromBoot;
      if |tasks| < lim.tasks {
        r := Ok(|tasks|);
        tasks := tasks + [Task(None, Ready, 0, 0, None, None)];
      } else {
        r := Err(Full);
      }
      Record(SpawnTask);
    }

    /** The body of `spawn_user_process`: nothing is left behind when any of the tables is
        full. */
    method CreateProcess(parent: Option<nat>, init: UserInit) returns (r: Result<UserProcessHandle, SpawnError>)
      requires Valid() && init.root in mem.spaces
      modifies this`tasks, this`unclaimed, processes, openFiles
      ensures Valid() && State() == SpawnProcess(old(State()), parent, init)
      ensures r.Ok? <==> processes.nextPid == old(processes.nextPid) + 1
      ensures r.Ok? ==> r.value == UserProcessHandle(old(processes.nextPid), |old(tasks)|)
      ensures |old(tasks)| >= lim.tasks <==> r == Err(Full)
      ensures
        var refused := Processes.CanCreate(old(processes.procs), old(processes.nextPid), lim.processes, parent);
        |old(tasks)| < lim.tasks && refused.Some? ==> r == Err(ProcessFailed(refused.value))
      ensures r.Err? ==> !r.error.ElfLoad?
    {
      hide mem.Valid, processes.Valid, NewWithStdio, Processes.Create, Processes.CanCreate;
      unclaimed := unclaimed - {init.root};
      if |tasks| >= lim.tasks {
        return Err(Full);
      }
      var refused := processes.CanCreate(parent);
      if refused.Some? {
        return Err(ProcessFailed(refused.value));
      }
      var fds := MakeStdio(openFiles, lim.fds);
      if fds.Err? {
        return Err(ProcessFailed(File(fds.error)));
      }
      CreateKeepsRoots(processes.procs, processes.nextPid, parent, init.root, init.heap, fds.value, |tasks|, mem.spaces);
      var created := processes.Create(parent, init.root, init.heap, fds.value, |tasks|);
      assert created.Ok?;
      r := Ok(UserProcessHandle(created.value, |tasks|));
      tasks := tasks + [Task(Some(created.value), Ready, 0, init.arg0, None, None)];
    }

    /** `spawn_user_process`, of a program whose address space is ready. */
    method SpawnUserProcess(parent: Option<nat>, init: UserInit) returns (r: Result<UserProcessHandle, SpawnError>)
      requires Booted()
      requires init.root in unclaimed && init.root in mem.spaces && FreshLayout(init.heap, mem.spaces[init.root])
      modifies this, processes, openFiles
      ensures Took(old(states), old(events), Spawn(parent, init))
      ensures r.Ok? <==> processes.nextPid == old(processes.nextPid) + 1
      ensures r.Ok? ==> r.value == UserProcessHandle(old(processes.nextPid), |old(tasks)|)
      ensures |old(tasks)| >= lim.tasks <==> r == Err(Full)
      ensures
        var refused := Processes.CanCreate(old(processes.procs), old(processes.nextPid), lim.processes, parent);
        |old(tasks)| < lim.tasks && refused.Some? ==> r == Err(ProcessFailed(refused.value))
      ensures r.Err? ==> !r.error.ElfLoad?
    {
      hide mem.Valid, processes.Valid, RootsMapped, PointersCanonical, FromBoot, FreshLayout, SpawnProcess,
           Processes.CanCreate;
      r := CreateProcess(parent, init);
      Record(Spawn(parent, init));
    }

    /** The loading half of a spawn: one step that makes an address space, handed over or
        left behind, or none if not even a level-4 table was made. */
    method LoadProgram(bytes: seq<byte>, arg0: nat) returns (r: Result<UserInit, ElfLoadError>, ghost made: Option<nat>)
      requires Booted()
      modifies this, mem
      ensures Booted() && tasks == old(tasks)
      ensures made.None? ==> states == old(states) && events == old(events) && r.Err?
      ensures made.Some? ==>
                && made.value in mem.spaces && made.value in unclaimed
                && Took(old(states), old(events), MakeSpace(made.value, mem.spaces[made.value]))
      ensures r.Ok? ==> made == Some(r.value.root) && r.value.arg0 == arg0 && FreshLayout(r.value.heap, mem.spaces[made.value])
      ensures r.Ok? ==> Parse(bytes).Ok? && LoadedAs(r.value, mem.spaces[made.value], Parse(bytes).value)
      ensures Parse(bytes).Err? ==> r == Err(Parse(bytes).error) && made.None?
      ensures r == Err(NoHeapRange) <==> Parse(bytes).Ok? && FillsLoadRange(Parse(bytes).value.segments)
      ensures Parse(bytes).Ok? && r.Err? && r.error != NoHeapRange ==>
                (r.error == OutOfFrames || r.error == MapFailed) && (mem.Exhausted() || !old(mem.UserSlotFree()))
    {
      hide mem.Valid, processes.Valid, FreshLayout, LoadedAs, Parse, RootsMapped, PointersCanonical, FillsLoadRange,
           FromBoot;
      ghost var k := State();
      r, made := LoadUserElf(mem, bytes, arg0);
      KeptKeepsRoots(k.procs, k.spaces, mem.spaces, made, lim.kernelRoot);
      if made.Some? {
        unclaimed := unclaimed + {made.value};
        Record(MakeSpace(made.value, mem.spaces[made.value]));
      }
      if r.Ok? {
        LoadedIsFresh(r.value, mem.spaces[made.value], bytes);
      }
    }

    /** `create_user_task_with_test_page`: the other way to a program that can be spawned. */
    method CreateBuiltin(code: seq<byte>, arg0: nat, test: Option<nat>)
      returns (r: Result<UserInit, AddressSpaceError>, ghost made: Option<nat>)
      requires Booted()
      modifies this, mem
      ensures Booted() && tasks == old(tasks)
      ensures made.None? ==> states == old(states) && events == old(events) && r.Err?
      ensures made.Some? ==>
                && made.value in mem.spaces && made.value in unclaimed
                && Took(old(states), old(events), MakeSpace(made.value, mem.spaces[made.value]))
      ensures r.Ok? ==>
                && |code| <= PAGE_SIZE && made == Some(r.value.root) && r.value.arg0 == arg0
                && mem.spaces[made.value] == BuiltinView(code, test) && FreshLayout(r.value.heap, mem.spaces[made.value])
      ensures |code| > PAGE_SIZE ==> r.Err?
      ensures r.Err? ==> mem.Exhausted() || !old(mem.UserSlotFree()) || |code| > PAGE_SIZE
    {
      hide mem.Valid, processes.Valid, FreshLayout, RootsMapped, PointersCanonical, FromBoot, BuiltinView;
      ghost var k := State();
      r, made := CreateUserTask(mem, code, arg0, test);
      KeptKeepsRoots(k.procs, k.spaces, mem.spaces, made, lim.kernelRoot);
      if made.Some? {
        unclaimed := unclaimed + {made.value};
        Record(MakeSpace(made.value, mem.spaces[made.value]));
      }
      if r.Ok? {
        BuiltinIsFresh(code, test);
      }
    }

    /** `spawn_user_elf_process_with_arg` and `spawn_child_user_elf_process_with_arg`: load,
        then spawn; one or two steps of a run, or none. */
    method SpawnElf(parent: Option<nat>, bytes: seq<byte>, arg0: nat)
      returns (r: Result<UserProcessHandle, SpawnError>, ghost steps: seq<Event>)
      requires Booted()
      modifies this, processes, openFiles, mem
      ensures Booted() && events == old(events) + steps && old(states) <= states
      ensures r.Ok? || (r.Err? && !r.error.ElfLoad?) ==>
                && Parse(bytes).Ok? && |steps| == 2 && steps[0].MakeSpace? && steps[1].Spawn? && steps[1].parent == parent
                && steps[0].newRoot == steps[1].init.root && steps[1].init.arg0 == arg0
                && LoadedAs(steps[1].init, steps[0].view, Parse(bytes).value)
      ensures r.Err? && r.error.ElfLoad? ==> steps == [] || (|steps| == 1 && steps[0].MakeSpace?)
      ensures r.Ok? ==> r.value == UserProcessHandle(old(processes.nextPid), |old(tasks)|)
      ensures Parse(bytes).Err? ==> r == Err(ElfLoad(Parse(bytes).error)) && steps == []
      ensures r == Err(ElfLoad(NoHeapRange)) <==> Parse(bytes).Ok? && FillsLoadRange(Parse(bytes).value.segments)
      ensures Parse(bytes).Ok? && r.Err? && r.error.ElfLoad? && r.error.reason != NoHeapRange ==>
                && (r.error.reason == OutOfFrames || r.error.reason == MapFailed)
                && (mem.Exhausted() || !old(mem.UserSlotFree()))
      ensures r.Err? && !r.error.ElfLoad? ==> (r.error == Full <==> |old(tasks)| >= lim.tasks)
      ensures
        var refused := Processes.CanCreate(old(processes.procs), old(processes.nextPid), lim.processes, parent);
        && (r.Ok? ==> |old(tasks)| < lim.tasks && refused.None?)
        && (r.Err? && r.error.ProcessFailed? && refused.Some? ==> r.error.error == refused.value)
    {
      hide mem.Valid, processes.Valid, FreshLayout, LoadedAs, Parse, RootsMapped, PointersCanonical, FromBoot,
           FillsLoadRange, Processes.CanCreate;
      var loaded, made := LoadProgram(bytes, arg0);
      steps := if made.Some? then [MakeSpace(made.value, mem.spaces[made.value])] else [];
      if loaded.Err? {
        r := Err(ElfLoad(loaded.error));
        return;
      }
      r := SpawnUserProcess(parent, loaded.value);
      steps := steps + [Spawn(parent, loaded.value)];
    }

    // ----- interrupts and calls from the rest of the kernel -----

    /** `on_timer_interrupt` */
    method OnTimerInterrupt()
      requires Booted()
      modifies this
      ensures Took(old(states), old(events), Timer)
    {
      hide mem.Valid, processes.Valid, Inv, Switch, RootsMapped, PointersCanonical, FromBoot;
      BootedInv();
      if preemption && current.Some? {
        SwitchFromInterrupt();
      }
      Record(Timer);
    }

    /** `on_yield_interrupt` */
    method OnYieldInterrupt()
      requires Booted()
      modifies this
      ensures Took(old(states), old(events), Yield)
    {
      hide mem.Valid, processes.Valid, Inv, Switch, RootsMapped, PointersCanonical, FromBoot;
      BootedInv();
      SwitchFromInterrupt();
      Record(Yield);
    }

    /** `fail_current_with_fault`: user mode did what the hardware forbids. */
    method FailCurrentWithFault(info: UserFaultInfo)
      requires Booted() && CurrentPid(State()).Some?
      modifies this, processes, openFiles, mem
      ensures Took(old(states), old(events), UserFault(info))
    {
      hide mem.Valid, processes.Valid, Inv, Finish, RootsMapped, PointersCanonical, FromBoot;
      BootedInv();
      FinishCurrentFromInterrupt(None, Some(info));
      Record(UserFault(info));
    }

    /** `enable_preemption` and `disable_preemption` */
    method SetPreempting(on: bool)
      requires Booted()
      modifies this
      ensures Took(old(states), old(events), SetPreemption(on))
    {
      hide mem.Valid, processes.Valid, RootsMapped, PointersCanonical, FromBoot;
      preemption := on;
      Record(SetPreemption(on));
    }

    /** The hardware lets user mode store at `address`: the MMU's walk from CR3 ends in a
        page, with R/W set all the way. */
    predicate MmuAllowsStore(address: nat)
      reads this, mem
    {
      var m := MmuWalk(mem.phys, cr3, 4, address / PAGE_SIZE % PAGES);
      m.Some? && m.value.writable
    }

    /** A store by the running user program that the MMU lets through. It reaches a
        writable page of that program's own address space and nothing else. */
    method StoreFromUser(address: nat, value: byte)
      requires Booted() && CurrentPid(State()).Some? && Canonical(address) && MmuAllowsStore(address)
      modifies this, mem
      ensures Took(old(states), old(events), UserStore(address, value))
    {
      hide mem.Valid, processes.Valid, Inv, PointersCanonical, FromBoot, MmuWalk, Translate, Canonical;
      BootedInv();
      RunsOnOwnTables(State());
      ghost var s := mem.spaces[cr3];
      StoreIsOwn(address);
      var m := mem.TranslateUser(cr3, address);
      mem.WriteFrame(cr3, address, m.value, [value]);
      PokeRunOfOne(s, address, value);
      Record(UserStore(address, value));
    }

    lemma StoreIsOwn(address: nat)
      requires mem.Valid() && cr3 in mem.spaces && Canonical(address) && MmuAllowsStore(address)
      ensures UserWritable(mem.spaces[cr3], address)
    {
      hide Canonical, TreeOk, RightsOk;
      var page := address / PAGE_SIZE % PAGES;
      CanonicalPage(address);
      mem.HardwareAgrees(cr3, page);
      OnlyUserSlot(mem.phys, mem.owner, cr3, page);
    }

    /** The system calls that touch descriptors: what each returns goes into the caller's
        frame. */
    method FileSyscall(number: nat, rdi: nat, rsi: nat, rdx: nat)
      requires Valid() && Inv(State()) && HasCurrent(State()) && ArgumentsCanonical(number, rdi, rsi)
      requires number == 2 || number == 5 || number == 6 || number == 7
      modifies this`tasks, this`out, processes, openFiles, mem
      ensures Valid() && Next(old(State()), SyscallEvent(number, rdi, rsi, rdx, true), State()) && Inv(State())
    {
      hide mem.Valid, processes.Valid, Inv, RootsMapped, PointersCanonical, SysOpen, SysRead, SysWrite, SysClose;
      var r: SysResult;
      if number == 2 {
        r := SysWriteCurrent(rdi, rsi, rdx);
      } else if number == 5 {
        r := SysOpenCurrent(rdi, rsi, rdx);
      } else if number == 6 {
        r := SysReadCurrent(rdi, rsi, rdx);
      } else {
        r := SysCloseCurrent(rdi);
      }
      SetFrameRax(match r case Ok(v) => v case Err(e) => RawReturn(e));
    }

    /** Those that only compute a value. */
    method ValueSyscall(number: nat, rdi: nat, rsi: nat, rdx: nat) returns (ghost granted: bool)
      requires Valid() && Inv(State()) && HasCurrent(State()) && (number == 3 || number >= 8)
      modifies this`tasks, processes, mem
      ensures Valid() && Next(old(State()), SyscallEvent(number, rdi, rsi, rdx, granted), State()) && Inv(State())
      ensures !granted ==> mem.Exhausted()
    {
      hide mem.Valid, processes.Valid, Inv, RootsMapped, PointersCanonical, SysBrk;
      granted := true;
      var r: SysResult := Err(NoSys);
      if number == 3 {
        var pid := CurrentProcessId();
        r := match pid case Some(p) => Ok(p) case None => Err(Child);
      } else if number == 8 {
        r, granted := SysBrkCurrent(rdi);
      }
      SetFrameRax(match r case Ok(v) => v case Err(e) => RawReturn(e));
    }

    /** The step of a system call; `number` and the arguments are the caller's registers. */
    method SyscallStep(number: nat, rdi: nat, rsi: nat, rdx: nat) returns (ghost granted: bool)
      requires Valid() && Inv(State()) && HasCurrent(State()) && ArgumentsCanonical(number, rdi, rsi)
      modifies this`tasks, this`current, this`cr3, this`cachedRoot, this`out, processes, openFiles, mem
      ensures Valid() && Next(old(State()), SyscallEvent(number, rdi, rsi, rdx, granted), State())
      ensures !granted ==> mem.Exhausted()
    {
      hide mem.Valid, processes.Valid, Inv, RootsMapped, PointersCanonical, Switch, Finish, WaitPid, SysOpen,
           SysRead, SysWrite, SysClose, SysBrk;
      granted := true;
      if number == 0 {
        SetFrameRax(0);
        SwitchFromInterrupt();
      } else if number == 1 {
        FinishCurrentFromInterrupt(Some(rdi), None);
      } else if number == 4 {
        WaitpidFromInterrupt(rdi, StatusAddress(rsi), rdx);
      } else if number == 3 || number >= 8 {
        granted := ValueSyscall(number, rdi, rsi, rdx);
      } else {
        FileSyscall(number, rdi, rsi, rdx);
      }
    }

    /** `syscall::dispatch` */
    method Syscall(number: nat, rdi: nat, rsi: nat, rdx: nat) returns (ghost granted: bool)
      requires Booted() && HasCurrent(State()) && ArgumentsCanonical(number, rdi, rsi)
      modifies this, processes, openFiles, mem
      ensures Took(old(states), old(events), SyscallEvent(number, rdi, rsi, rdx, granted))
      ensures !granted ==> mem.Exhausted()
    {
      hide mem.Valid, processes.Valid, Inv, RootsMapped, PointersCanonical, FromBoot, Next, SyscallEvent;
      BootedInv();
      granted := SyscallStep(number, rdi, rsi, rdx);
      Record(SyscallEvent(number, rdi, rsi, rdx, granted));
    }

    /** `scheduler::copy_to_user` */
    method CopyToUserOf(task: nat, address: nat, bytes: seq<byte>) returns (error: Option<UserMemoryError>)
      requires Booted() && Canonical(address)
      modifies this, mem
      ensures Took(old(states), old(events), CopyToTask(task, address, bytes))
      ensures
        error == if task < |old(tasks)| && old(tasks)[task].pid.Some? && old(tasks)[task].pid.value in old(processes.procs)
                 then CopyOut(SpaceOf(old(State()), old(tasks)[task].pid.value), address, bytes, Write).1
                 else Some(Unmapped)
    {
      hide mem.Valid, processes.Valid, PointersCanonical, CopyOut, FromBoot;
      error := Some(Unmapped);
      if task < |tasks| && tasks[task].pid.Some? {
        var process := processes.Get(tasks[task].pid.value);
        if process.Some? {
          error := CopyToUser(mem, process.value.root, address, bytes);
        }
      }
      Record(CopyToTask(task, address, bytes));
    }

    /** `set_task_initial_arg`: only while the task is ready. */
    method SetTaskInitialArg(task: nat, arg: nat) returns (done: bool)
      requires Booted()
      modifies this
      ensures Took(old(states), old(events), SetArgument(task, arg))
      ensures done <==> task < |old(tasks)| && old(tasks)[task].state == Ready
    {
      hide mem.Valid, processes.Valid, RootsMapped, FromBoot;
      done := task < |tasks| && tasks[task].state == Ready;
      if done {
        tasks := tasks[task := tasks[task].(rdi := arg)];
      }
      Record(SetArgument(task, arg));
    }
  }

  /** While a user task runs, CR3 holds its own level-4 table. */
  lemma RunsOnOwnTables(k: Kernel)
    requires Inv(k) && CurrentPid(k).Some?
    ensures CurrentPid(k).value in k.procs && k.procs[CurrentPid(k).value].root == k.cr3 && k.cr3 in k.spaces
  {
    LiveProcess(k);
    hide Core;
  }

  lemma PokeRunOfOne(s: UserSpace, a: nat, v: byte)
    requires IsMapped(s, a)
    ensures PokeRun(s, a, [v]) == Poke(s, a, v)
  {
    var bytes := s[a / PAGE_SIZE].bytes;
    assert Splice(bytes, a % PAGE_SIZE, [v]) == bytes[a % PAGE_SIZE := v];
  }

  /** A task that may be picked has its process. */
  ghost predicate ReadyHaveProcess(tasks: seq<Task>, procs: Procs) {
    forall i | 0 <= i < |tasks| && tasks[i].state == Ready && tasks[i].pid.Some? :: tasks[i].pid.value in procs
  }

  lemma CoreHasProcesses(k: Kernel, x: Option<nat>)
    requires Core(k, x)
    ensures ReadyHaveProcess(k.tasks, k.procs)
  {
    hide FamilyOk, OrphansAlive, WaitsOk, FilesOk, SpacesOk, HeapsOk;
  }

  lemma ReadyTasksHaveProcess(k: Kernel)
    requires Inv(k)
    ensures ReadyHaveProcess(k.tasks, k.procs)
  {
    hide Core;
    CoreHasProcesses(k, None);
  }

  lemma NothingMapped(ptr: nat, bytes: seq<byte>)
    requires bytes != []
    ensures CopyOut(map[], ptr, bytes, Write).1.Some? && CopyOut(map[], ptr, bytes, Write).0 == map[]
  {
  }

  lemma SetSameSpace(k: Kernel, pid: nat)
    ensures SetSpace(k, pid, SpaceOf(k, pid)) == k
  {
    if pid in k.procs && k.procs[pid].root in k.spaces {
      assert k.spaces[k.procs[pid].root := k.spaces[k.procs[pid].root]] == k.spaces;
    }
  }

  lemma ReapKeepsRoots(procs: Procs, parent: nat, child: nat, spaces: map<nat, UserSpace>)
    requires RootsMapped(procs, spaces) && parent in procs
    ensures RootsMapped(ReapChild(procs, parent, child), spaces)
  {
  }

  lemma {:induction false} FoundWaiter(tasks: seq<Task>, i: nat, child: nat)
    requires i < |tasks| && BlockedOn(tasks[i], child) && FindWaiter(tasks[..i], child).None?
    ensures FindWaiter(tasks, child) == Some(i)
  {
    if i < |tasks| - 1 {
      assert tasks[..|tasks| - 1][..i] == tasks[..i];
      FoundWaiter(tasks[..|tasks| - 1], i, child);
    }
  }

  lemma EndKeepsRoots(procs: Procs, pid: nat, exit: ProcessExit, spaces: map<nat, UserSpace>)
    requires RootsMapped(procs, spaces) && pid in procs && FamilyOk(procs)
    ensures RootsMapped(MarkExited(procs, pid, exit), spaces)
  {
    hide MarkExited;
    assert pid !in procs[pid].children;
    MarkExitedAll(procs, pid, exit);
    var procs' := MarkExited(procs, pid, exit);
    forall p | p in procs' ensures procs'[p].root in spaces {
      assert Lookup(procs', p).Some?;
    }
  }

  lemma ReapOrphanKeepsRoots(procs: Procs, pid: nat, spaces: map<nat, UserSpace>)
    requires RootsMapped(procs, spaces)
    ensures RootsMapped(ReapOrphan(procs, pid), spaces)
  {
  }

  lemma NoRangeMapped(ptr: nat)
    ensures !RangeOk(map[], ptr, STATUS_SIZE, Write)
  {
    assert !ByteOk(map[], ptr, Write);
  }

  lemma {:induction false} FoundEmbedded(registry: seq<Embedded>, i: nat, path: seq<byte>)
    requires i < |registry| && registry[i].path == path && FindEmbedded(registry[..i], path).None?
    ensures FindEmbedded(registry, path) == Some(i)
  {
    if i < |registry| - 1 {
      assert registry[..|registry| - 1][..i] == registry[..i];
      FoundEmbedded(registry[..|registry| - 1], i, path);
    }
  }

  lemma RangeMapped(s: UserSpace, a: nat, n: nat)
    requires RangeOk(s, a, n, Read)
    ensures forall x | a <= x < a + n :: IsMapped(s, x)
  {
    forall x | a <= x < a + n ensures IsMapped(s, x) {
      assert ByteOk(s, x, Read);
    }
  }

  /** A piece of a readable range is readable, and is that piece of its content. */
  lemma PieceReadable(s: UserSpace, a: nat, n: nat, from: nat, count: nat)
    requires RangeOk(s, a, n, Read) && from + count <= n && count > 0
    requires forall x | a <= x < a + n :: IsMapped(s, x)
    ensures CopyIn(s, a + from, count) == (ReadRange(s, a, n)[from..from + count], None)
    ensures Canonical(a + from)
  {
    forall x | a + from <= x < a + from + count ensures ByteOk(s, x, Read) {
    }
    CopyInExact(s, a + from, count);
    assert ByteOk(s, a + from, Read);
    assert ReadRange(s, a + from, count) == ReadRange(s, a, n)[from..from + count];
  }

  lemma CreateKeepsRoots(procs: Procs, pid: nat, parent: Option<nat>, root: nat, heap: UserHeap, fds: FdTable,
          task: nat, spaces: map<nat, UserSpace>)
    requires RootsMapped(procs, spaces) && root in spaces
    ensures RootsMapped(Processes.Create(procs, pid, parent, root, heap, fds, task), spaces)
  {
  }

  lemma KeptKeepsRoots(procs: Procs, before: map<nat, UserSpace>, after: map<nat, UserSpace>, made: Option<nat>, kernelRoot: nat)
    requires RootsMapped(procs, before) && Kept(before, after, made, kernelRoot)
    ensures RootsMapped(procs, after)
  {
  }

  /** The system call table */
  function SyscallEvent(number: nat, rdi: nat, rsi: nat, rdx: nat, granted: bool): Event {
    match number
    case 0 => SyscallYield
    case 1 => Exit(rdi)
    case 2 => WriteFd(rdi, rsi, rdx)
    case 3 => GetPid
    case 4 => Wait(rdi, rsi, rdx)
    case 5 => Open(rdi, rsi, rdx)
    case 6 => ReadFd(rdi, rsi, rdx)
    case 7 => Close(rdi)
    case 8 => Brk(rdi, granted)
    case _ => UnknownSyscall
  }

  /** How a program makes a call: its number in rax and its arguments in rdi, rsi and rdx. */
  function CallRegisters(e: Event): Option<(nat, nat, nat, nat)> {
    match e
    case SyscallYield => Some((0, 0, 0, 0))
    case Exit(code) => Some((1, code, 0, 0))
    case WriteFd(fd, buf, len) => Some((2, fd, buf, len))
    case GetPid => Some((3, 0, 0, 0))
    case Wait(child, status, options) => Some((4, child, status, options))
    case Open(path, len, flags) => Some((5, path, len, flags))
    case ReadFd(fd, buf, len) => Some((6, fd, buf, len))
    case Close(fd) => Some((7, fd, 0, 0))
    case Brk(requested, _) => Some((8, requested, 0, 0))
    case _ => None
  }

  /** The kernel takes exactly the call a program makes; every other number is unknown. */
  lemma CallIsUnderstood(e: Event, number: nat, rdi: nat, rsi: nat, rdx: nat, granted: bool)
    ensures CallRegisters(e) == Some((number, rdi, rsi, rdx)) && (e.Brk? ==> e.granted == granted) ==>
              SyscallEvent(number, rdi, rsi, rdx, granted) == e
    ensures SyscallEvent(number, rdi, rsi, rdx, granted) == UnknownSyscall <==> number > 8
  {
  }

  /** Pointer arguments are addresses `VirtAddr::new` accepts. */
  predicate ArgumentsCanonical(number: nat, rdi: nat, rsi: nat) {
    && (number == 5 ==> Canonical(rdi))
    && (number == 2 || number == 4 || number == 6 ==> Canonical(rsi))
  }
}

/** What one step can do to a task and to the process table. */
module Transitions {
  import opened Base
  import opened UserSpaces
  import opened UserLayout
  import opened Files
  import opened Processes
  import opened Kernel
  import opened Invariants
  import opened Preservation
  import opened WaitSteps
  import opened ExitSteps
  import opened Runs
  import SpawnSteps

  /** The process that ends in this step. */
  function EndedPid(k: Kernel, e: Event): Option<nat> {
    if (e.Exit? || e.UserFault?) && HasCurrent(k) then CurrentPid(k) else None
  }

  /** How it ends. */
  function EndStatus(e: Event): ProcessExit
    requires e.Exit? || e.UserFault?
  {
    match e
    case Exit(code) => Exited(ToI32(code))
    case UserFault(_) => Faulted
  }

  // ----- tasks -----

  predicate CanRun(t: Task) {
    t.state == Ready || t.state == Running
  }

  /** A ready task can only start running, and only its argument can be set meanwhile; a
      blocked one stays as it is until the process it waits for ends, and then it is
      ready or already running with that pid as its result; a terminal one never changes
      again. A running one may go anywhere; what is recorded when it ends is said in
      `EndsExactly`. */
  ghost predicate TaskStep(t: Task, t': Task, ended: Option<nat>) {
    match t.state
    case Running => t'.pid == t.pid && (!t'.Terminal() ==> t' == t.(state := t'.state, rax := t'.rax))
    case Ready => CanRun(t') && t' == t.(state := t'.state, rdi := t'.rdi)
    case Blocked(child, _) =>
      if ended == Some(child) then CanRun(t') && t' == t.(state := t'.state, rax := child) else t' == t
    case Finished => t' == t
    case Failed => t' == t
  }

  ghost predicate TasksStep(tasks: seq<Task>, tasks': seq<Task>, ended: Option<nat>) {
    |tasks| <= |tasks'| && forall i | 0 <= i < |tasks| :: TaskStep(tasks[i], tasks'[i], ended)
  }

  /** Picking the next task only makes a ready task run. */
  lemma PickNextStep(tasks: seq<Task>, k: Kernel, start: nat, ended: Option<nat>)
    requires TasksStep(tasks, k.tasks, ended) && start < |k.tasks|
    ensures TasksStep(tasks, PickNext(k, start).tasks, ended)
  {
    hide NextReady;
    NextReadyFinds(k.tasks, start);
  }

  lemma SwitchStep(k: Kernel)
    requires Inv(k)
    ensures TasksStep(k.tasks, Switch(k).tasks, None)
  {
    hide Core, CurrentOk, NextReady;
    if HasCurrent(k) {
      NextReadyFinds(k.tasks, k.current.value);
    }
  }

  lemma StartStep(k: Kernel)
    ensures TasksStep(k.tasks, StartRunning(k).tasks, None)
  {
    hide FirstReady;
    FirstReadyFinds(k.tasks);
  }

  /** A finishing task ends, and whoever waited for its process is told. */
  lemma AfterFinishStep(k: Kernel, exitCode: Option<nat>, fault: Option<UserFaultInfo>)
    requires Inv(k) && HasCurrent(k)
    ensures TasksStep(k.tasks, AfterFinish(k, exitCode, fault).tasks, CurrentPid(k))
    ensures AfterFinish(k, exitCode, fault).tasks[k.current.value] == Ended(k.tasks[k.current.value], exitCode, fault)
  {
    hide Core, CurrentOk, ExitProcess, Exiting, FindWaiter, WaiterOk, ReapOrphan, NoneRunning;
    var i := k.current.value;
    var t := Ended(k.tasks[i], exitCode, fault);
    OnlyCurrentEnds(k, t);
    if t.pid.Some? {
      ExitExact(k, i, t, ExitStatus(exitCode, fault));
      ExitingTasks(k, i, t, ExitStatus(exitCode, fault));
      var waiter := FindWaiter(k.tasks[i := t], t.pid.value);
      forall j | 0 <= j < |k.tasks| && BlockedOn(k.tasks[j], t.pid.value) ensures waiter == Some(j) {
        assert BlockedOn(k.tasks[i := t][j], t.pid.value);
        OneWaiter(k, waiter.value, j, t.pid.value);
      }
    }
  }

  lemma FinishStep(k: Kernel, exitCode: Option<nat>, fault: Option<UserFaultInfo>)
    requires Inv(k) && HasCurrent(k)
    ensures TasksStep(k.tasks, Finish(k, exitCode, fault).tasks, CurrentPid(k))
  {
    hide Inv, Core, AfterFinish, TasksStep, PickNext, NoneRunning;
    AfterFinishStep(k, exitCode, fault);
    AfterFinishCore(k, exitCode, fault);
    PickNextStep(k.tasks, AfterFinish(k, exitCode, fault), k.current.value, CurrentPid(k));
  }

  lemma WaitStep(k: Kernel, child: nat, statusPtr: Option<nat>, options: nat)
    requires Inv(k) && HasCurrent(k)
    ensures TasksStep(k.tasks, WaitPid(k, child, statusPtr, options).tasks, None)
  {
    hide Core, CurrentOk, PickNext, WaitAllowed, CopyOut, ReapChild, StatusBytes, NoneRunning;
    var i := k.current.value;
    OnlyCurrentRuns(k, Ready);
    var blocked := SetState(k, i, Blocked(child, statusPtr));
    PickNextStep(k.tasks, blocked, i, None);
  }

  /** Storing a result in the running task's registers. */
  lemma ReturnStep(k: Kernel, k': Kernel, r: SysResult)
    requires Inv(k) && HasCurrent(k) && k'.tasks == k.tasks && k'.current == k.current
    ensures TasksStep(k.tasks, Return(k', r).tasks, None)
  {
    hide Core, CurrentOk, NoneRunning;
    OnlyCurrentRuns(k, Ready);
  }

  lemma SyscallStep(k: Kernel, e: Event)
    requires Inv(k) && Enabled(k, e) && LimitsOk(k.lim)
    requires e.Open? || e.ReadFd? || e.WriteFd? || e.Close? || e.Brk? || e.GetPid? || e.UnknownSyscall?
    ensures TasksStep(k.tasks, Step(k, e).tasks, None)
  {
    hide Inv, SysOpen, SysRead, SysWrite, SysClose, SysBrk, Return, TasksStep;
    match e
    case Open(path, len, flags) => ReturnStep(k, SysOpen(k, path, len, flags).0, SysOpen(k, path, len, flags).1);
    case ReadFd(fd, buf, len) => ReturnStep(k, SysRead(k, fd, buf, len).0, SysRead(k, fd, buf, len).1);
    case WriteFd(fd, buf, len) => ReturnStep(k, SysWrite(k, fd, buf, len).0, SysWrite(k, fd, buf, len).1);
    case Close(fd) => ReturnStep(k, SysClose(k, fd).0, SysClose(k, fd).1);
    case Brk(requested, granted) => ReturnStep(k, SysBrk(k, requested, granted).0, SysBrk(k, requested, granted).1);
    case GetPid => ReturnStep(k, k, match CurrentPid(k) case Some(p) => Ok(p) case None => Err(Child));
    case UnknownSyscall => ReturnStep(k, k, Err(NoSys));
  }

  lemma YieldStep(k: Kernel)
    requires Inv(k) && HasCurrent(k)
    ensures TasksStep(k.tasks, Switch(SetRax(k, k.current.value, 0)).tasks, None)
  {
    hide Core, CurrentOk, NoneRunning, Switch;
    var i := k.current.value;
    OnlyCurrentRuns(k, Ready);
    RegistersKeepInv(k, i, k.tasks[i].(rax := 0));
    SwitchStep(SetRax(k, i, 0));
  }

  lemma TaskReturnStep(k: Kernel)
    requires Inv(k) && HasCurrent(k)
    ensures TasksStep(k.tasks, PickNext(SetState(k, k.current.value, Finished), k.current.value).tasks, None)
  {
    hide Core, CurrentOk, NoneRunning, PickNext;
    OnlyCurrentRuns(k, Finished);
    PickNextStep(k.tasks, SetState(k, k.current.value, Finished), k.current.value, None);
  }

  lemma SameTasksStep(tasks: seq<Task>)
    ensures TasksStep(tasks, tasks, None)
  {
  }

  /** Events in which no task stops or starts. */
  lemma QuietStep(k: Kernel, e: Event)
    requires Enabled(k, e) && LimitsOk(k.lim)
    requires e.SpawnTask? || e.MakeSpace? || e.Spawn? || e.UserStore? || e.CopyToTask? || e.SetArgument? || e.SetPreemption?
    ensures TasksStep(k.tasks, Step(k, e).tasks, None) && EndedPid(k, e).None?
  {
    hide NewWithStdio, Create, CopyOut, SpaceOf, FreshLayout;
  }

  /** Every step moves every task along these transitions. */
  lemma TasksMove(k: Kernel, e: Event, k': Kernel)
    requires Inv(k) && Next(k, e, k')
    ensures TasksStep(k.tasks, k'.tasks, EndedPid(k, e))
  {
    hide Inv, Switch, PickNext, Finish, WaitPid, StartRunning, TasksStep, SpawnProcess, CopyOut, SpaceOf;
    match e
    case Exit(code) => FinishStep(k, Some(code), None);
    case UserFault(info) => FinishStep(k, None, Some(info));
    case KernelTaskReturns => TaskReturnStep(k);
    case Wait(child, address, options) => WaitStep(k, child, StatusAddress(address), options);
    case Open(_, _, _) | ReadFd(_, _, _) | WriteFd(_, _, _) | Close(_) | Brk(_, _) | GetPid | UnknownSyscall => SyscallStep(k, e);
    case Run => StartStep(k);
    case Timer | Yield =>
      SwitchStep(k);
      SameTasksStep(k.tasks);
    case SyscallYield => YieldStep(k);
    case _ => QuietStep(k, e);
  }

  /** The events in which the running task ends. */
  predicate EndsTask(e: Event) {
    e.Exit? || e.UserFault? || e.KernelTaskReturns?
  }

  /** What is recorded of it: the exit code or the fault, and nothing else changes. */
  function FinalRecord(t: Task, e: Event): Task
    requires EndsTask(e)
  {
    match e
    case Exit(code) => t.(state := Finished, exitCode := Some(code))
    case UserFault(info) => t.(state := Failed, faultInfo := Some(info))
    case KernelTaskReturns => t.(state := Finished)
  }

  /** In those events the task that runs ends, with that record; in all others none does. */
  ghost predicate EndsExactly(k: Kernel, e: Event, tasks': seq<Task>) {
    && |k.tasks| <= |tasks'|
    && forall i | 0 <= i < |k.tasks| && !k.tasks[i].Terminal() ::
         if EndsTask(e) && k.current == Some(i) then tasks'[i] == FinalRecord(k.tasks[i], e) else !tasks'[i].Terminal()
  }

  /** The record of a task that this step adds, if it adds one. */
  ghost function Added(k: Kernel, e: Event, nextPid': nat): seq<Task> {
    match e
    case SpawnTask => if |k.tasks| < k.lim.tasks then [Task(None, Ready, 0, 0, None, None)] else []
    case Spawn(_, init) =>
      if nextPid' > k.nextPid then [Task(Some(k.nextPid), Ready, 0, init.arg0, None, None)] else []
    case _ => []
  }

  ghost predicate NoneEnds(tasks: seq<Task>, tasks': seq<Task>) {
    |tasks| <= |tasks'| && forall i | 0 <= i < |tasks| && !tasks[i].Terminal() :: !tasks'[i].Terminal()
  }

  lemma PickNextEndsNone(tasks: seq<Task>, k: Kernel, start: nat)
    requires NoneEnds(tasks, k.tasks)
    ensures NoneEnds(tasks, PickNext(k, start).tasks)
  {
    hide NextReady;
  }

  lemma WaitEndsNone(k: Kernel, child: nat, statusPtr: Option<nat>, options: nat)
    ensures NoneEnds(k.tasks, WaitPid(k, child, statusPtr, options).tasks)
    ensures |WaitPid(k, child, statusPtr, options).tasks| == |k.tasks|
  {
    hide PickNext, WaitAllowed, CopyOut, ReapChild, StatusBytes;
    if HasCurrent(k) {
      PickNextEndsNone(k.tasks, SetState(k, k.current.value, Blocked(child, statusPtr)), k.current.value);
    }
  }

  lemma SyscallEndsNone(k: Kernel, e: Event)
    requires Enabled(k, e) && LimitsOk(k.lim)
    requires e.Open? || e.ReadFd? || e.WriteFd? || e.Close? || e.Brk? || e.GetPid? || e.UnknownSyscall?
    ensures NoneEnds(k.tasks, Step(k, e).tasks) && |Step(k, e).tasks| == |k.tasks|
  {
    hide SysOpen, SysRead, SysWrite, SysClose, SysBrk;
  }

  lemma SwitchEndsNone(k: Kernel)
    ensures NoneEnds(k.tasks, Switch(k).tasks) && |Switch(k).tasks| == |k.tasks|
  {
    hide NextReady;
  }

  lemma OtherEndsNone(k: Kernel, e: Event)
    requires Enabled(k, e) && LimitsOk(k.lim) && (e.Run? || e.Timer? || e.Yield? || e.SyscallYield?)
    ensures NoneEnds(k.tasks, Step(k, e).tasks) && |Step(k, e).tasks| == |k.tasks|
  {
    hide FirstReady, Switch;
    SwitchEndsNone(k);
    if e.SyscallYield? {
      SwitchEndsNone(SetRax(k, k.current.value, 0));
    }
  }

  lemma QuietEndsNone(k: Kernel, e: Event)
    requires Enabled(k, e) && LimitsOk(k.lim)
    requires e.SpawnTask? || e.MakeSpace? || e.Spawn? || e.UserStore? || e.CopyToTask? || e.SetArgument? || e.SetPreemption?
    ensures
      var k' := Step(k, e);
      NoneEnds(k.tasks, k'.tasks) && k'.tasks[|k.tasks|..] == Added(k, e, k'.nextPid)
  {
    hide NewWithStdio, Create, CanCreate, CopyOut, SpaceOf, FreshLayout;
  }

  /** Picking the next task leaves a terminal one as it is. */
  lemma PickNextKeepsEnded(k: Kernel, start: nat, i: nat)
    requires start < |k.tasks| && i < |k.tasks| && k.tasks[i].Terminal()
    ensures PickNext(k, start).tasks[i] == k.tasks[i]
  {
    hide NextReady;
    NextReadyFinds(k.tasks, start);
  }

  lemma RunningEnds(k: Kernel, e: Event)
    requires Inv(k) && Enabled(k, e) && LimitsOk(k.lim) && EndsTask(e)
    ensures |Step(k, e).tasks| == |k.tasks|
    ensures Step(k, e).tasks[k.current.value] == FinalRecord(k.tasks[k.current.value], e)
  {
    hide Inv, AfterFinish, PickNext;
    var i := k.current.value;
    match e
    case Exit(code) =>
      AfterFinishStep(k, Some(code), None);
      PickNextKeepsEnded(AfterFinish(k, Some(code), None), i, i);
    case UserFault(info) =>
      AfterFinishStep(k, None, Some(info));
      PickNextKeepsEnded(AfterFinish(k, None, Some(info)), i, i);
    case KernelTaskReturns =>
      PickNextKeepsEnded(SetState(k, i, Finished), i, i);
  }

  lemma OnlyCurrentIsRunning(k: Kernel, i: nat)
    requires Inv(k) && i < |k.tasks| && k.tasks[i].state == Running
    ensures k.current == Some(i)
  {
    hide Core;
  }

  lemma EndsAndAdds(k: Kernel, e: Event, k': Kernel)
    requires Inv(k) && Next(k, e, k') && TasksStep(k.tasks, k'.tasks, EndedPid(k, e))
    ensures EndsExactly(k, e, k'.tasks)
    ensures k'.tasks[|k.tasks|..] == Added(k, e, k'.nextPid)
  {
    hide Inv, Step, Enabled;
    if EndsTask(e) {
      RunningEnds(k, e);
      forall i | 0 <= i < |k.tasks| && !k.tasks[i].Terminal() && k.current != Some(i) ensures !k'.tasks[i].Terminal() {
        assert TaskStep(k.tasks[i], k'.tasks[i], EndedPid(k, e));
        if k.tasks[i].state == Running {
          OnlyCurrentIsRunning(k, i);
        }
      }
    } else {
      NonEnding(k, e);
    }
  }

  lemma NonEnding(k: Kernel, e: Event)
    requires Enabled(k, e) && LimitsOk(k.lim) && !EndsTask(e)
    ensures
      var k' := Step(k, e);
      NoneEnds(k.tasks, k'.tasks) && k'.tasks[|k.tasks|..] == Added(k, e, k'.nextPid)
  {
    hide NoneEnds, WaitPid, Switch, StartRunning, SysOpen, SysRead, SysWrite, SysClose, SysBrk, SpawnProcess, CopyOut;
    match e
    case Wait(child, address, options) => WaitEndsNone(k, child, StatusAddress(address), options);
    case Open(_, _, _) | ReadFd(_, _, _) | WriteFd(_, _, _) | Close(_) | Brk(_, _) | GetPid | UnknownSyscall =>
      SyscallEndsNone(k, e);
    case Run | Timer | Yield | SyscallYield => OtherEndsNone(k, e);
    case _ => QuietEndsNone(k, e);
  }

  /** Every step moves every task along these transitions and no others: exactly which
      task ends and with what record, exactly which is added. */
  lemma StepTasks(k: Kernel, e: Event, k': Kernel)
    requires Inv(k) && Next(k, e, k')
    ensures TasksStep(k.tasks, k'.tasks, EndedPid(k, e))
    ensures EndsExactly(k, e, k'.tasks)
    ensures k'.tasks[|k.tasks|..] == Added(k, e, k'.nextPid)
  {
    hide Inv, Step, Enabled, NoneEnds, Added, TasksStep;
    TasksMove(k, e, k');
    EndsAndAdds(k, e, k');
  }

  // ----- the process table -----

  /** The child whose end a parent learns of in this step. */
  ghost function Reported(k: Kernel, e: Event): Option<nat> {
    match e
    case Wait(child, address, options) =>
      if HasCurrent(k) && CurrentPid(k).Some? && (options == 0 || options == WNOHANG)
         && WaitAllowed(k, CurrentPid(k).value, child, StatusAddress(address)) && IsZombie(k.procs, child)
      then Some(child)
      else None
    case _ =>
      if EndedPid(k, e).Some? && FindWaiter(k.tasks, EndedPid(k, e).value).Some? then EndedPid(k, e) else None
  }

  /** The child list of process `p` after the step: empty once the process has ended;
      otherwise a child whose end is reported goes and a spawned one comes. */
  ghost function ChildrenAfter(k: Kernel, e: Event, p: nat, nextPid': nat): seq<nat>
    requires p in k.procs
  {
    var children := k.procs[p].children;
    if EndedPid(k, e) == Some(p) then []
    else if e.Spawn? && e.parent == Some(p) && nextPid' > k.nextPid then children + [k.nextPid]
    else if Reported(k, e).Some? && Reported(k, e).value in children then RemoveAll(children, Reported(k, e).value)
    else children
  }

  /** Process `p` at two moments. It keeps its address space, main task and heap window;
      only the end of its parent makes it an orphan and only its own end makes it a
      zombie and closes its descriptors. Otherwise its descriptors change only by its own
      open and close, its break only by its own brk. */
  ghost predicate ProcStep(k: Kernel, e: Event, p: nat, after: Process, nextPid': nat)
    requires p in k.procs
  {
    var before, ended := k.procs[p], EndedPid(k, e);
    && after.pid == before.pid && after.root == before.root && after.mainTask == before.mainTask
    && (if ended.Some? && before.parent == ended then after.parent.None? && after.orphaned
        else after.parent == before.parent && after.orphaned == before.orphaned)
    && after.state == (if ended == Some(p) then Zombie(EndStatus(e)) else before.state)
    && after.children == ChildrenAfter(k, e, p, nextPid')
    && FdsStep(k, e, p, after.fds)
    && HeapStep(k, e, p, after.heap)
  }

  ghost predicate FdsStep(k: Kernel, e: Event, p: nat, after: FdTable)
    requires p in k.procs
  {
    if EndedPid(k, e) == Some(p) then after == EmptyFds(|k.procs[p].fds|)
    else (CurrentPid(k) == Some(p) && (e.Open? || e.Close?)) || after == k.procs[p].fds
  }

  ghost predicate HeapStep(k: Kernel, e: Event, p: nat, after: UserHeap)
    requires p in k.procs
  {
    if CurrentPid(k) == Some(p) && e.Brk?
    then after == k.procs[p].heap.(brk := after.brk, mappedEnd := after.mappedEnd)
    else after == k.procs[p].heap
  }

  /** A process leaves the table when its end is reported, when it ends as an orphan,
      or as a zombie whose parent ends. */
  ghost predicate Leaves(k: Kernel, e: Event, p: nat)
    requires p in k.procs
  {
    || Reported(k, e) == Some(p)
    || (EndedPid(k, e) == Some(p) && k.procs[p].orphaned)
    || (k.procs[p].state.Zombie? && EndedPid(k, e).Some? && k.procs[p].parent == EndedPid(k, e))
  }

  ghost predicate ProcsStep(k: Kernel, e: Event, procs': Procs, nextPid': nat) {
    && k.nextPid <= nextPid' <= k.nextPid + 1
    && (forall p | p in procs' && p !in k.procs ::
          && e.Spawn? && p == k.nextPid < nextPid'
          && procs'[p] == Process(p, e.parent, [], Alive, e.init.root, e.init.heap, procs'[p].fds, |k.tasks|, false))
    && (forall p | p in k.procs ::
          if p in procs' then !Leaves(k, e, p) && ProcStep(k, e, p, procs'[p], nextPid')
          else Leaves(k, e, p))
  }

  /** Only descriptors or the break of the calling process may differ, and only in the
      calls meant for that. */
  ghost predicate SameProcs(k: Kernel, e: Event, procs': Procs) {
    && procs'.Keys == k.procs.Keys
    && forall p | p in k.procs ::
         && procs'[p] == k.procs[p].(fds := procs'[p].fds, heap := procs'[p].heap)
         && (procs'[p].fds == k.procs[p].fds || (CurrentPid(k) == Some(p) && (e.Open? || e.Close?)))
         && HeapStep(k, e, p, procs'[p].heap)
  }

  lemma BonesStep(k: Kernel, e: Event, procs': Procs)
    requires SameProcs(k, e, procs') && EndedPid(k, e).None? && Reported(k, e).None? && !e.Spawn?
    ensures ProcsStep(k, e, procs', k.nextPid)
  {
    forall p | p in k.procs ensures ProcStep(k, e, p, procs'[p], k.nextPid) && !Leaves(k, e, p) {
    }
  }

  lemma NoneChanged(k: Kernel, e: Event)
    ensures SameProcs(k, e, k.procs)
  {
  }

  lemma UnchangedStep(k: Kernel, e: Event)
    requires EndedPid(k, e).None? && Reported(k, e).None? && !e.Spawn?
    ensures ProcsStep(k, e, k.procs, k.nextPid)
  {
    NoneChanged(k, e);
    BonesStep(k, e, k.procs);
  }

  lemma OpenProcs(k: Kernel, e: Event)
    requires e.Open?
    ensures
      var k' := SysOpen(k, e.path, e.pathLen, e.flags).0;
      SameProcs(k, e, k'.procs) && k'.nextPid == k.nextPid
  {
    hide SpaceOf, CopyIn, AllocFile, AllocateLowest, DecRef, FindEmbedded;
  }

  lemma ReadProcs(k: Kernel, fd: nat, buf: nat, len: nat)
    ensures SysRead(k, fd, buf, len).0.procs == k.procs && SysRead(k, fd, buf, len).0.nextPid == k.nextPid
  {
    hide SpaceOf, CopyOut, FileOf, ReadChunk;
  }

  lemma CloseProcs(k: Kernel, e: Event)
    requires e.Close?
    ensures
      var k' := SysClose(k, e.fd).0;
      SameProcs(k, e, k'.procs) && k'.nextPid == k.nextPid
  {
    hide DecRef;
  }

  lemma BrkProcs(k: Kernel, e: Event)
    requires e.Brk?
    ensures
      var k' := SysBrk(k, e.requested, e.granted).0;
      SameProcs(k, e, k'.procs) && k'.nextPid == k.nextPid
  {
    hide AlignUp, MoveBreak, SameProcs;
    NoneChanged(k, e);
    if CurrentPid(k).Some? && CurrentPid(k).value in k.procs && AlignUp(e.requested).Some? {
      MoveBreakProcs(k, e, CurrentPid(k).value, AlignUp(e.requested).value);
    }
  }

  lemma MoveBreakProcs(k: Kernel, e: Event, pid: nat, newEnd: nat)
    requires e.Brk? && pid in k.procs && CurrentPid(k) == Some(pid)
    ensures
      var k' := MoveBreak(k, pid, e.requested, newEnd, e.granted).0;
      SameProcs(k, e, k'.procs) && k'.nextPid == k.nextPid
  {
    hide SpaceOf, ZeroPages, WithoutPages, AlignUp, SameProcs;
    NoneChanged(k, e);
    HeapChanged(k, e, pid, e.requested, newEnd);
  }

  lemma HeapChanged(k: Kernel, e: Event, pid: nat, brk: nat, mappedEnd: nat)
    requires e.Brk? && pid in k.procs && CurrentPid(k) == Some(pid)
    ensures SameProcs(k, e, k.procs[pid := k.procs[pid].(heap := k.procs[pid].heap.(brk := brk, mappedEnd := mappedEnd))])
  {
  }

  lemma SyscallProcs(k: Kernel, e: Event)
    requires Enabled(k, e) && LimitsOk(k.lim)
    requires e.Open? || e.ReadFd? || e.WriteFd? || e.Close? || e.Brk? || e.GetPid? || e.UnknownSyscall?
    ensures ProcsStep(k, e, Step(k, e).procs, k.nextPid) && Step(k, e).nextPid == k.nextPid
  {
    hide SysOpen, SysRead, SysClose, SysBrk, ProcsStep, SameProcs, RangeOk, SpaceOf, FileOf;
    match e
    case Open(_, _, _) =>
      OpenProcs(k, e);
      BonesStep(k, e, Step(k, e).procs);
    case ReadFd(fd, buf, len) =>
      ReadProcs(k, fd, buf, len);
      UnchangedStep(k, e);
    case Close(_) =>
      CloseProcs(k, e);
      BonesStep(k, e, Step(k, e).procs);
    case Brk(_, _) =>
      BrkProcs(k, e);
      BonesStep(k, e, Step(k, e).procs);
    case _ => UnchangedStep(k, e);
  }

  lemma SpawnProcs(k: Kernel, e: Event)
    requires Inv(k) && Enabled(k, e) && LimitsOk(k.lim) && e.Spawn?
    ensures ProcsStep(k, e, Step(k, e).procs, Step(k, e).nextPid)
  {
    hide Inv, SpawnProcess, ProcsStep, FreshLayout, Create;
    SpawnSteps.PidsBelow(k);
    var fds := SpawnCases(k, e.parent, e.init);
    if Step(k, e).nextPid == k.nextPid {
      RefusedStep(k, e);
    } else {
      CreatedStep(k, e, fds);
    }
  }

  /** A spawn is refused and leaves the table alone, or adds one process. */
  lemma SpawnCases(k: Kernel, parent: Option<nat>, init: UserInit) returns (fds: FdTable)
    requires LimitsOk(k.lim)
    ensures
      var k' := SpawnProcess(k, parent, init);
      || (k'.nextPid == k.nextPid && k'.procs == k.procs)
      || (k'.nextPid == k.nextPid + 1 && (parent.Some? ==> parent.value in k.procs)
          && k'.procs == Create(k.procs, k.nextPid, parent, init.root, init.heap, fds, |k.tasks|))
  {
    hide NewWithStdio, Create;
    var made := NewWithStdio(k.files, k.lim.files, k.lim.fds).1;
    fds := if made.Ok? then made.value else [];
  }

  lemma RefusedStep(k: Kernel, e: Event)
    requires e.Spawn?
    ensures ProcsStep(k, e, k.procs, k.nextPid)
  {
  }

  lemma CreatedStep(k: Kernel, e: Event, fds: FdTable)
    requires e.Spawn? && k.nextPid !in k.procs && (e.parent.Some? ==> e.parent.value in k.procs)
    ensures ProcsStep(k, e, Create(k.procs, k.nextPid, e.parent, e.init.root, e.init.heap, fds, |k.tasks|), k.nextPid + 1)
  {
  }

  /** A waitpid that reports nothing touches no table and no memory. */
  lemma UnreportedWait(k: Kernel, child: nat, statusPtr: Option<nat>, options: nat)
    requires HasCurrent(k)
    requires !(CurrentPid(k).Some? && (options == 0 || options == WNOHANG)
               && WaitAllowed(k, CurrentPid(k).value, child, statusPtr) && IsZombie(k.procs, child))
    ensures
      var k' := WaitPid(k, child, statusPtr, options);
      k'.procs == k.procs && k'.nextPid == k.nextPid && k'.spaces == k.spaces && k'.files == k.files
  {
    hide PickNext, RangeOk, CompleteWait, SpaceOf;
  }

  lemma WaitProcs(k: Kernel, e: Event)
    requires Inv(k) && Enabled(k, e) && LimitsOk(k.lim) && e.Wait?
    ensures ProcsStep(k, e, Step(k, e).procs, k.nextPid) && Step(k, e).nextPid == k.nextPid
  {
    hide Inv, WaitPid, WaitAllowed, CompleteWait;
    if Reported(k, e).Some? {
      ReportExact(k, e);
      FamilyPart(k);
      PollStep(k, e, CurrentPid(k).value);
    } else {
      UnreportedWait(k, e.child, StatusAddress(e.statusAddress), e.options);
      hide ProcsStep;
      UnchangedStep(k, e);
    }
  }

  lemma PollStep(k: Kernel, e: Event, parent: nat)
    requires FamilyOk(k.procs) && e.Wait? && Reported(k, e).Some? && IsChild(k.procs, parent, e.child)
    ensures ProcsStep(k, e, ReapChild(k.procs, parent, e.child), k.nextPid)
  {
    hide WaitAllowed, RemoveAll, ListsDistinct;
    forall p | p in k.procs && p != parent ensures e.child !in k.procs[p].children {
    }
  }

  /** A reported child was a zombie of the caller's own; after the call it is gone. */
  lemma ReportExact(k: Kernel, e: Event)
    requires Inv(k) && Enabled(k, e) && LimitsOk(k.lim) && e.Wait? && Reported(k, e).Some?
    ensures
      var child, parent := e.child, CurrentPid(k).value;
      && CanComplete(k, k.current.value, child, StatusAddress(e.statusAddress))
      && Step(k, e) == CompleteWait(k, k.current.value, child, StatusAddress(e.statusAddress))
      && parent < child && IsChild(k.procs, parent, child) && Step(k, e).procs == ReapChild(k.procs, parent, child)
      && Step(k, e).nextPid == k.nextPid
  {
    hide Inv, CompleteWait, RangeOk, ReapChild, StatusWritten;
    ChildListed(k, CurrentPid(k).value, e.child);
    CompleteWaitExact(k, k.current.value, e.child, StatusAddress(e.statusAddress));
  }

  lemma SameWaiter(tasks: seq<Task>, i: nat, t: Task, z: nat)
    requires i < |tasks| && tasks[i].state == Running && t.Terminal()
    ensures FindWaiter(tasks[i := t], z) == FindWaiter(tasks, z)
  {
    var a, b := FindWaiter(tasks[i := t], z), FindWaiter(tasks, z);
    FirstWaiter(tasks, z);
    FirstWaiter(tasks[i := t], z);
    if b.Some? {
      assert tasks[i := t][b.value] == tasks[b.value];
    }
    if a.Some? {
      assert tasks[i := t][a.value] == tasks[a.value];
    }
  }

  lemma {:induction false} FirstWaiter(tasks: seq<Task>, z: nat)
    ensures
      var r := FindWaiter(tasks, z);
      && (r.Some? ==> forall j | 0 <= j < r.value :: !BlockedOn(tasks[j], z))
      && (r.None? ==> forall j | 0 <= j < |tasks| :: !BlockedOn(tasks[j], z))
  {
    if tasks != [] {
      FirstWaiter(tasks[..|tasks| - 1], z);
      assert forall j | 0 <= j < |tasks| - 1 :: tasks[j] == tasks[..|tasks| - 1][j];
    }
  }

  lemma ExitProcs(k: Kernel, e: Event)
    requires Inv(k) && Enabled(k, e) && LimitsOk(k.lim) && EndedPid(k, e).Some?
    ensures ProcsStep(k, e, Step(k, e).procs, k.nextPid) && Step(k, e).nextPid == k.nextPid
  {
    hide Inv, PickNext, AfterFinish, Core, ProcsStep;
    var i := k.current.value;
    var exitCode: Option<nat> := if e.Exit? then Some(e.code) else None;
    var fault: Option<UserFaultInfo> := if e.UserFault? then Some(e.info) else None;
    AfterFinishProcs(k, e, exitCode, fault);
  }

  lemma AfterFinishProcs(k: Kernel, e: Event, exitCode: Option<nat>, fault: Option<UserFaultInfo>)
    requires Inv(k) && EndedPid(k, e).Some? && exitCode == (if e.Exit? then Some(e.code) else None)
    requires fault == (if e.UserFault? then Some(e.info) else None)
    ensures
      var k' := AfterFinish(k, exitCode, fault);
      ProcsStep(k, e, k'.procs, k.nextPid) && k'.nextPid == k.nextPid
  {
    hide Inv, Core, NoneRunning, ExitProcess, FindWaiter, RangeOk, MarkExited, CloseAllFiles, ProcsStep, AfterExit,
         ReapChild, ReapOrphan, StatusWritten;
    var i := k.current.value;
    var t := Ended(k.tasks[i], exitCode, fault);
    var exit := ExitStatus(exitCode, fault);
    OnlyCurrentEnds(k, t);
    ExitExact(k, i, t, exit);
    EndStep(k, e, i, t, exit);
    SameWaiter(k.tasks, i, t, t.pid.value);
  }

  /** The table after the exit, whoever reaps: the right processes are gone and the
      others are as they were. */
  lemma EndStep(k: Kernel, e: Event, i: nat, t: Task, exit: ProcessExit)
    requires Inv(k) && EndedPid(k, e) == t.pid && t.pid.Some? && exit == EndStatus(e) && t.Terminal()
    requires k.current == Some(i)
    ensures t.pid.value in k.procs
    ensures
      var z := t.pid.value;
      var procs1 := MarkExited(k.procs, z, exit);
      && (FindWaiter(k.tasks, z).None? ==> ProcsStep(k, e, ReapOrphan(procs1, z), k.nextPid))
      && (FindWaiter(k.tasks, z).Some? ==>
            forall parent | IsChild(procs1, parent, z) :: ProcsStep(k, e, ReapChild(procs1, parent, z), k.nextPid))
  {
    hide Core, CurrentOk, FindWaiter, MarkExited, AfterExit, ReapOrphan, ReapChild, ProcsStep;
    LiveProcess(k);
    var z := t.pid.value;
    FamilyPart(k);
    MarkExitedFamily(k.procs, z, exit);
    var procs1 := MarkExited(k.procs, z, exit);
    if FindWaiter(k.tasks, z).None? {
      OrphanStep(k, e, z, exit, procs1);
    } else {
      forall parent | IsChild(procs1, parent, z) ensures ProcsStep(k, e, ReapChild(procs1, parent, z), k.nextPid) {
        ReportStep(k, e, z, exit, procs1, parent);
      }
    }
  }

  lemma FamilyPart(k: Kernel)
    requires Inv(k)
    ensures FamilyOk(k.procs) && forall z :: OrphansAlive(k.procs, Some(z))
  {
    hide PidsOk, FamilyOk, WaitsOk, FilesOk, SpacesOk, HeapsOk, CurrentOk;
  }

  lemma OrphanStep(k: Kernel, e: Event, z: nat, exit: ProcessExit, procs1: Procs)
    requires FamilyOk(k.procs) && z in k.procs && k.procs[z].state.Alive? && AfterExit(k.procs, z, exit, procs1)
    requires EndedPid(k, e) == Some(z) && exit == EndStatus(e) && FindWaiter(k.tasks, z).None?
    ensures ProcsStep(k, e, ReapOrphan(procs1, z), k.nextPid)
  {
    hide FindWaiter, ListsDistinct, Leaves, ProcStep;
    var procs' := ReapOrphan(procs1, z);
    assert Lookup(procs1, z).Some?;
    forall p | p in procs' ensures p in k.procs {
      assert Lookup(procs1, p).Some?;
    }
    forall p | p in k.procs
      ensures if p in procs' then !Leaves(k, e, p) && ProcStep(k, e, p, procs'[p], k.nextPid)
              else Leaves(k, e, p)
    {
      OrphanStepAt(k, e, z, exit, procs1, p);
    }
  }

  lemma OrphanStepAt(k: Kernel, e: Event, z: nat, exit: ProcessExit, procs1: Procs, p: nat)
    requires FamilyOk(k.procs) && z in k.procs && k.procs[z].state.Alive? && AfterExit(k.procs, z, exit, procs1)
    requires EndedPid(k, e) == Some(z) && exit == EndStatus(e) && FindWaiter(k.tasks, z).None? && p in k.procs
    ensures
      var procs' := ReapOrphan(procs1, z);
      if p in procs' then !Leaves(k, e, p) && ProcStep(k, e, p, procs'[p], k.nextPid) else Leaves(k, e, p)
  {
    hide FindWaiter, ListsDistinct;
    assert Lookup(procs1, z).Some?;
    assert p != z ==> Lookup(procs1, p) == Orphaned(k.procs, k.procs[z].children, p);
    assert p in k.procs[z].children <==> k.procs[p].parent == Some(z);
  }

  lemma ReportStep(k: Kernel, e: Event, z: nat, exit: ProcessExit, procs1: Procs, parent: nat)
    requires FamilyOk(k.procs) && z in k.procs && k.procs[z].state.Alive? && AfterExit(k.procs, z, exit, procs1)
    requires EndedPid(k, e) == Some(z) && exit == EndStatus(e) && FindWaiter(k.tasks, z).Some? && IsChild(procs1, parent, z)
    ensures ProcsStep(k, e, ReapChild(procs1, parent, z), k.nextPid)
  {
    hide FindWaiter, ListsDistinct, RemoveAll, Leaves, ProcStep;
    var procs' := ReapChild(procs1, parent, z);
    assert Lookup(procs1, z).Some? && Lookup(procs1, parent).Some?;
    assert parent in k.procs && z in k.procs[parent].children;
    forall p | p in procs' ensures p in k.procs {
      assert Lookup(procs1, p).Some?;
    }
    forall p | p in k.procs
      ensures if p in procs' then !Leaves(k, e, p) && ProcStep(k, e, p, procs'[p], k.nextPid)
              else Leaves(k, e, p)
    {
      ReportStepAt(k, e, z, exit, procs1, parent, p);
    }
  }

  lemma ReportStepAt(k: Kernel, e: Event, z: nat, exit: ProcessExit, procs1: Procs, parent: nat, p: nat)
    requires FamilyOk(k.procs) && z in k.procs && k.procs[z].state.Alive? && AfterExit(k.procs, z, exit, procs1)
    requires EndedPid(k, e) == Some(z) && exit == EndStatus(e) && FindWaiter(k.tasks, z).Some? && IsChild(procs1, parent, z)
    requires parent in k.procs && z in k.procs[parent].children && p in k.procs
    ensures
      var procs' := ReapChild(procs1, parent, z);
      if p in procs' then !Leaves(k, e, p) && ProcStep(k, e, p, procs'[p], k.nextPid) else Leaves(k, e, p)
  {
    hide FindWaiter, ListsDistinct, RemoveAll;
    assert Lookup(procs1, z).Some? && Lookup(procs1, parent).Some?;
    assert p != z ==> Lookup(procs1, p) == Orphaned(k.procs, k.procs[z].children, p);
    assert p in k.procs[z].children <==> k.procs[p].parent == Some(z);
  }

  /** Steps that leave the process table alone. */
  predicate LeavesProcs(e: Event) {
    || e.SpawnTask? || e.MakeSpace? || e.Run? || e.Timer? || e.Yield? || e.SyscallYield? || e.KernelTaskReturns?
    || e.UserStore? || e.CopyToTask? || e.SetArgument? || e.SetPreemption?
  }

  lemma OtherProcs(k: Kernel, e: Event)
    requires Enabled(k, e) && LimitsOk(k.lim) && LeavesProcs(e)
    ensures Step(k, e).procs == k.procs && Step(k, e).nextPid == k.nextPid
    ensures EndedPid(k, e).None? && Reported(k, e).None?
  {
    hide CopyOut, SpaceOf, PickNext, Switch, StartRunning, SetSpace;
  }

  /** Every step changes the process table along these lines and no others. */
  lemma StepProcs(k: Kernel, e: Event, k': Kernel)
    requires Inv(k) && Next(k, e, k')
    ensures ProcsStep(k, e, k'.procs, k'.nextPid)
    ensures !e.Spawn? ==> k'.nextPid == k.nextPid
  {
    hide Inv, ProcsStep, Step, Enabled, Reported;
    match e
    case Exit(_) | UserFault(_) =>
      if EndedPid(k, e).Some? {
        ExitProcs(k, e);
      } else {
        KernelExitProcs(k, e);
        UnchangedStep(k, e);
      }
    case Wait(_, _, _) => WaitProcs(k, e);
    case Spawn(_, _) => SpawnProcs(k, e);
    case Open(_, _, _) | ReadFd(_, _, _) | WriteFd(_, _, _) | Close(_) | Brk(_, _) | GetPid | UnknownSyscall => SyscallProcs(k, e);
    case _ =>
      OtherProcs(k, e);
      UnchangedStep(k, e);
  }

  lemma KernelExitProcs(k: Kernel, e: Event)
    requires Enabled(k, e) && LimitsOk(k.lim) && (e.Exit? || e.UserFault?) && EndedPid(k, e).None?
    ensures Step(k, e).procs == k.procs && Step(k, e).nextPid == k.nextPid && Reported(k, e).None?
  {
    hide PickNext;
  }

  /** A live process stays alive until it ends itself. */
  lemma AliveStays(k: Kernel, e: Event, k': Kernel, q: nat)
    requires Inv(k) && Next(k, e, k') && q in k.procs && k.procs[q].state.Alive? && EndedPid(k, e) != Some(q)
    ensures q in k'.procs && k'.procs[q].state.Alive?
  {
    hide Inv, Next, FindWaiter, WaitAllowed, FdsStep, HeapStep, ChildrenAfter;
    StepProcs(k, e, k');
    assert !Leaves(k, e, q);
  }
}

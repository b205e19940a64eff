/** Runs of the kernel: every step keeps the invariant, so it holds in every
    reachable state. */
module Runs {
  import opened Base
  import opened UserSpaces
  import opened Processes
  import opened Kernel
  import opened Invariants
  import opened Preservation
  import opened HeapSteps
  import opened SpawnSteps
  import opened WaitSteps
  import opened ExitSteps

  /** Event `e` can happen in `k` and leads to `k'`. */
  ghost predicate Next(k: Kernel, e: Event, k': Kernel) {
    LimitsOk(k.lim) && Enabled(k, e) && k' == Step(k, e)
  }

  /** States `ks` passed through under events `es`. */
  ghost predicate IsRun(ks: seq<Kernel>, es: seq<Event>) {
    |ks| == |es| + 1 && forall i | 0 <= i < |es| :: Next(ks[i], es[i], ks[i + 1])
  }

  /** A run from boot. */
  ghost predicate FromBoot(ks: seq<Kernel>, es: seq<Event>) {
    IsRun(ks, es) && LimitsOk(ks[0].lim) && ks[0] == InitialKernel(ks[0].lim)
  }

  lemma ReturnKeepsInv(k: Kernel, r: SysResult)
    requires Inv(k) && HasCurrent(k)
    ensures Inv(Return(k, r))
  {
    hide Inv;
    var i := k.current.value;
    RegistersKeepInv(k, i, Return(k, r).tasks[i]);
  }

  lemma WriteKeepsInv(k: Kernel, fd: nat, buf: nat, len: nat)
    requires Inv(k)
    ensures Inv(SysWrite(k, fd, buf, len).0)
  {
    hide PidsOk, FamilyOk, OrphansAlive, WaitsOk, FilesOk, SpacesOk, HeapsOk, RangeOk, SpaceOf;
  }

  lemma SyscallKeepsInv(k: Kernel, e: Event)
    requires Inv(k) && Enabled(k, e) && LimitsOk(k.lim)
    requires e.Open? || e.ReadFd? || e.WriteFd? || e.Close? || e.Brk? || e.GetPid? || e.UnknownSyscall?
    ensures Inv(Step(k, e))
  {
    hide Inv, SysOpen, SysRead, SysWrite, SysClose, SysBrk, Return;
    match e
    case Open(path, len, flags) =>
      OpenKeepsInv(k, path, len, flags);
      ReturnKeepsInv(SysOpen(k, path, len, flags).0, SysOpen(k, path, len, flags).1);
    case ReadFd(fd, buf, len) =>
      ReadKeepsInv(k, fd, buf, len);
      ReturnKeepsInv(SysRead(k, fd, buf, len).0, SysRead(k, fd, buf, len).1);
    case WriteFd(fd, buf, len) =>
      WriteKeepsInv(k, fd, buf, len);
      ReturnKeepsInv(SysWrite(k, fd, buf, len).0, SysWrite(k, fd, buf, len).1);
    case Close(fd) =>
      CloseKeepsInv(k, fd);
      ReturnKeepsInv(SysClose(k, fd).0, SysClose(k, fd).1);
    case Brk(requested, granted) =>
      BrkKeepsInv(k, requested, granted);
      ReturnKeepsInv(SysBrk(k, requested, granted).0, SysBrk(k, requested, granted).1);
    case GetPid => ReturnKeepsInv(k, match CurrentPid(k) case Some(p) => Ok(p) case None => Err(Child));
    case UnknownSyscall => ReturnKeepsInv(k, Err(NoSys));
  }

  lemma BytesEventKeepsInv(k: Kernel, e: Event)
    requires Inv(k) && Enabled(k, e) && LimitsOk(k.lim)
    requires e.UserStore? || e.CopyToTask?
    ensures Inv(Step(k, e))
  {
    hide Inv, CopyOut, SpaceOf, SetSpace;
    match e
    case UserStore(a, b) =>
      var pid := CurrentPid(k).value;
      BytesKeepInv(k, pid, Poke(SpaceOf(k, pid), a, b));
    case CopyToTask(t, a, bytes) =>
      if t < |k.tasks| && k.tasks[t].pid.Some? {
        var pid := k.tasks[t].pid.value;
        CopyOutExact(SpaceOf(k, pid), a, bytes, Write);
        BytesKeepInv(k, pid, CopyOut(SpaceOf(k, pid), a, bytes, Write).0);
      }
  }

  lemma SettingKeepsInv(k: Kernel, e: Event)
    requires Inv(k) && Enabled(k, e) && LimitsOk(k.lim)
    requires e.SetArgument? || e.SetPreemption? || e.Timer? || e.Yield? || e.SyscallYield?
    ensures Inv(Step(k, e))
  {
    hide Inv, Switch;
    SwitchKeepsInv(k);
    match e
    case SetArgument(t, arg) =>
      if t < |k.tasks| {
        RegistersKeepInv(k, t, k.tasks[t].(rdi := arg));
      }
    case SetPreemption(on) => PreemptionKeepsInv(k, on);
    case SyscallYield =>
      RegistersKeepInv(k, k.current.value, k.tasks[k.current.value].(rax := 0));
      SwitchKeepsInv(SetRax(k, k.current.value, 0));
    case _ =>
  }

  lemma PreemptionKeepsInv(k: Kernel, on: bool)
    requires Inv(k)
    ensures Inv(k.(preemption := on))
  {
    hide PidsOk, FamilyOk, OrphansAlive, WaitsOk, FilesOk, SpacesOk, HeapsOk;
  }

  /** Every step keeps the invariant. */
  lemma StepKeepsInv(k: Kernel, e: Event)
    requires Inv(k) && Enabled(k, e) && LimitsOk(k.lim)
    ensures Inv(Step(k, e))
  {
    hide Inv;
    match e
    case SpawnTask => SpawnTaskKeepsInv(k);
    case MakeSpace(root, view) => MakeSpaceKeepsInv(k, root, view);
    case Spawn(parent, init) => SpawnKeepsInv(k, parent, init);
    case Run => StartKeepsInv(k);
    case Exit(code) => FinishKeepsInv(k, Some(code), None);
    case UserFault(info) => FinishKeepsInv(k, None, Some(info));
    case KernelTaskReturns => TaskReturnKeepsInv(k);
    case Wait(child, address, options) => WaitKeepsInv(k, child, StatusAddress(address), options);
    case Open(_, _, _) | ReadFd(_, _, _) | WriteFd(_, _, _) | Close(_) | Brk(_, _) | GetPid | UnknownSyscall => SyscallKeepsInv(k, e);
    case UserStore(_, _) | CopyToTask(_, _, _) => BytesEventKeepsInv(k, e);
    case SetArgument(_, _) | SetPreemption(_) | Timer | Yield | SyscallYield => SettingKeepsInv(k, e);
  }

  /** Every reachable state satisfies the invariant. */
  lemma {:induction false} RunKeepsInv(ks: seq<Kernel>, es: seq<Event>, i: nat)
    requires IsRun(ks, es) && Inv(ks[0]) && i < |ks|
    ensures Inv(ks[i])
    decreases i
  {
    if i > 0 {
      RunKeepsInv(ks, es, i - 1);
      assert Next(ks[i - 1], es[i - 1], ks[i - 1 + 1]);
      StepKeepsInv(ks[i - 1], es[i - 1]);
    }
  }

  lemma BootRunInv(ks: seq<Kernel>, es: seq<Event>, i: nat)
    requires FromBoot(ks, es) && i < |ks|
    ensures Inv(ks[i])
  {
    InitialInv(ks[0].lim);
    RunKeepsInv(ks, es, i);
  }

  /** A run goes on. */
  lemma OneMoreStep(ks: seq<Kernel>, es: seq<Event>, e: Event, k': Kernel)
    requires FromBoot(ks, es) && Next(ks[|es|], e, k')
    ensures FromBoot(ks + [k'], es + [e])
  {
    hide Next;
    var ks', es' := ks + [k'], es + [e];
    forall i | 0 <= i < |es'| ensures Next(ks'[i], es'[i], ks'[i + 1]) {
      if i < |es| {
        assert ks'[i] == ks[i] && es'[i] == es[i] && ks'[i + 1] == ks[i + 1];
      }
    }
  }

  lemma NextKeepsInv(k: Kernel, e: Event, k': Kernel)
    requires Inv(k) && Next(k, e, k')
    ensures Inv(k')
  {
    hide Inv, Step, Enabled;
    StepKeepsInv(k, e);
  }
}

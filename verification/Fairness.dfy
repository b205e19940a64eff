/** Round robin is fair: a ready task is dispatched after a bounded number of
    changes of the running task, whatever is spawned, ends or blocks meanwhile. */
module Fairness {
  import opened Base
  import opened Processes
  import opened Kernel
  import opened Invariants
  import opened Preservation
  import opened ExitSteps
  import opened Runs
  import opened Progress
  import opened Transitions

  /** How far task `j` is after task `c`, going round a table of `max` slots. */
  function Gap(c: nat, j: nat, max: nat): int {
    if j > c then j - c else j + max - c
  }

  /** An upper bound on the changes of current task before `j` is dispatched. */
  function Budget(k: Kernel, j: nat): int {
    match k.current
    case None => k.lim.tasks
    case Some(c) => Gap(c, j, k.lim.tasks)
  }

  predicate IsReady(k: Kernel, j: nat) {
    j < |k.tasks| && k.tasks[j].state == Ready
  }

  /** The nearest ready task after `c` is closer to any other ready task, whatever the
      size of the table. */
  lemma NearestIsCloser(tasks: seq<Task>, c: nat, j: nat, max: nat)
    requires c < |tasks| <= max && j < |tasks| && tasks[j].state == Ready
    ensures
      var next := NextReady(tasks, c);
      next.Some? && next.value < |tasks| && (next.value != j ==> Gap(next.value, j, max) < Gap(c, j, max))
  {
    hide NextReady;
    NextReadyFinds(tasks, c);
  }

  lemma PickNextCloser(k: Kernel, c: nat, j: nat)
    requires c < |k.tasks| <= k.lim.tasks && IsReady(k, j)
    ensures
      var k' := PickNext(k, c);
      k'.current.Some? && (k'.current != Some(j) ==> Budget(k', j) < Gap(c, j, k.lim.tasks))
  {
    hide NextReady;
    NearestIsCloser(k.tasks, c, j, k.lim.tasks);
  }

  lemma SwitchCloser(k: Kernel, j: nat)
    requires Inv(k) && IsReady(k, j)
    ensures
      var k' := Switch(k);
      k'.current == k.current || (k'.current.Some? && (k'.current != Some(j) ==> Budget(k', j) < Budget(k, j)))
  {
    TasksFit(k);
    hide Inv, NextReady;
    if HasCurrent(k) {
      NearestIsCloser(k.tasks, k.current.value, j, k.lim.tasks);
    }
  }

  lemma TasksFit(k: Kernel)
    requires Inv(k)
    ensures |k.tasks| <= k.lim.tasks
  {
    hide PidsOk, FamilyOk, OrphansAlive, WaitsOk, FilesOk, SpacesOk, HeapsOk, CurrentOk;
  }

  lemma FinishCloser(k: Kernel, exitCode: Option<nat>, fault: Option<UserFaultInfo>, j: nat)
    requires Inv(k) && HasCurrent(k) && IsReady(k, j)
    ensures
      var k' := Finish(k, exitCode, fault);
      k'.current.Some? && (k'.current != Some(j) ==> Budget(k', j) < Budget(k, j))
  {
    hide Inv, Core, AfterFinish, PickNext;
    TasksFit(k);
    AfterFinishStep(k, exitCode, fault);
    AfterFinishCore(k, exitCode, fault);
    var k1 := AfterFinish(k, exitCode, fault);
    assert TaskStep(k.tasks[j], k1.tasks[j], CurrentPid(k)) && k1.tasks[j].state == Ready;
    PickNextCloser(k1, k.current.value, j);
  }

  lemma WaitCloser(k: Kernel, child: nat, statusPtr: Option<nat>, options: nat, j: nat)
    requires Inv(k) && HasCurrent(k) && IsReady(k, j)
    ensures
      var k' := WaitPid(k, child, statusPtr, options);
      k'.current == k.current || (k'.current.Some? && (k'.current != Some(j) ==> Budget(k', j) < Budget(k, j)))
  {
    hide Inv, PickNext, WaitAllowed, CompleteWait;
    TasksFit(k);
    CurrentIsLive(k);
    PickNextCloser(SetState(k, k.current.value, Blocked(child, statusPtr)), k.current.value, j);
  }

  lemma ReturnCloser(k: Kernel, j: nat)
    requires Inv(k) && HasCurrent(k) && IsReady(k, j)
    ensures
      var k' := PickNext(SetState(k, k.current.value, Finished), k.current.value);
      k'.current.Some? && (k'.current != Some(j) ==> Budget(k', j) < Budget(k, j))
  {
    TasksFit(k);
    CurrentIsLive(k);
    hide Inv, PickNext;
    PickNextCloser(SetState(k, k.current.value, Finished), k.current.value, j);
  }

  lemma YieldCloser(k: Kernel, j: nat)
    requires Inv(k) && HasCurrent(k) && IsReady(k, j)
    ensures
      var k' := Switch(SetRax(k, k.current.value, 0));
      k'.current == k.current || (k'.current.Some? && (k'.current != Some(j) ==> Budget(k', j) < Budget(k, j)))
  {
    CurrentIsLive(k);
    hide Inv, Switch;
    RegistersKeepInv(k, k.current.value, k.tasks[k.current.value].(rax := 0));
    SwitchCloser(SetRax(k, k.current.value, 0), j);
  }

  lemma StartCloser(k: Kernel, j: nat)
    requires Inv(k) && k.current.None? && IsReady(k, j)
    ensures
      var k' := StartRunning(k);
      k'.current.Some? && (k'.current != Some(j) ==> Budget(k', j) < Budget(k, j))
  {
    TasksFit(k);
    hide Inv, FirstReady;
    FirstReadyFinds(k.tasks);
  }

  /** Events that can change which task is running. */
  predicate Schedules(e: Event) {
    || e.Timer? || e.Yield? || e.SyscallYield? || e.Exit? || e.UserFault? || e.KernelTaskReturns? || e.Wait? || e.Run?
  }

  lemma OthersKeepCurrent(k: Kernel, e: Event)
    requires LimitsOk(k.lim) && Enabled(k, e) && !Schedules(e)
    ensures Step(k, e).current == k.current
  {
    hide SysOpen, SysRead, SysWrite, SysClose, SysBrk, SpaceOf, SpawnProcess, SetSpace;
  }

  lemma SchedulingCloser(k: Kernel, e: Event, j: nat)
    requires Inv(k) && LimitsOk(k.lim) && Enabled(k, e) && Schedules(e) && IsReady(k, j)
    ensures
      var k' := Step(k, e);
      k'.current == k.current || (k'.current.Some? && (k'.current != Some(j) ==> Budget(k', j) < Budget(k, j)))
  {
    hide Inv, Switch, Finish, WaitPid, StartRunning, PickNext, Budget;
    match e
    case Timer => SwitchCloser(k, j);
    case Yield => SwitchCloser(k, j);
    case SyscallYield => YieldCloser(k, j);
    case Exit(code) => FinishCloser(k, Some(code), None, j);
    case UserFault(info) => FinishCloser(k, None, Some(info), j);
    case KernelTaskReturns => ReturnCloser(k, j);
    case Wait(child, address, options) => WaitCloser(k, child, StatusAddress(address), options, j);
    case Run => StartCloser(k, j);
  }

  /** A step that passes over ready task `j` for another task uses up some of its
      budget. */
  lemma StepCloser(k: Kernel, e: Event, k': Kernel, j: nat)
    requires Inv(k) && Next(k, e, k') && IsReady(k, j) && IsReady(k', j)
    ensures if k'.current == k.current then Budget(k', j) == Budget(k, j) else Budget(k', j) < Budget(k, j)
  {
    hide Inv, Step, Enabled, IsReady;
    assert k'.lim == k.lim;
    StepKeepsInv(k, e);
    BudgetBounds(k', j);
    if Schedules(e) {
      SchedulingCloser(k, e, j);
    } else {
      OthersKeepCurrent(k, e);
    }
  }

  lemma BudgetBounds(k: Kernel, j: nat)
    requires Inv(k) && IsReady(k, j)
    ensures k.current != Some(j) && 1 <= Budget(k, j) <= k.lim.tasks
    ensures k.current.Some? ==> Budget(k, j) < k.lim.tasks
  {
    ReadyIsNotCurrent(k, j);
    TasksFit(k);
    hide Core;
  }

  // ----- over runs -----

  /** Changes of the current task between states `a` and `b` of a run. */
  function Changes(ks: seq<Kernel>, a: nat, b: nat): nat
    requires a <= b < |ks|
    decreases b - a
  {
    if a == b then 0 else Changes(ks, a, b - 1) + (if ks[b].current == ks[b - 1].current then 0 else 1)
  }

  /** While `j` stays ready, every change of current task is paid for from its budget. */
  lemma {:induction false} ChangesArePaidFor(ks: seq<Kernel>, es: seq<Event>, a: nat, b: nat, j: nat)
    requires FromBoot(ks, es) && a <= b < |ks| && forall i | a <= i <= b :: IsReady(ks[i], j)
    ensures Changes(ks, a, b) + Budget(ks[b], j) <= Budget(ks[a], j)
    decreases b - a
  {
    hide Inv, Next, IsReady, Budget;
    if a < b {
      ChangesArePaidFor(ks, es, a, b - 1, j);
      BootRunInv(ks, es, b - 1);
      assert Next(ks[b - 1], es[b - 1], ks[b - 1 + 1]);
      StepCloser(ks[b - 1], es[b - 1], ks[b], j);
    }
  }

  lemma {:induction false} ReadyOrDispatched(ks: seq<Kernel>, es: seq<Event>, a: nat, b: nat, j: nat)
    requires FromBoot(ks, es) && a <= b < |ks| && IsReady(ks[a], j)
    ensures (forall i | a <= i <= b :: IsReady(ks[i], j)) || (exists i :: a < i <= b && ks[i].current == Some(j))
    decreases b - a
  {
    hide Inv, Next;
    if a < b {
      ReadyOrDispatched(ks, es, a, b - 1, j);
      if forall i | a <= i <= b - 1 :: IsReady(ks[i], j) {
        BootRunInv(ks, es, b - 1);
        BootRunInv(ks, es, b);
        assert Next(ks[b - 1], es[b - 1], ks[b - 1 + 1]);
        TasksMove(ks[b - 1], es[b - 1], ks[b]);
        if !IsReady(ks[b], j) {
          RunningIsCurrent(ks[b], j);
        }
      } else {
        var i :| a < i <= b - 1 && ks[i].current == Some(j);
        assert a < i <= b && ks[i].current == Some(j);
      }
    }
  }

  lemma RunningIsCurrent(k: Kernel, j: nat)
    requires Inv(k) && j < |k.tasks| && k.tasks[j].state == Running
    ensures k.current == Some(j)
  {
    hide Core;
  }

  /** A task that is ready at `a` has run by `b` if the current task changed MAX_TASKS - 1
      times in between, or MAX_TASKS times if no task was running at `a`. */
  lemma BoundedBypass(ks: seq<Kernel>, es: seq<Event>, a: nat, b: nat, j: nat)
    requires FromBoot(ks, es) && a <= b < |ks| && IsReady(ks[a], j)
    requires Changes(ks, a, b) >= if ks[a].current.Some? then ks[a].lim.tasks - 1 else ks[a].lim.tasks
    ensures exists i :: a < i <= b && ks[i].current == Some(j)
  {
    hide Inv, Next, Budget;
    ReadyOrDispatched(ks, es, a, b, j);
    if forall i | a <= i <= b :: IsReady(ks[i], j) {
      ChangesArePaidFor(ks, es, a, b, j);
      BootRunInv(ks, es, a);
      BootRunInv(ks, es, b);
      BudgetBounds(ks[a], j);
      BudgetBounds(ks[b], j);
    }
  }
}

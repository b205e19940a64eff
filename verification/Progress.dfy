/** No deadlock: waiting goes from parents to younger children, so some task can
    always run while any task is unfinished. */
module Progress {
  import opened Base
  import opened UserSpaces
  import opened Files
  import opened Processes
  import opened Kernel
  import opened Invariants
  import opened Preservation
  import opened WaitSteps
  import opened ExitSteps
  import opened Runs
  import opened Transitions

  predicate AllTerminal(tasks: seq<Task>) {
    forall i | 0 <= i < |tasks| :: tasks[i].Terminal()
  }

  /** Each task of the chain waits for the process of the next one. */
  predicate IsWaitChain(tasks: seq<Task>, chain: seq<nat>) {
    && chain != []
    && (forall c | 0 <= c < |chain| :: chain[c] < |tasks|)
    && (forall c | 0 < c < |chain| ::
          tasks[chain[c]].pid.Some? && BlockedOn(tasks[chain[c - 1]], tasks[chain[c]].pid.value))
  }

  /** The task a blocked task waits for: it exists, is not terminal and belongs to a
      younger process. */
  lemma WaitTarget(k: Kernel, i: nat) returns (j: nat)
    requires Inv(k) && i < |k.tasks| && k.tasks[i].state.Blocked?
    ensures j < |k.tasks| && !k.tasks[j].Terminal() && k.tasks[i].pid.Some?
    ensures k.tasks[j].pid == Some(k.tasks[i].state.child)
    ensures k.tasks[i].pid.value < k.tasks[j].pid.value < k.nextPid
  {
    hide OrphansAlive, FilesOk, SpacesOk, HeapsOk, CurrentOk, RangeOk;
    assert WaitOk(k.tasks[i], k.procs, k.spaces);
    var parent, child := k.tasks[i].pid.value, k.tasks[i].state.child;
    assert k.procs[child].parent == Some(parent);
    assert MainTaskOk(k.tasks, k.procs[child], child, k.nextPid);
    j := k.procs[child].mainTask;
  }

  /** Every chain of waits ends in a task that can run. */
  lemma WaitChainEnds(k: Kernel, i: nat) returns (chain: seq<nat>)
    requires Inv(k) && i < |k.tasks| && !k.tasks[i].Terminal()
    ensures IsWaitChain(k.tasks, chain) && chain[0] == i && CanRun(k.tasks[chain[|chain| - 1]])
    decreases if k.tasks[i].state.Blocked? && k.tasks[i].pid.Some? then k.nextPid - k.tasks[i].pid.value else -1
  {
    hide Inv;
    if k.tasks[i].state.Blocked? {
      var j := WaitTarget(k, i);
      var rest := WaitChainEnds(k, j);
      chain := [i] + rest;
      forall c | 0 < c < |chain|
        ensures k.tasks[chain[c]].pid.Some? && BlockedOn(k.tasks[chain[c - 1]], k.tasks[chain[c]].pid.value)
      {
        assert chain[c] == rest[c - 1] && (c > 1 ==> chain[c - 1] == rest[c - 2]);
      }
    } else {
      chain := [i];
    }
  }

  /** As long as a task is unfinished, some task can run. */
  lemma NoDeadlock(k: Kernel)
    requires Inv(k) && !AllTerminal(k.tasks)
    ensures exists j | 0 <= j < |k.tasks| :: CanRun(k.tasks[j])
  {
    hide Inv;
    var i :| 0 <= i < |k.tasks| && !k.tasks[i].Terminal();
    var chain := WaitChainEnds(k, i);
    assert CanRun(k.tasks[chain[|chain| - 1]]);
  }

  /** With no task running, main has nothing left to run exactly when all tasks are
      finished or failed. */
  lemma IdleMeansDone(k: Kernel)
    requires Inv(k) && k.current.None?
    ensures (forall i | 0 <= i < |k.tasks| :: k.tasks[i].state != Ready) <==> AllTerminal(k.tasks)
  {
    if !AllTerminal(k.tasks) {
      NoDeadlock(k);
      hide Core;
    }
  }

  /** The step that picks the next task gives control back to main only when every
      task is terminal. */
  lemma PickNextStops(k: Kernel, start: nat)
    requires Core(k, None) && NoneRunning(k.tasks) && start < |k.tasks|
    ensures PickNext(k, start).current.None? <==> AllTerminal(PickNext(k, start).tasks)
  {
    hide Core, PickNext;
    PickNextKeepsInv(k, start);
    var k' := PickNext(k, start);
    if k'.current.None? {
      IdleMeansDone(k');
    } else {
      CurrentIsLive(k');
    }
  }

  lemma CurrentIsLive(k: Kernel)
    requires Inv(k) && k.current.Some?
    ensures HasCurrent(k) && k.tasks[k.current.value].state == Running && !AllTerminal(k.tasks)
  {
    hide Core;
  }

  /** A blocking waitpid always finds another task to run: the branch that would
      return to main is never taken. */
  lemma BlockingAlwaysSwitches(k: Kernel, child: nat, statusPtr: Option<nat>)
    requires Inv(k) && HasCurrent(k) && CurrentPid(k).Some?
    requires WaitAllowed(k, CurrentPid(k).value, child, statusPtr) && child in k.procs && k.procs[child].state.Alive?
    ensures WaitPid(k, child, statusPtr, 0).current.Some?
    ensures NextReady(SetState(k, k.current.value, Blocked(child, statusPtr)).tasks, k.current.value).Some?
  {
    hide Core, CurrentOk, NextReady;
    var i := k.current.value;
    var blocked := SetState(k, i, Blocked(child, statusPtr));
    OnlyCurrentRuns(k, Blocked(child, statusPtr));
    BlockKeepsCore(k, i, child, statusPtr);
    PickNextStops(blocked, i);
    PickNextKeepsInv(blocked, i);
    assert WaitPid(k, child, statusPtr, 0) == PickNext(blocked, i);
    assert !blocked.tasks[i].Terminal() && !AllTerminal(blocked.tasks);
  }

  // ----- over steps and runs -----

  predicate Stops(e: Event) {
    e.Exit? || e.UserFault? || e.KernelTaskReturns? || e.Wait?
  }

  lemma CurrentStays(k: Kernel, e: Event)
    requires Inv(k) && LimitsOk(k.lim) && Enabled(k, e) && k.current.Some? && !Stops(e)
    ensures Step(k, e).current.Some?
  {
    hide Inv, SysOpen, SysRead, SysWrite, SysClose, SysBrk, NextReady, CopyOut, SpaceOf, NewWithStdio, Create;
  }

  lemma StopsWhenDone(k: Kernel, e: Event)
    requires Inv(k) && LimitsOk(k.lim) && Enabled(k, e) && k.current.Some? && Stops(e)
    ensures Step(k, e).current.None? ==> AllTerminal(Step(k, e).tasks)
  {
    hide Core, CurrentOk, PickNext, ExitProcess, CompleteWait, AfterFinish;
    CurrentIsLive(k);
    var i := k.current.value;
    match e
    case KernelTaskReturns =>
      OnlyCurrentRuns(k, Finished);
      EndedKeepsCore(k, i, k.tasks[i].(state := Finished));
      PickNextStops(SetState(k, i, Finished), i);
    case Exit(code) =>
      FinishStops(k, Some(code), None);
    case UserFault(info) =>
      FinishStops(k, None, Some(info));
    case Wait(child, address, options) =>
      WaitKeepsCurrent(k, child, StatusAddress(address), options);
  }

  lemma FinishStops(k: Kernel, exitCode: Option<nat>, fault: Option<UserFaultInfo>)
    requires Inv(k) && HasCurrent(k)
    ensures Finish(k, exitCode, fault).current.None? ==> AllTerminal(Finish(k, exitCode, fault).tasks)
  {
    hide Core, CurrentOk, PickNext, AfterFinish;
    AfterFinishCore(k, exitCode, fault);
    PickNextStops(AfterFinish(k, exitCode, fault), k.current.value);
  }

  lemma WaitKeepsCurrent(k: Kernel, child: nat, statusPtr: Option<nat>, options: nat)
    requires Inv(k) && HasCurrent(k)
    ensures WaitPid(k, child, statusPtr, options).current.Some?
  {
    hide Inv, WaitAllowed, PickNext, ReapChild, CopyOut, StatusBytes;
    if CurrentPid(k).Some? && WaitAllowed(k, CurrentPid(k).value, child, statusPtr)
       && child in k.procs && k.procs[child].state.Alive? {
      BlockingAlwaysSwitches(k, child, statusPtr);
    }
  }

  /** Main regains control in a step exactly when that step leaves every task
      finished or failed. */
  lemma MainRegainsControl(k: Kernel, e: Event, k': Kernel)
    requires Inv(k) && Next(k, e, k') && k.current.Some?
    ensures k'.current.None? <==> AllTerminal(k'.tasks)
  {
    hide Inv, Enabled, Step;
    StepKeepsInv(k, e);
    if k'.current.Some? {
      CurrentIsLive(k');
    } else if Stops(e) {
      StopsWhenDone(k, e);
    } else {
      CurrentStays(k, e);
    }
  }

  /** Over every run from boot: while a task is unfinished some task can run, and when
      control returns to main no task is unfinished. */
  lemma NeverStuck(ks: seq<Kernel>, es: seq<Event>, i: nat)
    requires FromBoot(ks, es) && i < |ks| && !AllTerminal(ks[i].tasks)
    ensures exists j | 0 <= j < |ks[i].tasks| :: CanRun(ks[i].tasks[j])
    ensures i + 1 < |ks| && ks[i].current.Some? && ks[i + 1].current.None? ==> AllTerminal(ks[i + 1].tasks)
  {
    hide Inv, Next;
    BootRunInv(ks, es, i);
    NoDeadlock(ks[i]);
    if i + 1 < |ks| && ks[i].current.Some? {
      MainRegainsControl(ks[i], es[i], ks[i + 1]);
    }
  }
}
